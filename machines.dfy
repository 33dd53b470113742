/** Day 10 (2025/10/main.rs): factory machines, one per line, each with a target
    pattern of indicator lights, buttons wired to some of the lights, and joltage
    requirements. Both parts hand an integer program to a solver: one variable per
    button (how often it is pressed) and one constraint per light, which sums the
    buttons wired to that light. Part 1 asks that sum to have the parity of the
    light's target state; part 2 asks it to equal the light's joltage. */
module Machines {
  import opened Text

  /** The size of `usize`, taken as 64 bits. */
  const USIZE_MAX: nat := U64_MAX

  // ------------------------------------------------------------ the lights

  datatype IndicatorState = On | Off

  /** `i32::from(&IndicatorState)`: the state as the right-hand side of a parity
      constraint. */
  function Bit(state: IndicatorState): (b: int)
    ensures 0 <= b <= 1
  {
    match state
    case Off => 0
    case On => 1
  }

  /** A light that starts off and is toggled `n` times ends in `state` exactly when
      `n` has the parity `Bit(state)`: what makes a parity constraint the right one. */
  lemma BitIsParity(n: nat, state: IndicatorState)
    ensures (if n % 2 == 1 then On else Off) == state <==> n % 2 == Bit(state)
  {
  }

  // ----------------------------------------------------- the target pattern

  /** The characters `take_while(|c| c != ']')` keeps. */
  function UntilClose(s: string): (r: string)
    ensures |r| <= |s| && r == s[..|r|] && ']' !in r
    ensures |r| == |s| || s[|r|] == ']'
  {
    if s == [] || s[0] == ']' then [] else [s[0]] + UntilClose(s[1..])
  }

  /** The characters the pattern may hold before its closing ']'. */
  predicate PatternChar(c: char) {
    c == '[' || c == '.' || c == '#'
  }

  /** The `filter_map` over those characters: '[' is dropped, '.' is Off, '#' is On,
      and any other character panics (None). */
  function Lights(s: string): (r: Option<seq<IndicatorState>>)
  {
    if s == [] then Some([])
    else
      var rest := Lights(s[1..]);
      if s[0] == '[' then rest
      else if (s[0] == '.' || s[0] == '#') && rest.Some? then
        Some([if s[0] == '#' then On else Off] + rest.value)
      else None
  }

  /** The lights are read exactly when every character is a pattern character. */
  lemma {:induction false} LightsDefined(s: string)
    ensures Lights(s).Some? <==> forall k :: 0 <= k < |s| ==> PatternChar(s[k])
  {
    if s != [] {
      LightsDefined(s[1..]);
      assert forall k :: 1 <= k < |s| ==> s[k] == s[1..][k - 1];
    }
  }

  /** The target pattern: the first token up to its first ']', read as lights. */
  function ParseTarget(token: string): Option<seq<IndicatorState>> {
    Lights(UntilClose(token))
  }

  /** How the puzzle writes one light. */
  function LightChar(state: IndicatorState): char {
    if state == On then '#' else '.'
  }

  function LightChars(lights: seq<IndicatorState>): (s: string)
    ensures |s| == |lights|
    ensures forall k :: 0 <= k < |s| ==> s[k] == LightChar(lights[k])
  {
    if lights == [] then [] else [LightChar(lights[0])] + LightChars(lights[1..])
  }

  lemma {:induction false} LightsOfChars(lights: seq<IndicatorState>)
    ensures Lights(LightChars(lights)) == Some(lights)
  {
    if lights != [] {
      var s := LightChars(lights);
      LightsOfChars(lights[1..]);
      assert s[1..] == LightChars(lights[1..]);
      assert [lights[0]] + lights[1..] == lights;
    }
  }

  /** A closing ']' ends the pattern, and nothing after it is looked at. */
  lemma {:induction false} UntilCloseStops(s: string, tail: string)
    requires ']' !in s
    ensures UntilClose(s + "]" + tail) == s
  {
    if s != [] {
      assert (s + "]" + tail)[1..] == s[1..] + "]" + tail;
      UntilCloseStops(s[1..], tail);
      assert [s[0]] + s[1..] == s;
    }
  }

  /** Round trip: the pattern as the puzzle writes it, with anything after the
      closing bracket, reads back as the lights. */
  lemma ParseTargetText(lights: seq<IndicatorState>, tail: string)
    ensures ParseTarget("[" + LightChars(lights) + "]" + tail) == Some(lights)
  {
    var s := LightChars(lights);
    assert ']' !in "[" + s;
    UntilCloseStops("[" + s, tail);
    assert ("[" + s)[1..] == s;
    LightsOfChars(lights);
  }

  // -------------------------------------------------- buttons and joltages

  /** `&s[1..s.len() - 1]`: the token without its first and last characters; None
      where that slice panics (a token of fewer than two characters). */
  function Inner(s: string): (r: Option<string>)
    ensures r.Some? <==> |s| >= 2
    ensures r.Some? ==> s == [s[0]] + r.value + [s[|s| - 1]]
  {
    if |s| < 2 then None else Some(s[1..|s| - 1])
  }

  /** `parse::<u32>()` of one joltage. */
  function ParseJoltage(s: string): Option<nat> {
    ParseUnsigned(s, U32_MAX)
  }

  /** `parse::<usize>()` of one light index in a button's wiring. */
  function ParseWire(s: string): Option<nat> {
    ParseUnsigned(s, USIZE_MAX)
  }

  /** A token with its enclosing characters stripped, split on ',', each piece
      parsed; None when the token is too short or a piece does not parse. */
  function ParseList(token: string, parse: string -> Option<nat>): (r: Option<seq<nat>>)
    ensures |token| < 2 ==> r == None
  {
    var inner := Inner(token);
    if inner.None? then None else ParseAll(Split(inner.value, ','), parse)
  }

  /** The numbers as the puzzle writes them: decimal, separated by ',', between
      `open` and `close`. */
  function ListText(values: seq<nat>, open: char, close: char): string {
    [open] + Join(Decimals(values), ',') + [close]
  }

  function Decimals(values: seq<nat>): (ds: seq<string>)
    ensures |ds| == |values|
    ensures forall k :: 0 <= k < |ds| ==> ds[k] == ToDecimal(values[k])
  {
    if values == [] then [] else [ToDecimal(values[0])] + Decimals(values[1..])
  }

  /** Round trip for a list: any non-empty list of numbers within the parsed type,
      written between any two characters, reads back. */
  lemma ParseListText(values: seq<nat>, open: char, close: char, max: nat, parse: string -> Option<nat>)
    requires values != [] && forall k :: 0 <= k < |values| ==> values[k] <= max
    requires forall s :: parse(s) == ParseUnsigned(s, max)
    ensures ParseList(ListText(values, open, close), parse) == Some(values)
  {
    var ds := Decimals(values);
    var text := ListText(values, open, close);
    assert Inner(text) == Some(Join(ds, ','));
    forall k | 0 <= k < |ds| ensures ',' !in ds[k] && parse(ds[k]) == Some(values[k]) {
      DecimalsHaveDigits(values[k]);
      ParseToDecimal(values[k], max);
    }
    JoinSplit(ds, ',');
    ParseAllAgrees(ds, parse, values);
  }

  /** Decimal text is digits only. */
  lemma DecimalsHaveDigits(n: nat)
    ensures ToDecimal(n) != [] && forall k :: 0 <= k < |ToDecimal(n)| ==> IsDigit(ToDecimal(n)[k])
  {
    ToDecimalValue(n);
  }

  // ------------------------------------------------------------ one machine

  /** `Machine`: its position among the lines, the target pattern, each button's
      list of light indices, and the joltages. */
  datatype Machine = Machine(number: nat, target: seq<IndicatorState>, buttons: seq<seq<nat>>, joltages: seq<nat>)

  /** `Machine::parse`: the whitespace-separated tokens; the first is the target
      pattern, the last the joltages between braces, and those in between the
      buttons between parentheses. Fewer than two tokens, or a piece that does not
      parse, gives None (the source panics). */
  function ParseMachine(line: string, number: nat): (m: Option<Machine>)
    ensures |SplitWhitespace(line)| < 2 ==> m == None
    ensures m.Some? ==> m.value.number == number && |m.value.buttons| == |SplitWhitespace(line)| - 2
  {
    var tokens := SplitWhitespace(line);
    if |tokens| < 2 then None
    else
      var target := ParseTarget(tokens[0]);
      var joltages := ParseList(tokens[|tokens| - 1], ParseJoltage);
      var buttons := ParseAll(tokens[1..|tokens| - 1], ParseButton);
      if target.Some? && joltages.Some? && buttons.Some? then
        Some(Machine(number, target.value, buttons.value, joltages.value))
      else None
  }

  /** One button's wiring. */
  function ParseButton(token: string): Option<seq<nat>> {
    ParseList(token, ParseWire)
  }

  /** A machine as the puzzle writes it: pattern, buttons and joltages separated
      by single spaces. */
  function MachineText(m: Machine): string {
    Join(MachineWords(m), ' ')
  }

  function MachineWords(m: Machine): (ws: seq<string>)
    ensures |ws| == |m.buttons| + 2
  {
    ["[" + LightChars(m.target) + "]"] + ButtonWords(m.buttons) + [ListText(m.joltages, '{', '}')]
  }

  function ButtonWords(buttons: seq<seq<nat>>): (ws: seq<string>)
    ensures |ws| == |buttons|
    ensures forall k :: 0 <= k < |ws| ==> ws[k] == ListText(buttons[k], '(', ')')
  {
    if buttons == [] then [] else [ListText(buttons[0], '(', ')')] + ButtonWords(buttons[1..])
  }

  /** What the puzzle's input can hold: at least one joltage and at least one light
      per button, each in range of its type. */
  predicate Writable(m: Machine) {
    m.joltages != [] && (forall k :: 0 <= k < |m.joltages| ==> m.joltages[k] <= U32_MAX)
    && forall b :: 0 <= b < |m.buttons| ==> m.buttons[b] != [] && forall k :: 0 <= k < |m.buttons[b]| ==> m.buttons[b][k] <= USIZE_MAX
  }

  /** A list's text has no whitespace and is not empty. */
  lemma ListTextWord(values: seq<nat>, open: char, close: char)
    requires !IsWhitespace(open) && !IsWhitespace(close)
    ensures ListText(values, open, close) != [] && NoSeparator(ListText(values, open, close), IsWhitespace)
  {
    var ds := Decimals(values);
    forall k | 0 <= k < |ds| ensures NoSeparator(ds[k], IsWhitespace) {
      DecimalsHaveDigits(values[k]);
    }
    JoinNoSeparator(ds, ',');
  }

  /** Joined pieces without whitespace, with a separator that is not whitespace,
      have none either. */
  lemma {:induction false} JoinNoSeparator(pieces: seq<string>, sep: char)
    requires !IsWhitespace(sep) && forall k :: 0 <= k < |pieces| ==> NoSeparator(pieces[k], IsWhitespace)
    ensures NoSeparator(Join(pieces, sep), IsWhitespace)
    decreases |pieces|
  {
    if |pieces| > 1 {
      JoinNoSeparator(pieces[1..], sep);
      var j := Join(pieces[1..], sep);
      assert Join(pieces, sep) == pieces[0] + [sep] + j;
    }
  }

  /** The machine's words are the tokens of its text. */
  lemma MachineTokens(m: Machine)
    ensures SplitWhitespace(MachineText(m)) == MachineWords(m)
  {
    var ws := MachineWords(m);
    forall k | 0 <= k < |ws| ensures ws[k] != [] && NoSeparator(ws[k], IsWhitespace) {
      if k == 0 {
        var s := LightChars(m.target);
        assert ws[0] == "[" + s + "]";
      } else if k == |ws| - 1 {
        ListTextWord(m.joltages, '{', '}');
      } else {
        assert ws[k] == ButtonWords(m.buttons)[k - 1];
        ListTextWord(m.buttons[k - 1], '(', ')');
      }
    }
    TokensJoin(ws, ' ', IsWhitespace);
  }

  /** Round trip: a machine written as the puzzle writes it reads back. */
  lemma ParseMachineText(m: Machine)
    requires Writable(m)
    ensures ParseMachine(MachineText(m), m.number) == Some(m)
  {
    var ws := MachineWords(m);
    MachineTokens(m);
    ParseTargetText(m.target, []);
    assert ws[0] == "[" + LightChars(m.target) + "]" + [];
    ParseListText(m.joltages, '{', '}', U32_MAX, ParseJoltage);
    var middle := ws[1..|ws| - 1];
    assert middle == ButtonWords(m.buttons);
    forall k | 0 <= k < |middle| ensures ParseButton(middle[k]) == Some(m.buttons[k]) {
      ParseListText(m.buttons[k], '(', ')', USIZE_MAX, ParseWire);
    }
    ParseAllAgrees(middle, ParseButton, m.buttons);
  }

  // ------------------------------------------------------------- all machines

  /** `parse_machines`: the non-empty lines, trimmed, each parsed as a machine
      numbered by its position among them; None when a line does not parse. */
  function ParseMachines(input: string): (r: Option<seq<Machine>>)
    ensures r.Some? ==> |r.value| == |TrimNonEmpty(Split(input, '\n'))|
    ensures r.Some? ==> forall k :: 0 <= k < |r.value| ==> r.value[k].number == k
  {
    var lines := TrimNonEmpty(Split(input, '\n'));
    ParseNumberedMeaning(lines, ParseMachine);
    ParseNumbered(lines, ParseMachine)
  }

  // ------------------------------------------------------------ constraints

  /** The buttons wired to light `i`, in button order. */
  function Toggling(buttons: seq<seq<nat>>, i: nat): (bs: seq<nat>)
    ensures forall k :: 0 <= k < |bs| ==> bs[k] < |buttons|
  {
    if buttons == [] then []
    else
      var last := |buttons| - 1;
      Toggling(buttons[..last], i) + (if i in buttons[last] then [last] else [])
  }

  /** A button is among them exactly when its wiring holds `i`, and each appears
      once, in increasing order. */
  lemma {:induction false} TogglingMeaning(buttons: seq<seq<nat>>, i: nat)
    ensures forall b :: b in Toggling(buttons, i) <==> 0 <= b < |buttons| && i in buttons[b]
    ensures forall p, q :: 0 <= p < q < |Toggling(buttons, i)| ==> Toggling(buttons, i)[p] < Toggling(buttons, i)[q]
  {
    if buttons != [] {
      var last := |buttons| - 1;
      TogglingMeaning(buttons[..last], i);
      assert forall b :: 0 <= b < last ==> buttons[..last][b] == buttons[b];
    }
  }

  /** One constraint of the integer program: the button variables it sums, whether
      it carries the extra `2 * k` variable that makes it a parity condition, and
      its right-hand side. */
  datatype Constraint = Constraint(terms: seq<nat>, parity: bool, rhs: int)

  /** The constraint part 1 builds for light `i`. */
  function EnableConstraint(m: Machine, i: nat): Constraint
    requires i < |m.target|
  {
    Constraint(Toggling(m.buttons, i), true, Bit(m.target[i]))
  }

  /** The constraint part 2 builds for light `i`. */
  function PowerConstraint(m: Machine, i: nat): Constraint
    requires i < |m.joltages|
  {
    Constraint(Toggling(m.buttons, i), false, m.joltages[i])
  }

  /** The loops of `minimum_button_presses_to_enable`: for each light of the
      target, the buttons wired to it, the parity variable, and the light's bit. */
  method EnableConstraints(m: Machine) returns (constraints: seq<Constraint>)
    ensures |constraints| == |m.target|
    ensures forall i :: 0 <= i < |constraints| ==> constraints[i] == EnableConstraint(m, i)
  {
    constraints := [];
    for i := 0 to |m.target|
      invariant |constraints| == i
      invariant forall p :: 0 <= p < i ==> constraints[p] == EnableConstraint(m, p)
    {
      var terms := [];
      for b := 0 to |m.buttons|
        invariant terms == Toggling(m.buttons[..b], i)
      {
        assert m.buttons[..b + 1][..b] == m.buttons[..b];
        if i in m.buttons[b] {
          terms := terms + [b];
        }
      }
      assert m.buttons[..|m.buttons|] == m.buttons;
      constraints := constraints + [Constraint(terms, true, Bit(m.target[i]))];
    }
  }

  /** The loops of `minimum_button_presses_to_power`: for each joltage, the buttons
      wired to its light and the joltage itself. */
  method PowerConstraints(m: Machine) returns (constraints: seq<Constraint>)
    ensures |constraints| == |m.joltages|
    ensures forall i :: 0 <= i < |constraints| ==> constraints[i] == PowerConstraint(m, i)
  {
    constraints := [];
    for i := 0 to |m.joltages|
      invariant |constraints| == i
      invariant forall p :: 0 <= p < i ==> constraints[p] == PowerConstraint(m, p)
    {
      var terms := [];
      for b := 0 to |m.buttons|
        invariant terms == Toggling(m.buttons[..b], i)
      {
        assert m.buttons[..b + 1][..b] == m.buttons[..b];
        if i in m.buttons[b] {
          terms := terms + [b];
        }
      }
      assert m.buttons[..|m.buttons|] == m.buttons;
      constraints := constraints + [Constraint(terms, false, m.joltages[i])];
    }
  }

  // -------------------------------------------------------- what they mean

  /** The value of a sum of button variables, given how often each is pressed. */
  function Pressed(terms: seq<nat>, presses: seq<nat>): nat
    requires forall k :: 0 <= k < |terms| ==> terms[k] < |presses|
  {
    if terms == [] then 0
    else Pressed(terms[..|terms| - 1], presses) + presses[terms[|terms| - 1]]
  }

  /** How often light `i` is toggled, or its counter increased, when button `b`
      is pressed `presses[b]` times: the puzzle's own reading of a press. */
  function Toggles(buttons: seq<seq<nat>>, presses: seq<nat>, i: nat): nat
    requires |presses| == |buttons|
  {
    if buttons == [] then 0
    else
      var last := |buttons| - 1;
      Toggles(buttons[..last], presses[..last], i) + (if i in buttons[last] then presses[last] else 0)
  }

  /** The constraint's sum counts exactly the presses that reach the light. */
  lemma {:induction false} PressedToggling(buttons: seq<seq<nat>>, presses: seq<nat>, i: nat)
    requires |presses| == |buttons|
    ensures Pressed(Toggling(buttons, i), presses) == Toggles(buttons, presses, i)
  {
    if buttons != [] {
      var last := |buttons| - 1;
      PressedToggling(buttons[..last], presses[..last], i);
      PressedPrefix(Toggling(buttons[..last], i), presses[..last], presses);
      var init := Toggling(buttons[..last], i);
      if i in buttons[last] {
        assert (init + [last])[..|init|] == init;
      } else {
        assert init + [] == init;
      }
    }
  }

  /** Pressing more buttons after the ones a sum names does not change it. */
  lemma {:induction false} PressedPrefix(terms: seq<nat>, presses: seq<nat>, more: seq<nat>)
    requires forall k :: 0 <= k < |terms| ==> terms[k] < |presses|
    requires |presses| <= |more| && more[..|presses|] == presses
    ensures Pressed(terms, presses) == Pressed(terms, more)
  {
    if terms != [] {
      PressedPrefix(terms[..|terms| - 1], presses, more);
      assert more[terms[|terms| - 1]] == presses[terms[|terms| - 1]];
    }
  }

  /** A button plan meets a constraint: the sum equals the right-hand side, or
      with the parity variable, differs from it by an even amount. */
  predicate Holds(c: Constraint, presses: seq<nat>)
    requires forall k :: 0 <= k < |c.terms| ==> c.terms[k] < |presses|
  {
    if c.parity then (Pressed(c.terms, presses) - c.rhs) % 2 == 0
    else Pressed(c.terms, presses) == c.rhs
  }

  /** The parity form is the source's `sum + 2 * k == rhs` for some integer `k`:
      any such `k` makes the difference even, and an even difference gives one. */
  lemma ParityVariable(sum: int, rhs: int, k: int)
    ensures sum + 2 * k == rhs ==> (sum - rhs) % 2 == 0
    ensures (sum - rhs) % 2 == 0 ==> sum + 2 * ((rhs - sum) / 2) == rhs
  {
  }

  /** Part 1's goal: pressing the buttons so, starting from all lights off, leaves
      every light of the target in its target state. */
  predicate Enables(m: Machine, presses: seq<nat>) {
    |presses| == |m.buttons|
    && forall i :: 0 <= i < |m.target| ==> Toggles(m.buttons, presses, i) % 2 == Bit(m.target[i])
  }

  /** Part 2's goal: every counter reaches its joltage. */
  predicate Powers(m: Machine, presses: seq<nat>) {
    |presses| == |m.buttons|
    && forall i :: 0 <= i < |m.joltages| ==> Toggles(m.buttons, presses, i) == m.joltages[i]
  }

  /** The part 1 constraints hold exactly for the plans that enable the machine. */
  lemma EnableConstraintsMeaning(m: Machine, presses: seq<nat>)
    requires |presses| == |m.buttons|
    ensures (forall i :: 0 <= i < |m.target| ==> Holds(EnableConstraint(m, i), presses)) <==> Enables(m, presses)
  {
    forall i | 0 <= i < |m.target|
      ensures Holds(EnableConstraint(m, i), presses) <==> Toggles(m.buttons, presses, i) % 2 == Bit(m.target[i])
    {
      PressedToggling(m.buttons, presses, i);
    }
  }

  /** The part 2 constraints hold exactly for the plans that power the machine. */
  lemma PowerConstraintsMeaning(m: Machine, presses: seq<nat>)
    requires |presses| == |m.buttons|
    ensures (forall i :: 0 <= i < |m.joltages| ==> Holds(PowerConstraint(m, i), presses)) <==> Powers(m, presses)
  {
    forall i | 0 <= i < |m.joltages|
      ensures Holds(PowerConstraint(m, i), presses) <==> Toggles(m.buttons, presses, i) == m.joltages[i]
    {
      PressedToggling(m.buttons, presses, i);
    }
  }

  /** The total number of presses: the objective both parts minimise. */
  function Total(presses: seq<nat>): nat {
    if presses == [] then 0 else Total(presses[..|presses| - 1]) + presses[|presses| - 1]
  }

  /** What the solver is asked for in part 1: the fewest presses that enable the
      machine. */
  ghost predicate FewestToEnable(m: Machine, n: nat) {
    (exists presses :: Enables(m, presses) && Total(presses) == n)
    && forall presses :: Enables(m, presses) ==> n <= Total(presses)
  }

  /** And in part 2: the fewest presses that power it. */
  ghost predicate FewestToPower(m: Machine, n: nat) {
    (exists presses :: Powers(m, presses) && Total(presses) == n)
    && forall presses :: Powers(m, presses) ==> n <= Total(presses)
  }
}
