/** Day 3 (2025/3/main.rs): each line is a bank of battery cells, one digit per
    cell. Turning on `k` cells, in bank order, shows the number their digits spell;
    the answer is the sum over banks of the largest number that can be shown. The
    source picks the digits greedily: the leftmost maximum of a window that leaves
    room for the picks still to come. */
module Joltage {
  import opened Text

  /** `get_max_digit`: the leftmost maximal character of `s` and the index just
      after it; None for an empty string. (The source scans the reversed string
      with `max_by_key`, which keeps the last of equal maxima, that is, the
      leftmost one of the original order.) */
  function MaxDigit(s: string): (r: Option<(nat, char)>)
    ensures r.Some? <==> s != []
    ensures r.Some? ==> 1 <= r.value.0 <= |s| && s[r.value.0 - 1] == r.value.1
    ensures r.Some? ==> forall j :: 0 <= j < |s| ==> s[j] <= r.value.1
    ensures r.Some? ==> forall j :: 0 <= j < r.value.0 - 1 ==> s[j] < r.value.1
  {
    if s == [] then None
    else if |s| == 1 then Some((1, s[0]))
    else
      var best := MaxDigit(s[..|s| - 1]).value;
      if s[|s| - 1] > best.1 then Some((|s|, s[|s| - 1])) else Some(best)
  }

  /** The digits the source picks: the leftmost maximum of the window that leaves
      `k - 1` cells after it, then the same on what follows the pick. */
  function Greedy(s: string, k: nat): (g: string)
    requires k <= |s|
    ensures |g| == k
    decreases k
  {
    if k == 0 then []
    else
      var pick := MaxDigit(s[..|s| - (k - 1)]).value;
      [pick.1] + Greedy(s[pick.0..], k - 1)
  }

  // ---------------------------------------------------------- subsequences

  /** `t` can be obtained from `s` by deleting characters. */
  predicate SubsequenceOf(t: string, s: string)
    decreases |s|
  {
    if t == [] then true
    else if s == [] then false
    else (t[0] == s[0] && SubsequenceOf(t[1..], s[1..])) || SubsequenceOf(t, s[1..])
  }

  lemma {:induction false} SubsequenceLength(t: string, s: string)
    requires SubsequenceOf(t, s)
    ensures |t| <= |s|
    decreases |s|
  {
    if t != [] {
      if t[0] == s[0] && SubsequenceOf(t[1..], s[1..]) {
        SubsequenceLength(t[1..], s[1..]);
      } else {
        SubsequenceLength(t, s[1..]);
      }
    }
  }

  /** The first character of a subsequence comes from some position `p`, and the
      rest is a subsequence of what follows `p`. */
  lemma {:induction false} SubsequenceFirst(t: string, s: string) returns (p: nat)
    requires t != [] && SubsequenceOf(t, s)
    ensures p < |s| && s[p] == t[0] && SubsequenceOf(t[1..], s[p + 1..])
    decreases |s|
  {
    if t[0] == s[0] && SubsequenceOf(t[1..], s[1..]) {
      p := 0;
    } else {
      var p' := SubsequenceFirst(t, s[1..]);
      p := p' + 1;
      assert s[1..][p' + 1..] == s[p + 1..];
    }
  }

  /** A subsequence of a suffix is a subsequence of any longer suffix. */
  lemma {:induction false} SubsequenceOfLongerSuffix(t: string, s: string, i: nat, q: nat)
    requires i <= q <= |s| && SubsequenceOf(t, s[q..])
    ensures SubsequenceOf(t, s[i..])
    decreases q - i
  {
    if i < q {
      SubsequenceOfLongerSuffix(t, s, i + 1, q);
      if t != [] {
        assert s[i..][1..] == s[i + 1..];
      }
    }
  }

  /** The greedy picks are a subsequence of the bank. */
  lemma {:induction false} GreedyIsSubsequence(s: string, k: nat)
    requires k <= |s|
    ensures SubsequenceOf(Greedy(s, k), s)
    decreases k
  {
    if k > 0 {
      var pick := MaxDigit(s[..|s| - (k - 1)]).value;
      var g := Greedy(s, k);
      GreedyIsSubsequence(s[pick.0..], k - 1);
      assert g[0] == s[pick.0 - 1] && g[1..] == Greedy(s[pick.0..], k - 1);
      PrependPicked(g, s, pick.0 - 1);
    }
  }

  /** Matching the first character at position `p` and the rest after it. */
  lemma {:induction false} PrependPicked(t: string, s: string, p: nat)
    requires t != [] && p < |s| && s[p] == t[0] && SubsequenceOf(t[1..], s[p + 1..])
    ensures SubsequenceOf(t, s)
    decreases p
  {
    if p > 0 {
      assert s[1..][p - 1] == s[p] && s[1..][p..] == s[p + 1..];
      PrependPicked(t, s[1..], p - 1);
    }
  }

  // --------------------------------------------------------------- maximality

  /** Lexicographic order on strings of the same length. */
  predicate LexLe(a: string, b: string)
    requires |a| == |b|
  {
    a == [] || a[0] < b[0] || (a[0] == b[0] && LexLe(a[1..], b[1..]))
  }

  /** No ordered choice of `k` cells spells a lexicographically larger string than
      the greedy picks. */
  lemma {:induction false} GreedyIsLexMaximal(s: string, k: nat, t: string)
    requires k <= |s| && |t| == k && SubsequenceOf(t, s)
    ensures LexLe(t, Greedy(s, k))
    decreases k
  {
    if k > 0 {
      var pick := MaxDigit(s[..|s| - (k - 1)]).value;
      GreedyUnfold(s, k);
      FirstPick(s, k, t);
      if t[0] == pick.1 {
        GreedyIsLexMaximal(s[pick.0..], k - 1, t[1..]);
      }
      LexLeFirst(t, Greedy(s, k), Greedy(s[pick.0..], k - 1));
    }
  }

  /** The first cell of any choice of `k` cells is at most the greedy's first pick,
      and when it equals it, the other cells can be chosen after that pick. */
  lemma FirstPick(s: string, k: nat, t: string)
    requires 0 < k <= |s| && |t| == k && SubsequenceOf(t, s)
    ensures var pick := MaxDigit(s[..|s| - (k - 1)]).value;
      t[0] <= pick.1 && (t[0] == pick.1 ==> SubsequenceOf(t[1..], s[pick.0..]))
  {
    var w := s[..|s| - (k - 1)];
    var pick := MaxDigit(w).value;
    var p := SubsequenceFirst(t, s);
    SubsequenceLength(t[1..], s[p + 1..]);
    assert p < |w| && w[p] == t[0];
    if t[0] == pick.1 {
      assert p >= pick.0 - 1;
      SubsequenceOfLongerSuffix(t[1..], s, pick.0, p + 1);
    }
  }

  /** Comparing the first characters, then the rest. */
  lemma LexLeFirst(a: string, b: string, rest: string)
    requires |a| == |b| && a != [] && b[1..] == rest
    requires a[0] < b[0] || (a[0] == b[0] && LexLe(a[1..], rest))
    ensures LexLe(a, b)
  {
  }

  /** The first pick of `Greedy`, then the picks after it. */
  lemma GreedyUnfold(s: string, k: nat)
    requires 0 < k <= |s|
    ensures var pick := MaxDigit(s[..|s| - (k - 1)]).value;
      Greedy(s, k)[0] == pick.1 && Greedy(s, k)[1..] == Greedy(s[pick.0..], k - 1)
  {
  }

  lemma {:induction false} DecimalValueBound(s: string)
    requires AllDigits(s)
    ensures DecimalValue(s) < Pow10(|s|)
  {
    if s != [] {
      DecimalValueBound(s[..|s| - 1]);
    }
  }

  /** For digit strings of one length, the lexicographic order is the numeric order. */
  lemma {:induction false} LexLeValue(a: string, b: string)
    requires |a| == |b| && AllDigits(a) && AllDigits(b) && LexLe(a, b)
    ensures DecimalValue(a) <= DecimalValue(b)
  {
    if a != [] {
      var n := |a| - 1;
      assert a == [a[0]] + a[1..] && b == [b[0]] + b[1..];
      DecimalValueAppend([a[0]], a[1..]);
      DecimalValueAppend([b[0]], b[1..]);
      assert DecimalValue([a[0]]) == DigitValue(a[0]) by { assert [a[0]][..0] == []; }
      assert DecimalValue([b[0]]) == DigitValue(b[0]) by { assert [b[0]][..0] == []; }
      if a[0] < b[0] {
        DecimalValueBound(a[1..]);
        LeadingDigitDominates(DigitValue(a[0]), DigitValue(b[0]), Pow10(n), DecimalValue(a[1..]), DecimalValue(b[1..]));
      } else {
        LexLeValue(a[1..], b[1..]);
      }
    }
  }

  /** A smaller leading digit makes a smaller number, whatever follows. */
  lemma LeadingDigitDominates(x: nat, y: nat, p: nat, r: nat, r': nat)
    requires x < y && r < p
    ensures x * p + r < y * p + r'
  {
    assert y * p == (x + 1) * p + (y - x - 1) * p;
    assert (x + 1) * p == x * p + p;
  }

  /** The digits of a bank of digits are digits. */
  lemma {:induction false} SubsequenceOfDigits(t: string, s: string)
    requires SubsequenceOf(t, s) && AllDigits(s)
    ensures AllDigits(t)
    decreases |s|
  {
    if t != [] {
      var p := SubsequenceFirst(t, s);
      SubsequenceOfDigits(t[1..], s[p + 1..]);
      assert forall i :: 1 <= i < |t| ==> t[i] == t[1..][i - 1];
    }
  }

  /** The purpose of the greedy picks: among all ordered choices of `k` cells of a
      bank of digits, none shows a larger number. */
  lemma GreedyIsMaximal(bank: string, k: nat, t: string)
    requires k <= |bank| && AllDigits(bank) && |t| == k && SubsequenceOf(t, bank)
    ensures AllDigits(Greedy(bank, k)) && AllDigits(t)
    ensures DecimalValue(t) <= DecimalValue(Greedy(bank, k))
  {
    GreedyIsSubsequence(bank, k);
    SubsequenceOfDigits(Greedy(bank, k), bank);
    SubsequenceOfDigits(t, bank);
    GreedyIsLexMaximal(bank, k, t);
    LexLeValue(t, Greedy(bank, k));
  }

  // ------------------------------------------------------------------ banks

  /** The joltage of a bank: the greedy picks read as a `u64`. None where the
      source panics: a bank with fewer cells than picks (the first `expect`), or a
      final `parse::<u64>()` that fails (no cell picked, a non-digit, or a value
      above `u64::MAX`). */
  function BankJoltage(bank: string, k: nat): Option<nat> {
    if k > |bank| then None else ParseUnsigned(Greedy(bank, k), U64_MAX)
  }

  /** A bank of digits with 1 to 19 cells picked always has a joltage, and it is
      the greedy number. */
  lemma BankJoltageDefined(bank: string, k: nat)
    requires 1 <= k <= 19 && k <= |bank| && AllDigits(bank)
    ensures AllDigits(Greedy(bank, k)) && BankJoltage(bank, k) == Some(DecimalValue(Greedy(bank, k)))
  {
    var g := Greedy(bank, k);
    GreedyIsSubsequence(bank, k);
    SubsequenceOfDigits(g, bank);
    DecimalValueBound(g);
    Pow10Monotone(k, 19);
    Pow10Nineteen();
    assert g[0] != '+' by { assert IsDigit(g[0]); }
  }

  lemma Pow10Nineteen()
    ensures Pow10(19) == 10000000000000000000
  {
    assert Pow10(2) == 100;
    assert Pow10(4) == 10000;
    assert Pow10(6) == 1000000;
    assert Pow10(8) == 100000000;
    assert Pow10(10) == 10000000000;
    assert Pow10(12) == 1000000000000;
    assert Pow10(14) == 100000000000000;
    assert Pow10(16) == 10000000000000000;
    assert Pow10(18) == 1000000000000000000;
  }

  lemma {:induction false} Pow10Monotone(m: nat, n: nat)
    requires m <= n
    ensures Pow10(m) <= Pow10(n)
    decreases n
  {
    if m < n {
      Pow10Monotone(m, n - 1);
    }
  }

  /** `get_max_bank_joltage`: for each pick, the leftmost maximum of the window that
      reserves a cell for every later pick; the rest of the bank starts after it.
      A bank with fewer than `num_cells` cells makes the first window empty (the
      `expect` panics) or its length negative (the subtraction panics): None. */
  method MaxBankJoltage(bank: string, numCells: nat) returns (joltage: Option<nat>)
    requires numCells < 256
    ensures joltage == BankJoltage(bank, numCells)
  {
    if |bank| < numCells {
      return None;
    }
    var buf: string := [];
    var slice := bank;
    var remaining: nat := numCells;
    while remaining > 0
      invariant remaining <= |slice|
      invariant buf + Greedy(slice, remaining) == Greedy(bank, numCells)
    {
      var reservedCells: nat := remaining - 1;
      var result := MaxDigit(slice[..|slice| - reservedCells]);
      var pick := result.value;
      GreedyStep(buf, slice, remaining, pick, Greedy(bank, numCells));
      slice := slice[pick.0..];
      buf := buf + [pick.1];
      remaining := reservedCells;
    }
    assert buf == Greedy(bank, numCells);
    joltage := ParseUnsigned(buf, U64_MAX);
  }

  /** One pick of `get_max_bank_joltage` moves one greedy digit into the buffer. */
  lemma GreedyStep(buf: string, slice: string, remaining: nat, pick: (nat, char), g: string)
    requires 0 < remaining <= |slice| && pick == MaxDigit(slice[..|slice| - (remaining - 1)]).value
    requires buf + Greedy(slice, remaining) == g
    ensures remaining - 1 <= |slice[pick.0..]| && (buf + [pick.1]) + Greedy(slice[pick.0..], remaining - 1) == g
  {
  }

  /** The banks of the input: lines trimmed, empty ones dropped. */
  function Banks(input: string): seq<string> {
    TrimDropEmpty(Split(input, '\n'))
  }

  /** The joltage of each bank, in order. */
  function Joltages(banks: seq<string>, k: nat): (js: seq<Option<nat>>)
    ensures |js| == |banks|
  {
    if banks == [] then [] else Joltages(banks[..|banks| - 1], k) + [BankJoltage(banks[|banks| - 1], k)]
  }

  lemma {:induction false} JoltagesAt(banks: seq<string>, k: nat, j: nat)
    requires j < |banks|
    ensures Joltages(banks, k)[j] == BankJoltage(banks[j], k)
  {
    var init := banks[..|banks| - 1];
    if j < |init| {
      JoltagesAt(init, k, j);
    }
  }

  /** The sum of some optional values; None as soon as one of them is None. */
  function SumAll(js: seq<Option<nat>>): Option<nat> {
    if js == [] then Some(0)
    else
      var init, last := SumAll(js[..|js| - 1]), js[|js| - 1];
      if init.Some? && last.Some? then Some(init.value + last.value) else None
  }

  lemma SumAllStep(js: seq<Option<nat>>, i: nat)
    requires i < |js|
    ensures SumAll(js[..i + 1])
         == if SumAll(js[..i]).Some? && js[i].Some? then Some(SumAll(js[..i]).value + js[i].value) else None
  {
    assert js[..i + 1][..i] == js[..i];
  }

  /** One more bank adds its joltage to the total of those before it. */
  lemma TotalJoltageNext(banks: seq<string>, k: nat, i: nat, sum: Option<nat>, joltage: Option<nat>, next: Option<nat>)
    requires i < |banks| && sum == TotalJoltage(banks[..i], k) && joltage == BankJoltage(banks[i], k)
    requires next == if sum.Some? && joltage.Some? then Some(sum.value + joltage.value) else None
    ensures next == TotalJoltage(banks[..i + 1], k)
  {
    JoltagesSnoc(banks, k, i, joltage);
    SumAllNext(Joltages(banks[..i], k), Joltages(banks[..i + 1], k), sum, joltage, next);
  }

  lemma JoltagesSnoc(banks: seq<string>, k: nat, i: nat, joltage: Option<nat>)
    requires i < |banks| && joltage == BankJoltage(banks[i], k)
    ensures Joltages(banks[..i + 1], k) == Joltages(banks[..i], k) + [joltage]
  {
    assert banks[..i + 1][..i] == banks[..i];
  }

  lemma SumAllNext(before: seq<Option<nat>>, after: seq<Option<nat>>, sum: Option<nat>, j: Option<nat>, next: Option<nat>)
    requires after == before + [j] && sum == SumAll(before)
    requires next == if sum.Some? && j.Some? then Some(sum.value + j.value) else None
    ensures next == SumAll(after)
  {
    assert after[..|before|] == before;
  }

  /** The sum is defined exactly when every value is. */
  lemma {:induction false} SumAllDefined(js: seq<Option<nat>>)
    ensures SumAll(js).Some? <==> forall j :: 0 <= j < |js| ==> js[j].Some?
  {
    if js != [] {
      var init := js[..|js| - 1];
      SumAllDefined(init);
      assert forall j :: 0 <= j < |init| ==> init[j] == js[j];
    }
  }

  /** The sum of the banks' joltages; None when one of them is None. */
  function TotalJoltage(banks: seq<string>, k: nat): Option<nat> {
    SumAll(Joltages(banks, k))
  }

  /** With digit banks and 1 to 19 cells, the total is defined. */
  lemma TotalJoltageDefined(banks: seq<string>, k: nat)
    requires 1 <= k <= 19
    requires forall j :: 0 <= j < |banks| ==> k <= |banks[j]| && AllDigits(banks[j])
    ensures TotalJoltage(banks, k).Some?
  {
    var js := Joltages(banks, k);
    forall j | 0 <= j < |banks|
      ensures js[j].Some?
    {
      JoltagesAt(banks, k, j);
      BankJoltageDefined(banks[j], k);
    }
    SumAllDefined(js);
  }

  /** `get_max_joltage`: the sum over the banks of the input. */
  method MaxJoltage(input: string, numCells: nat) returns (total: Option<nat>)
    requires numCells < 256
    ensures total == TotalJoltage(Banks(input), numCells)
  {
    var banks := Banks(input);
    var sum: Option<nat> := Some(0);
    var i := 0;
    while i < |banks|
      invariant 0 <= i <= |banks|
      invariant sum == TotalJoltage(banks[..i], numCells)
    {
      var joltage := MaxBankJoltage(banks[i], numCells);
      var next := if sum.Some? && joltage.Some? then Some(sum.value + joltage.value) else None;
      TotalJoltageNext(banks, numCells, i, sum, joltage, next);
      sum := next;
      i := i + 1;
    }
    assert banks[..i] == banks;
    total := sum;
  }

  // --------------------------------------------------------------- examples

  /** Reading off the leftmost maximum from its characterisation. */
  lemma MaxDigitUnique(s: string, i: nat, c: char)
    requires 1 <= i <= |s| && s[i - 1] == c
    requires forall j :: 0 <= j < |s| ==> s[j] <= c
    requires forall j :: 0 <= j < i - 1 ==> s[j] < c
    ensures MaxDigit(s) == Some((i, c))
  {
    var r := MaxDigit(s).value;
    assert s[r.0 - 1] <= c;
  }

  /** The total of four banks. */
  lemma TotalOfFour(banks: seq<string>, k: nat, a: nat, b: nat, c: nat, d: nat)
    requires |banks| == 4
    requires BankJoltage(banks[0], k) == Some(a) && BankJoltage(banks[1], k) == Some(b)
    requires BankJoltage(banks[2], k) == Some(c) && BankJoltage(banks[3], k) == Some(d)
    ensures TotalJoltage(banks, k) == Some(a + b + c + d)
  {
    JoltagesAt(banks, k, 0);
    JoltagesAt(banks, k, 1);
    JoltagesAt(banks, k, 2);
    JoltagesAt(banks, k, 3);
    SumOfFour(Joltages(banks, k), a, b, c, d);
  }

  lemma SumOfFour(js: seq<Option<nat>>, a: nat, b: nat, c: nat, d: nat)
    requires js == [Some(a), Some(b), Some(c), Some(d)]
    ensures SumAll(js) == Some(a + b + c + d)
  {
    assert SumAll(js[..0]) == Some(0);
    SumAllStep(js, 0);
    SumAllStep(js, 1);
    SumAllStep(js, 2);
    SumAllStep(js, 3);
    assert js[..4] == js;
  }

  /** Two cells: the leftmost maximum of all but the last cell, then the leftmost
      maximum of what follows it. */
  lemma GreedyOfTwo(s: string, i: nat, c: char, j: nat, d: char)
    requires 2 <= |s| && i < |s|
    requires MaxDigit(s[..|s| - 1]) == Some((i, c)) && MaxDigit(s[i..]) == Some((j, d))
    ensures Greedy(s, 2) == [c, d]
  {
    var rest := s[i..];
    assert Greedy(rest, 1) == [d] by {
      assert rest[..|rest| - 0] == rest;
    }
  }

  /** The banks of the worked example. */
  const EXAMPLE_BANKS: seq<string> := ["987654321111111", "811111111111119", "234234234234278", "818181911112111"]

  /** The example bank 987654321111111 shows 98 with 2 cells. */
  lemma ExampleBankDescending()
    ensures Greedy("987654321111111", 2) == "98"
  {
    var s := "987654321111111";
    MaxDigitUnique(s[..14], 1, '9');
    MaxDigitUnique(s[1..], 1, '8');
    GreedyOfTwo(s, 1, '9', 1, '8');
  }

  /** The example bank 811111111111119 shows 89 with 2 cells. */
  lemma ExampleBankEndsHigh()
    ensures Greedy("811111111111119", 2) == "89"
  {
    var s := "811111111111119";
    MaxDigitUnique(s[..14], 1, '8');
    MaxDigitUnique(s[1..], 14, '9');
    GreedyOfTwo(s, 1, '8', 14, '9');
  }

  /** The example bank 234234234234278 shows 78 with 2 cells. */
  lemma ExampleBankRepeating()
    ensures Greedy("234234234234278", 2) == "78"
  {
    var s := "234234234234278";
    MaxDigitUnique(s[..14], 14, '7');
    MaxDigitUnique(s[14..], 1, '8');
    GreedyOfTwo(s, 14, '7', 1, '8');
  }

  /** The example bank 818181911112111 shows 92 with 2 cells. */
  lemma ExampleBankScattered()
    ensures Greedy("818181911112111", 2) == "92"
  {
    var s := "818181911112111";
    MaxDigitUnique(s[..14], 7, '9');
    MaxDigitUnique(s[7..], 5, '2');
    GreedyOfTwo(s, 7, '9', 5, '2');
  }

  /** Two digits `d` and `e` read as `10 * d + e`. */
  lemma TwoDigitParse(d: char, e: char)
    requires IsDigit(d) && IsDigit(e)
    ensures ParseUnsigned([d, e], U64_MAX) == Some(10 * DigitValue(d) + DigitValue(e))
  {
    var g := [d, e];
    assert g[..1] == [d] && [d][..0] == [];
    assert DecimalValue([d]) == DigitValue(d);
  }

  /** A bank whose two greedy picks are the digits d and e is worth the two-digit number de. */
  lemma TwoPicksJoltage(bank: string, d: char, e: char)
    requires 2 <= |bank| && IsDigit(d) && IsDigit(e) && Greedy(bank, 2) == [d, e]
    ensures BankJoltage(bank, 2) == Some(10 * DigitValue(d) + DigitValue(e))
  {
    TwoDigitParse(d, e);
  }

  lemma ExampleJoltageDescending()
    ensures BankJoltage(EXAMPLE_BANKS[0], 2) == Some(98)
  {
    ExampleBankDescending();
    TwoPicksJoltage(EXAMPLE_BANKS[0], '9', '8');
  }

  lemma ExampleJoltageEndsHigh()
    ensures BankJoltage(EXAMPLE_BANKS[1], 2) == Some(89)
  {
    ExampleBankEndsHigh();
    TwoPicksJoltage(EXAMPLE_BANKS[1], '8', '9');
  }

  lemma ExampleJoltageRepeating()
    ensures BankJoltage(EXAMPLE_BANKS[2], 2) == Some(78)
  {
    ExampleBankRepeating();
    TwoPicksJoltage(EXAMPLE_BANKS[2], '7', '8');
  }

  lemma ExampleJoltageScattered()
    ensures BankJoltage(EXAMPLE_BANKS[3], 2) == Some(92)
  {
    ExampleBankScattered();
    TwoPicksJoltage(EXAMPLE_BANKS[3], '9', '2');
  }

  /** The worked example with 2 cells totals 357. */
  lemma ExampleTotalTwoCells()
    ensures TotalJoltage(EXAMPLE_BANKS, 2) == Some(357)
  {
    ExampleJoltageDescending();
    ExampleJoltageEndsHigh();
    ExampleJoltageRepeating();
    ExampleJoltageScattered();
    TotalOfFour(EXAMPLE_BANKS, 2, 98, 89, 78, 92);
  }
}
