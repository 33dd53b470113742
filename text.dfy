/** The parts of Rust's `str` and integer-parsing API that the solvers rely on:
    trimming, splitting, whitespace tokenising, `parse::<uN>()`/`parse::<iN>()` and
    `to_string()` on integers. Machine integers are modelled by their ranges. */
module Text {
  import opened Arithmetic

  datatype Option<+T> = None | Some(value: T)

  const U32_MAX: nat := 0xFFFF_FFFF
  const U64_MAX: nat := 0xFFFF_FFFF_FFFF_FFFF
  const I32_MIN: int := -0x8000_0000
  const I32_MAX: int := 0x7FFF_FFFF
  const I64_MIN: int := -0x8000_0000_0000_0000
  const I64_MAX: int := 0x7FFF_FFFF_FFFF_FFFF

  /** `char::is_whitespace`: the Unicode White_Space property. */
  predicate IsWhitespace(c: char) {
    ('\t' <= c <= '\r') || c == ' ' || c == '\U{85}' || c == '\U{A0}' || c == '\U{1680}'
    || ('\U{2000}' <= c <= '\U{200A}') || c == '\U{2028}' || c == '\U{2029}'
    || c == '\U{202F}' || c == '\U{205F}' || c == '\U{3000}'
  }

  /** `u8::is_ascii_whitespace` (note: no vertical tab). */
  predicate IsAsciiWhitespace(c: char) {
    c == ' ' || c == '\t' || c == '\n' || c == '\U{C}' || c == '\r'
  }

  predicate IsDigit(c: char) { '0' <= c <= '9' }

  function DigitValue(c: char): (d: nat)
    requires IsDigit(c)
    ensures d < 10
  {
    c as int - '0' as int
  }

  function DigitChar(d: nat): (c: char)
    requires d < 10
    ensures IsDigit(c) && DigitValue(c) == d
  {
    ('0' as int + d) as char
  }

  predicate AllDigits(s: string) {
    forall i :: 0 <= i < |s| ==> IsDigit(s[i])
  }

  // ---------------------------------------------------------------- trimming

  /** `str::trim_start`: drops the leading whitespace and nothing else. */
  function TrimStart(s: string): (r: string)
    ensures |r| <= |s| && r == s[|s| - |r|..]
    ensures r == [] || !IsWhitespace(r[0])
    ensures forall i :: 0 <= i < |s| - |r| ==> IsWhitespace(s[i])
  {
    if s != [] && IsWhitespace(s[0]) then TrimStart(s[1..]) else s
  }

  /** `str::trim_end`: drops the trailing whitespace and nothing else. */
  function TrimEnd(s: string): (r: string)
    ensures |r| <= |s| && r == s[..|r|]
    ensures r == [] || !IsWhitespace(r[|r| - 1])
    ensures forall i :: |r| <= i < |s| ==> IsWhitespace(s[i])
  {
    if s != [] && IsWhitespace(s[|s| - 1]) then TrimEnd(s[..|s| - 1]) else s
  }

  /** The number of whitespace characters `str::trim_start` drops. */
  function LeadingWhitespace(s: string): (n: nat)
    ensures n <= |s| && forall i :: 0 <= i < n ==> IsWhitespace(s[i])
    ensures n < |s| ==> !IsWhitespace(s[n])
  {
    |s| - |TrimStart(s)|
  }

  /** `str::trim`: drops the leading and trailing whitespace and nothing else,
      so the result is the slice of `s` after its leading whitespace, with only
      whitespace after it. */
  function Trim(s: string): (r: string)
    ensures LeadingWhitespace(s) + |r| <= |s|
    ensures r == s[LeadingWhitespace(s)..LeadingWhitespace(s) + |r|]
    ensures forall i :: LeadingWhitespace(s) + |r| <= i < |s| ==> IsWhitespace(s[i])
    ensures r == [] || (!IsWhitespace(r[0]) && !IsWhitespace(r[|r| - 1]))
  {
    TrimEnd(TrimStart(s))
  }

  /** Trimming leaves a string alone when neither end is whitespace. */
  lemma TrimUntouched(s: string)
    requires s == [] || (!IsWhitespace(s[0]) && !IsWhitespace(s[|s| - 1]))
    ensures Trim(s) == s
  {
  }

  /** A string whose ends are not whitespace, followed by one whitespace
      character, trims back to itself. */
  lemma TrimOneTrailing(s: string, c: char)
    requires s != [] && !IsWhitespace(s[0]) && !IsWhitespace(s[|s| - 1]) && IsWhitespace(c)
    ensures Trim(s + [c]) == s
  {
    assert TrimStart(s + [c]) == s + [c];
    assert (s + [c])[..|s|] == s;
  }

  // --------------------------------------------------------------- splitting

  /** `str::split(sep)` for a single-character separator: always at least one
      piece, one more piece than there are separators. */
  function Split(s: string, sep: char): (pieces: seq<string>)
    ensures |pieces| >= 1
    ensures forall k :: 0 <= k < |pieces| ==> sep !in pieces[k]
  {
    if s == [] then [[]]
    else
      var rest := Split(s[1..], sep);
      if s[0] == sep then [[]] + rest else [[s[0]] + rest[0]] + rest[1..]
  }

  /** The inverse of `Split`: the pieces glued back together with the separator. */
  function Join(pieces: seq<string>, sep: char): string {
    if |pieces| <= 1 then (if pieces == [] then [] else pieces[0])
    else pieces[0] + [sep] + Join(pieces[1..], sep)
  }

  /** Joining non-empty pieces starts with the first piece's first character
      and ends with the last piece's last character. */
  lemma {:induction false} JoinEnds(pieces: seq<string>, sep: char)
    requires |pieces| >= 1 && forall k :: 0 <= k < |pieces| ==> pieces[k] != []
    ensures Join(pieces, sep) != []
    ensures Join(pieces, sep)[0] == pieces[0][0]
    ensures Join(pieces, sep)[|Join(pieces, sep)| - 1] == pieces[|pieces| - 1][|pieces[|pieces| - 1]| - 1]
  {
    if |pieces| > 1 {
      var rest := pieces[1..];
      JoinEnds(rest, sep);
      var j := Join(rest, sep);
      assert Join(pieces, sep) == pieces[0] + ([sep] + j);
      assert rest[|rest| - 1] == pieces[|pieces| - 1];
    }
  }

  lemma {:induction false} SplitJoin(s: string, sep: char)
    ensures Join(Split(s, sep), sep) == s
  {
    if s != [] {
      SplitJoin(s[1..], sep);
      var rest := Split(s[1..], sep);
      if s[0] != sep {
        if |rest| > 1 {
          assert [s[0]] + rest[0] + [sep] + Join(rest[1..], sep) == [s[0]] + (rest[0] + [sep] + Join(rest[1..], sep));
        }
      }
    }
  }

  /** A string without the separator is a single piece. */
  lemma {:induction false} SplitNoSeparator(s: string, sep: char)
    requires sep !in s
    ensures Split(s, sep) == [s]
  {
    if s != [] {
      SplitNoSeparator(s[1..], sep);
      assert [s[0]] + s[1..] == s;
    }
  }

  /** The first separator ends the first piece. */
  lemma {:induction false} SplitFirst(x: string, sep: char, y: string)
    requires sep !in x
    ensures Split(x + [sep] + y, sep) == [x] + Split(y, sep)
  {
    var s := x + [sep] + y;
    if x == [] {
      assert s[1..] == y;
    } else {
      assert s[1..] == x[1..] + [sep] + y;
      SplitFirst(x[1..], sep, y);
      assert [x[0]] + x[1..] == x;
    }
  }

  /** The other round trip: pieces without the separator, glued together, split
      back into the same pieces. */
  lemma {:induction false} JoinSplit(pieces: seq<string>, sep: char)
    requires |pieces| >= 1 && forall k :: 0 <= k < |pieces| ==> sep !in pieces[k]
    ensures Split(Join(pieces, sep), sep) == pieces
    decreases |pieces|
  {
    if |pieces| == 1 {
      SplitNoSeparator(pieces[0], sep);
    } else {
      var rest := pieces[1..];
      JoinSplit(rest, sep);
      SplitFirst(pieces[0], sep, Join(rest, sep));
      assert [pieces[0]] + rest == pieces;
    }
  }

  /** `str::split(pat)` for a non-empty string pattern: the leftmost occurrence
      is cut out first, and the search resumes after it. */
  function SplitStr(s: string, pat: string): (pieces: seq<string>)
    requires |pat| > 0
    ensures |pieces| >= 1
    decreases |s|
  {
    if |s| < |pat| then [s]
    else if s[..|pat|] == pat then [[]] + SplitStr(s[|pat|..], pat)
    else
      var rest := SplitStr(s[1..], pat);
      [[s[0]] + rest[0]] + rest[1..]
  }

  /** `pat` occurs in `s` starting at index `k`. */
  predicate OccursAt(s: string, pat: string, k: nat) {
    k + |pat| <= |s| && s[k..k + |pat|] == pat
  }

  /** A string in which the pattern does not occur is a single piece. */
  lemma {:induction false} SplitStrNoMatch(s: string, pat: string)
    requires |pat| > 0
    requires forall k: nat :: k + |pat| <= |s| ==> !OccursAt(s, pat, k)
    ensures SplitStr(s, pat) == [s]
    decreases |s|
  {
    if |s| >= |pat| {
      assert !OccursAt(s, pat, 0);
      assert s[0..|pat|] == s[..|pat|];
      var t := s[1..];
      forall k: nat | k + |pat| <= |t|
        ensures !OccursAt(t, pat, k)
      {
        assert !OccursAt(s, pat, k + 1);
        assert t[k..k + |pat|] == s[k + 1..k + 1 + |pat|];
      }
      SplitStrNoMatch(t, pat);
      assert [s[0]] + t == s;
    }
  }

  /** The longest prefix of `s` without a separator character. */
  function Word(s: string, isSep: char -> bool): (w: string)
    ensures |w| <= |s| && w == s[..|w|]
    ensures forall i :: 0 <= i < |w| ==> !isSep(w[i])
    ensures |w| == |s| || isSep(s[|w|])
  {
    if s == [] || isSep(s[0]) then [] else [s[0]] + Word(s[1..], isSep)
  }

  /** Drops the leading separator characters of `s`. */
  function SkipSeparators(s: string, isSep: char -> bool): (r: string)
    ensures |r| <= |s| && r == s[|s| - |r|..]
    ensures r == [] || !isSep(r[0])
    ensures forall i :: 0 <= i < |s| - |r| ==> isSep(s[i])
  {
    if s != [] && isSep(s[0]) then
      var r := SkipSeparators(s[1..], isSep);
      assert s[1..][|s| - 1 - |r|..] == s[|s| - |r|..];
      r
    else s
  }

  predicate NoSeparator(s: string, isSep: char -> bool) {
    forall i :: 0 <= i < |s| ==> !isSep(s[i])
  }

  /** The maximal runs of non-separator characters, in order: the common shape
      of `split_whitespace` and `split_ascii_whitespace`. */
  function Tokens(s: string, isSep: char -> bool): (ts: seq<string>)
    ensures forall k :: 0 <= k < |ts| ==> ts[k] != [] && NoSeparator(ts[k], isSep)
    decreases |s|
  {
    var t := SkipSeparators(s, isSep);
    if t == [] then [] else
      var w := Word(t, isSep);
      assert w != [] by { assert !isSep(t[0]); }
      var rest := Tokens(t[|w|..], isSep);
      WordsCons(w, rest, isSep);
      [w] + rest
  }

  /** A non-empty word in front of non-empty words without separators. */
  lemma WordsCons(w: string, rest: seq<string>, isSep: char -> bool)
    requires w != [] && NoSeparator(w, isSep)
    requires forall k :: 0 <= k < |rest| ==> rest[k] != [] && NoSeparator(rest[k], isSep)
    ensures forall k :: 0 <= k < |[w] + rest| ==> ([w] + rest)[k] != [] && NoSeparator(([w] + rest)[k], isSep)
  {
    forall k | 0 <= k < |[w] + rest|
      ensures ([w] + rest)[k] != [] && NoSeparator(([w] + rest)[k], isSep)
    {
      if k > 0 {
        assert ([w] + rest)[k] == rest[k - 1];
      }
    }
  }

  /** A word followed by a separator is the first word. */
  lemma {:induction false} WordBefore(w: string, c: char, rest: string, isSep: char -> bool)
    requires NoSeparator(w, isSep) && isSep(c)
    ensures Word(w + [c] + rest, isSep) == w
    decreases |w|
  {
    var s := w + [c] + rest;
    if w != [] {
      assert !isSep(w[0]);
      assert s[1..] == w[1..] + [c] + rest;
      WordBefore(w[1..], c, rest, isSep);
      assert [w[0]] + w[1..] == w;
    }
  }

  /** A leading separator character does not change the tokens. */
  lemma TokensSkip(c: char, s: string, isSep: char -> bool)
    requires isSep(c)
    ensures Tokens([c] + s, isSep) == Tokens(s, isSep)
  {
    assert ([c] + s)[1..] == s;
    assert SkipSeparators([c] + s, isSep) == SkipSeparators(s, isSep);
  }

  /** A word followed by a separator is the first token. */
  lemma TokensFront(w: string, c: char, s: string, isSep: char -> bool)
    requires w != [] && NoSeparator(w, isSep) && isSep(c)
    ensures Tokens(w + [c] + s, isSep) == [w] + Tokens([c] + s, isSep)
  {
    var t := w + [c] + s;
    assert !isSep(t[0]);
    assert SkipSeparators(t, isSep) == t;
    WordBefore(w, c, s, isSep);
    assert t[|w|..] == [c] + s;
  }

  /** A lone word is the only token. */
  lemma TokensSingle(w: string, isSep: char -> bool)
    requires w != [] && NoSeparator(w, isSep)
    ensures Tokens(w, isSep) == [w]
  {
    assert !isSep(w[0]);
    assert SkipSeparators(w, isSep) == w;
    WordAll(w, isSep);
    assert w[|w|..] == [];
  }

  /** Words joined by one separator character come back out as the tokens. */
  lemma {:induction false} TokensJoin(words: seq<string>, c: char, isSep: char -> bool)
    requires isSep(c)
    requires forall k :: 0 <= k < |words| ==> words[k] != [] && NoSeparator(words[k], isSep)
    ensures Tokens(Join(words, c), isSep) == words
    decreases |words|
  {
    if |words| == 1 {
      TokensSingle(words[0], isSep);
    } else if |words| > 1 {
      WordsTail(words, isSep);
      TokensJoin(words[1..], c, isSep);
      TokensJoinStep(words, c, isSep);
    }
  }

  lemma WordsTail(words: seq<string>, isSep: char -> bool)
    requires words != [] && forall k :: 0 <= k < |words| ==> words[k] != [] && NoSeparator(words[k], isSep)
    ensures words[0] != [] && NoSeparator(words[0], isSep)
    ensures forall k :: 0 <= k < |words[1..]| ==> words[1..][k] != [] && NoSeparator(words[1..][k], isSep)
  {
    forall k | 0 <= k < |words[1..]| ensures words[1..][k] != [] && NoSeparator(words[1..][k], isSep) {
      assert words[1..][k] == words[k + 1];
    }
  }

  /** The first word in front of the rest, once the joined rest comes back out. */
  lemma TokensJoinStep(words: seq<string>, c: char, isSep: char -> bool)
    requires |words| > 1 && isSep(c) && words[0] != [] && NoSeparator(words[0], isSep)
    requires Tokens(Join(words[1..], c), isSep) == words[1..]
    ensures Tokens(Join(words, c), isSep) == words
  {
    JoinFront(words, c);
    TokensAfterWord(words[0], c, Join(words[1..], c), isSep);
    HeadTail(words);
  }

  lemma JoinFront(pieces: seq<string>, sep: char)
    requires |pieces| > 1
    ensures Join(pieces, sep) == pieces[0] + [sep] + Join(pieces[1..], sep)
  {
  }

  lemma HeadTail<T>(s: seq<T>)
    requires s != []
    ensures [s[0]] + s[1..] == s
  {
  }

  /** A word and a separator in front of `s` add the word in front of the tokens of `s`. */
  lemma TokensAfterWord(w: string, c: char, s: string, isSep: char -> bool)
    requires w != [] && NoSeparator(w, isSep) && isSep(c)
    ensures Tokens(w + [c] + s, isSep) == [w] + Tokens(s, isSep)
  {
    TokensFront(w, c, s, isSep);
    TokensSkip(c, s, isSep);
  }

  /** A word with no separator is all of itself. */
  lemma {:induction false} WordAll(w: string, isSep: char -> bool)
    requires NoSeparator(w, isSep)
    ensures Word(w, isSep) == w
    decreases |w|
  {
    if w != [] {
      assert !isSep(w[0]);
      WordAll(w[1..], isSep);
      assert [w[0]] + w[1..] == w;
    }
  }

  /** `str::split_whitespace`. */
  function SplitWhitespace(s: string): seq<string> {
    Tokens(s, IsWhitespace)
  }

  /** `str::split_ascii_whitespace`. */
  function SplitAsciiWhitespace(s: string): seq<string> {
    Tokens(s, IsAsciiWhitespace)
  }

  /** `input.split('\n')` followed by `.filter_map(|l| (!l.is_empty()).then_some(l.trim()))`:
      a line is dropped only when it is empty BEFORE trimming. */
  function TrimNonEmpty(lines: seq<string>): (r: seq<string>)
    ensures |r| <= |lines|
  {
    if lines == [] then []
    else if lines[0] == [] then TrimNonEmpty(lines[1..])
    else [Trim(lines[0])] + TrimNonEmpty(lines[1..])
  }

  /** `.filter_map(|l| (!l.is_empty()).then_some(l))`: the non-empty lines,
      untrimmed, in order. */
  function NonEmpty(lines: seq<string>): (r: seq<string>)
    ensures |r| <= |lines|
    ensures forall k :: 0 <= k < |r| ==> r[k] != []
  {
    if lines == [] then []
    else if lines[0] == [] then NonEmpty(lines[1..])
    else [lines[0]] + NonEmpty(lines[1..])
  }

  /** `.map(|l| l.trim()).filter(|l| !l.is_empty())`: a line is dropped when it
      is empty AFTER trimming. */
  function TrimDropEmpty(lines: seq<string>): (r: seq<string>)
    ensures forall k :: 0 <= k < |r| ==> r[k] != []
  {
    if lines == [] then []
    else
      var line, rest := Trim(lines[0]), TrimDropEmpty(lines[1..]);
      if |line| == 0 then rest else [line] + rest
  }

  // ---------------------------------------------------------- all or nothing

  /** Parsing every piece where one failure fails the whole (an `expect` on each
      item, or `collect::<Option<Vec<_>>>()`). */
  function ParseAll<T>(pieces: seq<string>, parse: string -> Option<T>): (r: Option<seq<T>>)
    ensures r.Some? ==> |r.value| == |pieces|
  {
    if pieces == [] then Some([])
    else
      var init, last := ParseAll(pieces[..|pieces| - 1], parse), parse(pieces[|pieces| - 1]);
      if init.Some? && last.Some? then Some(init.value + [last.value]) else None
  }

  /** All pieces parse exactly when each does, and then the results are the
      pieces' results, in order. */
  lemma {:induction false} ParseAllMeaning<T>(pieces: seq<string>, parse: string -> Option<T>)
    ensures ParseAll(pieces, parse).Some? <==> forall k :: 0 <= k < |pieces| ==> parse(pieces[k]).Some?
    ensures ParseAll(pieces, parse).Some? ==>
              forall k :: 0 <= k < |pieces| ==> ParseAll(pieces, parse).value[k] == parse(pieces[k]).value
  {
    if pieces != [] {
      var init := pieces[..|pieces| - 1];
      ParseAllMeaning(init, parse);
      assert forall k :: 0 <= k < |init| ==> pieces[k] == init[k];
    }
  }

  /** `.enumerate().map(|(i, line)| parse(line, i))` where one failure fails the
      whole: each line parsed together with its position. */
  function ParseNumbered<T>(lines: seq<string>, parse: (string, nat) -> Option<T>): (r: Option<seq<T>>)
    ensures r.Some? ==> |r.value| == |lines|
  {
    if lines == [] then Some([])
    else
      var n := |lines| - 1;
      var init, last := ParseNumbered(lines[..n], parse), parse(lines[n], n);
      if init.Some? && last.Some? then Some(init.value + [last.value]) else None
  }

  /** All lines parse exactly when each does at its position, and then the results
      are the lines' results, in order. */
  lemma {:induction false} ParseNumberedMeaning<T>(lines: seq<string>, parse: (string, nat) -> Option<T>)
    ensures ParseNumbered(lines, parse).Some? <==> forall k :: 0 <= k < |lines| ==> parse(lines[k], k).Some?
    ensures ParseNumbered(lines, parse).Some? ==>
              forall k :: 0 <= k < |lines| ==> ParseNumbered(lines, parse).value[k] == parse(lines[k], k).value
  {
    if lines != [] {
      var init := lines[..|lines| - 1];
      ParseNumberedMeaning(init, parse);
      assert forall k :: 0 <= k < |init| ==> lines[k] == init[k];
    }
  }

  /** One more piece that parses extends the results. */
  lemma ParseAllStep<T>(pieces: seq<string>, i: nat, parse: string -> Option<T>, done: seq<T>, x: T)
    requires i < |pieces| && ParseAll(pieces[..i], parse) == Some(done) && parse(pieces[i]) == Some(x)
    ensures ParseAll(pieces[..i + 1], parse) == Some(done + [x])
  {
    assert pieces[..i + 1][..i] == pieces[..i];
  }

  /** Parsing the pieces from `i` on, given those after `i` parsed: a piece at `i`
      that parses goes in front. */
  lemma ParseAllPrependAt<T>(pieces: seq<string>, i: nat, parse: string -> Option<T>, results: seq<T>)
    requires i < |pieces| && ParseAll(pieces[i + 1..], parse) == Some(results) && parse(pieces[i]).Some?
    ensures ParseAll(pieces[i..], parse) == Some([parse(pieces[i]).value] + results)
  {
    ParseAllPrepend(pieces[i], pieces[i + 1..], parse);
    assert pieces[i..] == [pieces[i]] + pieces[i + 1..];
  }

  /** One piece that does not parse fails the whole. */
  lemma ParseAllStop<T>(pieces: seq<string>, i: nat, parse: string -> Option<T>)
    requires i < |pieces| && parse(pieces[i]).None?
    ensures ParseAll(pieces, parse) == None
  {
    ParseAllMeaning(pieces, parse);
  }

  /** Pieces that each parse to the matching result parse to the results. */
  lemma ParseAllAgrees<T>(pieces: seq<string>, parse: string -> Option<T>, results: seq<T>)
    requires |pieces| == |results| && forall k :: 0 <= k < |pieces| ==> parse(pieces[k]) == Some(results[k])
    ensures ParseAll(pieces, parse) == Some(results)
  {
    ParseAllMeaning(pieces, parse);
    assert ParseAll(pieces, parse).value == results;
  }

  /** Parsing one more piece in front. */
  lemma {:induction false} ParseAllPrepend<T>(x: string, pieces: seq<string>, parse: string -> Option<T>)
    ensures ParseAll([x] + pieces, parse)
         == if parse(x).Some? && ParseAll(pieces, parse).Some? then Some([parse(x).value] + ParseAll(pieces, parse).value)
            else None
    decreases |pieces|
  {
    var all := [x] + pieces;
    if pieces == [] {
      assert all == [x] && all[..0] == [];
      assert ParseAll(all[..0], parse) == Some([]);
      if parse(x).Some? {
        assert [] + [parse(x).value] == [parse(x).value] + [];
      }
    } else {
      var init := pieces[..|pieces| - 1];
      ParseAllPrepend(x, init, parse);
      assert all[..|all| - 1] == [x] + init;
      assert all[|all| - 1] == pieces[|pieces| - 1];
      var a, b := ParseAll(init, parse), parse(pieces[|pieces| - 1]);
      if parse(x).Some? && a.Some? && b.Some? {
        assert [parse(x).value] + a.value + [b.value] == [parse(x).value] + (a.value + [b.value]);
      }
    }
  }

  // ----------------------------------------------------------------- numbers

  /** The value of a string of decimal digits, most significant first. */
  function DecimalValue(s: string): nat
    requires AllDigits(s)
  {
    if s == [] then 0 else 10 * DecimalValue(s[..|s| - 1]) + DigitValue(s[|s| - 1])
  }

  function Pow10(n: nat): (p: nat)
    ensures p >= 1
  {
    if n == 0 then 1 else 10 * Pow10(n - 1)
  }

  /** Appending digit `e` to a number whose high part is `x` shifted by `p`. */
  lemma ShiftDigit(x: int, p: int, v: int, e: int)
    ensures 10 * (x * p + v) + e == x * (10 * p) + (10 * v + e)
  {
    MulDistributes(10, x * p, v);
    MulSwap(10, x, p);
  }

  /** The value of a concatenation: the first part shifted by the length of the second. */
  lemma {:induction false} DecimalValueAppend(a: string, b: string)
    requires AllDigits(a) && AllDigits(b)
    ensures AllDigits(a + b)
    ensures DecimalValue(a + b) == DecimalValue(a) * Pow10(|b|) + DecimalValue(b)
    decreases |b|
  {
    if b == [] {
      assert a + b == a;
    } else {
      var init := b[..|b| - 1];
      DecimalValueAppend(a, init);
      var ab := a + b;
      assert ab[..|ab| - 1] == a + init;
      var x, p, v, e := DecimalValue(a), Pow10(|init|), DecimalValue(init), DigitValue(b[|b| - 1]);
      assert DecimalValue(ab) == 10 * DecimalValue(a + init) + e;
      assert DecimalValue(b) == 10 * v + e;
      assert Pow10(|b|) == 10 * p;
      ShiftDigit(x, p, v, e);
    }
  }

  /** `to_string()` on an unsigned integer: no sign and no leading zero. */
  function ToDecimal(n: nat): (s: string)
    ensures |s| >= 1 && AllDigits(s)
    ensures |s| > 1 ==> s[0] != '0'
  {
    if n < 10 then [DigitChar(n)] else ToDecimal(n / 10) + [DigitChar(n % 10)]
  }

  lemma {:induction false} ToDecimalValue(n: nat)
    ensures DecimalValue(ToDecimal(n)) == n
  {
    if n >= 10 {
      ToDecimalValue(n / 10);
      var s := ToDecimal(n);
      assert s[..|s| - 1] == ToDecimal(n / 10);
    }
  }

  /** `str::parse::<uN>()` where `max` is the largest uN: an optional '+', then at
      least one digit and nothing else, with a value no larger than `max`. */
  function ParseUnsigned(s: string, max: nat): (r: Option<nat>)
    ensures r.Some? ==> r.value <= max
  {
    if s == [] then None
    else
      var digits := if s[0] == '+' then s[1..] else s;
      if digits == [] || !AllDigits(digits) then None
      else if DecimalValue(digits) > max then None
      else Some(DecimalValue(digits))
  }

  /** `str::parse::<iN>()` for the range `min..=max`: an optional '+' or '-', then at
      least one digit and nothing else, with a value inside the range. */
  function ParseSigned(s: string, min: int, max: int): (r: Option<int>)
    ensures r.Some? ==> min <= r.value <= max
    ensures r.Some? ==> s != [] && (r.value < 0 ==> s[0] == '-')
  {
    if s == [] then None
    else
      var negative := s[0] == '-';
      var digits := if s[0] == '+' || s[0] == '-' then s[1..] else s;
      if digits == [] || !AllDigits(digits) then None
      else
        var v: int := if negative then 0 - (DecimalValue(digits) as int) else DecimalValue(digits);
        if v < min || v > max then None else Some(v)
  }

  /** `to_string()` on a signed integer: a '-' before the digits of a negative value. */
  function SignedDecimal(n: int): (s: string)
    ensures s != [] && forall k :: 0 <= k < |s| ==> s[k] == '-' || IsDigit(s[k])
  {
    if n < 0 then "-" + ToDecimal(-n) else ToDecimal(n)
  }

  /** Round trip for signed values: what `to_string()` prints, `parse()` reads back. */
  lemma ParseSignedDecimal(n: int, min: int, max: int)
    requires min <= n <= max
    ensures ParseSigned(SignedDecimal(n), min, max) == Some(n)
  {
    if n < 0 {
      ToDecimalValue(-n);
      ParseNegative(ToDecimal(-n), min, max);
    } else {
      ToDecimalValue(n);
      ParseNonNegative(ToDecimal(n), min, max);
    }
  }

  /** A minus sign before digits reads as the negated value. */
  lemma ParseNegative(digits: string, min: int, max: int)
    requires digits != [] && AllDigits(digits) && min <= -(DecimalValue(digits) as int) <= max
    ensures ParseSigned("-" + digits, min, max) == Some(-(DecimalValue(digits) as int))
  {
    assert ("-" + digits)[1..] == digits;
  }

  /** Digits alone read as their value. */
  lemma ParseNonNegative(digits: string, min: int, max: int)
    requires digits != [] && AllDigits(digits) && min <= DecimalValue(digits) <= max
    ensures ParseSigned(digits, min, max) == Some(DecimalValue(digits))
  {
    assert IsDigit(digits[0]);
  }

  /** Round trip: what `to_string()` prints, `parse()` reads back. */
  lemma ParseToDecimal(n: nat, max: nat)
    requires n <= max
    ensures ParseUnsigned(ToDecimal(n), max) == Some(n)
  {
    ToDecimalValue(n);
  }
}
