/** Day 5 (2025/5/main.rs): inclusive ranges of fresh ingredient ids. Part 1
    counts the listed ingredients that some range covers; part 2 counts every id
    that some range covers, by sorting the ranges and merging overlapping ones. */
module Ingredients {
  import opened Text
  import opened Sorting

  /** `Range`: both bounds included. */
  datatype Range = Range(lower: nat, upper: nat)

  /** The derived ordering: `lower` first, then `upper`. */
  function RangeKey(r: Range): Key {
    (r.lower, r.upper)
  }

  /** Two ranges that the derived ordering ranks both ways are the same range. */
  lemma RangeKeyAntisymmetric(a: Range, b: Range)
    requires KeyLe(RangeKey(a), RangeKey(b)) && KeyLe(RangeKey(b), RangeKey(a))
    ensures a == b
  {
  }

  /** A range with at least one id. Every range the model computes sizes of. */
  predicate WellFormed(r: Range) {
    r.lower <= r.upper
  }

  predicate AllWellFormed(rs: seq<Range>) {
    forall k :: 0 <= k < |rs| ==> WellFormed(rs[k])
  }

  /** `Range::new`: the text split on '-', the first two pieces parsed as `u64`;
      a missing piece or one that does not parse is an error (the source panics).
      Pieces after the second are never looked at. */
  function ParseRange(s: string): (r: Option<Range>)
    ensures r.Some? ==> r.value.lower <= U64_MAX && r.value.upper <= U64_MAX
  {
    var pieces := Split(s, '-');
    if |pieces| < 2 then None
    else
      var lower, upper := ParseUnsigned(pieces[0], U64_MAX), ParseUnsigned(pieces[1], U64_MAX);
      if lower.Some? && upper.Some? then Some(Range(lower.value, upper.value)) else None
  }

  /** What `Range::new` accepts is what `to_string` prints: `lower-upper`. */
  lemma ParseRangeRoundTrip(lower: nat, upper: nat)
    requires lower <= U64_MAX && upper <= U64_MAX
    ensures ParseRange(ToDecimal(lower) + "-" + ToDecimal(upper)) == Some(Range(lower, upper))
  {
    var a, b := ToDecimal(lower), ToDecimal(upper);
    assert a + "-" + b == a + ['-'] + b;
    assert !IsDigit('-');
    SplitFirst(a, '-', b);
    SplitNoSeparator(b, '-');
    ParseToDecimal(lower, U64_MAX);
    ParseToDecimal(upper, U64_MAX);
  }

  /** Text after a second '-' is ignored: `1-2-x` reads as `1-2`. */
  lemma ParseRangeIgnoresRest(a: string, b: string, rest: string)
    requires '-' !in a && '-' !in b
    ensures ParseRange(a + "-" + b + "-" + rest) == ParseRange(a + "-" + b)
  {
    assert a + "-" + b + "-" + rest == a + ['-'] + (b + ['-'] + rest);
    assert a + "-" + b == a + ['-'] + b;
    SplitFirst(a, '-', b + ['-'] + rest);
    SplitFirst(b, '-', rest);
    SplitFirst(a, '-', b);
    SplitNoSeparator(b, '-');
  }

  /** `Range::contains`: inclusive at both ends. */
  predicate Contains(r: Range, id: nat) {
    r.lower <= id <= r.upper
  }

  /** The ids from `lower` to `upper`, both included. */
  function Interval(lower: nat, upper: int): (ids: set<nat>)
    ensures forall id: nat :: id in ids <==> lower <= id <= upper
    decreases upper - lower
  {
    if upper < lower then {} else Interval(lower, upper - 1) + {upper}
  }

  lemma {:induction false} IntervalSize(lower: nat, upper: int)
    ensures |Interval(lower, upper)| == if upper < lower then 0 else upper - lower + 1
    decreases upper - lower
  {
    if upper < lower {
      assert Interval(lower, upper) == {};
    } else {
      IntervalSize(lower, upper - 1);
      var below := Interval(lower, upper - 1);
      assert upper !in below;
      assert Interval(lower, upper) == below + {upper};
    }
  }

  /** Two intervals that overlap or touch join into one. */
  lemma IntervalJoin(l1: nat, u1: nat, l2: nat, u2: nat)
    requires l1 <= l2 <= u1 + 1
    ensures Interval(l1, u1) + Interval(l2, u2) == Interval(l1, if u1 >= u2 then u1 else u2)
  {
  }

  /** Two intervals apart: their union has the ids of both. */
  lemma IntervalApart(l1: nat, u1: nat, l2: nat, u2: nat)
    requires u1 < l2
    ensures |Interval(l1, u1) + Interval(l2, u2)| == |Interval(l1, u1)| + |Interval(l2, u2)|
  {
    assert Interval(l1, u1) * Interval(l2, u2) == {};
  }

  /** The ids a range covers. */
  function Ids(r: Range): set<nat> {
    Interval(r.lower, r.upper)
  }

  /** `Range::size`: `upper - lower + 1`, the number of ids the range covers. */
  function Size(r: Range): (n: nat)
    requires WellFormed(r)
    ensures n == |Ids(r)|
  {
    IntervalSize(r.lower, r.upper);
    r.upper - r.lower + 1
  }

  /** `Range::merge`: the smallest range around both when they overlap. */
  function Merge(a: Range, b: Range): Option<Range> {
    if a.upper >= b.lower && a.lower <= b.upper then
      Some(Range(if a.lower <= b.lower then a.lower else b.lower, if a.upper >= b.upper then a.upper else b.upper))
    else None
  }

  /** Merging does not depend on the order of the two ranges. */
  lemma MergeSymmetric(a: Range, b: Range)
    ensures Merge(a, b) == Merge(b, a)
  {
  }

  /** Two ranges merge exactly when they share an id, and the merged range covers
      exactly the ids of the two. Ranges that only touch (`1-3` and `4-6`) share
      no id and are not merged. */
  lemma MergeMeaning(a: Range, b: Range)
    requires WellFormed(a) && WellFormed(b)
    ensures Merge(a, b).Some? <==> Ids(a) * Ids(b) != {}
    ensures Merge(a, b).Some? ==> WellFormed(Merge(a, b).value) && Ids(Merge(a, b).value) == Ids(a) + Ids(b)
  {
    if Merge(a, b).Some? {
      var x: nat := if a.lower <= b.lower then b.lower else a.lower;
      assert x in Ids(a) * Ids(b);
    }
  }

  /** The merges asserted by the tests. */
  lemma MergeExamples()
    ensures Merge(Range(1, 3), Range(2, 4)) == Some(Range(1, 4))
    ensures Merge(Range(2, 4), Range(1, 3)) == Some(Range(1, 4))
    ensures Merge(Range(1, 6), Range(2, 4)) == Some(Range(1, 6))
    ensures Merge(Range(1, 6), Range(1, 6)) == Some(Range(1, 6))
    ensures Merge(Range(1, 3), Range(4, 6)) == None
    ensures Merge(Range(4, 6), Range(1, 3)) == None
  {
  }

  // ---------------------------------------------------------------- coverage

  /** An id some range contains (`ranges.iter().any(|r| r.contains(id))`). */
  predicate IsFresh(rs: seq<Range>, id: nat) {
    exists k :: 0 <= k < |rs| && Contains(rs[k], id)
  }

  /** Every id some range covers. */
  function Covered(rs: seq<Range>): set<nat> {
    if rs == [] then {} else Covered(rs[..|rs| - 1]) + Ids(rs[|rs| - 1])
  }

  lemma {:induction false} CoveredMeaning(rs: seq<Range>, id: nat)
    ensures id in Covered(rs) <==> IsFresh(rs, id)
  {
    if rs != [] {
      var init, last := rs[..|rs| - 1], rs[|rs| - 1];
      CoveredMeaning(init, id);
      assert id in Covered(rs) <==> id in Covered(init) || Contains(last, id);
      if IsFresh(init, id) {
        var k :| 0 <= k < |init| && Contains(init[k], id);
        assert rs[k] == init[k];
      }
      if IsFresh(rs, id) && !Contains(last, id) {
        var k :| 0 <= k < |rs| && Contains(rs[k], id);
        assert init[k] == rs[k];
      }
    }
  }

  /** The order of the ranges does not change what they cover. */
  lemma CoveredPermutation(a: seq<Range>, b: seq<Range>)
    requires multiset(a) == multiset(b)
    ensures Covered(a) == Covered(b)
  {
    forall id: nat | true
      ensures id in Covered(a) <==> id in Covered(b)
    {
      CoveredMeaning(a, id);
      CoveredMeaning(b, id);
      if k :| 0 <= k < |a| && Contains(a[k], id) {
        assert a[k] in multiset(b);
        var j :| 0 <= j < |b| && b[j] == a[k];
      }
      if k :| 0 <= k < |b| && Contains(b[k], id) {
        assert b[k] in multiset(a);
        var j :| 0 <= j < |a| && a[j] == b[k];
      }
    }
  }

  // ------------------------------------------------------------------ part 1

  /** The number of ingredients, in order, that some range covers. */
  function FreshCount(rs: seq<Range>, ids: seq<nat>): (n: nat)
    ensures n <= |ids|
  {
    if ids == [] then 0
    else FreshCount(rs, ids[..|ids| - 1]) + (if IsFresh(rs, ids[|ids| - 1]) then 1 else 0)
  }

  /** Part 1 depends only on the ids the ranges cover: two lists of ranges covering
      the same ids (the input's and the merged one, say) count the same. */
  lemma {:induction false} FreshCountByCover(a: seq<Range>, b: seq<Range>, ids: seq<nat>)
    requires Covered(a) == Covered(b)
    ensures FreshCount(a, ids) == FreshCount(b, ids)
  {
    if ids != [] {
      FreshCountByCover(a, b, ids[..|ids| - 1]);
      CoveredMeaning(a, ids[|ids| - 1]);
      CoveredMeaning(b, ids[|ids| - 1]);
    }
  }

  /** All ingredients count exactly when each is covered. */
  lemma {:induction false} FreshCountAll(rs: seq<Range>, ids: seq<nat>)
    ensures FreshCount(rs, ids) == |ids| <==> forall k :: 0 <= k < |ids| ==> IsFresh(rs, ids[k])
  {
    if ids != [] {
      var init := ids[..|ids| - 1];
      FreshCountAll(rs, init);
      assert forall k :: 0 <= k < |init| ==> init[k] == ids[k];
    }
  }

  lemma FreshCountStep(rs: seq<Range>, ids: seq<nat>, id: nat)
    ensures FreshCount(rs, ids + [id]) == FreshCount(rs, ids) + (if IsFresh(rs, id) then 1 else 0)
  {
    assert (ids + [id])[..|ids|] == ids;
  }

  function ParseId(s: string): Option<nat> {
    ParseUnsigned(s, U64_MAX)
  }

  /** `count_available_fresh_ingredients`: each ingredient parsed as a `u64` (one
      that does not parse is an error; the source panics) and counted when some
      range contains it. */
  method CountAvailableFresh(ranges: seq<Range>, ingredients: seq<string>) returns (count: Option<nat>)
    ensures count == match ParseAll(ingredients, ParseId)
                     case Some(ids) => Some(FreshCount(ranges, ids))
                     case None => None
  {
    var accumulator := 0;
    ghost var ids: seq<nat> := [];
    for k := 0 to |ingredients|
      invariant ParseAll(ingredients[..k], ParseId) == Some(ids)
      invariant accumulator == FreshCount(ranges, ids)
    {
      var parsed := ParseId(ingredients[k]);
      if parsed.None? {
        ParseAllStop(ingredients, k, ParseId);
        return None;
      }
      var ingredient := parsed.value;
      ParseAllStep(ingredients, k, ParseId, ids, ingredient);
      FreshCountStep(ranges, ids, ingredient);
      if IsFresh(ranges, ingredient) {
        accumulator := accumulator + 1;
      }
      ids := ids + [ingredient];
    }
    assert ingredients[..|ingredients|] == ingredients;
    return Some(accumulator);
  }

  // ------------------------------------------------------------------ part 2

  /** The body of the fold: merge into the last accumulated range when they
      overlap, push otherwise. */
  function MergeStep(acc: seq<Range>, r: Range): (acc': seq<Range>)
    ensures |acc'| <= |acc| + 1
  {
    if acc != [] && Merge(r, acc[|acc| - 1]).Some? then acc[..|acc| - 1] + [Merge(r, acc[|acc| - 1]).value]
    else acc + [r]
  }

  /** The fold of `count_all_fresh_ingredients` over the ranges. */
  function MergeFold(s: seq<Range>): (m: seq<Range>)
    ensures |m| <= |s|
  {
    if s == [] then [] else MergeStep(MergeFold(s[..|s| - 1]), s[|s| - 1])
  }

  /** Ranges strictly apart and in increasing order: each ends before the next starts. */
  predicate Separated(m: seq<Range>) {
    forall i, j :: 0 <= i < j < |m| ==> m[i].upper < m[j].lower
  }

  /** The sum of the sizes. */
  function TotalSize(m: seq<Range>): nat
    requires AllWellFormed(m)
  {
    if m == [] then 0 else TotalSize(m[..|m| - 1]) + Size(m[|m| - 1])
  }

  lemma CoveredStep(rs: seq<Range>, r: Range)
    ensures Covered(rs + [r]) == Covered(rs) + Ids(r)
  {
    assert (rs + [r])[..|rs|] == rs;
  }

  /** Merging `r` into the last accumulated range keeps the accumulated ranges
      well formed and separated and adds the ids of `r`. */
  lemma MergeIntoLast(acc: seq<Range>, r: Range)
    requires acc != [] && AllWellFormed(acc) && Separated(acc) && WellFormed(r)
    requires acc[|acc| - 1].lower <= r.lower && Merge(r, acc[|acc| - 1]).Some?
    ensures var acc' := MergeStep(acc, r);
            AllWellFormed(acc') && Separated(acc') && Covered(acc') == Covered(acc) + Ids(r)
            && acc'[|acc'| - 1].lower == acc[|acc| - 1].lower
            && forall i :: 0 <= i < |acc'| - 1 ==> acc'[i] == acc[i]
  {
    var init, last := acc[..|acc| - 1], acc[|acc| - 1];
    var m := Merge(r, last).value;
    MergeMeaning(r, last);
    assert m.lower == last.lower;
    var acc' := init + [m];
    assert MergeStep(acc, r) == acc';
    assert Covered(acc') == Covered(acc) + Ids(r) by {
      assert acc == init + [last];
      CoveredStep(init, last);
      CoveredStep(init, m);
    }
    assert Separated(acc') by {
      forall i, j | 0 <= i < j < |acc'|
        ensures acc'[i].upper < acc'[j].lower
      {
        assert acc'[i] == acc[i];
        assert j < |acc'| - 1 ==> acc'[j] == acc[j];
      }
    }
    assert AllWellFormed(acc') by {
      forall i | 0 <= i < |acc'|
        ensures WellFormed(acc'[i])
      {
        assert i < |acc'| - 1 ==> acc'[i] == acc[i];
      }
    }
  }

  /** Pushing `r`, which starts after the last accumulated range ends, keeps the
      accumulated ranges well formed and separated and adds the ids of `r`. */
  lemma PushAfterLast(acc: seq<Range>, r: Range)
    requires AllWellFormed(acc) && Separated(acc) && WellFormed(r)
    requires acc != [] ==> acc[|acc| - 1].upper < r.lower
    ensures AllWellFormed(acc + [r]) && Separated(acc + [r]) && Covered(acc + [r]) == Covered(acc) + Ids(r)
  {
    CoveredStep(acc, r);
    var pushed := acc + [r];
    forall i, j | 0 <= i < j < |pushed|
      ensures pushed[i].upper < pushed[j].lower
    {
      assert pushed[i] == acc[i];
      if j < |acc| {
        assert pushed[j] == acc[j];
      } else if i < |acc| - 1 {
        assert acc[i].upper < acc[|acc| - 1].lower;
      }
    }
    forall k | 0 <= k < |pushed|
      ensures WellFormed(pushed[k])
    {
      if k < |acc| {
        assert pushed[k] == acc[k];
      }
    }
  }

  /** One step of the fold keeps the accumulated ranges well formed, separated,
      covering what the ranges so far cover, and starting no later than `r`. */
  lemma MergeStepKeeps(acc: seq<Range>, r: Range, bound: nat)
    requires AllWellFormed(acc) && Separated(acc) && WellFormed(r)
    requires forall i :: 0 <= i < |acc| ==> acc[i].lower <= bound <= r.lower
    ensures var acc' := MergeStep(acc, r);
            AllWellFormed(acc') && Separated(acc') && Covered(acc') == Covered(acc) + Ids(r)
            && forall i :: 0 <= i < |acc'| ==> acc'[i].lower <= r.lower
  {
    if acc != [] && Merge(r, acc[|acc| - 1]).Some? {
      MergeIntoLast(acc, r);
    } else {
      PushAfterLast(acc, r);
    }
  }

  lemma SortedPrefix(s: seq<Range>)
    requires s != [] && Sorted(s, RangeKey) && AllWellFormed(s)
    ensures Sorted(s[..|s| - 1], RangeKey) && AllWellFormed(s[..|s| - 1])
  {
    var init := s[..|s| - 1];
    forall i, j | 0 <= i < j < |init|
      ensures KeyLe(RangeKey(init[i]), RangeKey(init[j]))
    {
      assert init[i] == s[i] && init[j] == s[j];
    }
  }

  /** On sorted, well-formed ranges the fold yields separated, well-formed ranges
      that cover exactly the same ids. */
  lemma {:induction false} MergeFoldMeaning(s: seq<Range>)
    requires Sorted(s, RangeKey) && AllWellFormed(s)
    ensures AllWellFormed(MergeFold(s)) && Separated(MergeFold(s))
    ensures Covered(MergeFold(s)) == Covered(s)
    ensures s != [] ==> forall i :: 0 <= i < |MergeFold(s)| ==> MergeFold(s)[i].lower <= s[|s| - 1].lower
  {
    if s != [] {
      var init, r := s[..|s| - 1], s[|s| - 1];
      SortedPrefix(s);
      MergeFoldMeaning(init);
      var bound := if init == [] then r.lower else init[|init| - 1].lower;
      assert init != [] ==> KeyLe(RangeKey(s[|init| - 1]), RangeKey(s[|s| - 1]));
      MergeStepKeeps(MergeFold(init), r, bound);
    }
  }

  /** The sizes of separated ranges add up to the number of ids they cover. */
  lemma {:induction false} TotalSizeCounts(m: seq<Range>)
    requires AllWellFormed(m) && Separated(m)
    ensures TotalSize(m) == |Covered(m)|
  {
    if m != [] {
      var init, last := m[..|m| - 1], m[|m| - 1];
      TotalSizeCounts(init);
      forall id | id in Covered(init)
        ensures id !in Ids(last)
      {
        CoveredMeaning(init, id);
        var k :| 0 <= k < |init| && Contains(init[k], id);
        assert m[k].upper < last.lower;
      }
      assert Covered(init) * Ids(last) == {};
      assert |Covered(init) + Ids(last)| == |Covered(init)| + |Ids(last)|;
    }
  }

  /** One more range through the fold. */
  lemma MergeFoldStep(s: seq<Range>, i: nat)
    requires i < |s|
    ensures MergeFold(s[..i + 1]) == MergeStep(MergeFold(s[..i]), s[i])
  {
    assert s[..i + 1][..i] == s[..i];
  }

  /** `count_all_fresh_ingredients`: the ranges sorted in place, folded so that
      overlapping ranges merge, and the sizes of the merged ranges summed. The
      result is the number of distinct ids the ranges cover. */
  method CountAllFresh(ranges: seq<Range>) returns (total: nat)
    requires AllWellFormed(ranges)
    ensures total == |Covered(ranges)|
  {
    var sorted := SortRanges(ranges);
    var merged := MergeAll(sorted);
    MergeFoldMeaning(sorted);
    TotalSizeCounts(merged);
    CoveredPermutation(sorted, ranges);
    total := TotalSize(merged);
  }

  /** The in-place sort of `count_all_fresh_ingredients`, by lower bound, then upper:
      the same ranges, in order. */
  method SortRanges(ranges: seq<Range>) returns (sorted: seq<Range>)
    requires AllWellFormed(ranges)
    ensures multiset(sorted) == multiset(ranges) && Sorted(sorted, RangeKey) && AllWellFormed(sorted)
  {
    var a := new Range[|ranges|](k requires 0 <= k < |ranges| => ranges[k]);
    assert a[..] == ranges;
    SortBy(a, RangeKey);
    sorted := a[..];
    InsertionSortPermutes(ranges, RangeKey);
    InsertionSortSorted(ranges, RangeKey);
    forall k | 0 <= k < |sorted|
      ensures WellFormed(sorted[k])
    {
      assert sorted[k] in multiset(ranges);
    }
  }

  /** The fold of `count_all_fresh_ingredients`: each range merged into the last
      accumulated one when the two overlap, pushed after it otherwise. */
  method MergeAll(sorted: seq<Range>) returns (merged: seq<Range>)
    ensures merged == MergeFold(sorted)
  {
    merged := [];
    for i := 0 to |sorted|
      invariant merged == MergeFold(sorted[..i])
    {
      MergeFoldStep(sorted, i);
      var range := sorted[i];
      if merged != [] && Merge(range, merged[|merged| - 1]).Some? {
        merged := merged[..|merged| - 1] + [Merge(range, merged[|merged| - 1]).value];
      } else {
        merged := merged + [range];
      }
    }
    assert sorted[..|sorted|] == sorted;
  }

  // ------------------------------------------------------------------- input

  /** The two sections of the input: the ranges and the ingredient lines. */
  datatype Inventory = Inventory(ranges: seq<Range>, ingredients: seq<string>)

  /** `parse_input`: the text before the first blank line holds the ranges, one
      per non-blank trimmed line; the text after it holds the ingredients the same
      way. A missing second section or a range that does not parse is an error
      (the source panics). Sections after the second are ignored. */
  function ParseInput(input: string): Option<Inventory> {
    var sections := SplitStr(input, "\n\n");
    match ParseAll(TrimDropEmpty(Split(sections[0], '\n')), ParseRange)
    case None => None
    case Some(ranges) =>
      if |sections| < 2 then None
      else Some(Inventory(ranges, TrimDropEmpty(Split(sections[1], '\n'))))
  }

  /** The lines of the range section, trimmed, blank ones dropped. */
  function RangeLines(input: string): seq<string> {
    TrimDropEmpty(Split(SplitStr(input, "\n\n")[0], '\n'))
  }

  /** The input parses exactly when it has a second section and every range line
      parses; then the ranges are those lines parsed one by one, and the ingredients
      are the second section's non-blank trimmed lines. */
  lemma ParseInputMeaning(input: string)
    ensures ParseInput(input).Some? <==>
      |SplitStr(input, "\n\n")| >= 2
      && forall k :: 0 <= k < |RangeLines(input)| ==> ParseRange(RangeLines(input)[k]).Some?
    ensures ParseInput(input).Some? ==>
      var inventory := ParseInput(input).value;
      |inventory.ranges| == |RangeLines(input)|
      && (forall k :: 0 <= k < |RangeLines(input)| ==> inventory.ranges[k] == ParseRange(RangeLines(input)[k]).value)
      && inventory.ingredients == TrimDropEmpty(Split(SplitStr(input, "\n\n")[1], '\n'))
  {
    var sections, lines := SplitStr(input, "\n\n"), RangeLines(input);
    ParseAllMeaning(lines, ParseRange);
    ParseInputOfSections(input, sections, lines);
  }

  /** `ParseInput` unfolded once over its named sections. */
  lemma ParseInputOfSections(input: string, sections: seq<string>, lines: seq<string>)
    requires sections == SplitStr(input, "\n\n") && lines == RangeLines(input)
    ensures ParseInput(input) == match ParseAll(lines, ParseRange)
      case None => None
      case Some(ranges) =>
        if |sections| < 2 then None else Some(Inventory(ranges, TrimDropEmpty(Split(sections[1], '\n'))))
  {
  }

  /** An input without a blank line has no ingredient section. */
  lemma ParseInputNeedsBlankLine(input: string)
    requires forall k :: 0 <= k < |input| - 1 ==> !(input[k] == '\n' && input[k + 1] == '\n')
    ensures ParseInput(input) == None
  {
    forall k: nat | k + 2 <= |input|
      ensures !OccursAt(input, "\n\n", k)
    {
      assert input[k..k + 2][0] == input[k] && input[k..k + 2][1] == input[k + 1];
    }
    SplitStrNoMatch(input, "\n\n");
    assert |SplitStr(input, "\n\n")| < 2;
  }

  // ---------------------------------------------------------------- examples

  const EXAMPLE_RANGES: seq<Range> := [Range(3, 5), Range(10, 14), Range(16, 20), Range(12, 18)]

  /** 5, 11 and 17 are fresh; 1, 8 and 32 are not. */
  lemma ExampleFreshness()
    ensures !IsFresh(EXAMPLE_RANGES, 1) && IsFresh(EXAMPLE_RANGES, 5) && !IsFresh(EXAMPLE_RANGES, 8)
    ensures IsFresh(EXAMPLE_RANGES, 11) && IsFresh(EXAMPLE_RANGES, 17) && !IsFresh(EXAMPLE_RANGES, 32)
  {
    var rs := EXAMPLE_RANGES;
    assert Contains(rs[0], 5) && Contains(rs[1], 11) && Contains(rs[2], 17);
  }

  /** Of the ingredients 1, 5, 8, 11, 17 and 32, three are fresh. */
  lemma ExampleAvailable()
    ensures FreshCount(EXAMPLE_RANGES, [1, 5, 8, 11, 17, 32]) == 3
  {
    var rs := EXAMPLE_RANGES;
    ExampleFreshness();
    var ids: seq<nat> := [];
    assert FreshCount(rs, ids) == 0;
    FreshCountStep(rs, ids, 1);
    ids := ids + [1];
    FreshCountStep(rs, ids, 5);
    ids := ids + [5];
    FreshCountStep(rs, ids, 8);
    ids := ids + [8];
    FreshCountStep(rs, ids, 11);
    ids := ids + [11];
    FreshCountStep(rs, ids, 17);
    ids := ids + [17];
    FreshCountStep(rs, ids, 32);
    ids := ids + [32];
    assert FreshCount(rs, ids) == 3;
    assert ids == [1, 5, 8, 11, 17, 32];
  }

  lemma CoveredFour(rs: seq<Range>)
    requires |rs| == 4
    ensures Covered(rs) == Ids(rs[0]) + Ids(rs[1]) + Ids(rs[2]) + Ids(rs[3])
  {
    assert Covered(rs[..1]) == Ids(rs[0]) by {
      assert rs[..1][..0] == [];
    }
    assert Covered(rs[..2]) == Covered(rs[..1]) + Ids(rs[1]) by {
      assert rs[..2][..1] == rs[..1];
    }
    assert Covered(rs[..3]) == Covered(rs[..2]) + Ids(rs[2]) by {
      assert rs[..3][..2] == rs[..2];
    }
  }

  /** The ids covered by ranges laid out like the example's: 3 to 5, then 10 to 20
      in three overlapping pieces. */
  lemma CoveredExampleLayout(rs: seq<Range>)
    requires rs == [Range(3, 5), Range(10, 14), Range(16, 20), Range(12, 18)]
    ensures |Covered(rs)| == 14
  {
    var a, b, c, d := rs[0], rs[1], rs[2], rs[3];
    CoveredFour(rs);
    IntervalJoin(b.lower, b.upper, d.lower, d.upper);
    IntervalJoin(b.lower, d.upper, c.lower, c.upper);
    assert Covered(rs) == Ids(a) + ((Ids(b) + Ids(d)) + Ids(c));
    IntervalApart(a.lower, a.upper, b.lower, c.upper);
    IntervalSize(a.lower, a.upper);
    IntervalSize(b.lower, c.upper);
  }

  /** The example ranges cover 14 ids: 3 to 5 and 10 to 20. */
  lemma ExampleAllFresh()
    ensures |Covered(EXAMPLE_RANGES)| == 14
  {
    CoveredExampleLayout(EXAMPLE_RANGES);
  }
}
