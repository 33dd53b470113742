/** Day 2 (2025/2/main.rs): the input is a comma-separated list of inclusive id
    ranges such as `11-22`. An id is invalid when its decimal form is made of
    repetitions: two equal halves in part 1, any block repeated at least twice in
    part 2. The answer is the sum of the distinct invalid ids over all ranges. */
module RepeatedIds {
  import opened Text

  /** `Range { lower, upper }`: the ids `lower..=upper`. */
  datatype IdRange = IdRange(lower: nat, upper: nat)

  /** `Range::new`: the trimmed text split on '-'; the first two pieces must both
      parse as `u64`, and any further pieces are never looked at. */
  function ParseRange(s: string): (r: Option<IdRange>)
    ensures r.Some? ==> r.value.lower <= U64_MAX && r.value.upper <= U64_MAX
  {
    var pieces := Split(Trim(s), '-');
    if |pieces| < 2 then None
    else
      var lower, upper := ParseUnsigned(pieces[0], U64_MAX), ParseUnsigned(pieces[1], U64_MAX);
      if lower.Some? && upper.Some? then Some(IdRange(lower.value, upper.value)) else None
  }

  /** What `Range::new` accepts is what `to_string` prints: `lower-upper`. */
  lemma ParseRangeRoundTrip(lower: nat, upper: nat)
    requires lower <= U64_MAX && upper <= U64_MAX
    ensures ParseRange(ToDecimal(lower) + "-" + ToDecimal(upper)) == Some(IdRange(lower, upper))
  {
    var a, b := ToDecimal(lower), ToDecimal(upper);
    var s := a + "-" + b;
    assert s == a + ['-'] + b;
    assert !IsWhitespace(s[0]) by { assert s[0] == a[0]; }
    assert !IsWhitespace(s[|s| - 1]) by { assert s[|s| - 1] == b[|b| - 1]; }
    TrimUntouched(s);
    assert !IsDigit('-');
    SplitFirst(a, '-', b);
    SplitNoSeparator(b, '-');
    ParseToDecimal(lower, U64_MAX);
    ParseToDecimal(upper, U64_MAX);
  }

  /** A range without a second bound is rejected. */
  lemma ParseRangeNeedsTwoBounds(s: string)
    requires '-' !in Trim(s)
    ensures ParseRange(s) == None
  {
    SplitNoSeparator(Trim(s), '-');
  }

  // --------------------------------------------------------------- repetitions

  /** `k` copies of `p`, one after the other. */
  function Repeat(p: string, k: nat): (r: string)
    ensures |r| == k * |p|
  {
    if k == 0 then [] else p + Repeat(p, k - 1)
  }

  /** The meaning of part 2: the id is some non-empty block repeated at least twice. */
  ghost predicate IsRepetition(id: string) {
    exists p: string, k: nat :: p != [] && k >= 2 && id == Repeat(p, k)
  }

  /** `is_invalid_id_part1`: an even length and two equal halves. */
  predicate IsInvalidPart1(id: string) {
    |id| % 2 == 0 && id[..|id| / 2] == id[|id| / 2..]
  }

  /** Part 1 holds exactly for the ids that are some string written twice. */
  lemma Part1IsTwoCopies(id: string)
    ensures IsInvalidPart1(id) <==> exists h: string :: id == Repeat(h, 2)
  {
    if IsInvalidPart1(id) {
      var h := id[..|id| / 2];
      assert id == h + id[|id| / 2..];
      assert id == Repeat(h, 2) by { assert Repeat(h, 1) == h + []; }
    }
    if h: string :| id == Repeat(h, 2) {
      assert Repeat(h, 1) == h + [];
      assert id == h + h;
      assert id[..|id| / 2] == h && id[|id| / 2..] == h;
    }
  }

  /** `id.as_bytes().chunks(g)`: consecutive pieces of `g` characters, the last one
      possibly shorter. */
  function Chunks(s: string, g: nat): (cs: seq<string>)
    requires g > 0
    ensures forall i :: 0 <= i < |cs| ==> 0 < |cs[i]| <= g
    decreases |s|
  {
    if s == [] then []
    else if |s| <= g then [s]
    else [s[..g]] + Chunks(s[g..], g)
  }

  /** `chunks.all(|chunk| Some(chunk) == first_chunk)`, with the first chunk included
      (it is always equal to itself). */
  predicate AllLikeFirst(cs: seq<string>) {
    forall i :: 0 <= i < |cs| ==> cs[i] == cs[0]
  }

  /** The loop of `is_invalid_id_part2` from group size `g` on: some size in
      `g..=len/2` cuts the id into equal chunks. */
  predicate SomeGroupSizeFrom(id: string, g: nat)
    requires g > 0
    decreases |id| / 2 - g + 1
  {
    g <= |id| / 2 && (AllLikeFirst(Chunks(id, g)) || SomeGroupSizeFrom(id, g + 1))
  }

  /** `is_invalid_id_part2`: ids shorter than 2 are valid; otherwise some group
      size from 1 to `len / 2` must cut the id into equal chunks. */
  predicate IsInvalidPart2(id: string) {
    |id| >= 2 && SomeGroupSizeFrom(id, 1)
  }

  lemma {:induction false} SomeGroupSizeWitness(id: string, g: nat) returns (size: nat)
    requires g > 0 && SomeGroupSizeFrom(id, g)
    ensures g <= size <= |id| / 2 && AllLikeFirst(Chunks(id, size))
    decreases |id| / 2 - g + 1
  {
    if AllLikeFirst(Chunks(id, g)) {
      size := g;
    } else {
      size := SomeGroupSizeWitness(id, g + 1);
    }
  }

  lemma {:induction false} SomeGroupSizeFromWitness(id: string, g: nat, size: nat)
    requires 0 < g <= size <= |id| / 2 && AllLikeFirst(Chunks(id, size))
    ensures SomeGroupSizeFrom(id, g)
    decreases size - g
  {
    if g < size {
      SomeGroupSizeFromWitness(id, g + 1, size);
    }
  }

  /** Equal chunks of size `g` mean the id is its first `g` characters repeated. */
  lemma {:induction false} EqualChunksRepeat(s: string, g: nat) returns (k: nat)
    requires 0 < g <= |s| && AllLikeFirst(Chunks(s, g))
    ensures k >= 1 && s == Repeat(s[..g], k)
    decreases |s|
  {
    if |s| == g {
      k := 1;
      assert Repeat(s[..g], 1) == s + [];
    } else {
      var rest := s[g..];
      var cs := Chunks(rest, g);
      assert Chunks(s, g) == [s[..g]] + cs;
      assert cs != [] && Chunks(s, g)[1] == cs[0];
      assert |rest| >= g;
      assert rest[..g] == s[..g] by {
        if |rest| > g { assert cs == [rest[..g]] + Chunks(rest[g..], g); }
        else { assert cs == [rest]; }
      }
      assert AllLikeFirst(cs) by {
        forall i | 0 <= i < |cs| ensures cs[i] == cs[0] {
          assert Chunks(s, g)[i + 1] == cs[i];
        }
      }
      var k' := EqualChunksRepeat(rest, g);
      k := k' + 1;
      assert s == s[..g] + rest;
    }
  }

  /** The chunks of a repetition are its blocks. */
  lemma {:induction false} RepeatChunks(p: string, k: nat)
    requires p != []
    ensures Chunks(Repeat(p, k), |p|) == seq(k, _ => p)
  {
    if k == 1 {
      assert Repeat(p, 1) == p + [] == p;
      assert Chunks(p, |p|) == [p];
      assert seq(1, _ => p) == [p];
    } else if k > 1 {
      var s := Repeat(p, k);
      assert s[..|p|] == p && s[|p|..] == Repeat(p, k - 1);
      RepeatChunks(p, k - 1);
      assert seq(k, _ => p) == [p] + seq(k - 1, _ => p);
    }
  }

  /** Part 2 holds exactly for the ids that are a block repeated at least twice. */
  lemma Part2IsRepetition(id: string)
    ensures IsInvalidPart2(id) <==> IsRepetition(id)
  {
    if IsInvalidPart2(id) {
      var g := SomeGroupSizeWitness(id, 1);
      var k := EqualChunksRepeat(id, g);
      assert k >= 2;
      assert id[..g] != [];
    }
    if IsRepetition(id) {
      var p: string, k: nat :| p != [] && k >= 2 && id == Repeat(p, k);
      RepeatChunks(p, k);
      assert AllLikeFirst(Chunks(id, |p|));
      assert |id| >= 2 * |p| by {
        assert |id| == |p| + (k - 1) * |p|;
      }
      SomeGroupSizeFromWitness(id, 1, |p|);
    }
  }

  /** Every non-empty id flagged by part 1 is flagged by part 2 (group size `len / 2`). */
  lemma Part1ImpliesPart2(id: string)
    requires id != [] && IsInvalidPart1(id)
    ensures IsInvalidPart2(id)
  {
    Part1IsTwoCopies(id);
    var h: string :| id == Repeat(h, 2);
    assert h != [];
    Part2IsRepetition(id);
  }

  /** The tests flag "123123123" for part 2: a block of three, three times. */
  lemma Part2FlagsThreeBlocks()
    ensures IsInvalidPart2("123123123")
  {
    RepeatedBlock("123", 3, "123123123");
  }

  /** The tests flag "68686868" for part 2: a block of two, four times. */
  lemma Part2FlagsFourBlocks()
    ensures IsInvalidPart2("68686868")
  {
    RepeatedBlock("68", 4, "68686868");
  }

  /** The tests flag "1111" for part 2: one character, four times. */
  lemma Part2FlagsOneCharacter()
    ensures IsInvalidPart2("1111")
  {
    RepeatedBlock("1", 4, "1111");
  }

  /** More ids the tests flag for part 2. */
  lemma Part2InvalidShortExamples()
    ensures IsInvalidPart2("22") && IsInvalidPart2("333") && IsInvalidPart2("700700")
  {
    RepeatedBlock("2", 2, "22");
    RepeatedBlock("3", 3, "333");
    RepeatedBlock("700", 2, "700700");
  }

  /** The longer ids of the same test: two, four and three copies of a block. */
  lemma Part2FlagsTwoLongBlocks()
    ensures IsInvalidPart2("453278453278")
  {
    RepeatedBlock("453278", 2, "453278453278");
  }

  lemma Part2FlagsFourShortBlocks()
    ensures IsInvalidPart2("865865865865")
  {
    RepeatedBlock("865", 4, "865865865865");
  }

  lemma Part2FlagsThreeLongBlocks()
    ensures IsInvalidPart2("678906789067890")
  {
    RepeatedBlock("67890", 3, "678906789067890");
  }

  /** An id spelled as a block written `k` times, `k` at least two, is flagged by part 2. */
  lemma RepeatedBlock(p: string, k: nat, id: string)
    requires p != [] && 2 <= k <= 4
    requires id == if k == 2 then p + p else if k == 3 then p + (p + p) else p + (p + (p + p))
    ensures IsInvalidPart2(id)
  {
    assert Repeat(p, 1) == p;
    assert Repeat(p, 2) == p + p;
    assert Repeat(p, 3) == p + (p + p);
    assert Repeat(p, 4) == p + (p + (p + p));
    Part2FromRepeat(p, k);
  }

  /** Ids the tests clear for part 2. */
  lemma Part2ValidExamples()
    ensures !IsInvalidPart2("1") && !IsInvalidPart2("234")
  {
    var cs := Chunks("234", 1);
    assert cs == ["234"[..1]] + Chunks("234"[1..], 1);
    assert "234"[1..] == "34";
    assert Chunks("34", 1) == ["34"[..1]] + Chunks("34"[1..], 1);
    assert cs[1] == "3" != "2" == cs[0];
  }

  lemma Part2FromRepeat(p: string, k: nat)
    requires p != [] && k >= 2
    ensures IsInvalidPart2(Repeat(p, k))
  {
    Part2IsRepetition(Repeat(p, k));
  }

  // ------------------------------------------------------------------- sums

  /** The sum of a finite set of ids. */
  ghost function SetSum(s: set<nat>): nat {
    if s == {} then 0 else var x := Pick(s); x + SetSum(s - {x})
  }

  ghost function Pick(s: set<nat>): (x: nat)
    requires s != {}
    ensures x in s
  {
    var x :| x in s; x
  }

  /** Any element can be taken out of the sum first. */
  lemma {:induction false} SetSumRemove(s: set<nat>, y: nat)
    requires y in s
    ensures SetSum(s) == y + SetSum(s - {y})
    decreases |s|
  {
    var x := Pick(s);
    if x != y {
      SetSumRemove(s - {x}, y);
      SetSumRemove(s - {y}, x);
      assert s - {x} - {y} == s - {y} - {x};
    }
  }

  /** The sum of a disjoint union is the sum of the sums. */
  lemma {:induction false} SetSumUnion(a: set<nat>, b: set<nat>)
    requires a !! b
    ensures SetSum(a + b) == SetSum(a) + SetSum(b)
    decreases |b|
  {
    if b != {} {
      var y := Pick(b);
      SetSumUnion(a, b - {y});
      SetSumRemove(a + b, y);
      SetSumRemove(b, y);
      assert (a + b) - {y} == a + (b - {y});
    } else {
      assert a + b == a;
    }
  }

  /** The invalid ids of a range. */
  ghost function InvalidIn(r: IdRange, invalid: string -> bool): set<nat> {
    set n: nat | r.lower <= n <= r.upper && invalid(ToDecimal(n))
  }

  /** The invalid ids of `lower..id`, the part of a range already scanned. */
  ghost function InvalidBetween(lower: nat, id: nat, invalid: string -> bool): set<nat> {
    set n: nat | lower <= n < id && invalid(ToDecimal(n))
  }

  /** The invalid ids of all ranges, each once. */
  ghost function InvalidInAll(rs: seq<IdRange>, invalid: string -> bool): set<nat> {
    if rs == [] then {} else InvalidInAll(rs[..|rs| - 1], invalid) + InvalidIn(rs[|rs| - 1], invalid)
  }

  /** The ranges of the input, or None when one of them does not parse (the
      `expect` of `find_invalid_ids` panics). */
  function ParseRanges(input: string): Option<seq<IdRange>> {
    ParseAll(Split(input, ','), ParseRange)
  }

  /** One id of the scan: it is added to the sum and to `seen` exactly when it is
      invalid and new, which keeps both in step with the ids scanned so far. */
  lemma ScanStep(lower: nat, id: nat, invalid: string -> bool, seen: set<nat>,
                 seen': set<nat>, sum: nat, seenNext: set<nat>, sumNext: nat)
    requires lower <= id
    requires seen' == seen + InvalidBetween(lower, id, invalid)
    requires sum == SetSum(InvalidBetween(lower, id, invalid) - seen)
    requires if id !in seen' && invalid(ToDecimal(id))
             then seenNext == seen' + {id} && sumNext == sum + id
             else seenNext == seen' && sumNext == sum
    ensures seenNext == seen + InvalidBetween(lower, id + 1, invalid)
    ensures sumNext == SetSum(InvalidBetween(lower, id + 1, invalid) - seen)
  {
    var before := InvalidBetween(lower, id, invalid) - seen;
    if id !in seen' && invalid(ToDecimal(id)) {
      assert InvalidBetween(lower, id + 1, invalid) - seen == before + {id};
      SetSumUnion(before, {id});
      assert SetSum({id}) == id by { SetSumRemove({id}, id); }
    } else {
      assert InvalidBetween(lower, id + 1, invalid) - seen == before;
    }
  }

  /** `Range::sum_invalid_ids`: scans `lower..=upper`, adding each invalid id that
      is not yet in `seen` and inserting it. The result is the sum of the range's
      invalid ids that were not seen before, and `seen` grows by exactly them. */
  method SumInvalidIds(r: IdRange, invalid: string -> bool, seen: set<nat>)
    returns (sum: nat, seen': set<nat>)
    ensures seen' == seen + InvalidIn(r, invalid)
    ensures sum == SetSum(InvalidIn(r, invalid) - seen)
  {
    seen' := seen;
    sum := 0;
    if r.lower > r.upper {
      assert InvalidIn(r, invalid) == {};
      return;
    }
    var id := r.lower;
    while id <= r.upper
      invariant r.lower <= id <= r.upper + 1
      invariant seen' == seen + InvalidBetween(r.lower, id, invalid)
      invariant sum == SetSum(InvalidBetween(r.lower, id, invalid) - seen)
    {
      ghost var seenBefore, sumBefore := seen', sum;
      if id !in seen' && invalid(ToDecimal(id)) {
        seen' := seen' + {id};
        sum := sum + id;
      }
      ScanStep(r.lower, id, invalid, seen, seenBefore, sumBefore, seen', sum);
      id := id + 1;
    }
    assert InvalidBetween(r.lower, id, invalid) == InvalidIn(r, invalid);
  }

  /** `find_invalid_ids`: the sum of all distinct invalid ids of the input's ranges,
      or None when a range does not parse. An id covered by several ranges counts once. */
  method FindInvalidIds(input: string, invalid: string -> bool) returns (total: Option<nat>)
    ensures total == match ParseRanges(input)
                     case Some(rs) => Some(SetSum(InvalidInAll(rs, invalid)))
                     case None => None
  {
    var pieces := Split(input, ',');
    var seen: set<nat> := {};
    var sum := 0;
    ghost var rs: seq<IdRange> := [];
    var i := 0;
    while i < |pieces|
      invariant 0 <= i <= |pieces|
      invariant ParseAll(pieces[..i], ParseRange) == Some(rs)
      invariant seen == InvalidInAll(rs, invalid)
      invariant sum == SetSum(seen)
    {
      match ParseRange(pieces[i]) {
        case None =>
          ParseAllStop(pieces, i, ParseRange);
          return None;
        case Some(r) =>
          var added, seen' := SumInvalidIds(r, invalid, seen);
          SetSumUnion(seen, InvalidIn(r, invalid) - seen);
          assert seen' == seen + (InvalidIn(r, invalid) - seen);
          ParseAllStep(pieces, i, ParseRange, rs, r);
          InvalidInAllStep(rs, r, invalid);
          rs := rs + [r];
          seen := seen';
          sum := sum + added;
      }
      i := i + 1;
    }
    assert pieces[..i] == pieces;
    return Some(sum);
  }

  lemma InvalidInAllStep(rs: seq<IdRange>, r: IdRange, invalid: string -> bool)
    ensures InvalidInAll(rs + [r], invalid) == InvalidInAll(rs, invalid) + InvalidIn(r, invalid)
  {
    assert (rs + [r])[..|rs|] == rs;
  }

  /** Each id is counted once however many ranges cover it: the ids summed are
      exactly those that some range covers and the predicate flags. */
  lemma {:induction false} InvalidInAllIsUnion(rs: seq<IdRange>, invalid: string -> bool, n: nat)
    ensures n in InvalidInAll(rs, invalid)
        <==> invalid(ToDecimal(n)) && exists k :: 0 <= k < |rs| && rs[k].lower <= n <= rs[k].upper
  {
    if rs != [] {
      var init := rs[..|rs| - 1];
      InvalidInAllIsUnion(init, invalid, n);
      if k :| 0 <= k < |init| && init[k].lower <= n <= init[k].upper {
        assert rs[k] == init[k];
      }
      if k :| 0 <= k < |rs| && rs[k].lower <= n <= rs[k].upper {
        if k < |init| { assert init[k] == rs[k]; }
      }
    }
  }

  /** Every id flagged by part 1 is flagged by part 2, so the part 1 total is at
      most the part 2 total. */
  lemma Part1TotalAtMostPart2(rs: seq<IdRange>)
    ensures InvalidInAll(rs, IsInvalidPart1) <= InvalidInAll(rs, IsInvalidPart2)
    ensures SetSum(InvalidInAll(rs, IsInvalidPart1)) <= SetSum(InvalidInAll(rs, IsInvalidPart2))
  {
    var a, b := InvalidInAll(rs, IsInvalidPart1), InvalidInAll(rs, IsInvalidPart2);
    forall n | n in a ensures n in b {
      InvalidInAllIsUnion(rs, IsInvalidPart1, n);
      InvalidInAllIsUnion(rs, IsInvalidPart2, n);
      Part1ImpliesPart2(ToDecimal(n));
    }
    SetSumUnion(a, b - a);
    assert a + (b - a) == b;
  }
}
