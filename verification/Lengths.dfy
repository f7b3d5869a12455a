/** The length histogram of lib/irrecord.c: add_length and merge_lengths keep a list of buckets,
    and the buckets always describe a partition of the lengths seen into groups. */
module Lengths {

  type Pos = n: int | n > 0 witness 1

  /** A bucket counts at least one length, so calc_signal's guard against zero never applies. */
  datatype Bucket = Bucket(count: Pos, sum: int, lower: int, upper: int, min: int, max: int)

  const PULSE_MASK: int := 0xFF_FFFF

  /** The source's int holds sums and tolerances up to here without overflow. */
  const MAX_TOTAL: int := 0x7EFF_FF00

  /** Unsigned arithmetic of 32 bits. */
  function Wrapped(n: int): int { n % 0x1_0000_0000 }

  function Min(a: int, b: int): int { if a < b then a else b }
  function Max(a: int, b: int): int { if a > b then a else b }

  function CalcSignal(b: Bucket): int { b.sum / b.count }

  function NewLength(length: nat): Bucket {
    Bucket(1, length, length / 100 * 100, length / 100 * 100 + 99, length, length)
  }

  function Extended(b: Bucket, length: nat): Bucket {
    b.(count := b.count + 1, sum := b.sum + length, min := Min(b.min, length), max := Max(b.max, length))
  }

  function Joined(a: Bucket, b: Bucket): Bucket {
    Bucket(a.count + b.count, a.sum + b.sum, Min(a.lower, b.lower), Max(a.upper, b.upper),
           Min(a.min, b.min), Max(a.max, b.max))
  }

  /** The tolerances irrecord merges with. */
  datatype Tolerance = Tolerance(eps: nat, aeps: nat)
  {
    predicate Valid() { eps <= 98 && aeps <= PULSE_MASK }

    /** Whether both buckets are within aeps of their common mean. */
    predicate WithinAeps(a: Bucket, b: Bucket) {
      var mean := CalcSignal(Joined(a, b));
      a.max <= mean + aeps && a.min + aeps >= mean && b.max <= mean + aeps && b.min + aeps >= mean
    }

    /** The other test, whose bounds are a hundred times what a percentage would be. */
    predicate WithinEps(a: Bucket, b: Bucket) {
      var mean := CalcSignal(Joined(a, b));
      var high, low := Wrapped(mean * (100 + eps)), Wrapped(mean * (100 - eps));
      a.max <= high && a.min >= low && b.max <= high && b.min >= low
    }

    predicate Merges(a: Bucket, b: Bucket) { WithinAeps(a, b) || WithinEps(a, b) }
  }

  // ----- the two operations as functions

  predicate Covers(b: Bucket, length: nat) { b.lower <= length <= b.upper }

  /** The length goes to the first bucket that covers it, or to a new one at the end. */
  function Add(bs: seq<Bucket>, length: nat): seq<Bucket> {
    if bs == [] then [NewLength(length)]
    else if Covers(bs[0], length) then [Extended(bs[0], length)] + bs[1..]
    else [bs[0]] + Add(bs[1..], length)
  }

  /** A bucket takes in those of the later ones that it merges with, growing as it goes. */
  function Grown(t: Tolerance, l: Bucket, rest: seq<Bucket>): Bucket
    decreases rest
  {
    if rest == [] then l else Grown(t, if t.Merges(l, rest[0]) then Joined(l, rest[0]) else l, rest[1..])
  }

  function Kept(t: Tolerance, l: Bucket, rest: seq<Bucket>): (kept: seq<Bucket>)
    ensures |kept| <= |rest|
    decreases rest
  {
    if rest == [] then []
    else if t.Merges(l, rest[0]) then Kept(t, Joined(l, rest[0]), rest[1..])
    else [rest[0]] + Kept(t, l, rest[1..])
  }

  function Merged(t: Tolerance, bs: seq<Bucket>): seq<Bucket>
    decreases |bs|
  {
    if bs == [] then [] else [Grown(t, bs[0], bs[1..])] + Merged(t, Kept(t, bs[0], bs[1..]))
  }

  function TotalCount(bs: seq<Bucket>): nat {
    if bs == [] then 0 else bs[0].count + TotalCount(bs[1..])
  }

  function TotalSum(bs: seq<Bucket>): int {
    if bs == [] then 0 else bs[0].sum + TotalSum(bs[1..])
  }

  // ----- the code

  class Histogram {
    const tolerance: Tolerance
    var buckets: seq<Bucket>

    /** The totals fit the source's int; no arithmetic on bounds or sums then overflows. */
    ghost predicate Valid()
      reads this
    {
      tolerance.Valid() && TotalCount(buckets) <= MAX_TOTAL && TotalSum(buckets) <= MAX_TOTAL
    }

    constructor (tolerance: Tolerance)
      requires tolerance.Valid()
      ensures Valid() && buckets == [] && this.tolerance == tolerance
    {
      this.tolerance := tolerance;
      buckets := [];
    }

    method AddLength(length: nat)
      requires Valid() && TotalCount(buckets) < MAX_TOTAL && TotalSum(buckets) + length <= MAX_TOTAL
      modifies this`buckets
      ensures Valid() && buckets == Add(old(buckets), length)
    {
      ghost var before := buckets;
      AddTotals(before, length);
      hide Add, Extended, NewLength, TotalCount, TotalSum;
      assert before[0..] == before;
      var i := 0;
      while i < |buckets|
        invariant i <= |buckets| && buckets == before
        invariant Add(before, length) == before[..i] + Add(before[i..], length)
      {
        AddStep(before, length, i);
        if buckets[i].lower <= length && length <= buckets[i].upper {
          buckets := buckets[i := Extended(buckets[i], length)];
          assert buckets == Add(before, length);
          return;
        }
        i := i + 1;
      }
      AddEnd(length);
      assert before[i..] == [] && before[..i] == before;
      buckets := buckets + [NewLength(length)];
      assert buckets == Add(before, length);
    }

    /** For each bucket, the inner loop takes the later ones it merges with out of the list. */
    method MergeLengths()
      requires Valid()
      modifies this`buckets
      ensures Valid() && buckets == Merged(tolerance, old(buckets))
    {
      MergedTotals(tolerance, buckets);
      ghost var goal := Merged(tolerance, buckets);
      hide Merged, Grown, Kept, TotalCount, TotalSum, Joined, Tolerance.Merges;
      assert buckets[..0] == [] && buckets[0..] == buckets;
      var i := 0;
      while i < |buckets|
        invariant i <= |buckets| && buckets[..i] + Merged(tolerance, buckets[i..]) == goal
        decreases |buckets| - i
      {
        MergedStep(tolerance, buckets, i);
        MergeInto(i);
        i := i + 1;
      }
      MergedEnd(tolerance);
      assert buckets[i..] == [] && buckets[..i] == buckets;
      assert buckets == goal;
    }

    /** The inner loop, for bucket i. */
    method MergeInto(i: nat)
      requires i < |buckets|
      modifies this`buckets
      ensures buckets == old(buckets[..i]) + [Grown(tolerance, old(buckets[i]), old(buckets[i + 1..]))]
                         + Kept(tolerance, old(buckets[i]), old(buckets[i + 1..]))
    {
      hide Grown, Kept, Joined, Tolerance.Merges, Growing;
      ghost var front, l0, rest0 := buckets[..i], buckets[i], buckets[i + 1..];
      GrowingStart(tolerance, buckets, i);
      var inner := i + 1;
      while inner < |buckets|
        invariant i < inner <= |buckets| && buckets[..i] == front
        invariant Growing(tolerance, buckets, i, inner, l0, rest0)
        decreases |buckets| - inner
      {
        GrowingStep(tolerance, buckets, i, inner, l0, rest0);
        var l := buckets[i];
        if tolerance.Merges(l, buckets[inner]) {
          buckets := buckets[i := Joined(l, buckets[inner])];
          buckets := buckets[..inner] + buckets[inner + 1..];
        } else {
          inner := inner + 1;
        }
      }
      GrowingDone(tolerance, buckets, i, inner, l0, rest0);
      assert buckets == buckets[..i] + [buckets[i]] + buckets[i + 1..];
    }
  }

  lemma AddStep(bs: seq<Bucket>, length: nat, i: nat)
    requires i < |bs|
    ensures bs[..i] + Add(bs[i..], length) ==
            if Covers(bs[i], length) then bs[i := Extended(bs[i], length)]
            else bs[..i + 1] + Add(bs[i + 1..], length)
  {
    assert bs[i..][1..] == bs[i + 1..];
    assert bs[..i + 1] == bs[..i] + [bs[i]];
  }

  lemma AddEnd(length: nat)
    ensures Add([], length) == [NewLength(length)]
  {}

  lemma MergedStep(t: Tolerance, bs: seq<Bucket>, i: nat)
    requires i < |bs|
    ensures Merged(t, bs[i..]) == [Grown(t, bs[i], bs[i + 1..])] + Merged(t, Kept(t, bs[i], bs[i + 1..]))
  {
    assert bs[i..][1..] == bs[i + 1..];
  }

  lemma MergedEnd(t: Tolerance)
    ensures Merged(t, []) == []
  {}

  lemma GrowingStart(t: Tolerance, bs: seq<Bucket>, i: nat)
    requires i < |bs|
    ensures Growing(t, bs, i, i + 1, bs[i], bs[i + 1..])
  {}

  /** The state of the inner loop: what it still does with the later buckets completes what there is
      to do for bucket i. */
  ghost predicate Growing(t: Tolerance, bs: seq<Bucket>, i: nat, inner: nat, l0: Bucket, rest0: seq<Bucket>) {
    && i < inner <= |bs| && |bs| - i - 1 <= |rest0|
    && Grown(t, bs[i], bs[inner..]) == Grown(t, l0, rest0)
    && bs[i + 1..inner] + Kept(t, bs[i], bs[inner..]) == Kept(t, l0, rest0)
  }

  lemma GrowingStep(t: Tolerance, bs: seq<Bucket>, i: nat, inner: nat, l0: Bucket, rest0: seq<Bucket>)
    requires Growing(t, bs, i, inner, l0, rest0) && inner < |bs|
    ensures if t.Merges(bs[i], bs[inner]) then
              var joined := bs[i := Joined(bs[i], bs[inner])];
              Growing(t, joined[..inner] + joined[inner + 1..], i, inner, l0, rest0)
            else Growing(t, bs, i, inner + 1, l0, rest0)
  {
    assert bs[inner..][1..] == bs[inner + 1..];
    if t.Merges(bs[i], bs[inner]) {
      var joined := bs[i := Joined(bs[i], bs[inner])];
      var bs' := joined[..inner] + joined[inner + 1..];
      assert bs'[inner..] == bs[inner + 1..];
      assert bs'[i + 1..inner] == bs[i + 1..inner];
    } else {
      assert bs[i + 1..inner + 1] == bs[i + 1..inner] + [bs[inner]];
    }
  }

  lemma GrowingDone(t: Tolerance, bs: seq<Bucket>, i: nat, inner: nat, l0: Bucket, rest0: seq<Bucket>)
    requires Growing(t, bs, i, inner, l0, rest0) && inner == |bs|
    ensures bs[i] == Grown(t, l0, rest0) && bs[i + 1..] == Kept(t, l0, rest0)
  {
    assert bs[inner..] == [];
    assert bs[i + 1..inner] == bs[i + 1..];
  }

  // ----- conservation

  lemma {:induction false} AddTotals(bs: seq<Bucket>, length: nat)
    ensures TotalCount(Add(bs, length)) == TotalCount(bs) + 1
    ensures TotalSum(Add(bs, length)) == TotalSum(bs) + length
  {
    if bs != [] && !Covers(bs[0], length) {
      AddTotals(bs[1..], length);
    }
  }

  lemma {:induction false} GrownTotals(t: Tolerance, l: Bucket, rest: seq<Bucket>)
    ensures Grown(t, l, rest).count + TotalCount(Kept(t, l, rest)) == l.count + TotalCount(rest)
    ensures Grown(t, l, rest).sum + TotalSum(Kept(t, l, rest)) == l.sum + TotalSum(rest)
    decreases rest
  {
    if rest != [] {
      GrownTotals(t, if t.Merges(l, rest[0]) then Joined(l, rest[0]) else l, rest[1..]);
    }
  }

  lemma {:induction false} MergedTotals(t: Tolerance, bs: seq<Bucket>)
    ensures TotalCount(Merged(t, bs)) == TotalCount(bs)
    ensures TotalSum(Merged(t, bs)) == TotalSum(bs)
    decreases |bs|
  {
    if bs != [] {
      GrownTotals(t, bs[0], bs[1..]);
      MergedTotals(t, Kept(t, bs[0], bs[1..]));
    }
  }

  // ----- the groups behind the buckets

  function Sum(g: seq<int>): int {
    if g == [] then 0 else g[0] + Sum(g[1..])
  }

  lemma {:induction false} SumConcat(a: seq<int>, b: seq<int>)
    ensures Sum(a + b) == Sum(a) + Sum(b)
  {
    if a == [] {
      assert a + b == b;
    } else {
      assert (a + b)[1..] == a[1..] + b;
      SumConcat(a[1..], b);
    }
  }

  /** The bucket's numbers are exactly those of a group of lengths, and its bounds are less than a
      hundred beyond the smallest and the largest of them. */
  ghost predicate Describes(b: Bucket, g: seq<int>) {
    && |g| == b.count && Sum(g) == b.sum
    && b.min in g && b.max in g
    && (forall x | x in g :: b.min <= x <= b.max)
    && 0 <= b.lower <= b.min < b.lower + 100 && b.upper - 100 < b.max <= b.upper
  }

  ghost predicate DescribeAll(bs: seq<Bucket>, gs: seq<seq<int>>) {
    |bs| == |gs| && forall i | 0 <= i < |bs| :: Describes(bs[i], gs[i])
  }

  function Flat(gs: seq<seq<int>>): seq<int> {
    if gs == [] then [] else gs[0] + Flat(gs[1..])
  }

  /** The buckets describe a partition of the lengths into groups. */
  ghost predicate Partition(bs: seq<Bucket>, lengths: multiset<int>) {
    exists gs :: DescribeAll(bs, gs) && multiset(Flat(gs)) == lengths
  }

  lemma Cons(b: Bucket, g: seq<int>, bs: seq<Bucket>, gs: seq<seq<int>>)
    requires Describes(b, g) && DescribeAll(bs, gs)
    ensures DescribeAll([b] + bs, [g] + gs) && Flat([g] + gs) == g + Flat(gs)
  {
    assert ([g] + gs)[1..] == gs;
  }

  lemma JoinedDescribes(a: Bucket, g: seq<int>, b: Bucket, h: seq<int>)
    requires Describes(a, g) && Describes(b, h)
    ensures Describes(Joined(a, b), g + h)
  {
    SumConcat(g, h);
  }

  lemma ExtendedDescribes(b: Bucket, g: seq<int>, length: nat)
    requires Describes(b, g) && Covers(b, length)
    ensures Describes(Extended(b, length), g + [length])
  {
    SumConcat(g, [length]);
  }

  lemma {:induction false} AddGroups(bs: seq<Bucket>, gs: seq<seq<int>>, length: nat) returns (gs': seq<seq<int>>)
    requires DescribeAll(bs, gs)
    ensures DescribeAll(Add(bs, length), gs')
    ensures multiset(Flat(gs')) == multiset(Flat(gs)) + multiset{length}
  {
    if bs == [] {
      gs' := [[length]];
      assert Describes(NewLength(length), [length]) by { assert Sum([length]) == length + Sum([length][1..]); }
      assert gs'[1..] == [] && Flat(gs') == [length];
    } else if Covers(bs[0], length) {
      ExtendedDescribes(bs[0], gs[0], length);
      Cons(Extended(bs[0], length), gs[0] + [length], bs[1..], gs[1..]);
      gs' := [gs[0] + [length]] + gs[1..];
    } else {
      var later := AddGroups(bs[1..], gs[1..], length);
      Cons(bs[0], gs[0], Add(bs[1..], length), later);
      gs' := [gs[0]] + later;
    }
  }

  lemma {:induction false} GrownGroups(t: Tolerance, l: Bucket, g: seq<int>, rest: seq<Bucket>, gs: seq<seq<int>>)
    returns (g': seq<int>, gs': seq<seq<int>>)
    requires Describes(l, g) && DescribeAll(rest, gs)
    ensures Describes(Grown(t, l, rest), g') && DescribeAll(Kept(t, l, rest), gs')
    ensures multiset(g' + Flat(gs')) == multiset(g + Flat(gs))
    decreases rest
  {
    if rest == [] {
      g', gs' := g, [];
    } else if t.Merges(l, rest[0]) {
      JoinedDescribes(l, g, rest[0], gs[0]);
      g', gs' := GrownGroups(t, Joined(l, rest[0]), g + gs[0], rest[1..], gs[1..]);
      assert g + gs[0] + Flat(gs[1..]) == g + Flat(gs);
    } else {
      var later;
      g', later := GrownGroups(t, l, g, rest[1..], gs[1..]);
      Cons(rest[0], gs[0], Kept(t, l, rest[1..]), later);
      gs' := [gs[0]] + later;
      assert multiset(g' + Flat(gs')) == multiset(gs[0]) + multiset(g' + Flat(later));
      assert multiset(g + Flat(gs)) == multiset(gs[0]) + multiset(g + Flat(gs[1..]));
    }
  }

  lemma {:induction false} MergedGroups(t: Tolerance, bs: seq<Bucket>, gs: seq<seq<int>>) returns (gs': seq<seq<int>>)
    requires DescribeAll(bs, gs)
    ensures DescribeAll(Merged(t, bs), gs') && multiset(Flat(gs')) == multiset(Flat(gs))
    decreases |bs|
  {
    if bs == [] {
      gs' := gs;
    } else {
      var g', kept := GrownGroups(t, bs[0], gs[0], bs[1..], gs[1..]);
      var later := MergedGroups(t, Kept(t, bs[0], bs[1..]), kept);
      Cons(Grown(t, bs[0], bs[1..]), g', Merged(t, Kept(t, bs[0], bs[1..])), later);
      gs' := [g'] + later;
      assert multiset(Flat(gs')) == multiset(g') + multiset(Flat(later)) == multiset(g' + Flat(kept));
    }
  }

  // ----- runs

  datatype Step = Sample(length: nat) | Merge

  function After(t: Tolerance, steps: seq<Step>): seq<Bucket> {
    if steps == [] then []
    else
      var bs := After(t, steps[..|steps| - 1]);
      match steps[|steps| - 1]
      case Sample(length) => Add(bs, length)
      case Merge => Merged(t, bs)
  }

  function Samples(steps: seq<Step>): seq<int> {
    if steps == [] then []
    else
      Samples(steps[..|steps| - 1])
      + match steps[|steps| - 1]
        case Sample(length) => [length]
        case Merge => []
  }

  /** After any run of additions and merges, the buckets describe a partition of all the lengths
      added: each counts, sums up and bounds exactly one group. */
  lemma {:induction false} HistogramPartitions(t: Tolerance, steps: seq<Step>)
    ensures Partition(After(t, steps), multiset(Samples(steps)))
  {
    if steps == [] {
      assert DescribeAll([], []) && Flat([]) == [];
    } else {
      var before := steps[..|steps| - 1];
      HistogramPartitions(t, before);
      var bs := After(t, before);
      var gs :| DescribeAll(bs, gs) && multiset(Flat(gs)) == multiset(Samples(before));
      match steps[|steps| - 1] {
        case Sample(length) =>
          var gs' := AddGroups(bs, gs, length);
        case Merge =>
          var gs' := MergedGroups(t, bs, gs);
          assert Samples(steps) == Samples(before);
      }
    }
  }

  /** The totals over the list are those of the lengths added. */
  lemma {:induction false} HistogramConserves(t: Tolerance, steps: seq<Step>)
    ensures TotalCount(After(t, steps)) == |Samples(steps)|
    ensures TotalSum(After(t, steps)) == Sum(Samples(steps))
  {
    if steps != [] {
      var before := steps[..|steps| - 1];
      HistogramConserves(t, before);
      match steps[|steps| - 1] {
        case Sample(length) =>
          AddTotals(After(t, before), length);
          SumConcat(Samples(before), [length]);
        case Merge =>
          MergedTotals(t, After(t, before));
          assert Samples(steps) == Samples(before);
      }
    }
  }

  // ----- which lengths go together

  predicate OnlySamples(steps: seq<Step>) {
    forall i | 0 <= i < |steps| :: steps[i].Sample?
  }

  /** Where the hundred begins that the length lies in. */
  function Hundred(length: int): int { length / 100 * 100 }

  /** How many of the lengths lie in the hundred that begins with `lower`. */
  function CountIn(lengths: seq<int>, lower: int): nat {
    if lengths == [] then 0
    else CountIn(lengths[..|lengths| - 1], lower) + if Hundred(lengths[|lengths| - 1]) == lower then 1 else 0
  }

  /** Buckets of a hundred each, and of different ones. */
  ghost predicate Apart(bs: seq<Bucket>) {
    && (forall i | 0 <= i < |bs| :: bs[i].lower % 100 == 0 && bs[i].upper == bs[i].lower + 99)
    && (forall i, j | 0 <= i < j < |bs| :: bs[i].lower != bs[j].lower)
  }

  ghost predicate Occurs(bs: seq<Bucket>, lower: int) {
    exists i :: 0 <= i < |bs| && bs[i].lower == lower
  }

  /** A bucket each for the hundreds that occur, counting the lengths in it. */
  ghost predicate ByHundreds(bs: seq<Bucket>, lengths: seq<int>) {
    && Apart(bs)
    && (forall i | 0 <= i < |bs| :: bs[i].count == CountIn(lengths, bs[i].lower))
    && (forall k | 0 <= k < |lengths| :: Occurs(bs, Hundred(lengths[k])))
  }

  lemma InHundred(length: int, lower: int)
    requires lower % 100 == 0
    ensures lower <= length <= lower + 99 <==> Hundred(length) == lower
  {}

  lemma NewHundred(length: nat)
    ensures var b := NewLength(length);
            b.lower == Hundred(length) && b.lower % 100 == 0 && b.upper == b.lower + 99 && b.count == 1
  {}

  /** Where the length goes: to the bucket of its hundred, or to a new one at the end. */
  lemma {:induction false} AddedWhere(bs: seq<Bucket>, length: nat)
    requires Apart(bs)
    ensures var bs', hundred := Add(bs, length), Hundred(length);
            || (exists k ::
                  && 0 <= k < |bs| && bs[k].lower == hundred
                  && bs' == bs[k := Extended(bs[k], length)])
            || ((forall k | 0 <= k < |bs| :: bs[k].lower != hundred) && bs' == bs + [NewLength(length)])
  {
    hide Hundred, NewLength;
    if bs != [] {
      InHundred(length, bs[0].lower);
      if Covers(bs[0], length) {
        assert Add(bs, length) == bs[0 := Extended(bs[0], length)];
      } else {
        var later := bs[1..];
        AddedWhere(later, length);
        var hundred := Hundred(length);
        if k :|
          && 0 <= k < |later| && later[k].lower == hundred
          && Add(later, length) == later[k := Extended(later[k], length)] {
          assert Add(bs, length) == bs[k + 1 := Extended(bs[k + 1], length)];
        } else {
          assert Add(bs, length) == bs + [NewLength(length)];
          forall k | 0 <= k < |bs| ensures bs[k].lower != hundred {
            if k > 0 { assert later[k - 1] == bs[k]; }
          }
        }
      }
    }
  }

  lemma {:induction false} NoneIn(lengths: seq<int>, lower: int)
    requires forall k | 0 <= k < |lengths| :: Hundred(lengths[k]) != lower
    ensures CountIn(lengths, lower) == 0
  {
    hide Hundred;
    if lengths != [] {
      NoneIn(lengths[..|lengths| - 1], lower);
    }
  }

  lemma CountMore(lengths: seq<int>, length: int, lower: int)
    ensures CountIn(lengths + [length], lower) == CountIn(lengths, lower) + if Hundred(length) == lower then 1 else 0
  {
    hide Hundred;
    assert (lengths + [length])[..|lengths|] == lengths;
  }

  lemma AddNewHundred(bs: seq<Bucket>, lengths: seq<int>, length: nat)
    requires ByHundreds(bs, lengths) && forall k | 0 <= k < |bs| :: bs[k].lower != Hundred(length)
    ensures ByHundreds(bs + [NewLength(length)], lengths + [length])
  {
    hide CountIn, Hundred, NewLength;
    var bs', all, hundred := bs + [NewLength(length)], lengths + [length], Hundred(length);
    NewHundred(length);
    assert Apart(bs') by {
      forall i, j | 0 <= i < j < |bs'| ensures bs'[i].lower != bs'[j].lower {
        assert bs'[i] == bs[i];
        if j < |bs| { assert bs'[j] == bs[j]; }
      }
      forall i | 0 <= i < |bs'| ensures bs'[i].lower % 100 == 0 && bs'[i].upper == bs'[i].lower + 99 {
        if i < |bs| { assert bs'[i] == bs[i]; }
      }
    }
    assert !Occurs(bs, hundred);
    assert forall k | 0 <= k < |lengths| :: Occurs(bs, Hundred(lengths[k]));
    NoneIn(lengths, hundred);
    forall i | 0 <= i < |bs'| ensures bs'[i].count == CountIn(all, bs'[i].lower) {
      CountMore(lengths, length, bs'[i].lower);
    }
    forall k | 0 <= k < |all| ensures Occurs(bs', Hundred(all[k])) {
      if k < |lengths| {
        assert Occurs(bs, Hundred(lengths[k]));
        var i :| 0 <= i < |bs| && bs[i].lower == Hundred(lengths[k]);
        assert bs'[i] == bs[i];
      } else {
        assert bs'[|bs|].lower == hundred;
      }
    }
  }

  lemma AddOldHundred(bs: seq<Bucket>, lengths: seq<int>, length: nat, n: nat)
    requires ByHundreds(bs, lengths) && n < |bs| && bs[n].lower == Hundred(length)
    ensures ByHundreds(bs[n := Extended(bs[n], length)], lengths + [length])
  {
    hide CountIn, Hundred;
    var bs', all, hundred := bs[n := Extended(bs[n], length)], lengths + [length], Hundred(length);
    forall i | 0 <= i < |bs'| ensures bs'[i].lower == bs[i].lower && bs'[i].upper == bs[i].upper
    ensures bs'[i].count == CountIn(all, bs'[i].lower) {
      CountMore(lengths, length, bs[i].lower);
      assert i < n ==> bs[i].lower != bs[n].lower;
      assert n < i ==> bs[n].lower != bs[i].lower;
    }
    forall k | 0 <= k < |all| ensures Occurs(bs', Hundred(all[k])) {
      if k < |lengths| {
        assert Occurs(bs, Hundred(lengths[k]));
        var i :| 0 <= i < |bs| && bs[i].lower == Hundred(lengths[k]);
        assert bs'[i].lower == bs[i].lower;
      } else {
        assert bs'[n].lower == hundred;
      }
    }
  }

  lemma AddByHundreds(bs: seq<Bucket>, lengths: seq<int>, length: nat)
    requires ByHundreds(bs, lengths)
    ensures ByHundreds(Add(bs, length), lengths + [length])
  {
    hide Add, CountIn, Hundred, NewLength, Apart;
    AddedWhere(bs, length);
    if forall k | 0 <= k < |bs| :: bs[k].lower != Hundred(length) {
      AddNewHundred(bs, lengths, length);
    } else {
      var n :|
        && 0 <= n < |bs| && bs[n].lower == Hundred(length)
        && Add(bs, length) == bs[n := Extended(bs[n], length)];
      AddOldHundred(bs, lengths, length, n);
    }
  }

  /** Before any merge two lengths are in one bucket exactly if they agree in their hundreds: there is one
      bucket for each hundred that occurs, and it counts all lengths in that. */
  lemma {:induction false} SamplesByHundreds(t: Tolerance, steps: seq<Step>)
    requires OnlySamples(steps)
    ensures ByHundreds(After(t, steps), Samples(steps))
  {
    hide ByHundreds, Add;
    if steps == [] {
      NothingByHundreds();
    } else {
      var before := steps[..|steps| - 1];
      SamplesByHundreds(t, before);
      AddByHundreds(After(t, before), Samples(before), steps[|steps| - 1].length);
    }
  }

  lemma NothingByHundreds()
    ensures ByHundreds([], [])
  {}

  /** The first of the later buckets that merges with the one at hand is taken in, and those before it stay. */
  lemma {:induction false} FirstPartner(t: Tolerance, l: Bucket, rest: seq<Bucket>, k: nat)
    requires k < |rest| && t.Merges(l, rest[k]) && forall i | 0 <= i < k :: !t.Merges(l, rest[i])
    ensures Grown(t, l, rest) == Grown(t, Joined(l, rest[k]), rest[k + 1..])
    ensures Kept(t, l, rest) == rest[..k] + Kept(t, Joined(l, rest[k]), rest[k + 1..])
    decreases k
  {
    hide Tolerance.Merges, Joined;
    if k > 0 {
      assert rest[1..][k - 1] == rest[k] && rest[1..][k..] == rest[k + 1..];
      assert forall i | 0 <= i < k - 1 :: rest[1..][i] == rest[i + 1];
      FirstPartner(t, l, rest[1..], k - 1);
      assert rest[..k] == [rest[0]] + rest[1..][..k - 1];
    }
  }

  /** Two buckets become one exactly if they merge. */
  lemma TwoMerge(t: Tolerance, a: Bucket, b: Bucket)
    ensures Merged(t, [a, b]) == if t.Merges(a, b) then [Joined(a, b)] else [a, b]
  {
    hide Tolerance.Merges;
    assert [a, b][1..] == [b] && [b][1..] == [];
    assert Grown(t, a, [b]) == if t.Merges(a, b) then Joined(a, b) else a;
    assert Kept(t, a, [b]) == if t.Merges(a, b) then [] else [b];
    assert Grown(t, b, []) == b && Kept(t, b, []) == [];
    assert Merged(t, []) == [];
    assert Merged(t, [b]) == [Grown(t, b, [b][1..])] + Merged(t, Kept(t, b, [b][1..]));
    assert Merged(t, [a, b]) == [Grown(t, a, [a, b][1..])] + Merged(t, Kept(t, a, [a, b][1..]));
  }

  // ----- the mean

  lemma {:induction false} SumBounds(g: seq<int>, lo: int, hi: int)
    requires forall x | x in g :: lo <= x <= hi
    ensures lo * |g| <= Sum(g) <= hi * |g|
  {
    if g != [] {
      assert forall x | x in g[1..] :: x in g;
      assert g[0] in g;
      SumBounds(g[1..], lo, hi);
      Distributed(lo, |g[1..]|, 1);
      Distributed(hi, |g[1..]|, 1);
    }
  }

  lemma DivBounds(a: int, n: int, lo: int, hi: int)
    requires n > 0 && lo * n <= a <= hi * n
    ensures lo <= a / n <= hi
  {
    DivBelow(a, n, lo);
    DivBelow(a, n, hi + 1);
  }

  lemma DivBelow(a: int, n: int, lo: int)
    requires n > 0
    ensures a / n < lo <==> a < lo * n
  {
    var q, k := a / n, lo;
    assert a == q * n + a % n;
    if q < k {
      assert (q + 1) * n <= k * n;
    } else {
      assert q * n >= k * n;
    }
  }

  /** What calc_signal delivers for a bucket is the mean of its group, so it lies between two
      lengths that were really seen. */
  lemma SignalIsMean(b: Bucket, g: seq<int>)
    requires Describes(b, g)
    ensures CalcSignal(b) == Sum(g) / |g| && b.min <= CalcSignal(b) <= b.max
    ensures b.min * b.count <= b.sum <= b.max * b.count
  {
    SumBounds(g, b.min, b.max);
    DivBounds(b.sum, b.count, b.min, b.max);
  }

  // ----- what merging really looks at

  /** Lengths as received: positive and at most PULSE_MASK. */
  predicate Received(b: Bucket) {
    1 <= b.min <= b.max <= PULSE_MASK && b.min * b.count <= b.sum <= b.max * b.count
  }

  lemma ScaledBounds(lo: int, hi: int, a: Bucket, b: Bucket)
    requires Received(a) && Received(b) && lo <= a.min && lo <= b.min && a.max <= hi && b.max <= hi
    ensures lo * (a.count + b.count) <= a.sum + b.sum <= hi * (a.count + b.count)
  {
    Scaled(lo, a.min, a.count);
    Scaled(lo, b.min, b.count);
    Scaled(a.max, hi, a.count);
    Scaled(b.max, hi, b.count);
    Distributed(lo, a.count, b.count);
    Distributed(hi, a.count, b.count);
  }

  lemma Scaled(x: int, y: int, n: nat)
    requires x <= y
    ensures x * n <= y * n
  {}

  lemma Distributed(x: int, m: int, n: int)
    ensures x * (m + n) == x * m + x * n
  {}

  lemma JoinedMean(a: Bucket, b: Bucket, lo: int, hi: int)
    requires Received(a) && Received(b) && lo <= a.min && lo <= b.min && a.max <= hi && b.max <= hi
    ensures lo <= CalcSignal(Joined(a, b)) <= hi
  {
    ScaledBounds(lo, hi, a, b);
    DivBounds(a.sum + b.sum, a.count + b.count, lo, hi);
  }

  /** The test that was meant as a percentage never holds of received lengths: both minima would
      have to be at least twice the mean. So buckets merge only when within aeps. */
  lemma OnlyAepsMerges(t: Tolerance, a: Bucket, b: Bucket)
    requires t.Valid() && Received(a) && Received(b)
    ensures t.Merges(a, b) <==> t.WithinAeps(a, b)
  {
    var mean, lo := CalcSignal(Joined(a, b)), Min(a.min, b.min);
    JoinedMean(a, b, lo, PULSE_MASK);
    hide CalcSignal, Wrapped;
    LowIsTwice(mean, t.eps);
  }

  lemma LowIsTwice(mean: int, eps: nat)
    requires 1 <= mean <= PULSE_MASK && eps <= 98
    ensures Wrapped(mean * (100 - eps)) >= 2 * mean
  {
    hide Wrapped;
    var low := (100 - eps) * mean;
    Scaled(2, 100 - eps, mean);
    Scaled(100 - eps, 100, mean);
    assert mean * (100 - eps) == low;
    NotWrapped(low);
  }

  lemma NotWrapped(n: int)
    requires 0 <= n < 0x1_0000_0000
    ensures Wrapped(n) == n
  {}

  /** A bucket never gets wider than one merge can make it. */
  ghost predicate Narrow(t: Tolerance, b: Bucket) {
    && Received(b) && 0 <= b.lower <= b.min < b.lower + 100 && b.upper - 100 < b.max <= b.upper
    && b.upper - b.lower <= 2 * t.aeps + 198
  }

  ghost predicate AllNarrow(t: Tolerance, bs: seq<Bucket>) {
    forall i | 0 <= i < |bs| :: Narrow(t, bs[i])
  }

  lemma JoinedNarrow(t: Tolerance, a: Bucket, b: Bucket)
    requires t.Valid() && Narrow(t, a) && Narrow(t, b) && t.Merges(a, b)
    ensures Narrow(t, Joined(a, b))
  {
    OnlyAepsMerges(t, a, b);
    ScaledBounds(Min(a.min, b.min), Max(a.max, b.max), a, b);
    hide CalcSignal, Tolerance.Merges;
  }

  lemma ExtendedNarrow(t: Tolerance, b: Bucket, length: nat)
    requires t.Valid() && Narrow(t, b) && 1 <= length <= PULSE_MASK && Covers(b, length)
    ensures Narrow(t, Extended(b, length))
  {
    hide CalcSignal;
    var b' := Extended(b, length);
    Distributed(b'.min, b.count, 1);
    Distributed(b'.max, b.count, 1);
    Scaled(b'.min, b.min, b.count);
    Scaled(b.max, b'.max, b.count);
  }

  lemma {:induction false} AddNarrow(t: Tolerance, bs: seq<Bucket>, length: nat)
    requires t.Valid() && AllNarrow(t, bs) && 1 <= length <= PULSE_MASK
    ensures AllNarrow(t, Add(bs, length))
  {
    if bs != [] {
      if Covers(bs[0], length) {
        ExtendedNarrow(t, bs[0], length);
      } else {
        AddNarrow(t, bs[1..], length);
      }
    }
  }

  lemma {:induction false} GrownNarrow(t: Tolerance, l: Bucket, rest: seq<Bucket>)
    requires t.Valid() && Narrow(t, l) && AllNarrow(t, rest)
    ensures Narrow(t, Grown(t, l, rest)) && AllNarrow(t, Kept(t, l, rest))
    decreases rest
  {
    if rest != [] {
      if t.Merges(l, rest[0]) {
        JoinedNarrow(t, l, rest[0]);
        GrownNarrow(t, Joined(l, rest[0]), rest[1..]);
      } else {
        GrownNarrow(t, l, rest[1..]);
      }
    }
  }

  lemma {:induction false} MergedNarrow(t: Tolerance, bs: seq<Bucket>)
    requires t.Valid() && AllNarrow(t, bs)
    ensures AllNarrow(t, Merged(t, bs))
    decreases |bs|
  {
    if bs != [] {
      GrownNarrow(t, bs[0], bs[1..]);
      MergedNarrow(t, Kept(t, bs[0], bs[1..]));
    }
  }

  /** However often lengths are added and buckets merged and extended again, no bucket's range ever
      exceeds twice the tolerance and two hundreds: the groups do not creep together. */
  lemma {:induction false} BucketsStayNarrow(t: Tolerance, steps: seq<Step>)
    requires t.Valid() && forall x | x in Samples(steps) :: 1 <= x <= PULSE_MASK
    ensures AllNarrow(t, After(t, steps))
  {
    if steps != [] {
      var before := steps[..|steps| - 1];
      assert forall x | x in Samples(before) :: x in Samples(steps);
      BucketsStayNarrow(t, before);
      match steps[|steps| - 1] {
        case Sample(length) =>
          assert length in Samples(steps);
          AddNarrow(t, After(t, before), length);
        case Merge =>
          MergedNarrow(t, After(t, before));
      }
    }
  }
}
