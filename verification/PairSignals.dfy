/** Whole RC-MM and XMP signals read back, also when a lead pulse is pending all the time that pulses and
    spaces are read together, and when no trailing pulse shows where the last space ends. */
module PairSignals {
  import opened Options
  import opened Words
  import opened Waveform
  import opened Remotes
  import opened Transmit
  import opened Decoding
  import opened OnAir
  import opened Codec
  import opened Tolerances
  import opened PairCodes

  /** An RC-MM or XMP remote with positive durations and fields of whole symbols. */
  predicate PairCoded(r: Remote) {
    && 0 < r.BitCount() <= 64 && (r.ptrail > 0 || r.bits > 0 || r.HasPost())
    && r.pzero > 0 && r.szero > 0 && r.sone > 0
    && (r.protocol.Xmp? ||
        (r.protocol.Rcmm? && r.pone > 0 && r.ptwo > 0 && r.stwo > 0 && r.pthree > 0 && r.sthree > 0))
    && Aligned(r, r.preDataBits) && Aligned(r, r.bits) && Aligned(r, r.postDataBits)
  }

  // ----- pairs on the air

  /** The first pulse lengthened; the last space replaced. */
  function Stretched(pairs: seq<Pair>, l: nat): (ps: seq<Pair>)
    ensures |ps| == |pairs|
  {
    if pairs == [] then [] else pairs[0 := pairs[0].(p := pairs[0].p + l)]
  }

  function WithLast(pairs: seq<Pair>, q: nat): (ps: seq<Pair>)
    ensures |ps| == |pairs|
  {
    if pairs == [] then [] else pairs[|pairs| - 1 := pairs[|pairs| - 1].(q := q)]
  }

  /** A train whose first pulse has a pulse of l microseconds in front of it. */
  function Stretch(cs: seq<Half>, l: nat): seq<Half> {
    if cs == [] || cs[0].Space? then cs else [Pulse(cs[0].dur + l)] + cs[1..]
  }

  lemma StretchNone(cs: seq<Half>)
    ensures Stretch(cs, 0) == cs
  {}

  lemma TrainIs(pairs: seq<Pair>)
    requires pairs != []
    ensures PairTrain(pairs) == [Pulse(pairs[0].p), Space(pairs[0].q)] + PairTrain(pairs[1..])
    ensures PairTrain(pairs) != [] && PairTrain(pairs)[0].Pulse?
  {}

  lemma TrainBefore(pairs: seq<Pair>, rest: seq<Half>)
    requires pairs != []
    ensures PairTrain(pairs) + rest == [Pulse(pairs[0].p)] + ([Space(pairs[0].q)] + (PairTrain(pairs[1..]) + rest))
  {}

  lemma StretchFirst(p: int, after: seq<Half>, l: nat)
    ensures Stretch([Pulse(p)] + after, l) == [Pulse(p + l)] + after
  {}

  lemma StretchedFirst(pairs: seq<Pair>, l: nat)
    requires pairs != []
    ensures Stretched(pairs, l)[1..] == pairs[1..] && Stretched(pairs, l)[0] == Pair(pairs[0].p + l, pairs[0].q)
  {}

  lemma StretchPairs(pairs: seq<Pair>, rest: seq<Half>, l: nat)
    ensures Stretch(PairTrain(pairs) + rest, l) ==
            if pairs == [] then Stretch(rest, l) else PairTrain(Stretched(pairs, l)) + rest
  {
    hide PairTrain, Stretch, Stretched;
    if pairs == [] {
      EmptyTrain(rest);
    } else {
      StretchedFirst(pairs, l);
      TrainBefore(pairs, rest);
      TrainBefore(Stretched(pairs, l), rest);
      StretchFirst(pairs[0].p, [Space(pairs[0].q)] + (PairTrain(pairs[1..]) + rest), l);
    }
  }

  lemma PairTrainStart(pairs: seq<Pair>, rest: seq<Half>)
    requires rest != [] && rest[0].Pulse?
    ensures (PairTrain(pairs) + rest)[0].Pulse?
  {}

  lemma AirTwo(p: int, q: int, after: seq<Half>, gap: Silence)
    requires after != [] && after[0].Pulse?
    ensures Air([Pulse(p), Space(q)] + after, gap) == [Pulse(p), Space(q)] + Air(after, gap)
  {
    hide Air, Merge;
    assert [Pulse(p), Space(q)] + after == [Pulse(p)] + ([Space(q)] + after);
    AirUnlike(Pulse(p), [Space(q)] + after, gap);
    AirUnlike(Space(q), after, gap);
  }

  /** Pairs in front of a pulse reach the receiver as they are. */
  lemma {:induction false} AirPairs(pairs: seq<Pair>, rest: seq<Half>, gap: Silence)
    requires rest != [] && rest[0].Pulse?
    ensures Air(PairTrain(pairs) + rest, gap) == PairTrain(pairs) + Air(rest, gap)
  {
    hide Air, PairTrain;
    if pairs == [] {
      EmptyTrain(rest);
      EmptyTrain(Air(rest, gap));
    } else {
      var two, after := [Pulse(pairs[0].p), Space(pairs[0].q)], PairTrain(pairs[1..]) + rest;
      TrainIs(pairs);
      PairTrainStart(pairs[1..], rest);
      assert (two + PairTrain(pairs[1..])) + rest == two + after;
      AirTwo(pairs[0].p, pairs[0].q, after, gap);
      AirPairs(pairs[1..], rest, gap);
    }
  }

  lemma AirSpace(q: int, gap: Silence)
    ensures Air([Space(q)], gap) == gap
  {
    hide Alternating;
    NothingMerged();
    MergeUnlike(Space(q), []);
    assert [Space(q)] + [] == [Space(q)];
    assert [] + gap == gap;
  }

  lemma AirPulse(p: int, gap: Silence)
    ensures Air([Pulse(p)], gap) == [Pulse(p)] + gap
  {
    hide Alternating;
    NothingMerged();
    MergeUnlike(Pulse(p), []);
    assert [Pulse(p)] + [] == [Pulse(p)];
  }

  lemma WithLastNext(pairs: seq<Pair>, q: nat)
    requires |pairs| > 1
    ensures WithLast(pairs, q)[0] == pairs[0] && WithLast(pairs, q)[1..] == WithLast(pairs[1..], q)
  {}

  /** With nothing behind them the last space disappears in the silence. */
  lemma {:induction false} AirEnd(pairs: seq<Pair>, gap: Silence)
    requires pairs != []
    ensures Air(PairTrain(pairs), gap) == PairTrain(WithLast(pairs, gap[0].dur)) + gap[1..]
  {
    hide Air, Merge, PairTrain;
    if |pairs| == 1 {
      AirOneEnd(pairs[0], gap);
      assert pairs == [pairs[0]];
      assert WithLast(pairs, gap[0].dur) == [Pair(pairs[0].p, gap[0].dur)];
    } else {
      TrainIs(pairs);
      TrainIs(pairs[1..]);
      AirTwo(pairs[0].p, pairs[0].q, PairTrain(pairs[1..]), gap);
      AirEnd(pairs[1..], gap);
      WithLastNext(pairs, gap[0].dur);
      TrainIs(WithLast(pairs, gap[0].dur));
      assert ([Pulse(pairs[0].p), Space(pairs[0].q)] + PairTrain(WithLast(pairs[1..], gap[0].dur))) + gap[1..] ==
             [Pulse(pairs[0].p), Space(pairs[0].q)] + (PairTrain(WithLast(pairs[1..], gap[0].dur)) + gap[1..]);
    }
  }

  lemma AirOneEnd(pair: Pair, gap: Silence)
    ensures Air(PairTrain([pair]), gap) == PairTrain([Pair(pair.p, gap[0].dur)]) + gap[1..]
  {
    hide Air, Merge;
    var p, q := Pulse(pair.p), Space(pair.q);
    assert [pair][1..] == [] && [Pair(pair.p, gap[0].dur)][1..] == [];
    assert PairTrain([pair]) == [p] + [q];
    AirSpace(pair.q, gap);
    AirUnlike(p, [q], gap);
    assert [p] + gap == [p] + ([Space(gap[0].dur)] + gap[1..]);
  }

  /** In front of a foot it runs into the foot's space. */
  lemma {:induction false} AirFoot(pairs: seq<Pair>, x: nat, y: nat, gap: Silence)
    requires pairs != []
    ensures Air(PairTrain(pairs) + [Space(x), Pulse(y)], gap) ==
            PairTrain(WithLast(pairs, pairs[|pairs| - 1].q + x)) + ([Pulse(y)] + gap)
  {
    hide Air, Merge, PairTrain;
    if |pairs| == 1 {
      AirOneFoot(pairs[0], x, y, gap);
      assert pairs == [pairs[0]];
      assert WithLast(pairs, pairs[0].q + x) == [Pair(pairs[0].p, pairs[0].q + x)];
    } else {
      var two, after := [Pulse(pairs[0].p), Space(pairs[0].q)], PairTrain(pairs[1..]) + [Space(x), Pulse(y)];
      var last := pairs[|pairs| - 1].q + x;
      TrainIs(pairs);
      TrainIs(pairs[1..]);
      assert (two + PairTrain(pairs[1..])) + [Space(x), Pulse(y)] == two + after;
      AirTwo(pairs[0].p, pairs[0].q, after, gap);
      AirFoot(pairs[1..], x, y, gap);
      WithLastNext(pairs, last);
      TrainIs(WithLast(pairs, last));
      assert (two + PairTrain(WithLast(pairs[1..], last))) + ([Pulse(y)] + gap) ==
             two + (PairTrain(WithLast(pairs[1..], last)) + ([Pulse(y)] + gap));
    }
  }

  lemma AirOneFoot(pair: Pair, x: nat, y: nat, gap: Silence)
    ensures Air(PairTrain([pair]) + [Space(x), Pulse(y)], gap) ==
            PairTrain([Pair(pair.p, pair.q + x)]) + ([Pulse(y)] + gap)
  {
    hide Air, Merge;
    var p, q := Pulse(pair.p), Space(pair.q);
    assert [pair][1..] == [] && [Pair(pair.p, pair.q + x)][1..] == [];
    assert PairTrain([pair]) + [Space(x), Pulse(y)] == [p] + ([q] + ([Space(x)] + [Pulse(y)]));
    AirPulse(y, gap);
    AirUnlike(p, [q] + ([Space(x)] + [Pulse(y)]), gap);
    AirMerged(q, Space(x), [Pulse(y)], gap);
  }

  /** A lead pulse merges with the pulse that follows it. */
  lemma AirLead(lead: nat, cs: seq<Half>, gap: Silence)
    requires lead > 0 && cs != [] && cs[0].Pulse?
    ensures Air([Pulse(lead)] + cs, gap) == Air(Stretch(cs, lead), gap)
  {
    hide Air, Merge;
    assert [Pulse(lead)] + cs == [Pulse(lead), cs[0]] + cs[1..];
    AirLike(Pulse(lead), cs[0], cs[1..], gap);
  }

  // ----- the decoder's state

  /** The train cs is left to read, and a lead is pending that is not: it is part of a pulse in cs, or of
      one already read. */
  ghost predicate Awaits(inp: seq<Half>, gap: Silence, s: Rec, lead: nat, cs: seq<Half>) {
    s.pendingp == lead && (lead == 0 || s.pendings == 0) && At(inp, gap, s.(pendingp := 0), cs)
  }

  lemma AwaitsLeft(inp: seq<Half>, gap: Silence, s: Rec, lead: nat, cs: seq<Half>)
    requires Awaits(inp, gap, s, lead, cs) && s.pendings == 0
    ensures Left(inp, s, Air(cs, gap)) && Positive(cs) && |inp| - |gap| + 1 < RBUF_SIZE
  {
    assert [] + cs == cs;
  }

  lemma LeftAwaits(inp: seq<Half>, gap: Silence, s: Rec, lead: nat, cs: seq<Half>)
    requires Left(inp, s, Air(cs, gap)) && s.pendingp == lead && s.pendings == 0 && Positive(cs)
    requires |inp| - |gap| + 1 < RBUF_SIZE
    ensures Awaits(inp, gap, s, lead, cs)
  {
    assert [] + cs == cs;
  }

  /** What lies in front of the silence, and its first space, fits the receive buffer. */
  lemma RoomLeft(inp: seq<Half>, gap: Silence, s: Rec, front: seq<Half>, tail: seq<Half>)
    requires Left(inp, s, front + tail) && |tail| + 1 >= |gap| && |inp| - |gap| + 1 < RBUF_SIZE
    ensures s.rptr + |front| <= RBUF_SIZE
  {
    assert |inp[s.rptr..]| == |front| + |tail|;
  }

  lemma AirSize(cs: seq<Half>, gap: Silence)
    ensures |Air(cs, gap)| >= |gap|
  {}

  lemma {:induction false} PairTrainSize(pairs: seq<Pair>)
    ensures |PairTrain(pairs)| == 2 * |pairs|
  {
    if pairs != [] {
      PairTrainSize(pairs[1..]);
    }
  }

  lemma PositiveEnd(a: seq<Half>, b: seq<Half>)
    requires Positive(a + b)
    ensures Positive(b)
  {
    forall i | 0 <= i < |b| ensures b[i].dur > 0 {
      assert (a + b)[|a| + i] == b[i];
    }
  }

  /** A pending space is found, whatever lead there is. */
  lemma SpaceSynced(r: Remote, inp: seq<Half>, gap: Silence, s: Rec, lead: nat, cs: seq<Half>)
    requires Awaits(inp, gap, s, lead, cs) && cs != [] && cs[0].Pulse?
    ensures var y := SyncPendingSpace(r, inp, s);
            y.ok && y.s.pendings == 0 && Awaits(inp, gap, y.s, lead, cs)
  {
    hide Air;
    if s.pendings > 0 {
      SyncSpace(r, inp, gap, s, cs);
    }
  }

  /** The lead is taken off this pulse, of p microseconds and l more that are heard. */
  predicate Paid(r: Remote, lead: nat, l: nat, p: nat) {
    lead <= p + l && r.Expect(p + l - lead, p)
  }

  lemma PaidInFull(r: Remote, lead: nat, p: nat)
    ensures Paid(r, lead, lead, p) && Paid(r, 0, 0, p)
  {}

  lemma PulseStep(r: Remote, inp: seq<Half>, gap: Silence, s: Rec, lead: nat, l: nat, p: nat, rest: seq<Half>)
    requires p > 0 && (rest == [] || rest[0].Space?) && Awaits(inp, gap, s, lead, [Pulse(p + l)] + rest)
    ensures var e := ExpectPulse(r, inp, s, p);
            && (e.ok <==> Paid(r, lead, l, p))
            && (e.ok ==> Clear(e.s) && At(inp, gap, e.s, rest))
  {
    hide Air, At, Remote.Expect;
    SpaceSynced(r, inp, gap, s, lead, [Pulse(p + l)] + rest);
    var y := SyncPendingSpace(r, inp, s).s;
    AwaitsLeft(inp, gap, y, lead, [Pulse(p + l)] + rest);
    AirUnlike(Pulse(p + l), rest, gap);
    AirSize(rest, gap);
    RoomLeft(inp, gap, y, [Pulse(p + l)], Air(rest, gap));
    OneRead(inp, y, Pulse(p + l), Air(rest, gap));
    PositiveEnd([Pulse(p + l)], rest);
    var t := Advance(inp, y).(pendingp := 0);
    LeftAwaits(inp, gap, t, 0, rest);
    assert t.(pendingp := 0) == t;
  }

  lemma SeparatorStep(r: Remote, inp: seq<Half>, gap: Silence, s: Rec, lead: nat, l: nat, p: nat, q: nat,
                      rest: seq<Half>)
    requires p > 0 && q > 0 && rest != [] && rest[0].Pulse?
    requires Awaits(inp, gap, s, lead, Stretch([Pulse(p), Space(q)] + rest, l))
    ensures var e := ExpectPulse(r, inp, s, p);
            && (e.ok <==> Paid(r, lead, l, p))
            && (e.ok ==> Awaits(inp, gap, e.s.(pendings := q), 0, rest))
  {
    hide At;
    var after := [Space(q)] + rest;
    assert Stretch([Pulse(p), Space(q)] + rest, l) == [Pulse(p + l)] + after;
    PulseStep(r, inp, gap, s, lead, l, p, after);
    var e := ExpectPulse(r, inp, s, p);
    if e.ok {
      SetPending(inp, gap, e.s, Space(q), rest, e.s.(pendings := q));
      assert e.s.(pendings := q).(pendingp := 0) == e.s.(pendings := q);
    }
  }

  // ----- one field

  /** The pairs of a field as they are sent. */
  function FieldPairs(r: Remote, data: Word, bits: nat): (pairs: seq<Pair>)
    requires PairCoded(r) && bits <= 64 && Aligned(r, bits)
    ensures Sized(r, pairs, bits)
  {
    var bs := ToBits(data, bits);
    if r.protocol.Rcmm? then (SymbolPairsTrain(r, bs); SymbolPairs(r, bs))
    else (ExactPairsCarry(r, bs); ExactPairs(r, bs))
  }

  predicate Sized(r: Remote, pairs: seq<Pair>, bits: nat) {
    bits == (if r.protocol.Rcmm? then 2 else 4) * |pairs|
  }

  /** Every pair is of a length that is read as its bits. */
  predicate Stood(r: Remote, pairs: seq<Pair>, bs: seq<bool>)
    requires Sized(r, pairs, |bs|)
  {
    if r.protocol.Rcmm? then SymbolsStood(r, pairs, bs) else Carries(r, pairs, bs)
  }

  /** The field is read as it was sent when a lead of l microseconds has lengthened its first pulse, and
      when its last space is heard as `last`. */
  predicate FieldStood(r: Remote, data: Word, bits: nat, l: nat, last: Option<nat>)
    requires PairCoded(r) && bits <= 64 && Aligned(r, bits)
  {
    var pairs := Stretched(FieldPairs(r, data, bits), l);
    Stood(r, if last.Some? then WithLast(pairs, last.value) else pairs, ToBits(data, bits))
  }

  lemma {:induction false} SymbolPairsLast(r: Remote, bs: seq<bool>)
    requires PairCoded(r) && r.protocol.Rcmm?
    ensures Lasting(SymbolPairs(r, bs))
    decreases bs
  {
    if |bs| >= 2 {
      SymbolPairsLast(r, bs[2..]);
    }
  }

  lemma FieldIsPairs(r: Remote, data: Word, bits: nat, done: nat)
    requires PairCoded(r) && bits <= 64 && Aligned(r, bits) && Aligned(r, done)
    ensures PairTrain(FieldPairs(r, data, bits)) == DataHalves(r, data, bits, done)
    ensures Lasting(FieldPairs(r, data, bits)) && (FieldPairs(r, data, bits) == [] <==> bits == 0)
  {
    hide SymbolPairs, ExactPairs, SymbolTrain, NibbleTrain, ToBits;
    var bs := ToBits(data, bits);
    if r.protocol.Rcmm? {
      SymbolPairsTrain(r, bs);
      SymbolPairsLast(r, bs);
    } else {
      ExactPairsCarry(r, bs);
    }
  }

  lemma PairModelled(r: Remote)
    requires PairCoded(r)
    ensures Modelled(r)
  {}

  lemma DataIs(r: Remote, inp: seq<Half>, s: Rec, n: nat, bits: nat, done: nat)
    requires PairCoded(r) && Aligned(r, bits) && Aligned(r, done) && s.pendings == 0
    requires bits == (if r.protocol.Rcmm? then 2 else 4) * n
    ensures GetData(r, inp, s, bits, done) ==
            if r.protocol.Rcmm? then GetSymbols(r, inp, s, ZERO, n) else GetNibbles(r, inp, s, ZERO, n)
  {
    hide GetSymbols, GetNibbles;
  }

  lemma FieldRead(r: Remote, inp: seq<Half>, s: Rec,
                  pairs: seq<Pair>, data: Word, bits: nat, done: nat, tail: seq<Half>)
    requires PairCoded(r) && bits <= 64 && Aligned(r, bits) && Aligned(r, done) && Sized(r, pairs, bits)
    requires Lasting(pairs) && s.pendings == 0 && Left(inp, s, PairTrain(pairs) + tail)
    requires s.rptr + 2 * |pairs| <= RBUF_SIZE
    ensures var d := GetData(r, inp, s, bits, done);
            if Stood(r, pairs, ToBits(data, bits)) then
              && d.code == And(data, Low(bits)) && Left(inp, d.s, tail)
              && d.s.pendingp == s.pendingp && d.s.pendings == 0
            else d.code == ONES || d.code != And(data, Low(bits))
  {
    hide Left, And, Low, GetSymbols, GetNibbles, FromBits, ToBits, GetData, PairTrain, SymbolsStood, Carries, Aligned;
    var bs := ToBits(data, bits);
    FromToBits(data, bits);
    EmptyWord();
    assert [] + bs == bs;
    DataIs(r, inp, s, |pairs|, bits, done);
    if r.protocol.Rcmm? {
      SymbolsReadBack(r, inp, s, [], pairs, bs, tail);
    } else {
      NibblesReadBack(r, inp, s, [], pairs, bs, tail);
    }
  }

  lemma EmptyWord()
    ensures FromBits([]) == ZERO
  {}

  lemma DataSynced(r: Remote, inp: seq<Half>, s: Rec, bits: nat, done: nat)
    requires PairCoded(r) && Aligned(r, bits) && Aligned(r, done)
    requires SyncPendingSpace(r, inp, s).ok && SyncPendingSpace(r, inp, s).s.pendings == 0
    ensures GetData(r, inp, s, bits, done) == GetData(r, inp, SyncPendingSpace(r, inp, s).s, bits, done)
  {}

  /** The outcome of reading a field that was sent as `sent`. */
  ghost predicate FieldOutcome(inp: seq<Half>, gap: Silence, d: Data, told: bool, sent: Word, lead: nat,
                               rest: seq<Half>)
  {
    if told && sent != ONES then d.code == sent && Awaits(inp, gap, d.s, lead, rest)
    else d.code == ONES || d.code != sent
  }

  lemma LastingStretched(pairs: seq<Pair>, l: nat, last: nat)
    requires Lasting(pairs)
    ensures Lasting(Stretched(pairs, l)) && (last > 0 ==> Lasting(WithLast(Stretched(pairs, l), last)))
  {}

  /** A field with a pulse behind it: if it is not empty, the lead is on its first pulse. */
  lemma FieldStep(r: Remote, inp: seq<Half>, gap: Silence, s: Rec, lead: nat, l: nat,
                  data: Word, bits: nat, done: nat, rest: seq<Half>)
    requires PairCoded(r) && bits <= 64 && Aligned(r, bits) && Aligned(r, done) && rest != [] && rest[0].Pulse?
    requires Awaits(inp, gap, s, lead, Stretch(DataHalves(r, data, bits, done) + rest, l))
    ensures FieldOutcome(inp, gap, GetData(r, inp, s, bits, done), FieldStood(r, data, bits, l, None),
                         And(data, Low(bits)), lead, Stretch(rest, if bits > 0 then 0 else l))
  {
    hide Air, At, Left, DataHalves, GetData, And, Low, Stood, PairTrain, SyncPendingSpace, PairCoded, Aligned;
    var pairs := FieldPairs(r, data, bits);
    var heard, after := Stretched(pairs, l), Stretch(rest, if bits > 0 then 0 else l);
    PairModelled(r);
    FieldIsPairs(r, data, bits, done);
    StretchPairs(pairs, rest, l);
    StretchNone(rest);
    EmptyTrain(after);
    LastingStretched(pairs, l, 0);
    PairTrainStart(heard, after);
    SpaceSynced(r, inp, gap, s, lead, PairTrain(heard) + after);
    DataSynced(r, inp, s, bits, done);
    var y := SyncPendingSpace(r, inp, s).s;
    AwaitsLeft(inp, gap, y, lead, PairTrain(heard) + after);
    AirPairs(heard, after, gap);
    PairTrainSize(heard);
    AirSize(after, gap);
    RoomLeft(inp, gap, y, PairTrain(heard), Air(after, gap));
    FieldRead(r, inp, y, heard, data, bits, done, Air(after, gap));
    PositiveEnd(PairTrain(heard), after);
    var d := GetData(r, inp, y, bits, done);
    if Stood(r, heard, ToBits(data, bits)) {
      LeftAwaits(inp, gap, d.s, lead, after);
    }
  }

  lemma EmptyTrain(rest: seq<Half>)
    ensures PairTrain([]) + rest == rest
  {}

  // ----- the last field, when no trailing pulse follows

  /** How its last space is heard. */
  function LastSpace(r: Remote, data: Word, bits: nat, gap: Silence): nat
    requires PairCoded(r) && bits <= 64 && Aligned(r, bits)
  {
    var pairs := FieldPairs(r, data, bits);
    if r.HasFoot() && pairs != [] then pairs[|pairs| - 1].q + r.sfoot else gap[0].dur
  }

  /** What is left to read behind it. */
  function Behind(r: Remote, gap: Silence): seq<Half> {
    if r.HasFoot() then [Pulse(r.pfoot)] + gap else gap[1..]
  }

  lemma BehindSize(r: Remote, gap: Silence)
    ensures |Behind(r, gap)| + 1 >= |gap|
  {}

  ghost predicate LastOutcome(r: Remote, inp: seq<Half>, gap: Silence, d: Data, told: bool, sent: Word, lead: nat) {
    if told && sent != ONES then
      d.code == sent && d.s.pendingp == lead && d.s.pendings == 0 && Left(inp, d.s, Behind(r, gap))
    else d.code == ONES || d.code != sent
  }

  lemma LastHeard(r: Remote, pairs: seq<Pair>, l: nat, gap: Silence)
    requires pairs != []
    ensures var heard := Stretched(pairs, l);
            var last := if r.HasFoot() then pairs[|pairs| - 1].q + r.sfoot else gap[0].dur;
            Air(PairTrain(heard) + FootHalves(r), gap) == PairTrain(WithLast(heard, last)) + Behind(r, gap)
  {
    hide Air, PairTrain;
    var heard := Stretched(pairs, l);
    assert heard[|heard| - 1].q == pairs[|pairs| - 1].q;
    if r.HasFoot() {
      AirFoot(heard, r.sfoot, r.pfoot, gap);
    } else {
      AirEnd(heard, gap);
      assert PairTrain(heard) + [] == PairTrain(heard);
    }
  }

  lemma FieldLast(r: Remote, inp: seq<Half>, gap: Silence, s: Rec, lead: nat, l: nat, data: Word, bits: nat, done: nat)
    requires PairCoded(r) && 0 < bits <= 64 && Aligned(r, bits) && Aligned(r, done)
    requires Awaits(inp, gap, s, lead, Stretch(DataHalves(r, data, bits, done) + FootHalves(r), l))
    ensures LastOutcome(r, inp, gap, GetData(r, inp, s, bits, done),
                        FieldStood(r, data, bits, l, Some(LastSpace(r, data, bits, gap))), And(data, Low(bits)), lead)
  {
    hide Air, At, Left, DataHalves, FootHalves, Behind, GetData, And, Low, Stood, PairTrain, SyncPendingSpace;
    hide PairCoded, Aligned, Stretch, Stretched, WithLast;
    var pairs := FieldPairs(r, data, bits);
    var heard, last := Stretched(pairs, l), LastSpace(r, data, bits, gap);
    FieldIsPairs(r, data, bits, done);
    StretchPairs(pairs, FootHalves(r), l);
    LastHeard(r, pairs, l, gap);
    TrainStarts(heard, FootHalves(r));
    SpaceSynced(r, inp, gap, s, lead, PairTrain(heard) + FootHalves(r));
    DataSynced(r, inp, s, bits, done);
    var y := SyncPendingSpace(r, inp, s).s;
    AwaitsLeft(inp, gap, y, lead, PairTrain(heard) + FootHalves(r));
    LastingStretched(pairs, l, last);
    PairTrainSize(WithLast(heard, last));
    BehindSize(r, gap);
    RoomLeft(inp, gap, y, PairTrain(WithLast(heard, last)), Behind(r, gap));
    FieldRead(r, inp, y, WithLast(heard, last), data, bits, done, Behind(r, gap));
  }

  lemma TrainStarts(pairs: seq<Pair>, rest: seq<Half>)
    requires pairs != []
    ensures PairTrain(pairs) + rest != [] && (PairTrain(pairs) + rest)[0].Pulse?
  {}
}
