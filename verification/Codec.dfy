/** The round trip through both buffers: send_code fills the send buffer, its contents go on the
    air, and receive_decode reads them. */
module Codec {
  import opened Words
  import opened Waveform
  import opened Remotes
  import opened SendBuffers
  import opened Transmit
  import opened Decoding
  import ReceiveBuffers
  import opened OnAir
  import opened BitReading
  import opened RoundTrip

  // ----- what the send buffer holds after one signal

  lemma {:induction false} BitTrainSize(r: Remote, bs: seq<bool>, at: nat)
    ensures |BitTrain(r, bs, at)| == 2 * |bs|
    decreases bs
  {
    if bs != [] {
      BitTrainSize(r, bs[1..], at + 1);
    }
  }

  lemma {:induction false} BitTrainPositive(r: Remote, bs: seq<bool>, at: nat)
    requires BitCoded(r)
    ensures Positive(BitTrain(r, bs, at))
    decreases bs
  {
    if bs != [] {
      BitTrainPositive(r, bs[1..], at + 1);
      PositiveConcat(BitHalves(r, bs[0], at), BitTrain(r, bs[1..], at + 1));
    }
  }

  lemma PositiveConcat(a: seq<Half>, b: seq<Half>)
    requires Positive(a) && Positive(b)
    ensures Positive(a + b)
  {}

  lemma FieldShape(r: Remote, data: Word, bits: nat, done: nat)
    requires BitCoded(r) && bits <= 64
    ensures Positive(DataHalves(r, data, bits, done))
    ensures |DataHalves(r, data, bits, done)| == 2 * bits
  {
    BitTrainPositive(r, SentBits(r, data, bits, done), done);
    BitTrainSize(r, SentBits(r, data, bits, done), done);
  }

  lemma PreShape(r: Remote)
    requires BitCoded(r) && r.BitCount() <= 64
    ensures Positive(PreHalves(r)) && |PreHalves(r)| <= 2 * r.preDataBits + 2
  {
    FieldShape(r, r.preData, r.preDataBits, 0);
  }

  lemma PostShape(r: Remote)
    requires BitCoded(r) && r.BitCount() <= 64
    ensures Positive(PostHalves(r)) && |PostHalves(r)| <= 2 * r.postDataBits + 2
  {
    FieldShape(r, r.postData, r.postDataBits, r.preDataBits + r.bits);
  }

  /** A signal's halves are positive and never too many for the send buffer. */
  lemma CodeShape(r: Remote, code: Word)
    requires BitCoded(r) && r.BitCount() <= 64
    ensures Positive(CodeHalves(r, code, false))
    ensures |CodeHalves(r, code, false)| <= 2 * r.BitCount() + 10
  {
    PreShape(r);
    FieldShape(r, code, r.bits, r.preDataBits);
    PostShape(r);
    var h, l, e, c, p, t, f := HeaderHalves(r), LeadHalves(r), PreHalves(r),
      DataHalves(r, code, r.bits, r.preDataBits), PostHalves(r), TrailHalves(r), FootHalves(r);
    SevenParts(h, l, e, c, p, t, f);
    assert CodeHalves(r, code, false) == h + (l + (e + (c + (p + (t + f)))));
  }

  lemma SevenParts(h: seq<Half>, l: seq<Half>, e: seq<Half>, c: seq<Half>, p: seq<Half>, t: seq<Half>, f: seq<Half>)
    requires Positive(h) && Positive(l) && Positive(e) && Positive(c) && Positive(p) && Positive(t) && Positive(f)
    ensures Positive(h + (l + (e + (c + (p + (t + f))))))
  {
    PositiveConcat(t, f);
    PositiveConcat(p, t + f);
    PositiveConcat(c, p + (t + f));
    PositiveConcat(e, c + (p + (t + f)));
    PositiveConcat(l, e + (c + (p + (t + f))));
    PositiveConcat(h, l + (e + (c + (p + (t + f)))));
  }

  /** sync_send_buffer on a buffer that holds m: a last pulse is stored, a last space left out. */
  lemma SyncedHolds(s: SendState, m: seq<Half>)
    requires Holds(s, [], 0, m) && 0 < |m| <= WBUF_SIZE && Positive(m)
    requires Alternating(m) && m[0].Pulse?
    ensures Synced(s).out == Durations(Trim(m)) && !Bad(Synced(s))
  {
    hide Alternating, SumOf, Fit;
    var init, last := m[..|m| - 1], m[|m| - 1];
    HoldsStored(s, m);
    AlternatingParity(m, |m| - 1);
    assert last.dur > 0;
    if last.Pulse? {
      assert Durations(m) == Durations(init) + [last.dur];
    }
  }

  lemma RunMerged(cs: seq<Half>)
    requires Positive(cs)
    ensures var m := Merge(DropSpaces(cs));
            && Holds(Run(EMPTY, cs), [], 0, m) && |m| <= |cs| && Positive(m) && Alternating(m)
            && (m != [] ==> m[0].Pulse?)
  {
    LeadingSpacesDrop(cs);
    DropSpacesShape(cs);
    MergeShape(DropSpaces(cs));
    RunHolds(EMPTY, [], 0, DropSpaces(cs));
  }

  /** What sync_send_buffer leaves of a train: its normal form without a space at the end. */
  lemma SyncedTrain(cs: seq<Half>)
    requires Positive(cs) && |cs| <= WBUF_SIZE
    ensures Stored(Synced(Run(EMPTY, cs)).out) == Trim(Merge(DropSpaces(cs)))
    ensures !Bad(Synced(Run(EMPTY, cs)))
  {
    var m := Merge(DropSpaces(cs));
    RunMerged(cs);
    if m != [] {
      SyncedHolds(Run(EMPTY, cs), m);
      AlternatingPrefix(m, |Trim(m)|);
      StoredDurations(Trim(m));
    }
  }

  /** The signal for a code, read off the send buffer after send_code and sync_send_buffer. */
  function Signal(r: Remote, code: Word): seq<Half>
    requires r.BitCount() <= 64
  {
    Stored(Synced(AfterCode(EMPTY, r, code, false)).out)
  }

  /** What the receiver's driver delivers: silence, the signal, silence again. */
  function Received(r: Remote, code: Word, before: nat, gap: Silence): seq<Half>
    requires r.BitCount() <= 64
  {
    [Space(before)] + Signal(r, code) + gap
  }

  lemma SignalTrain(r: Remote, code: Word)
    requires BitCoded(r) && r.BitCount() <= 64
    ensures Signal(r, code) == Trim(Merge(DropSpaces(CodeHalves(r, code, false))))
    ensures |Signal(r, code)| <= 2 * r.BitCount() + 10
  {
    var cs := CodeHalves(r, code, false);
    CodeShape(r, code);
    SyncedTrain(cs);
    SumIrrelevant(Run(EMPTY, cs), AfterCode(EMPTY, r, code, false).sum);
    DropSpacesShape(cs);
    MergeShape(DropSpaces(cs));
  }

  // ----- the end of a signal

  lemma OnlyGapLeft(inp: seq<Half>, gap: Silence, s: Rec)
    requires At(inp, gap, s, []) && s.pendingp == 0
    ensures s.rptr == |inp| - |gap| && inp[s.rptr] == gap[0] && CanGet(inp, s)
    ensures s.sum == Total(inp[1..|inp| - |gap|])
  {
    assert PendingHalf(s) + [] == PendingHalf(s);
    if s.pendings > 0 {
      MergeUnlike(Space(s.pendings), []);
      assert [Space(s.pendings)] + [] == [Space(s.pendings)];
      assert Trim([Space(s.pendings)]) == [];
    }
    assert inp[s.rptr..] == gap;
    assert inp[s.rptr..][0] == inp[s.rptr];
  }

  lemma TrailFound(r: Remote, inp: seq<Half>, gap: Silence, s: Rec, foot: seq<Half>)
    requires At(inp, gap, s, TrailHalves(r) + foot) && (foot == [] || foot[0].Space?)
    ensures var t := GetTrail(r, inp, s);
            t.ok && t.s.pendingp == 0 && At(inp, gap, t.s, foot)
  {
    if r.ptrail > 0 {
      MatchPulse(r, inp, gap, s, r.ptrail, foot);
    } else {
      assert TrailHalves(r) + foot == foot;
      if s.pendingp > 0 {
        SyncPulse(r, inp, gap, s, foot);
      }
    }
  }

  lemma FootFound(r: Remote, inp: seq<Half>, gap: Silence, s: Rec)
    requires r.HasFoot() && At(inp, gap, s, FootHalves(r))
    ensures var f := GetFoot(r, inp, s);
            f.ok && Clear(f.s) && At(inp, gap, f.s, [])
  {
    assert FootHalves(r) == [Space(r.sfoot)] + ([Pulse(r.pfoot)] + []);
    MatchSpace(r, inp, gap, s, r.sfoot, [Pulse(r.pfoot)] + []);
    MatchPulse(r, inp, gap, ExpectSpace(r, inp, s, r.sfoot).s, r.pfoot, []);
  }

  /** The silence that is asked for behind a signal of the given length: a millisecond for RC-MM, the rest of
      a constant length, or the shorter gap. */
  function SilenceAsked(r: Remote, length: int): int {
    var shorter := if 0 < r.gap2 < r.gap then r.gap2 else r.gap;
    if r.protocol.Rcmm? then 1000
    else if !r.constLength then shorter
    else if length < shorter then shorter - length
    else 0
  }

  /** A silence of at least what the tolerances leave of that. */
  predicate LongEnough(r: Remote, silence: int, length: int) {
    var asked := SilenceAsked(r, length);
    || silence >= asked - asked * r.eps / 100
    || silence >= asked - r.aeps
    || silence >= asked - r.resolution
  }

  /** The silence behind a signal is long enough; of a constant length an optional header is left out. */
  predicate GapSuffices(r: Remote, gap: Silence, length: int) {
    LongEnough(r, gap[0].dur, if r.HasHeader() && r.noHeadRep then length - r.phead - r.shead else length)
  }

  /** The signal ends well exactly if the silence is long enough. */
  lemma EndFound(r: Remote, inp: seq<Half>, gap: Silence, s: Rec, header: bool)
    requires At(inp, gap, s, TrailHalves(r) + FootHalves(r)) && header == r.HasHeader() && |inp| > |gap|
    ensures DecodeEnd(r, inp, s, header).ok <==> GapSuffices(r, gap, Total(inp[1..|inp| - |gap|]))
  {
    hide At, Merge, Air, DecodeEnd;
    TrailFound(r, inp, gap, s, FootHalves(r));
    EndBehindTrail(r, inp, gap, s, header);
  }

  lemma EndBehindTrail(r: Remote, inp: seq<Half>, gap: Silence, s: Rec, header: bool)
    requires header == r.HasHeader() && |inp| > |gap|
    requires var t := GetTrail(r, inp, s); t.ok && t.s.pendingp == 0 && At(inp, gap, t.s, FootHalves(r))
    ensures DecodeEnd(r, inp, s, header).ok <==> GapSuffices(r, gap, Total(inp[1..|inp| - |gap|]))
  {
    hide At, Merge, Air;
    var t := GetTrail(r, inp, s);
    if r.HasFoot() {
      FootFound(r, inp, gap, t.s);
      OnlyGapLeft(inp, gap, GetFoot(r, inp, t.s).s);
    } else {
      OnlyGapLeft(inp, gap, t.s);
    }
  }

  // ----- the start of a signal

  lemma HeaderFound(r: Remote, inp: seq<Half>, gap: Silence, s: Rec, rest: seq<Half>)
    requires r.HasHeader() && !r.protocol.Rcmm? && !r.noHeadRep
    requires At(inp, gap, s, HeaderHalves(r) + rest) && Clear(s)
    ensures var h := GetHeader(r, inp, s);
            h.ok && At(inp, gap, h.s, rest) && PendingHalf(h.s) == [Space(r.shead)]
  {
    SeparatorFound(r, inp, gap, s, r.phead, r.shead, rest);
  }

  /** An optional header is looked at as a whole, so nothing may make its space longer. */
  lemma OptionalHeaderFound(r: Remote, inp: seq<Half>, gap: Silence, s: Rec, rest: seq<Half>)
    requires r.HasHeader() && !r.protocol.Rcmm? && r.noHeadRep && rest != [] && rest[0].Pulse?
    requires At(inp, gap, s, HeaderHalves(r) + rest) && Clear(s)
    ensures var h := GetHeader(r, inp, s);
            h.ok && At(inp, gap, h.s, rest) && Clear(h.s)
  {
    hide Merge, Air, Remote.Expect;
    assert HeaderHalves(r) + rest == [Pulse(r.phead)] + ([Space(r.shead)] + rest);
    MatchPulse(r, inp, gap, s, r.phead, [Space(r.shead)] + rest);
    var p := ExpectPulse(r, inp, s, r.phead);
    PositiveTail(Space(r.shead), rest);
    ExpectSelf(r, r.shead);
    AirUnlike(Space(r.shead), rest, gap);
    assert [] + ([Space(r.shead)] + rest) == [Space(r.shead)] + rest && [] + rest == rest;
    Reads(inp, gap, p.s, Space(r.shead), rest);
  }

  lemma LeadFound(r: Remote, inp: seq<Half>, gap: Silence, s: Rec, rest: seq<Half>)
    requires At(inp, gap, s, LeadHalves(r) + rest) && s.pendingp == 0
    ensures var l := GetLead(r, inp, s);
            && l.ok && At(inp, gap, l.s, rest)
            && PendingHalf(l.s) == if r.plead > 0 then [Pulse(r.plead)] else PendingHalf(s)
  {
    if r.plead > 0 {
      SyncSpace(r, inp, gap, s, LeadHalves(r) + rest);
      var y := SyncPendingSpace(r, inp, s);
      SetPending(inp, gap, y.s, Pulse(r.plead), rest, y.s.(pendingp := r.plead));
    } else {
      assert LeadHalves(r) + rest == rest;
    }
  }

  /** The first half of the signal is a pulse, not a space that send_space drops. */
  predicate StartsWithPulse(r: Remote, code: Word)
    requires r.BitCount() <= 64
  {
    var cs := CodeHalves(r, code, false);
    cs != [] && cs[0].Pulse?
  }

  /** The remotes of the round trip: bit coded, at most 64 bits. */
  predicate RoundTrips(r: Remote) {
    BitCoded(r) && 0 < r.BitCount() <= 64
  }

  /** What follows header and lead. */
  function Body(r: Remote, code: Word): seq<Half>
    requires r.BitCount() <= 64
  {
    PreHalves(r) + (DataHalves(r, code, r.bits, r.preDataBits) + (PostHalves(r) + (TrailHalves(r) + FootHalves(r))))
  }

  lemma CodeIsBody(r: Remote, code: Word)
    requires r.BitCount() <= 64
    ensures CodeHalves(r, code, false) == HeaderHalves(r) + (LeadHalves(r) + Body(r, code))
  {
    hide HeaderHalves, LeadHalves, PreHalves, DataHalves, PostHalves, TrailHalves, FootHalves;
  }

  /** An optional header ends in a space that the first bit makes no longer. */
  predicate HeaderTold(r: Remote, code: Word)
    requires r.BitCount() <= 64
  {
    var body := Body(r, code);
    r.HasHeader() && r.noHeadRep && r.plead == 0 && body != [] ==> body[0].Pulse?
  }

  /** The exact condition for a signal to be decoded as it was sent. */
  predicate Faithful(r: Remote, code: Word)
    requires r.BitCount() <= 64
  {
    StartsWithPulse(r, code) && HeaderTold(r, code) && SignalTold(r, code, PendAtStart(r)) && NoneReserved(r, code)
  }

  function Sent(r: Remote, code: Word): Decoded
    requires r.BitCount() <= 64
  {
    Decoded(SentPre(r), SentCode(r, code), SentPost(r))
  }

  const START := Rec(1, 0, 0, 0)

  lemma OnAirAtStart(r: Remote, code: Word, before: nat, gap: Silence)
    requires RoundTrips(r) && StartsWithPulse(r, code)
    ensures var inp := Received(r, code, before, gap);
            && At(inp, gap, START, CodeHalves(r, code, false))
            && |inp| > |gap| && inp[1..|inp| - |gap|] == Signal(r, code)
  {
    hide CodeHalves, DropSpaces, Merge, Trim, At, Signal;
    var cs := CodeHalves(r, code, false);
    SignalTrain(r, code);
    CodeShape(r, code);
    NothingDropped(cs);
    HeardWhole(cs, Signal(r, code), before, gap);
  }

  lemma NothingDropped(cs: seq<Half>)
    ensures cs != [] && cs[0].Pulse? ==> DropSpaces(cs) == cs
  {}

  /** A train received between silences, from where the decoder starts. */
  lemma HeardWhole(cs: seq<Half>, sig: seq<Half>, before: nat, gap: Silence)
    requires Positive(cs) && sig == Trim(Merge(cs)) && |sig| + 2 < RBUF_SIZE
    ensures var inp := [Space(before)] + sig + gap;
            At(inp, gap, START, cs) && |inp| > |gap| && inp[1..|inp| - |gap|] == sig
  {
    hide Merge, Trim;
    var inp := [Space(before)] + sig + gap;
    assert [] + cs == cs;
    assert inp[1..] == Air(cs, gap);
    assert inp[1..1] == [];
  }

  /** Header and lead found, the decoder stands before the first bit with the right half pending. */
  lemma StartFound(r: Remote, inp: seq<Half>, gap: Silence, e: seq<Half>)
    requires RoundTrips(r) && At(inp, gap, START, HeaderHalves(r) + (LeadHalves(r) + e))
    requires e != [] && (r.HasHeader() && r.noHeadRep && r.plead == 0 ==> e[0].Pulse?)
    ensures var h := if r.HasHeader() then GetHeader(r, inp, START) else Step(false, START);
            var l := GetLead(r, inp, h.s);
            && (r.HasHeader() ==> h.ok)
            && l.ok && At(inp, gap, l.s, e) && PendingHalf(l.s) == PendAtStart(r)
  {
    if r.HasHeader() {
      if r.noHeadRep {
        FirstOf(LeadHalves(r), e);
        OptionalHeaderFound(r, inp, gap, START, LeadHalves(r) + e);
      } else {
        HeaderFound(r, inp, gap, START, LeadHalves(r) + e);
      }
      LeadFound(r, inp, gap, GetHeader(r, inp, START).s, e);
    } else {
      assert HeaderHalves(r) + (LeadHalves(r) + e) == LeadHalves(r) + e;
      LeadFound(r, inp, gap, START, e);
    }
  }

  lemma SyncFound(inp: seq<Half>, before: nat)
    requires inp != [] && inp[0] == Space(before) && before > 0
    ensures var g := GetSpace(inp, Rec(0, 0, 0, 0));
            g.dur == before && g.s.(sum := 0) == START
  {}

  lemma HeardSignal(r: Remote, code: Word, before: nat, gap: Silence)
    requires RoundTrips(r) && StartsWithPulse(r, code) && HeaderTold(r, code) && before > 0
    ensures var d := ReceiveDecode(r, Received(r, code, before, gap));
            && (d == Sent(r, code) <==> Faithful(r, code) && GapSuffices(r, gap, Total(Signal(r, code))))
            && (Faithful(r, code) && d != Sent(r, code) ==> d == Failed)
  {
    hide At, PreHalves, DataHalves, PostHalves, HeaderHalves, LeadHalves, TrailHalves, FootHalves;
    hide GetHeader, GetLead, DecodeFields, SignalTold, NoneReserved, Signal, DecodeEnd;
    var inp := Received(r, code, before, gap);
    var rest := TrailHalves(r) + FootHalves(r);
    var e := Body(r, code);
    OnAirAtStart(r, code, before, gap);
    SyncFound(inp, before);
    CodeIsBody(r, code);
    BodyNotEmpty(r, code);
    StartFound(r, inp, gap, e);
    var h := if r.HasHeader() then GetHeader(r, inp, START) else Step(false, START);
    var l := GetLead(r, inp, h.s);
    EndFollows(r);
    FieldsReadBack(r, inp, gap, l.s, code, rest);
    if Faithful(r, code) {
      EndFound(r, inp, gap, DecodeFields(r, inp, l.s).s, h.ok);
    }
  }

  lemma EndFollows(r: Remote)
    requires BitCoded(r)
    ensures Follows(r, TrailHalves(r) + FootHalves(r))
  {}

  lemma BodyNotEmpty(r: Remote, code: Word)
    requires RoundTrips(r)
    ensures Body(r, code) != []
  {
    hide PreHalves, PostHalves, DataHalves, TrailHalves, FootHalves;
    FieldSilent(r, r.preData, r.preDataBits, 0);
    FieldSilent(r, code, r.bits, r.preDataBits);
    FieldSilent(r, r.postData, r.postDataBits, r.preDataBits + r.bits);
    FieldsHeard(r);
  }

  lemma FieldsHeard(r: Remote)
    requires RoundTrips(r)
    ensures r.HasPre() && DataHalves(r, r.preData, r.preDataBits, 0) != [] ==> PreHalves(r) != []
    ensures r.HasPost() && DataHalves(r, r.postData, r.postDataBits, r.preDataBits + r.bits) != [] ==>
              PostHalves(r) != []
  {
    hide DataHalves;
  }

  // ----- a space where nothing tells it

  /** Remotes with bits whose space comes first. */
  predicate SpaceMayLead(r: Remote) {
    r.IsBiphase() || r.protocol.SpaceFirst?
  }

  /** The decoder stands before a pulse, with nothing pending. */
  predicate AtPulse(inp: seq<Half>, s: Rec) {
    CanGet(inp, s) && inp[s.rptr].Pulse? && Clear(s)
  }

  /** That is never the start of a bit whose space comes first. */
  lemma PulseIsNoSpace(r: Remote, inp: seq<Half>, s: Rec, bs: seq<bool>, at: nat)
    requires BitCoded(r) && SpaceMayLead(r) && AtPulse(inp, s)
    requires 0 < |bs| <= 64 && BitTrain(r, bs, at)[0].Space?
    ensures var d := GetBits(r, inp, s, ZERO, |bs|, at);
            d.code == ONES || d.code != FromBits(bs)
  {
    assert BitTrain(r, bs, at)[0] == BitHalves(r, bs[0], at)[0];
    assert !ReadsValue(r, inp, s, bs[0], at) by {
      if r.protocol.SpaceFirst? {
        SpaceFirstNotThere(r, inp, s, at);
      } else {
        assert bs[0];
        assert !ExpectSpace(r, inp, s, HalfBit(r, r.sone, at)).ok;
      }
    }
    assert FromBits([]) == ZERO && [] + bs == bs;
    BitsReadWrong(r, inp, s, [], bs, at);
  }

  lemma SpaceFirstNotThere(r: Remote, inp: seq<Half>, s: Rec, at: nat)
    requires BitCoded(r) && r.protocol.SpaceFirst? && AtPulse(inp, s)
    ensures ReadBit(r, inp, s, at).NoBit?
  {
    assert !ExpectSpace(r, inp, s, r.sone).ok && !ExpectSpace(r, inp, s, r.szero).ok;
    assert ExpectOne(r, inp, s, at) == Step(false, s);
    assert !ExpectZero(r, inp, s, at).ok;
  }

  /** The first half of a train that is not empty. */
  lemma FirstOf(a: seq<Half>, b: seq<Half>)
    requires a + b != []
    ensures (a + b)[0] == if a != [] then a[0] else b[0]
  {}

  lemma FieldSilent(r: Remote, data: Word, bits: nat, done: nat)
    requires bits <= 64 && BitCoded(r)
    ensures DataHalves(r, data, bits, done) == [] <==> bits == 0
  {
    FieldShape(r, data, bits, done);
  }

  lemma UnheardFields(r: Remote, inp: seq<Half>, s: Rec, code: Word)
    requires RoundTrips(r) && SpaceMayLead(r) && AtPulse(inp, s)
    requires Body(r, code) != [] && Body(r, code)[0].Space?
    ensures var f := DecodeFields(r, inp, s);
            f.NoFields? || f.pre != SentPre(r) || f.code != SentCode(r, code) || f.post != SentPost(r)
  {
    hide DataHalves, TrailHalves, FootHalves, GetData, SentBits, At, FromBits;
    var t := TrailHalves(r) + FootHalves(r);
    var p := PostHalves(r) + t;
    var c := DataHalves(r, code, r.bits, r.preDataBits) + p;
    FirstOf(PreHalves(r), c);
    FieldSilent(r, r.preData, r.preDataBits, 0);
    FieldSilent(r, code, r.bits, r.preDataBits);
    FieldSilent(r, r.postData, r.postDataBits, r.preDataBits + r.bits);
    if r.HasPre() {
      assert PreHalves(r)[0] == DataHalves(r, r.preData, r.preDataBits, 0)[0];
      UnheardPre(r, inp, s);
    } else {
      FirstOf(DataHalves(r, code, r.bits, r.preDataBits), p);
      if r.bits > 0 {
        UnheardField(r, inp, s, code, r.bits, r.preDataBits);
      } else {
        FirstOf(PostHalves(r), t);
        assert !r.HasPostGap();
        EmptyData(r, inp, s);
        UnheardField(r, inp, s, r.postData, r.postDataBits, 0);
      }
    }
  }

  lemma UnheardPre(r: Remote, inp: seq<Half>, s: Rec)
    requires RoundTrips(r) && SpaceMayLead(r) && r.HasPre() && AtPulse(inp, s)
    requires DataHalves(r, r.preData, r.preDataBits, 0)[0].Space?
    ensures var d := GetPre(r, inp, s);
            d.code == ONES || d.code != SentPre(r)
  {
    UnheardField(r, inp, s, r.preData, r.preDataBits, 0);
  }

  lemma EmptyData(r: Remote, inp: seq<Half>, s: Rec)
    requires RoundTrips(r) && SpaceMayLead(r)
    ensures GetData(r, inp, s, 0, 0) == Data(ZERO, s) && ZERO != ONES
  {
    assert !ZERO[0] && ONES[0];
  }

  lemma UnheardField(r: Remote, inp: seq<Half>, s: Rec, data: Word, bits: nat, done: nat)
    requires RoundTrips(r) && SpaceMayLead(r) && 0 < bits <= 64 && AtPulse(inp, s)
    requires DataHalves(r, data, bits, done) != [] && DataHalves(r, data, bits, done)[0].Space?
    ensures var d := GetData(r, inp, s, bits, done);
            d.code == ONES || d.code != FromBits(SentBits(r, data, bits, done))
  {
    PulseIsNoSpace(r, inp, s, SentBits(r, data, bits, done), done);
  }

  /** A first space is dropped by send_space; what is left starts with a pulse. */
  lemma DroppedStart(r: Remote, code: Word, before: nat, gap: Silence)
    requires RoundTrips(r) && !StartsWithPulse(r, code)
    ensures !r.HasHeader() && r.plead == 0 && SpaceMayLead(r)
    ensures Body(r, code) != [] && Body(r, code)[0].Space?
    ensures var inp := Received(r, code, before, gap); 1 < |inp| && inp[0] == Space(before) && inp[1].Pulse?
  {
    hide PreHalves, DataHalves, PostHalves, TrailHalves, FootHalves, SentBits, Merge, Body;
    var cs := CodeHalves(r, code, false);
    CodeIsBody(r, code);
    BodyNotEmpty(r, code);
    FirstOf(HeaderHalves(r), LeadHalves(r) + Body(r, code));
    FirstOf(LeadHalves(r), Body(r, code));
    assert cs == [] + ([] + Body(r, code)) == Body(r, code);
    SecondIsPulse(r, code);
    assert DropSpaces(cs) == cs[1..];
    SignalTrain(r, code);
    MergeShape(cs[1..]);
  }

  lemma AirStartsWithPulse(cs: seq<Half>, gap: Silence)
    requires cs != [] && cs[0].Pulse?
    ensures Air(cs, gap) != [] && Air(cs, gap)[0].Pulse?
  {
    MergeShape(cs);
  }

  lemma HeaderPulseRead(r: Remote, inp: seq<Half>, gap: Silence, after: seq<Half>)
    requires r.phead > 0 && after != [] && after[0].Space?
    requires At(inp, gap, START, [Pulse(r.phead)] + after)
    ensures ExpectPulse(r, inp, START, r.phead) == Step(true, Advance(inp, START)) && inp[1].Pulse?
    ensures At(inp, gap, Advance(inp, START), after)
  {
    hide Merge, Air;
    MatchPulse(r, inp, gap, START, r.phead, after);
    AirUnlike(Pulse(r.phead), after, gap);
    assert [] + ([Pulse(r.phead)] + after) == [Pulse(r.phead)] + after;
    Reads(inp, gap, START, Pulse(r.phead), after);
  }

  lemma LongSpaceRead(inp: seq<Half>, gap: Silence, s: Rec, h: nat, x: int, rest: seq<Half>)
    requires Clear(s) && h > 0 && rest != [] && rest[0].Pulse?
    requires At(inp, gap, s, [Space(h)] + ([Space(x)] + rest))
    ensures x > 0 && CanGet(inp, s) && GetSpace(inp, s) == Got(h + x, Advance(inp, s)) && AtPulse(inp, Advance(inp, s))
  {
    hide Merge, Air, Total;
    var all := [Space(h)] + ([Space(x)] + rest);
    assert all[1] == Space(x) && [] + all == all;
    AirMerged(Space(h), Space(x), rest, gap);
    Reads(inp, gap, s, Space(h + x), rest);
    var t := Advance(inp, s);
    AirStartsWithPulse(rest, gap);
    Capacity(inp, t.rptr, gap, rest);
    assert inp[t.rptr] == inp[t.rptr..][0];
  }

  lemma Capacity(inp: seq<Half>, i: int, gap: Silence, rest: seq<Half>)
    requires 0 <= i <= |inp| && inp[i..] == Air(rest, gap) && |inp| - |gap| < RBUF_SIZE
    ensures i < |inp| && i < RBUF_SIZE
  {}

  /** The space of an optional header, made longer by the first bit: taken for the header's or not, the
      decoder goes on at a pulse. */
  lemma LongHeader(r: Remote, inp: seq<Half>, gap: Silence, x: int, rest: seq<Half>)
    requires r.HasHeader() && r.noHeadRep && !r.protocol.Rcmm? && rest != [] && rest[0].Pulse?
    requires At(inp, gap, START, HeaderHalves(r) + ([Space(x)] + rest))
    ensures AtPulse(inp, GetHeader(r, inp, START).s)
  {
    hide Merge, Air, At, Remote.Expect;
    var after := [Space(r.shead)] + ([Space(x)] + rest);
    assert HeaderHalves(r) + ([Space(x)] + rest) == [Pulse(r.phead)] + after;
    HeaderPulseRead(r, inp, gap, after);
    LongSpaceRead(inp, gap, Advance(inp, START), r.shead, x, rest);
    assert Unget2(inp, Advance(inp, Advance(inp, START))) == START;
  }

  lemma HeaderMissed(r: Remote, code: Word, before: nat, gap: Silence)
    requires RoundTrips(r) && !HeaderTold(r, code) && before > 0
    ensures ReceiveDecode(r, Received(r, code, before, gap)) != Sent(r, code)
  {
    hide At, HeaderHalves, Body, GetHeader, DecodeFields, DecodeEnd, Signal, AtPulse, CodeHalves, Received;
    var inp, body := Received(r, code, before, gap), Body(r, code);
    BodyOnAir(r, code, before, gap);
    SecondIsPulse(r, code);
    assert body == [Space(body[0].dur)] + body[1..];
    LongHeader(r, inp, gap, body[0].dur, body[1..]);
    UnheardFields(r, inp, GetHeader(r, inp, START).s, code);
    ReceivedStart(r, code, before, gap);
    SyncFound(inp, before);
  }

  lemma ReceivedStart(r: Remote, code: Word, before: nat, gap: Silence)
    requires r.BitCount() <= 64
    ensures Received(r, code, before, gap) != [] && Received(r, code, before, gap)[0] == Space(before)
  {}

  lemma BodyOnAir(r: Remote, code: Word, before: nat, gap: Silence)
    requires RoundTrips(r) && r.HasHeader() && r.plead == 0
    ensures At(Received(r, code, before, gap), gap, START, HeaderHalves(r) + Body(r, code))
  {
    hide At, Body, Signal, Received;
    CodeIsBody(r, code);
    HeaderStarts(r, code);
    OnAirAtStart(r, code, before, gap);
    assert LeadHalves(r) + Body(r, code) == Body(r, code);
  }

  lemma HeaderStarts(r: Remote, code: Word)
    requires r.BitCount() <= 64 && r.HasHeader()
    ensures StartsWithPulse(r, code)
  {
    CodeIsBody(r, code);
    assert CodeHalves(r, code, false)[0] == HeaderHalves(r)[0];
  }

  /** The first two halves of a train that begins with a bit are those of the bit. */
  lemma TwoOf(m: seq<Half>, rest: seq<Half>)
    requires |m| >= 2
    ensures (m + rest)[0] == m[0] && (m + rest)[1] == m[1]
  {}

  lemma FieldStart(r: Remote, data: Word, bits: nat, done: nat)
    requires BitCoded(r) && bits <= 64
    ensures bits > 0 ==>
              var m := DataHalves(r, data, bits, done);
              |m| >= 2 && (m[0].Space? ==> SpaceMayLead(r) && m[1].Pulse?)
  {
    TrainStart(r, SentBits(r, data, bits, done), done);
  }

  lemma SecondIsPulse(r: Remote, code: Word)
    requires RoundTrips(r) && Body(r, code) != [] && Body(r, code)[0].Space?
    ensures SpaceMayLead(r) && |Body(r, code)| >= 2 && Body(r, code)[1].Pulse?
  {
    hide DataHalves, TrailHalves, FootHalves, SentBits;
    var t := TrailHalves(r) + FootHalves(r);
    var p := PostHalves(r) + t;
    var c := DataHalves(r, code, r.bits, r.preDataBits) + p;
    var e := PreHalves(r) + c;
    if r.HasPre() {
      var m := DataHalves(r, r.preData, r.preDataBits, 0);
      FieldStart(r, r.preData, r.preDataBits, 0);
      TwoOf(m, if r.HasPreGap() then [Pulse(r.preP), Space(r.preS)] else []);
      TwoOf(PreHalves(r), c);
    } else if r.bits > 0 {
      assert e == c;
      FieldStart(r, code, r.bits, r.preDataBits);
      TwoOf(DataHalves(r, code, r.bits, r.preDataBits), p);
    } else {
      FieldSilent(r, code, r.bits, r.preDataBits);
      assert e == p;
      FieldStart(r, r.postData, r.postDataBits, r.preDataBits + r.bits);
      TwoOf(PostHalves(r), t);
    }
  }

  lemma TrainStart(r: Remote, bs: seq<bool>, at: nat)
    requires BitCoded(r)
    ensures bs != [] ==>
              var m := BitTrain(r, bs, at);
              |m| >= 2 && m[0] == BitHalves(r, bs[0], at)[0] && m[1] == BitHalves(r, bs[0], at)[1]
  {}

  // ----- the theorem

  /** For every biphase or space-coded remote and every code: a signal made by send_code, taken off
      the send buffer and received between silences, is decoded to exactly the pre data, code and
      post data that were sent, if and only if the signal starts with a pulse, no space follows the
      one of an optional header, every 0 is told from a 1 at its place, no field is sent as the
      failure value, and the silence behind it is long enough. If only the silence is too short, nothing
      is decoded, whatever comes behind it. */
  lemma CodecRoundTrip(r: Remote, code: Word, before: nat, gap: Silence)
    requires RoundTrips(r) && before > 0
    ensures var d := ReceiveDecode(r, Received(r, code, before, gap));
            && (d == Sent(r, code) <==> Faithful(r, code) && GapSuffices(r, gap, Total(Signal(r, code))))
            && (Faithful(r, code) && d != Sent(r, code) ==> d == Failed)
  {
    if !StartsWithPulse(r, code) {
      DroppedStart(r, code, before, gap);
      UnheardFields(r, Received(r, code, before, gap), START, code);
    } else if HeaderTold(r, code) {
      HeardSignal(r, code, before, gap);
    } else {
      HeaderMissed(r, code, before, gap);
    }
  }

  lemma TrimPositive(m: seq<Half>)
    requires Positive(m)
    ensures Positive(Trim(m))
  {}

  lemma SignalPositive(r: Remote, code: Word, before: nat, gap: Silence)
    requires RoundTrips(r) && before > 0
    ensures Positive(Received(r, code, before, gap))
  {
    SignalTrain(r, code);
    CodeShape(r, code);
    RunMerged(CodeHalves(r, code, false));
    TrimPositive(Merge(DropSpaces(CodeHalves(r, code, false))));
    PositiveConcat([Space(before)], Signal(r, code));
    PositiveConcat([Space(before)] + Signal(r, code), gap);
  }

  method SignalOf(r: Remote, code: Word) returns (signal: seq<Half>)
    requires r.BitCount() <= 64
    ensures signal == Signal(r, code)
  {
    var out := new SendBuffer();
    SendCode(out, r, code, false);
    out.Sync();
    ghost var s := out.State();
    signal := Stored(out.data[..out.wptr]);
  }

  /** The same through the two buffers themselves: what Decode returns for what SendCode and Sync
      left in the send buffer. */
  method Loopback(r: Remote, code: Word, before: nat, gap: Silence) returns (result: Decoded)
    requires RoundTrips(r) && before > 0
    ensures result == Sent(r, code) <==> Faithful(r, code) && GapSuffices(r, gap, Total(Signal(r, code)))
    ensures Faithful(r, code) && result != Sent(r, code) ==> result == Failed
  {
    var signal := SignalOf(r, code);
    SignalPositive(r, code, before, gap);
    CodecRoundTrip(r, code, before, gap);
    var inb := new ReceiveBuffers.ReceiveBuffer([Space(before)] + signal + gap);
    result := inb.Decode(r);
  }
}
