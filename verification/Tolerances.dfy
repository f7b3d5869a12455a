/** Conditions on a remote's timing alone under which every code survives the round trip. */
module Tolerances {
  import opened Words
  import opened Waveform
  import opened Remotes
  import opened Transmit
  import opened Decoding
  import opened OnAir
  import opened BitReading
  import opened RoundTrip
  import opened Codec

  // ----- what is sent when no toggle mask is set

  predicate NoToggles(r: Remote) {
    !r.HasToggleBitMask() && !r.HasToggleMask()
  }

  /** The three fields as the remote's description and the code give them. */
  function Plain(r: Remote, code: Word): Decoded {
    Decoded(And(r.preData, Low(r.preDataBits)), And(code, Low(r.bits)), And(r.postData, Low(r.postDataBits)))
  }

  lemma PlainWord(r: Remote, data: Word, bits: nat, done: nat)
    requires NoToggles(r) && bits <= 64
    ensures SentWord(r, data, bits, done) == And(data, Low(bits))
  {
    var bs := SentBits(r, data, bits, done);
    forall i | 0 <= i < bits ensures bs[i] == ToBits(data, bits)[i] {
      assert bs[i] == SentBit(r, data[bits - 1 - i], r.Pos(done + i));
    }
    assert bs == ToBits(data, bits);
    FromToBits(data, bits);
  }

  lemma PlainIsSent(r: Remote, code: Word)
    requires NoToggles(r) && r.BitCount() <= 64
    ensures Sent(r, code) == Plain(r, code)
  {
    PlainWord(r, r.preData, r.preDataBits, 0);
    PlainWord(r, code, r.bits, r.preDataBits);
    PlainWord(r, r.postData, r.postDataBits, r.preDataBits + r.bits);
  }

  lemma ShortNotReserved(bs: seq<bool>)
    requires |bs| < 64
    ensures FromBits(bs) != ONES
  {
    assert !FromBits(bs)[63] && ONES[63];
  }

  /** Words of less than 64 bits never collide with the failure value. */
  lemma ShortFields(r: Remote, code: Word)
    requires r.BitCount() < 64
    ensures NoneReserved(r, code)
  {
    ShortNotReserved(SentBits(r, r.preData, r.preDataBits, 0));
    ShortNotReserved(SentBits(r, code, r.bits, r.preDataBits));
    ShortNotReserved(SentBits(r, r.postData, r.postDataBits, r.preDataBits + r.bits));
  }

  lemma HeaderOrLeadStarts(r: Remote, code: Word)
    requires r.BitCount() <= 64 && (r.HasHeader() || r.plead > 0)
    ensures StartsWithPulse(r, code)
  {
    var cs := CodeHalves(r, code, false);
    assert cs[0] == if r.HasHeader() then Pulse(r.phead) else Pulse(r.plead);
  }

  // ----- what an optional header needs

  /** The first bit on the air. */
  function FirstSent(r: Remote, code: Word): bool
    requires 0 < r.BitCount() <= 64
  {
    if r.HasPre() then SentBits(r, r.preData, r.preDataBits, 0)[0]
    else if r.bits > 0 then SentBits(r, code, r.bits, r.preDataBits)[0]
    else SentBits(r, r.postData, r.postDataBits, r.preDataBits + r.bits)[0]
  }

  /** The whole header is looked at first, and a bit comes right behind it. */
  predicate LooksAtHeader(r: Remote) {
    r.HasHeader() && r.noHeadRep && r.plead == 0 && BitsFollow(r)
  }

  predicate BitsFollow(r: Remote) {
    r.HasPre() || r.bits > 0 || !r.HasPostGap()
  }

  lemma FieldFirst(r: Remote, data: Word, bits: nat, done: nat)
    requires BitCoded(r) && 0 < bits <= 64
    ensures var m := DataHalves(r, data, bits, done);
            m != [] &&
            (m[0].Space? <==> r.protocol.SpaceFirst? || (r.IsBiphase() && SentBits(r, data, bits, done)[0]))
  {
    TrainStart(r, SentBits(r, data, bits, done), done);
  }

  /** The signal goes on with a space behind header and lead exactly if its first bit begins with one. */
  lemma BodyStart(r: Remote, code: Word)
    requires RoundTrips(r)
    ensures Body(r, code) != []
    ensures Body(r, code)[0].Space? <==>
            BitsFollow(r) && (r.protocol.SpaceFirst? || (r.IsBiphase() && FirstSent(r, code)))
  {
    hide DataHalves, TrailHalves, FootHalves, SentBits;
    var done := r.preDataBits + r.bits;
    var p := PostHalves(r) + (TrailHalves(r) + FootHalves(r));
    var c := DataHalves(r, code, r.bits, r.preDataBits) + p;
    BodyNotEmpty(r, code);
    FirstOf(PreHalves(r), c);
    if r.HasPre() {
      FieldFirst(r, r.preData, r.preDataBits, 0);
    } else {
      FirstOf(DataHalves(r, code, r.bits, r.preDataBits), p);
      FieldSilent(r, code, r.bits, r.preDataBits);
      if r.bits > 0 {
        FieldFirst(r, code, r.bits, r.preDataBits);
      } else {
        FieldFirst(r, r.postData, r.postDataBits, done);
        FirstOf(PostHalves(r), TrailHalves(r) + FootHalves(r));
      }
    }
  }

  lemma HeaderToldExactly(r: Remote, code: Word)
    requires RoundTrips(r)
    ensures HeaderTold(r, code) <==>
            !(LooksAtHeader(r) && (r.protocol.SpaceFirst? || (r.IsBiphase() && FirstSent(r, code))))
  {
    hide Body, FirstSent;
    BodyStart(r, code);
  }

  // ----- biphase

  /** At no place does the tolerance accept a merged pulse for the first of its two parts, or no
      space at all for a 1's space. */
  ghost predicate HalvesTold(r: Remote) {
    && (r.plead > 0 ==> !r.Expect(r.plead + HalfBit(r, r.pzero, 0), r.plead))
    && (forall at: nat | at < r.BitCount() :: !r.Expect(0, HalfBit(r, r.sone, at)))
    && (forall at: nat | 0 < at < r.BitCount() ::
          !r.Expect(HalfBit(r, r.pone, at - 1) + HalfBit(r, r.pzero, at), HalfBit(r, r.pone, at - 1)))
  }

  /** What can be pending before bit `at`: a space, the pulse of a 1, the lead, or nothing. */
  predicate PendPossible(r: Remote, at: nat, pend: seq<Half>) {
    && |pend| <= 1
    && (pend != [] && pend[0].Pulse? ==>
          pend[0].dur == (if at == 0 then r.plead else HalfBit(r, r.pone, at - 1)) && (at == 0 ==> r.plead > 0))
  }

  lemma {:induction false} HalvesToldBits(r: Remote, bs: seq<bool>, at: nat, pend: seq<Half>)
    requires r.IsBiphase() && HalvesTold(r) && at + |bs| <= r.BitCount() && PendPossible(r, at, pend)
    ensures ZerosTold(r, bs, at, pend)
    ensures PendPossible(r, at + |bs|, PendAfterBits(r, bs, at, pend))
    decreases bs
  {
    if bs != [] {
      HalvesToldBits(r, bs[1..], at + 1, PendAfter(r, bs[0], at));
    }
  }

  lemma HalvesToldSignal(r: Remote, code: Word)
    requires r.IsBiphase() && HalvesTold(r) && r.BitCount() <= 64
    ensures SignalTold(r, code, PendAtStart(r))
  {
    hide ZerosTold, PendAfterBits, SentBits, HalvesTold;
    HalvesToldBits(r, SentBits(r, r.preData, r.preDataBits, 0), 0, PendAtStart(r));
    HalvesToldBits(r, SentBits(r, code, r.bits, r.preDataBits), r.preDataBits, PendAtCode(r, PendAtStart(r)));
    HalvesToldBits(r, SentBits(r, r.postData, r.postDataBits, r.preDataBits + r.bits), r.preDataBits + r.bits,
                   PendAtPost(r, code, PendAtCode(r, PendAtStart(r))));
  }

  /** The biphase round trip: an RC-5 or RC-6 remote with a header or a lead pulse, whose
      tolerance tells the halves apart, gets back every code of a word under 64 bits, for any
      rc6_mask; but if the header is optional, only and exactly the codes whose first bit is a 0. */
  lemma BiphaseRoundTrip(r: Remote, code: Word, before: nat, gap: Silence)
    requires RoundTrips(r) && r.IsBiphase() && r.BitCount() < 64 && NoToggles(r)
    requires (r.HasHeader() || r.plead > 0) && HalvesTold(r)
    requires before > 0
    ensures ReceiveDecode(r, Received(r, code, before, gap)) == Plain(r, code) <==>
            !(LooksAtHeader(r) && FirstSent(r, code)) && GapSuffices(r, gap, Total(Signal(r, code)))
  {
    hide ReceiveDecode, Received, GapSuffices, Plain, Sent, SignalTold, NoneReserved, HalvesTold, FirstSent, HeaderTold;
    HeaderToldExactly(r, code);
    HalvesToldSignal(r, code);
    ShortFields(r, code);
    HeaderOrLeadStarts(r, code);
    CodecRoundTrip(r, code, before, gap);
    PlainIsSent(r, code);
  }

  // ----- pulse, then space

  predicate BitsTold(r: Remote) {
    !(r.Expect(r.pzero, r.pone) && r.Expect(r.szero, r.sone))
  }

  ghost predicate AllOnes(bs: seq<bool>) {
    forall i | 0 <= i < |bs| :: bs[i]
  }

  lemma {:induction false} BitsToldZeros(r: Remote, bs: seq<bool>, at: nat, pend: seq<Half>)
    requires !SpaceMayLead(r) && r.ptrail > 0 && |pend| <= 1 && (pend == [] || pend[0].Space?)
    ensures ZerosTold(r, bs, at, pend) <==> BitsTold(r) || AllOnes(bs)
    ensures PendAfterBits(r, bs, at, pend) == if bs == [] then pend else []
    decreases bs
  {
    if bs != [] {
      BitsToldZeros(r, bs[1..], at + 1, PendAfter(r, bs[0], at));
      assert AllOnes(bs) <==> bs[0] && AllOnes(bs[1..]) by {
        assert bs == [bs[0]] + bs[1..];
      }
    }
  }

  /** Every bit of the whole signal is a 1. */
  ghost predicate OnlyOnes(r: Remote, code: Word)
    requires r.BitCount() <= 64
  {
    && AllOnes(SentBits(r, r.preData, r.preDataBits, 0))
    && AllOnes(SentBits(r, code, r.bits, r.preDataBits))
    && AllOnes(SentBits(r, r.postData, r.postDataBits, r.preDataBits + r.bits))
  }

  lemma SpaceStarts(r: Remote, code: Word)
    requires RoundTrips(r) && !SpaceMayLead(r)
    ensures StartsWithPulse(r, code)
  {
    if !StartsWithPulse(r, code) {
      DroppedStart(r, code, 1, [Space(1)]);
    }
  }

  lemma BitsToldSignal(r: Remote, code: Word)
    requires !SpaceMayLead(r) && r.ptrail > 0 && r.plead == 0 && r.BitCount() <= 64
    ensures SignalTold(r, code, PendAtStart(r)) <==> BitsTold(r) || OnlyOnes(r, code)
  {
    hide ZerosTold, PendAfterBits, SentBits, BitsTold;
    var pend := PendAtStart(r);
    BitsToldZeros(r, SentBits(r, r.preData, r.preDataBits, 0), 0, pend);
    BitsToldZeros(r, SentBits(r, code, r.bits, r.preDataBits), r.preDataBits, PendAtCode(r, pend));
    BitsToldZeros(r, SentBits(r, r.postData, r.postDataBits, r.preDataBits + r.bits), r.preDataBits + r.bits,
                  PendAtPost(r, code, PendAtCode(r, pend)));
  }

  /** The space-encoded round trip: with a trailing pulse and no lead, every code of a word under
      64 bits comes back, exactly if a 0 is not accepted for a 1 or no 0 is sent at all. */
  lemma SpaceRoundTrip(r: Remote, code: Word, before: nat, gap: Silence)
    requires RoundTrips(r) && !r.IsBiphase() && r.ptrail > 0 && r.plead == 0
    requires r.BitCount() < 64 && NoToggles(r)
    requires before > 0
    ensures ReceiveDecode(r, Received(r, code, before, gap)) == Plain(r, code) <==>
            (BitsTold(r) || OnlyOnes(r, code)) && GapSuffices(r, gap, Total(Signal(r, code)))
  {
    hide ReceiveDecode, Received, GapSuffices, Plain, Sent, SignalTold, NoneReserved, OnlyOnes, HeaderTold, FirstSent;
    HeaderToldExactly(r, code);
    BitsToldSignal(r, code);
    ShortFields(r, code);
    SpaceStarts(r, code);
    CodecRoundTrip(r, code, before, gap);
    PlainIsSent(r, code);
  }

  // ----- space, then pulse

  lemma {:induction false} SpaceLedZeros(r: Remote, bs: seq<bool>, at: nat, pend: seq<Half>)
    requires SpaceLed(r) && |pend| <= 1
    ensures ZerosTold(r, bs, at, pend) <==> AllOnes(bs) || (BitsTold(r) && (bs[0] || ZeroTold(r, 0, pend)))
    ensures PendAfterBits(r, bs, at, pend) == if bs == [] then pend else []
    decreases bs
  {
    if bs != [] {
      SpaceLedZeros(r, bs[1..], at + 1, PendAfter(r, bs[0], at));
      assert AllOnes(bs) <==> bs[0] && AllOnes(bs[1..]) by {
        assert bs == [bs[0]] + bs[1..];
      }
    }
  }

  lemma SpaceLedClear(r: Remote)
    requires SpaceLed(r)
    ensures ZeroTold(r, 0, []) <==> BitsTold(r)
  {}

  lemma SpaceLedSignal(r: Remote, code: Word)
    requires SpaceLed(r) && 0 < r.BitCount() <= 64
    ensures SignalTold(r, code, PendAtStart(r)) <==>
            OnlyOnes(r, code) || (BitsTold(r) && (FirstSent(r, code) || ZeroTold(r, 0, PendAtStart(r))))
  {
    hide ZerosTold, PendAfterBits, SentBits, BitsTold, ZeroTold, PendAtStart;
    var pend := PendAtStart(r);
    assert ZeroTold(r, 0, []) <==> BitsTold(r) by { SpaceLedClear(r); }
    SpaceLedZeros(r, SentBits(r, r.preData, r.preDataBits, 0), 0, pend);
    SpaceLedZeros(r, SentBits(r, code, r.bits, r.preDataBits), r.preDataBits, PendAtCode(r, pend));
    SpaceLedZeros(r, SentBits(r, r.postData, r.postDataBits, r.preDataBits + r.bits), r.preDataBits + r.bits,
                  PendAtPost(r, code, PendAtCode(r, pend)));
  }

  /** The round trip of remotes that send the space first: behind a header or a lead pulse every code
      of a word under 64 bits comes back, exactly if no 0 is sent, or a 0 is not accepted for a 1 in
      both halves and the first bit, if it is a 0, is told with the header's space in front of it. If
      the header is optional, none comes back. */
  lemma SpaceFirstRoundTrip(r: Remote, code: Word, before: nat, gap: Silence)
    requires RoundTrips(r) && SpaceLed(r) && (r.HasHeader() || r.plead > 0)
    requires r.BitCount() < 64 && NoToggles(r)
    requires before > 0
    ensures ReceiveDecode(r, Received(r, code, before, gap)) == Plain(r, code) <==>
            && !LooksAtHeader(r) && GapSuffices(r, gap, Total(Signal(r, code)))
            && (OnlyOnes(r, code) || (BitsTold(r) && (FirstSent(r, code) || ZeroTold(r, 0, PendAtStart(r)))))
  {
    hide ReceiveDecode, Received, GapSuffices, Plain, Sent, OnlyOnes, BitsTold, FirstSent, ZeroTold, HeaderTold;
    HeaderToldExactly(r, code);
    SpaceLedSignal(r, code);
    ShortFields(r, code);
    HeaderOrLeadStarts(r, code);
    CodecRoundTrip(r, code, before, gap);
    PlainIsSent(r, code);
  }

  // ----- where a stronger claim fails

  /** An RC-5 remote: half bits of 889 us, 30% tolerance, no header and no lead. */
  const BARE_RC5 := Remote(
    Rc5, false, false, false, false, 14, 30, 100, 0,
    0, 0, 0, 0, 0, 0, 889, 889, 889, 889, 0, 0, 0, 0, 0, 0,
    0, ZERO, 0, ZERO, 0, 0, 0, 0, 100000, 0, 0,
    ZERO, ZERO, ZERO, ZERO, ZERO, 0)

  /** Without header and lead the round trip is false: this remote's codes with the first bit set
      are decoded to something else or not at all, however good the timing. */
  lemma BareRc5LosesFirstOne(code: Word, before: nat, gap: Silence)
    requires code[13] && before > 0
    ensures ReceiveDecode(BARE_RC5, Received(BARE_RC5, code, before, gap)) != Plain(BARE_RC5, code)
  {
    hide ReceiveDecode, Received, GapSuffices, Plain, Sent, SignalTold, NoneReserved;
    var r := BARE_RC5;
    assert SentBits(r, code, 14, 0)[0] == code[13];
    assert CodeHalves(r, code, false)[0] == DataHalves(r, code, 14, 0)[0];
    CodecRoundTrip(r, code, before, gap);
    PlainIsSent(r, code);
  }

  /** An RC-5 remote with a header that is left out of repeated signals. */
  const OPTIONAL_RC5 := Remote(
    Rc5, true, false, false, false, 14, 30, 100, 0,
    2667, 889, 0, 0, 0, 0, 889, 889, 889, 889, 0, 0, 0, 0, 0, 0,
    0, ZERO, 0, ZERO, 0, 0, 0, 0, 100000, 0, 0,
    ZERO, ZERO, ZERO, ZERO, ZERO, 0)

  /** The optional header: this remote's codes that begin with a 1 are lost, and only those. */
  lemma OptionalHeaderLosesFirstOne(code: Word, before: nat, gap: Silence)
    requires before > 0
    ensures ReceiveDecode(OPTIONAL_RC5, Received(OPTIONAL_RC5, code, before, gap)) == Plain(OPTIONAL_RC5, code)
            <==> !code[13] && gap[0].dur >= 70000
  {
    hide ReceiveDecode, Received, Plain, Total, Signal;
    var r := OPTIONAL_RC5;
    assert SentBits(r, code, 14, 0)[0] == code[13];
    assert FirstSent(r, code) == code[13];
    BiphaseRoundTrip(r, code, before, gap);
  }

  /** A space-encoded remote whose ones and zeros have the same pulse, with a lead pulse of that length. */
  const LEAD_REMOTE := Remote(
    SpaceEnc, false, false, false, false, 16, 30, 100, 0,
    0, 0, 0, 0, 0, 0, 560, 1690, 560, 560, 560, 560, 0, 0, 0, 0,
    0, ZERO, 0, ZERO, 0, 0, 0, 0, 100000, 0, 0,
    ZERO, ZERO, ZERO, ZERO, ZERO, 0)

  /** A remote that sends the space first, tells its bits by their pulses and has a header. */
  const HEADED_REMOTE := Remote(
    SpaceFirst, false, false, false, false, 16, 30, 100, 0,
    9000, 4500, 0, 0, 0, 0, 1690, 560, 560, 560, 0, 0, 0, 0, 0, 0,
    0, ZERO, 0, ZERO, 0, 0, 0, 0, 100000, 0, 0,
    ZERO, ZERO, ZERO, ZERO, ZERO, 0)

  /** The forgotten header: of this remote's codes those that begin with a 0 are lost, and only those. */
  lemma HeaderLosesFirstZero(code: Word, before: nat, gap: Silence)
    requires before > 0
    ensures ReceiveDecode(HEADED_REMOTE, Received(HEADED_REMOTE, code, before, gap)) == Plain(HEADED_REMOTE, code)
            <==> code[15] && gap[0].dur >= 70000
  {
    hide ReceiveDecode, Received, Plain, Total, Signal;
    var r := HEADED_REMOTE;
    var bs := SentBits(r, code, 16, 0);
    assert bs[0] == code[15];
    assert FirstSent(r, code) == code[15];
    assert AllOnes(bs) ==> bs[0];
    assert BitsTold(r) && !ZeroTold(r, 0, [Space(4500)]);
    SpaceFirstRoundTrip(r, code, before, gap);
  }

  /** The forgotten lead: of this remote's codes those that begin with a 0 are lost, and only those. */
  lemma LeadLosesFirstZero(code: Word, before: nat, gap: Silence)
    requires before > 0
    ensures ReceiveDecode(LEAD_REMOTE, Received(LEAD_REMOTE, code, before, gap)) == Plain(LEAD_REMOTE, code)
            <==> code[15] && gap[0].dur >= 70000
  {
    hide BitTrain, Merge;
    var r := LEAD_REMOTE;
    var bs := SentBits(r, code, 16, 0);
    assert bs[0] == code[15];
    ShortFields(r, code);
    HeaderOrLeadStarts(r, code);
    BitsToldZeros(r, bs[1..], 1, []);
    assert ZeroTold(r, 0, [Pulse(560)]) == false;
    assert CodeTold(r, code, [Pulse(560)]) == ZerosTold(r, bs, 0, [Pulse(560)]);
    assert SignalTold(r, code, PendAtStart(r)) <==> CodeTold(r, code, [Pulse(560)]);
    CodecRoundTrip(r, code, before, gap);
    PlainIsSent(r, code);
  }

  // ----- a signal that goes on

  /** A remote of one bit, with a trailing pulse and a gap of 100 ms. */
  const ONE_BIT := Remote(
    SpaceEnc, false, false, false, false, 1, 30, 100, 0,
    0, 0, 0, 0, 0, 0, 560, 1690, 560, 560, 0, 560, 0, 0, 0, 0,
    0, ZERO, 0, ZERO, 0, 0, 0, 0, 100000, 0, 0,
    ZERO, ZERO, ZERO, ZERO, ZERO, 0)

  /** Its only signal, a 0, is refused when more of another signal follows. */
  lemma LongerSignalRefused()
    ensures ReceiveDecode(ONE_BIT, [Space(100000), Pulse(560), Space(560), Pulse(560),
                                    Space(560), Pulse(560), Space(100000)]) == Failed
  {
    hide ReceiveDecode, Signal, SignalTold, NoneReserved, Total, StartsWithPulse, HeaderTold, Sent;
    var gap := [Space(560), Pulse(560), Space(100000)];
    OneBitSignal();
    OneBitFaithful();
    CodecRoundTrip(ONE_BIT, ZERO, 100000, gap);
    assert Received(ONE_BIT, ZERO, 100000, gap) == [Space(100000), Pulse(560), Space(560), Pulse(560),
                                                    Space(560), Pulse(560), Space(100000)];
    assert !GapSuffices(ONE_BIT, gap, Total(Signal(ONE_BIT, ZERO)));
  }

  lemma OneBitFaithful()
    ensures Faithful(ONE_BIT, ZERO)
  {
    hide SignalTold, NoneReserved, StartsWithPulse, HeaderTold, OnlyOnes;
    ShortFields(ONE_BIT, ZERO);
    SpaceStarts(ONE_BIT, ZERO);
    BitsToldSignal(ONE_BIT, ZERO);
    HeaderToldExactly(ONE_BIT, ZERO);
  }

  lemma OneBitHalves()
    ensures CodeHalves(ONE_BIT, ZERO, false) == [Pulse(560), Space(560), Pulse(560)]
  {
    hide BitTrain, SentBits;
    var r := ONE_BIT;
    OneBitField();
    assert HeaderHalves(r) == [] && LeadHalves(r) == [] && PreHalves(r) == [] && PostHalves(r) == [];
    assert TrailHalves(r) == [Pulse(560)] && FootHalves(r) == [];
  }

  lemma OneBitField()
    ensures DataHalves(ONE_BIT, ZERO, 1, 0) == [Pulse(560), Space(560)]
  {
    hide SentBits, DataHalves, BitTrain;
    BitField(ONE_BIT, ZERO, 1, 0);
    OneBitSent(ONE_BIT);
    OneZero();
  }

  lemma BitField(r: Remote, data: Word, bits: nat, done: nat)
    requires bits <= 64 && !r.protocol.Rcmm? && !r.protocol.Xmp?
    ensures DataHalves(r, data, bits, done) == BitTrain(r, SentBits(r, data, bits, done), done)
  {}

  lemma OneBitSent(r: Remote)
    requires NoToggles(r)
    ensures SentBits(r, ZERO, 1, 0) == [false]
  {
    var bs := SentBits(r, ZERO, 1, 0);
    assert |bs| == 1 && bs[0] == SentBit(r, ZERO[0], r.Pos(0));
  }

  lemma OneZero()
    ensures BitTrain(ONE_BIT, [false], 0) == [Pulse(560), Space(560)]
  {
    hide Remote.Doubled;
    assert !ONE_BIT.Doubled(0) by { NothingDoubled(ONE_BIT, 0); }
    assert BitHalves(ONE_BIT, false, 0) == [Pulse(560), Space(560)];
    assert BitTrain(ONE_BIT, [false], 0) == BitHalves(ONE_BIT, false, 0) + BitTrain(ONE_BIT, [false][1..], 1);
  }

  lemma NothingDoubled(r: Remote, at: nat)
    requires r.rc6Mask == ZERO
    ensures !r.Doubled(at)
  {}

  lemma OneBitSignal()
    ensures Signal(ONE_BIT, ZERO) == [Pulse(560), Space(560), Pulse(560)]
  {
    hide Signal, CodeHalves, Merge;
    OneBitHalves();
    SignalTrain(ONE_BIT, ZERO);
    var p, q := Pulse(560), Space(560);
    MergeUnlike(p, []);
    MergeUnlike(q, [p]);
    MergeUnlike(p, [q, p]);
    assert [p] + [] == [p] && [q] + [p] == [q, p] && [p] + [q, p] == [p, q, p];
    NothingMerged();
  }
}
