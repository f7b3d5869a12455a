/** One data bit, then a run of bits, read back from the air: exactly when the decoder gets them right. */
module BitReading {
  import opened Words
  import opened Waveform
  import opened Remotes
  import opened Transmit
  import opened Decoding
  import opened OnAir

  /** Biphase, pulse-then-space or space-then-pulse coding with positive durations. */
  predicate BitCoded(r: Remote) {
    && (r.protocol.Rc5? || r.protocol.Rc6? || r.protocol.SpaceEnc? || SpaceLed(r))
    && r.pone > 0 && r.sone > 0 && r.pzero > 0 && r.szero > 0
  }

  /** The space of a bit first, and no pulse directly behind a bit's own. */
  predicate SpaceLed(r: Remote) {
    && r.protocol.SpaceFirst? && r.rc6Mask == ZERO && r.ptrail == 0
    && !(r.HasPre() && r.HasPreGap()) && !(r.HasPost() && r.HasPostGap())
  }

  predicate PulseLed(r: Remote) {
    BitCoded(r) && !r.IsBiphase() && !r.protocol.SpaceFirst?
  }

  /** Is a 0 told from a 1 at this place, when `pend` is the half pending before it?

      Biphase: the 0's pulse, merged with a pending pulse, must not pass for the pending pulse
      alone; and no space at all must not pass for the 1's space.
      Space coding: the 0's pulse must not pass for the 1's pulse. If it does, only a trailing
      pulse makes the decoder look at the space as well; it then backs up to the pulse, but a
      pending lead pulse has been forgotten by then.
      Space first: a 0 passes for a 1 only with both halves; a header's space is forgotten likewise. */
  predicate ZeroTold(r: Remote, at: nat, pend: seq<Half>)
    requires |pend| <= 1
  {
    if r.IsBiphase() then
      if pend == [] then true
      else if pend[0].Pulse? then !r.Expect(pend[0].dur + HalfBit(r, r.pzero, at), pend[0].dur)
      else !r.Expect(0, HalfBit(r, r.sone, at))
    else if r.protocol.SpaceFirst? then
      || !r.Expect(r.szero, r.sone)
      || (!r.Expect(r.pzero, r.pone) && (pend != [] && pend[0].Space? ==> r.Expect(pend[0].dur + r.szero, r.szero)))
    else
      || !r.Expect(r.pzero, r.pone)
      || (r.ptrail > 0 && !r.Expect(r.szero, r.sone)
          && (pend != [] && pend[0].Pulse? ==> r.Expect(pend[0].dur + r.pzero, r.pzero)))
  }

  /** The half pending after a bit. */
  function PendAfter(r: Remote, v: bool, at: nat): (pend: seq<Half>)
    ensures |pend| <= 1
  {
    if r.IsBiphase() then
      if v then [Pulse(HalfBit(r, r.pone, at))] else [Space(HalfBit(r, r.szero, at))]
    else if r.protocol.SpaceFirst? || r.ptrail > 0 then []
    else [Space(if v then r.sone else r.szero)]
  }

  /** What must follow a bit for its own second half to be seen. */
  predicate Follows(r: Remote, rest: seq<Half>) {
    || r.IsBiphase()
    || (if r.protocol.SpaceFirst? then rest == [] || rest[0].Space?
        else r.ptrail > 0 ==> rest != [] && rest[0].Pulse?)
  }

  /** The outcome of reading bit v: it is read, and the decoder is ready for the rest. */
  ghost predicate ReadsRight(r: Remote, inp: seq<Half>, gap: Silence, s: Rec, v: bool, at: nat, rest: seq<Half>) {
    var b := ReadBit(r, inp, s, at);
    && b.BitRead? && b.bit == v
    && At(inp, gap, b.s, rest) && PendingHalf(b.s) == PendAfter(r, v, at)
  }

  predicate ReadsValue(r: Remote, inp: seq<Half>, s: Rec, v: bool, at: nat) {
    var b := ReadBit(r, inp, s, at);
    b.BitRead? && b.bit == v
  }

  // ----- biphase

  lemma BiphaseHalves(r: Remote, v: bool, at: nat)
    requires r.IsBiphase() && r.protocol != SpaceFirst
    ensures BitHalves(r, v, at) ==
            if v then [Space(HalfBit(r, r.sone, at)), Pulse(HalfBit(r, r.pone, at))]
            else [Pulse(HalfBit(r, r.pzero, at)), Space(HalfBit(r, r.szero, at))]
  {}

  lemma BiphaseOne(r: Remote, inp: seq<Half>, gap: Silence, s: Rec, at: nat, rest: seq<Half>)
    requires BitCoded(r) && r.IsBiphase()
    requires At(inp, gap, s, BitHalves(r, true, at) + rest)
    ensures ReadsRight(r, inp, gap, s, true, at, rest)
  {
    BiphaseHalves(r, true, at);
    var s1, p1 := HalfBit(r, r.sone, at), HalfBit(r, r.pone, at);
    assert BitHalves(r, true, at) + rest == [Space(s1)] + ([Pulse(p1)] + rest);
    MatchSpace(r, inp, gap, s, s1, [Pulse(p1)] + rest);
    var t := ExpectSpace(r, inp, s, s1).s;
    SetPending(inp, gap, t, Pulse(p1), rest, t.(pendingp := p1));
  }

  lemma BiphaseRefusedAtPulse(r: Remote, inp: seq<Half>, gap: Silence, s: Rec, at: nat, rest: seq<Half>)
    requires BitCoded(r) && r.IsBiphase() && s.pendingp > 0
    requires At(inp, gap, s, [Pulse(HalfBit(r, r.pzero, at))] + rest) && (rest == [] || rest[0].Space?)
    requires ZeroTold(r, at, PendingHalf(s))
    ensures ExpectOne(r, inp, s, at) == Step(false, s)
  {
    hide Air, Merge;
    var p0 := Pulse(HalfBit(r, r.pzero, at));
    AirMerged(Pulse(s.pendingp), p0, rest, gap);
    Reads(inp, gap, s, Pulse(s.pendingp + p0.dur), rest);
    assert !SyncPendingPulse(r, inp, s).ok;
  }

  lemma BiphaseRefusedAtSpace(r: Remote, inp: seq<Half>, gap: Silence, s: Rec, at: nat, rest: seq<Half>)
    requires BitCoded(r) && r.IsBiphase() && s.pendings > 0
    requires At(inp, gap, s, [Pulse(HalfBit(r, r.pzero, at))] + rest)
    requires ZeroTold(r, at, PendingHalf(s))
    ensures ExpectOne(r, inp, s, at) == Step(false, s)
  {
    var cs := [Pulse(HalfBit(r, r.pzero, at))] + rest;
    AirUnlike(Space(s.pendings), cs, gap);
    Reads(inp, gap, s, Space(s.pendings), cs);
    assert GetSpace(inp, s).dur - s.pendings == 0;
    assert !ExpectSpace(r, inp, s, HalfBit(r, r.sone, at)).ok;
  }

  lemma BiphaseRefusedClear(r: Remote, inp: seq<Half>, gap: Silence, s: Rec, at: nat, rest: seq<Half>)
    requires BitCoded(r) && r.IsBiphase() && Clear(s)
    requires At(inp, gap, s, [Pulse(HalfBit(r, r.pzero, at))] + rest) && (rest == [] || rest[0].Space?)
    ensures ExpectOne(r, inp, s, at) == Step(false, s)
  {
    var p0 := Pulse(HalfBit(r, r.pzero, at));
    AirUnlike(p0, rest, gap);
    assert [] + ([p0] + rest) == [p0] + rest;
    Reads(inp, gap, s, p0, rest);
    assert !ExpectSpace(r, inp, s, HalfBit(r, r.sone, at)).ok;
  }

  /** Trying a 1 against a 0 fails and restores the state it started from, if the 0 is told. */
  lemma BiphaseOneRefused(r: Remote, inp: seq<Half>, gap: Silence, s: Rec, at: nat, rest: seq<Half>)
    requires BitCoded(r) && r.IsBiphase()
    requires At(inp, gap, s, [Pulse(HalfBit(r, r.pzero, at))] + rest) && (rest == [] || rest[0].Space?)
    requires ZeroTold(r, at, PendingHalf(s))
    ensures ExpectOne(r, inp, s, at) == Step(false, s)
  {
    if s.pendingp > 0 {
      BiphaseRefusedAtPulse(r, inp, gap, s, at, rest);
    } else if s.pendings > 0 {
      BiphaseRefusedAtSpace(r, inp, gap, s, at, rest);
    } else {
      BiphaseRefusedClear(r, inp, gap, s, at, rest);
    }
  }

  lemma BiphaseZero(r: Remote, inp: seq<Half>, gap: Silence, s: Rec, at: nat, rest: seq<Half>)
    requires BitCoded(r) && r.IsBiphase()
    requires At(inp, gap, s, BitHalves(r, false, at) + rest)
    requires ZeroTold(r, at, PendingHalf(s))
    ensures ReadsRight(r, inp, gap, s, false, at, rest)
  {
    BiphaseHalves(r, false, at);
    var p0, s0 := HalfBit(r, r.pzero, at), HalfBit(r, r.szero, at);
    assert BitHalves(r, false, at) + rest == [Pulse(p0)] + ([Space(s0)] + rest);
    BiphaseOneRefused(r, inp, gap, s, at, [Space(s0)] + rest);
    MatchPulse(r, inp, gap, s, p0, [Space(s0)] + rest);
    var t := ExpectPulse(r, inp, s, p0).s;
    SetPending(inp, gap, t, Space(s0), rest, t.(pendings := s0));
  }

  lemma AirStartsWithSpace(cs: seq<Half>, gap: Silence)
    requires cs == [] || cs[0].Space?
    ensures Air(cs, gap)[0].Space?
  {
    MergeShape(cs);
  }

  lemma BiphaseMissedAtPulse(r: Remote, inp: seq<Half>, gap: Silence, s: Rec, at: nat, rest: seq<Half>)
    requires BitCoded(r) && r.IsBiphase() && s.pendingp > 0
    requires At(inp, gap, s, [Pulse(HalfBit(r, r.pzero, at))] + rest) && rest != [] && rest[0].Space?
    requires !ZeroTold(r, at, PendingHalf(s))
    ensures !ReadsValue(r, inp, s, false, at)
  {
    hide Merge;
    var p0 := Pulse(HalfBit(r, r.pzero, at));
    AirMerged(Pulse(s.pendingp), p0, rest, gap);
    Reads(inp, gap, s, Pulse(s.pendingp + p0.dur), rest);
    AirStartsWithSpace(rest, gap);
    var y := SyncPendingPulse(r, inp, s);
    assert y.ok;
    assert inp[y.s.rptr] == inp[y.s.rptr..][0];
    assert inp[y.s.rptr].Space?;
    var q := ExpectSpace(r, inp, s, HalfBit(r, r.sone, at));
    if !q.ok {
      assert Unget1(inp, q.s) == y.s;
      assert !ExpectPulse(r, inp, y.s, HalfBit(r, r.pzero, at)).ok;
    }
  }

  /** A 0 that is not told is read as a 1 or not at all. */
  lemma BiphaseZeroMissed(r: Remote, inp: seq<Half>, gap: Silence, s: Rec, at: nat, rest: seq<Half>)
    requires BitCoded(r) && r.IsBiphase()
    requires At(inp, gap, s, BitHalves(r, false, at) + rest)
    requires !ZeroTold(r, at, PendingHalf(s))
    ensures !ReadsValue(r, inp, s, false, at)
  {
    BiphaseHalves(r, false, at);
    var p0, s0 := Pulse(HalfBit(r, r.pzero, at)), Space(HalfBit(r, r.szero, at));
    var after := [s0] + rest;
    assert BitHalves(r, false, at) + rest == [p0] + after;
    if s.pendingp > 0 {
      BiphaseMissedAtPulse(r, inp, gap, s, at, after);
    } else {
      AirUnlike(Space(s.pendings), [p0] + after, gap);
      Reads(inp, gap, s, Space(s.pendings), [p0] + after);
      assert GetSpace(inp, s).dur - s.pendings == 0;
      assert ExpectOne(r, inp, s, at).ok;
    }
  }

  // ----- pulse, then space

  lemma SpaceOne(r: Remote, inp: seq<Half>, gap: Silence, s: Rec, at: nat, rest: seq<Half>)
    requires PulseLed(r) && Follows(r, rest)
    requires At(inp, gap, s, BitHalves(r, true, at) + rest)
    ensures ReadsRight(r, inp, gap, s, true, at, rest)
  {
    hide Air, Merge;
    assert BitHalves(r, true, at) + rest == [Pulse(r.pone)] + ([Space(r.sone)] + rest);
    MatchPulse(r, inp, gap, s, r.pone, [Space(r.sone)] + rest);
    var t := ExpectPulse(r, inp, s, r.pone).s;
    if r.ptrail > 0 {
      MatchSpace(r, inp, gap, t, r.sone, rest);
    } else {
      SetPending(inp, gap, t, Space(r.sone), rest, t.(pendings := r.sone));
    }
  }

  lemma SpaceZeroFound(r: Remote, inp: seq<Half>, gap: Silence, s: Rec, at: nat, rest: seq<Half>)
    requires PulseLed(r) && Follows(r, rest)
    requires At(inp, gap, s, [Pulse(r.pzero)] + ([Space(r.szero)] + rest))
    ensures var z := ExpectZero(r, inp, s, at);
            z.ok && At(inp, gap, z.s, rest) && PendingHalf(z.s) == PendAfter(r, false, at)
  {
    MatchPulse(r, inp, gap, s, r.pzero, [Space(r.szero)] + rest);
    var t := ExpectPulse(r, inp, s, r.pzero).s;
    if r.ptrail > 0 {
      MatchSpace(r, inp, gap, t, r.szero, rest);
    } else {
      SetPending(inp, gap, t, Space(r.szero), rest, t.(pendings := r.szero));
    }
  }

  /** A pending space is read before the pulse whatever the bit is. */
  lemma PendingSpaceFirst(r: Remote, inp: seq<Half>, gap: Silence, s: Rec, at: nat, cs: seq<Half>)
    requires PulseLed(r) && s.pendingp == 0
    requires At(inp, gap, s, cs) && cs != [] && cs[0].Pulse?
    ensures var t := SyncPendingSpace(r, inp, s).s;
            Clear(t) && At(inp, gap, t, cs) && ReadBit(r, inp, s, at) == ReadBit(r, inp, t, at)
  {
    hide Air, Merge;
    SyncSpace(r, inp, gap, s, cs);
    var t := SyncPendingSpace(r, inp, s).s;
    assert ExpectPulse(r, inp, s, r.pone) == ExpectPulse(r, inp, t, r.pone);
    assert ExpectOne(r, inp, s, at) == ExpectOne(r, inp, t, at);
  }

  /** With nothing pending: the 1 that is tried first fails back to where it began, unless the 0
      passes for a 1. */
  lemma SpaceOneAgainstZero(r: Remote, inp: seq<Half>, gap: Silence, s: Rec, at: nat, rest: seq<Half>)
    requires PulseLed(r) && Follows(r, rest) && Clear(s)
    requires At(inp, gap, s, [Pulse(r.pzero)] + ([Space(r.szero)] + rest))
    ensures var one := ExpectOne(r, inp, s, at);
            if ZeroTold(r, at, []) then one == Step(false, s) else one.ok
  {
    hide Air, Merge;
    var after := [Space(r.szero)] + rest;
    assert [] + ([Pulse(r.pzero)] + after) == [Pulse(r.pzero)] + after;
    AirUnlike(Pulse(r.pzero), after, gap);
    Reads(inp, gap, s, Pulse(r.pzero), after);
    var p := ExpectPulse(r, inp, s, r.pone);
    assert p == Step(r.Expect(r.pzero, r.pone), Advance(inp, s));
    if p.ok && r.ptrail > 0 {
      AirUnlike(Space(r.szero), rest, gap);
      Reads(inp, gap, p.s, Space(r.szero), rest);
      var q := ExpectSpace(r, inp, p.s, r.sone);
      assert q == Step(r.Expect(r.szero, r.sone), Advance(inp, p.s));
      assert Unget2(inp, q.s) == Unget1(inp, p.s);
    }
  }

  lemma SpaceZero(r: Remote, inp: seq<Half>, gap: Silence, s: Rec, at: nat, rest: seq<Half>)
    requires PulseLed(r) && Follows(r, rest) && s.pendingp == 0
    requires At(inp, gap, s, BitHalves(r, false, at) + rest)
    ensures if ZeroTold(r, at, PendingHalf(s)) then ReadsRight(r, inp, gap, s, false, at, rest)
            else !ReadsValue(r, inp, s, false, at)
  {
    var cs := [Pulse(r.pzero)] + ([Space(r.szero)] + rest);
    assert BitHalves(r, false, at) + rest == cs;
    PendingSpaceFirst(r, inp, gap, s, at, cs);
    var t := SyncPendingSpace(r, inp, s).s;
    SpaceOneAgainstZero(r, inp, gap, t, at, rest);
    if ZeroTold(r, at, []) {
      SpaceZeroFound(r, inp, gap, t, at, rest);
    }
  }

  /** With a lead pulse pending: a 1 whose pulse matches and whose space does not leaves the merged
      pulse to be read again, with the lead forgotten. */
  lemma LeadOneAgainstZero(r: Remote, inp: seq<Half>, gap: Silence, s: Rec, at: nat, rest: seq<Half>)
    requires PulseLed(r) && Follows(r, rest) && s.pendingp > 0
    requires At(inp, gap, s, [Pulse(r.pzero)] + ([Space(r.szero)] + rest))
    ensures var one := ExpectOne(r, inp, s, at);
            if !r.Expect(r.pzero, r.pone) then one == Step(false, s)
            else if r.ptrail > 0 && !r.Expect(r.szero, r.sone) then one == Step(false, s.(pendingp := 0))
            else one.ok
  {
    hide Air, Merge;
    var after := [Space(r.szero)] + rest;
    AirMerged(Pulse(s.pendingp), Pulse(r.pzero), after, gap);
    Reads(inp, gap, s, Pulse(s.pendingp + r.pzero), after);
    var p := ExpectPulse(r, inp, s, r.pone);
    assert GetPulse(inp, s).dur - s.pendingp == r.pzero;
    assert p.ok == r.Expect(r.pzero, r.pone);
    if p.ok && r.ptrail > 0 {
      assert p.s == Advance(inp, s).(pendingp := 0);
      AirUnlike(Space(r.szero), rest, gap);
      Reads(inp, gap, p.s, Space(r.szero), rest);
      var q := ExpectSpace(r, inp, p.s, r.sone);
      assert q == Step(r.Expect(r.szero, r.sone), Advance(inp, p.s));
      assert Unget2(inp, q.s) == s.(pendingp := 0);
    }
  }

  /** The merged pulse read as the 0's pulse alone. */
  lemma LeadForgotten(r: Remote, inp: seq<Half>, gap: Silence, s: Rec, at: nat, rest: seq<Half>)
    requires PulseLed(r) && r.ptrail > 0 && Follows(r, rest) && s.pendingp > 0
    requires At(inp, gap, s, [Pulse(r.pzero)] + ([Space(r.szero)] + rest))
    ensures var z := ExpectZero(r, inp, s.(pendingp := 0), at);
            && z.ok == r.Expect(s.pendingp + r.pzero, r.pzero)
            && (z.ok ==> At(inp, gap, z.s, rest) && Clear(z.s))
  {
    hide Air, Merge;
    var after := [Space(r.szero)] + rest;
    PositiveTail(Pulse(r.pzero), after);
    AirMerged(Pulse(s.pendingp), Pulse(r.pzero), after, gap);
    Reads(inp, gap, s, Pulse(s.pendingp + r.pzero), after);
    var p := ExpectPulse(r, inp, s.(pendingp := 0), r.pzero);
    assert p == Step(r.Expect(s.pendingp + r.pzero, r.pzero), Advance(inp, s).(pendingp := 0));
    if p.ok {
      assert [] + after == after;
      assert At(inp, gap, p.s, after);
      MatchSpace(r, inp, gap, p.s, r.szero, rest);
    }
  }

  lemma LeadZero(r: Remote, inp: seq<Half>, gap: Silence, s: Rec, at: nat, rest: seq<Half>)
    requires PulseLed(r) && Follows(r, rest) && s.pendingp > 0
    requires At(inp, gap, s, BitHalves(r, false, at) + rest)
    ensures if ZeroTold(r, at, PendingHalf(s)) then ReadsRight(r, inp, gap, s, false, at, rest)
            else !ReadsValue(r, inp, s, false, at)
  {
    hide Air, Merge;
    assert BitHalves(r, false, at) + rest == [Pulse(r.pzero)] + ([Space(r.szero)] + rest);
    LeadOneAgainstZero(r, inp, gap, s, at, rest);
    if !r.Expect(r.pzero, r.pone) {
      SpaceZeroFound(r, inp, gap, s, at, rest);
    } else if r.ptrail > 0 {
      LeadForgotten(r, inp, gap, s, at, rest);
    }
  }

  // ----- space, then pulse

  lemma SpaceLedOne(r: Remote, inp: seq<Half>, gap: Silence, s: Rec, at: nat, rest: seq<Half>)
    requires BitCoded(r) && SpaceLed(r) && Follows(r, rest)
    requires At(inp, gap, s, BitHalves(r, true, at) + rest)
    ensures ReadsRight(r, inp, gap, s, true, at, rest)
  {
    assert BitHalves(r, true, at) + rest == [Space(r.sone)] + ([Pulse(r.pone)] + rest);
    MatchSpace(r, inp, gap, s, r.sone, [Pulse(r.pone)] + rest);
    MatchPulse(r, inp, gap, ExpectSpace(r, inp, s, r.sone).s, r.pone, rest);
  }

  lemma SpaceLedZeroFound(r: Remote, inp: seq<Half>, gap: Silence, s: Rec, at: nat, rest: seq<Half>)
    requires BitCoded(r) && SpaceLed(r) && Follows(r, rest)
    requires At(inp, gap, s, [Space(r.szero)] + ([Pulse(r.pzero)] + rest))
    ensures var z := ExpectZero(r, inp, s, at);
            z.ok && At(inp, gap, z.s, rest) && Clear(z.s)
  {
    MatchSpace(r, inp, gap, s, r.szero, [Pulse(r.pzero)] + rest);
    MatchPulse(r, inp, gap, ExpectSpace(r, inp, s, r.szero).s, r.pzero, rest);
  }

  /** A pending pulse is read before the space whatever the bit is. */
  lemma PendingPulseFirst(r: Remote, inp: seq<Half>, gap: Silence, s: Rec, at: nat, cs: seq<Half>)
    requires BitCoded(r) && SpaceLed(r) && s.pendings == 0
    requires At(inp, gap, s, cs) && cs != [] && cs[0].Space?
    ensures var t := SyncPendingPulse(r, inp, s).s;
            Clear(t) && At(inp, gap, t, cs) && ReadBit(r, inp, s, at) == ReadBit(r, inp, t, at)
  {
    hide Air, Merge;
    SyncPulse(r, inp, gap, s, cs);
    var t := SyncPendingPulse(r, inp, s).s;
    assert ExpectSpace(r, inp, s, r.sone) == ExpectSpace(r, inp, t, r.sone);
    assert ExpectOne(r, inp, s, at) == ExpectOne(r, inp, t, at);
  }

  /** The 1 that is tried first: refused at the space it leaves everything as it was, refused at the
      pulse it has forgotten a pending space. */
  lemma SpaceLedOneAgainstZero(r: Remote, inp: seq<Half>, gap: Silence, s: Rec, at: nat, rest: seq<Half>)
    requires BitCoded(r) && SpaceLed(r) && Follows(r, rest) && s.pendingp == 0
    requires At(inp, gap, s, [Space(r.szero)] + ([Pulse(r.pzero)] + rest))
    ensures var one := ExpectOne(r, inp, s, at);
            if !r.Expect(r.szero, r.sone) then one == Step(false, s)
            else if !r.Expect(r.pzero, r.pone) then one == Step(false, s.(pendings := 0))
            else one.ok
  {
    hide Air, Merge;
    var after := [Pulse(r.pzero)] + rest;
    var first := Space(s.pendings + r.szero);
    if s.pendings > 0 {
      AirMerged(Space(s.pendings), Space(r.szero), after, gap);
    } else {
      assert [] + ([Space(r.szero)] + after) == [Space(r.szero)] + after;
      AirUnlike(Space(r.szero), after, gap);
    }
    Reads(inp, gap, s, first, after);
    var q := ExpectSpace(r, inp, s, r.sone);
    assert GetSpace(inp, s).dur - s.pendings == r.szero;
    assert q.ok == r.Expect(r.szero, r.sone);
    if q.ok {
      assert q.s == Advance(inp, s).(pendings := 0);
      AirUnlike(Pulse(r.pzero), rest, gap);
      Reads(inp, gap, q.s, Pulse(r.pzero), rest);
      var p := ExpectPulse(r, inp, q.s, r.pone);
      assert p == Step(r.Expect(r.pzero, r.pone), Advance(inp, q.s));
      assert Unget2(inp, p.s) == s.(pendings := 0);
    }
  }

  /** The merged space read as the 0's space alone. */
  lemma SpaceForgotten(r: Remote, inp: seq<Half>, gap: Silence, s: Rec, at: nat, rest: seq<Half>)
    requires BitCoded(r) && SpaceLed(r) && Follows(r, rest) && s.pendings > 0
    requires At(inp, gap, s, [Space(r.szero)] + ([Pulse(r.pzero)] + rest))
    ensures var z := ExpectZero(r, inp, s.(pendings := 0), at);
            && z.ok == r.Expect(s.pendings + r.szero, r.szero)
            && (z.ok ==> At(inp, gap, z.s, rest) && Clear(z.s))
  {
    hide Air, Merge;
    var after := [Pulse(r.pzero)] + rest;
    PositiveTail(Space(r.szero), after);
    AirMerged(Space(s.pendings), Space(r.szero), after, gap);
    Reads(inp, gap, s, Space(s.pendings + r.szero), after);
    var q := ExpectSpace(r, inp, s.(pendings := 0), r.szero);
    assert q == Step(r.Expect(s.pendings + r.szero, r.szero), Advance(inp, s).(pendings := 0));
    if q.ok {
      assert [] + after == after;
      assert At(inp, gap, q.s, after);
      MatchPulse(r, inp, gap, q.s, r.pzero, rest);
    }
  }

  lemma SpaceLedZero(r: Remote, inp: seq<Half>, gap: Silence, s: Rec, at: nat, rest: seq<Half>)
    requires BitCoded(r) && SpaceLed(r) && Follows(r, rest)
    requires At(inp, gap, s, BitHalves(r, false, at) + rest)
    ensures if ZeroTold(r, at, PendingHalf(s)) then ReadsRight(r, inp, gap, s, false, at, rest)
            else !ReadsValue(r, inp, s, false, at)
  {
    hide Air, Merge;
    var cs := [Space(r.szero)] + ([Pulse(r.pzero)] + rest);
    assert BitHalves(r, false, at) + rest == cs;
    if s.pendings > 0 {
      SpaceLedOneAgainstZero(r, inp, gap, s, at, rest);
      if !r.Expect(r.szero, r.sone) {
        SpaceLedZeroFound(r, inp, gap, s, at, rest);
      } else {
        SpaceForgotten(r, inp, gap, s, at, rest);
      }
    } else {
      PendingPulseFirst(r, inp, gap, s, at, cs);
      var t := SyncPendingPulse(r, inp, s).s;
      assert t.(pendings := 0) == t;
      SpaceLedOneAgainstZero(r, inp, gap, t, at, rest);
      SpaceLedZeroFound(r, inp, gap, t, at, rest);
    }
  }

  // ----- any bit

  /** A bit is read back exactly when it is a 1 or a 0 that is told from a 1; and then the
      decoder is where the next bit needs it. */
  lemma BitReadBack(r: Remote, inp: seq<Half>, gap: Silence, s: Rec, v: bool, at: nat, rest: seq<Half>)
    requires BitCoded(r) && Follows(r, rest)
    requires At(inp, gap, s, BitHalves(r, v, at) + rest)
    ensures if v || ZeroTold(r, at, PendingHalf(s)) then ReadsRight(r, inp, gap, s, v, at, rest)
            else !ReadsValue(r, inp, s, v, at)
  {
    if r.IsBiphase() {
      if v {
        BiphaseOne(r, inp, gap, s, at, rest);
      } else if ZeroTold(r, at, PendingHalf(s)) {
        BiphaseZero(r, inp, gap, s, at, rest);
      } else {
        BiphaseZeroMissed(r, inp, gap, s, at, rest);
      }
    } else if r.protocol.SpaceFirst? {
      if v {
        SpaceLedOne(r, inp, gap, s, at, rest);
      } else {
        SpaceLedZero(r, inp, gap, s, at, rest);
      }
    } else if v {
      SpaceOne(r, inp, gap, s, at, rest);
    } else if s.pendingp > 0 {
      LeadZero(r, inp, gap, s, at, rest);
    } else {
      SpaceZero(r, inp, gap, s, at, rest);
    }
  }
}
