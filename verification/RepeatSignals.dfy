/** What goes out for a repeat: the repeat signal where the remote has one, and else the code once more, under
    repeat_mask. */
module RepeatSignals {
  import opened Words
  import opened Waveform
  import opened Remotes
  import opened SendBuffers
  import opened Transmit
  import opened Chains
  import opened Codec

  /** The durations of a repeat signal, pulses and spaces in turn: the lead runs into the repeat pulse, and the
      repeat space is heard only in front of a trailing pulse. */
  function RepeatDurations(r: Remote): seq<int> {
    (if r.repeatHeader && r.phead > 0 && r.shead > 0 then [r.phead, r.shead] else [])
    + [r.plead + r.prepeat]
    + if r.ptrail > 0 then [r.srepeat, r.ptrail] else []
  }

  lemma RunTwo(s: SendState, a: Half, b: Half, rest: seq<Half>)
    ensures Run(s, [a, b] + rest) == Run(Push(Push(s, a), b), rest)
  {
    assert ([a, b] + rest)[1..] == [b] + rest && ([b] + rest)[1..] == rest;
  }

  lemma RunFirst(s: SendState, a: Half, rest: seq<Half>)
    ensures Run(s, [a] + rest) == Run(Push(s, a), rest)
  {
    assert ([a] + rest)[1..] == rest;
  }

  /** Behind header, lead and repeat pulse, the pulse pending. */
  function Pulsed(r: Remote): SendState {
    if r.repeatHeader && r.HasHeader() then
      SendState([r.phead, r.shead], false, r.plead + r.prepeat, 0, r.phead + r.shead)
    else SendState([], false, r.plead + r.prepeat, 0, 0)
  }

  lemma PulseRun(r: Remote, s: SendState, rest: seq<Half>)
    requires r.prepeat > 0 && s.pendingp == 0
    ensures Run(s, LeadHalves(r) + ([Pulse(r.prepeat)] + rest)) == Run(Push(s, Pulse(r.plead + r.prepeat)), rest)
  {
    hide Run;
    if r.plead > 0 {
      RunFirst(s, Pulse(r.plead), [Pulse(r.prepeat)] + rest);
      RunFirst(Push(s, Pulse(r.plead)), Pulse(r.prepeat), rest);
    } else {
      assert [] + ([Pulse(r.prepeat)] + rest) == [Pulse(r.prepeat)] + rest;
      RunFirst(s, Pulse(r.prepeat), rest);
    }
  }

  lemma HeaderRun(r: Remote, rest: seq<Half>)
    requires r.prepeat > 0
    ensures Run(EMPTY, (if r.repeatHeader then HeaderHalves(r) else [])
                       + (LeadHalves(r) + ([Pulse(r.prepeat)] + rest))) ==
            Run(Pulsed(r), rest)
  {
    hide Run;
    var more := LeadHalves(r) + ([Pulse(r.prepeat)] + rest);
    if r.repeatHeader && r.HasHeader() {
      assert HeaderHalves(r) + more == [Pulse(r.phead), Space(r.shead)] + more;
      RunTwo(EMPTY, Pulse(r.phead), Space(r.shead), more);
      var s := Push(Push(EMPTY, Pulse(r.phead)), Space(r.shead));
      assert s == SendState([r.phead], false, 0, r.shead, r.phead);
      PulseRun(r, s, rest);
      assert [r.phead] + [r.shead] == [r.phead, r.shead];
    } else {
      assert [] + more == more;
      PulseRun(r, EMPTY, rest);
    }
  }

  lemma TrailRun(s: SendState, r: Remote)
    ensures Run(s, TrailHalves(r)) == if r.ptrail > 0 then Push(s, Pulse(r.ptrail)) else s
  {
    if r.ptrail > 0 {
      assert [Pulse(r.ptrail)][1..] == [];
    }
  }

  /** A repeat signal puts exactly these durations into the empty buffer, whatever code is repeated. */
  lemma RepeatStored(r: Remote, n: Ncode, tx: Tx)
    requires Sendable(r) && AtNode(n, tx) && r.HasRepeat()
    ensures AfterSignal(EMPTY, r, n, tx, true).out == RepeatDurations(r)
  {
    hide Run, Words.Xor, HeaderHalves, LeadHalves, TrailHalves, Synced;
    var rest := [Space(r.srepeat)] + TrailHalves(r);
    assert [Pulse(r.prepeat), Space(r.srepeat)] + TrailHalves(r) == [Pulse(r.prepeat)] + rest;
    HeaderRun(r, rest);
    RunFirst(Pulsed(r), Space(r.srepeat), TrailHalves(r));
    TrailRun(Push(Pulsed(r), Space(r.srepeat)), r);
    RepeatSynced(r);
  }

  lemma RepeatSynced(r: Remote)
    requires r.HasRepeat()
    ensures var s := Push(Pulsed(r), Space(r.srepeat));
            Synced(if r.ptrail > 0 then Push(s, Pulse(r.ptrail)) else s).out == RepeatDurations(r)
  {
    hide Synced, Push;
    if r.ptrail > 0 {
      TrailSynced(Pulsed(r), r.srepeat, r.ptrail);
    } else {
      SpaceSynced(Pulsed(r), r.srepeat);
      assert Pulsed(r).out + [r.plead + r.prepeat] + [] == Pulsed(r).out + [r.plead + r.prepeat];
    }
  }

  /** A pulse is pending behind nothing or a header. */
  predicate PulseLast(s: SendState) {
    (|s.out| == 0 || |s.out| == 2) && !s.tooLong && s.pendingp > 0 && s.pendings == 0
  }

  lemma SpaceSynced(s: SendState, q: int)
    requires PulseLast(s) && q > 0
    ensures Push(s, Space(q)) == SendState(s.out + [s.pendingp], false, 0, q, s.sum + s.pendingp)
    ensures Synced(Push(s, Space(q))).out == s.out + [s.pendingp]
  {}

  lemma TrailSynced(s: SendState, q: int, p: int)
    requires PulseLast(s) && q > 0 && p > 0
    ensures Synced(Push(Push(s, Space(q)), Pulse(p))).out == s.out + [s.pendingp] + [q, p]
  {
    hide Push, Synced;
    SpaceSynced(s, q);
    PulseSynced(s.out + [s.pendingp], q, p, s.sum + s.pendingp);
    assert s.out + [s.pendingp] + [q] + [p] == s.out + [s.pendingp] + [q, p];
  }

  lemma PulseSynced(out: seq<int>, q: int, p: int, sum: int)
    requires |out| % 2 == 1 && |out| < 4 && q > 0 && p > 0
    ensures Synced(Push(SendState(out, false, 0, q, sum), Pulse(p))).out == out + [q] + [p]
  {}

  /** Without a repeat signal a repeat is the same signal with the code under repeat_mask. */
  lemma RepeatIsCode(r: Remote, n: Ncode, tx: Tx, repeated: bool)
    requires Sendable(r) && AtNode(n, tx) && !(repeated && r.HasRepeat())
    ensures var code := if tx.node == 0 then n.code else n.next[tx.node - 1];
            SignalHalves(r, n, tx, repeated) ==
            CodeHalves(r.(toggleMaskState := tx.toggle), if repeated then Xor(code, r.repeatMask) else code, repeated)
  {
    hide CodeHalves;
    var code := if tx.node == 0 then n.code else n.next[tx.node - 1];
    assert Xor(code, ZERO) == code;
  }

  /** The bits sent for a code under repeat_mask are those sent without it, flipped exactly where the mask is
      set; but a bit that is taken from the toggle state stays. */
  lemma RepeatMaskFlips(r: Remote, code: Word, k: nat)
    requires r.BitCount() <= 64 && k < r.bits
    ensures var a := SentBits(r, code, r.bits, r.preDataBits)[k];
            var b := SentBits(r, Xor(code, r.repeatMask), r.bits, r.preDataBits)[k];
            var fromState := CountBelow(r.toggleBitMask, 64) == 1
                             && Remote.Has(r.toggleBitMask, r.Pos(r.preDataBits + k));
            b == if r.repeatMask[r.bits - 1 - k] && !fromState then !a else a
  {
    var pos := r.Pos(r.preDataBits + k);
    MaskedBit(r, code[r.bits - 1 - k], pos);
  }

  lemma MaskedBit(r: Remote, v: bool, pos: int)
    ensures var fromState := CountBelow(r.toggleBitMask, 64) == 1 && Remote.Has(r.toggleBitMask, pos);
            SentBit(r, !v, pos) == if fromState then SentBit(r, v, pos) else !SentBit(r, v, pos)
  {
    hide CountBelow;
    if Remote.Has(r.toggleBitMask, pos) {
      assert r.toggleBitMask[pos] && !ZERO[pos];
    }
  }
}
