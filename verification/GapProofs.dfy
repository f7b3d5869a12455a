/** What is left behind a signal: signal and gap together make the constant length. */
module GapProofs {
  import opened Waveform
  import opened Remotes
  import opened SendBuffers
  import opened Transmit
  import opened Chains
  import opened ChainProofs

  /** The sum behind sync_send_buffer: the normal form without a space at its end, in full. */
  lemma SyncedTotal(s: SendState, base: seq<int>, m: seq<Half>, baseSum: int)
    requires Holds(s, base, baseSum, m) && Positive(m) && m != []
    ensures !Bad(Synced(s)) ==> Synced(s).sum == baseSum + Total(Trim(m))
  {
    var init, last := m[..|m| - 1], m[|m| - 1];
    if !s.tooLong {
      FitExact(base, Durations(init));
      assert s.out[|base|..] == Durations(init);
      SumOfDurations(init);
      assert m == init + [last];
      TotalConcat(init, [last]);
      assert Total([last]) == last.dur + Total([last][1..]);
      assert last.dur > 0;
    }
  }

  /** What the source takes off the sum for a header that repeats leave out. */
  function Uncounted(r: Remote, repeated: bool): nat {
    if !repeated && r.noHeadRep && r.constLength then r.phead + r.shead else 0
  }

  lemma SignalSum(s: SendState, r: Remote, n: Ncode, tx: Tx, repeated: bool)
    requires Sendable(r) && AtNode(n, tx) && Sound(SignalHalves(r, n, tx, repeated)) && Settled(s)
    ensures var t, m := AfterSignal(s, r, n, tx, repeated), Merge(Heard(s, SignalHalves(r, n, tx, repeated)));
            !Bad(t) ==> t.sum == s.sum + Total(Trim(m)) - Uncounted(r, repeated)
  {
    hide Run, Merge, Synced, Bad, CodeHalves, RepeatHalves, Heard, Trim, Total;
    var cs := SignalHalves(r, n, tx, repeated);
    var m := Merge(Heard(s, cs));
    HeardIsSound(s, cs, []);
    HeardRun(s, cs);
    RunHolds(s, s.out, s.sum, Heard(s, cs));
    MergeShape(Heard(s, cs));
    MergeKeepsPulse(Heard(s, cs));
    SyncedTotal(Run(s, cs), s.out, m, s.sum);
    if !(repeated && r.HasRepeat()) {
      var r' := r.(toggleMaskState := tx.toggle);
      var full := AfterCode(s, r', CodeAt(r, n, tx, repeated), repeated);
      SumIrrelevant(Run(s, cs), full.sum);
      SumShifted(Run(s, cs), full.sum);
    }
  }

  lemma SumShifted(s: SendState, x: int)
    ensures Synced(s.(sum := x)).sum == Synced(s).sum - s.sum + x
  {}

  /** The gap left behind a signal that is sent: the repeat gap behind a repeat signal; for a constant length
      what the signal, all of it that is heard but the space at its end, leaves of the shorter and of the longer
      gap, a header that repeats leave out not counting; else those gaps themselves. A signal that leaves
      nothing of the shorter gap is not sent. */
  lemma GapCompletesSignal(s: SendState, tx: Tx, r: Remote, n: Ncode, repeated: bool)
    requires Sendable(r) && AtNode(n, tx) && Sound(SignalHalves(r, n, tx, repeated)) && Settled(s) && s.sum == 0
    ensures var o := OneRound(s, tx, r, n, repeated);
            var length := Total(Trim(Merge(Heard(s, SignalHalves(r, n, tx, repeated))))) - Uncounted(r, repeated);
            var shorter := if 0 < r.gap2 < r.gap then r.gap2 else r.gap;
            var longer := if r.gap2 > r.gap then r.gap2 else r.gap;
            if repeated && r.prepeat > 0 && r.srepeat > 0 && r.repeatGap > 0 then
              !o.Fail? ==> o.tx.minGap == r.repeatGap == o.tx.maxGap
            else if r.constLength then
              && (length >= shorter ==> o.Fail?)
              && (!o.Fail? ==> length + o.tx.minGap == shorter && length + o.tx.maxGap == longer)
            else !o.Fail? ==> o.tx.minGap == shorter && o.tx.maxGap == longer
  {
    hide AfterSignal, SignalHalves, Merge, Heard, Trim, Total, Sound, Settled, Bad, Toggle;
    SignalSum(s, r, n, tx, repeated);
  }

  /** A whole signal of constant length: whatever code is sent, one signal begins as long after the other as
      the description says. */
  lemma ConstantPeriod(r: Remote, n: Ncode, tx: Tx)
    requires Sendable(r) && AtNode(n, tx) && r.constLength && !r.noHeadRep && r.gap2 == 0
    requires StartsWithPulse(SignalHalves(r, n, tx, false)) && Positive(SignalHalves(r, n, tx, false))
    requires !OneRound(EMPTY, tx, r, n, false).Fail?
    ensures Total(Trim(Merge(SignalHalves(r, n, tx, false)))) + OneRound(EMPTY, tx, r, n, false).tx.minGap == r.gap
  {
    hide OneRound, Merge, Trim, Total, SignalHalves;
    var cs := SignalHalves(r, n, tx, false);
    assert cs[0].Pulse?;
    GapCompletesSignal(EMPTY, tx, r, n, false);
    assert DropSpaces(cs) == cs;
  }
}
