/** What a chain of signals leaves in the send buffer, and how many signals it has. */
module ChainProofs {
  import opened Waveform
  import opened Remotes
  import opened SendBuffers
  import opened Transmit
  import opened Chains

  // ----- everything the chain sends, in order

  /** The halves of all signals of the chain with the gaps between them. */
  function Transcript(s: SendState, tx: Tx, r: Remote, n: Ncode, repeated: bool): seq<Half>
    requires Sendable(r) && AtNode(n, tx)
    decreases IntToNat(tx.countdown), |n.next| - tx.node
  {
    var signal := SignalHalves(r, n, tx, repeated);
    match OneRound(s, tx, r, n, repeated)
    case Fail => signal
    case Done(_, _) => signal
    case More(s', tx') => signal + ([Space(tx'.minGap)] + Transcript(s', tx', r, n, true))
  }

  /** Number of signals in the chain. */
  function Signals(s: SendState, tx: Tx, r: Remote, n: Ncode, repeated: bool): nat
    requires Sendable(r) && AtNode(n, tx)
    decreases IntToNat(tx.countdown), |n.next| - tx.node
  {
    match OneRound(s, tx, r, n, repeated)
    case Fail => 1
    case Done(_, _) => 1
    case More(s', tx') => 1 + Signals(s', tx', r, n, true)
  }

  /** A signal of positive durations with at least one pulse. */
  ghost predicate Sound(cs: seq<Half>) {
    Positive(cs) && HasPulse(cs)
  }

  ghost predicate HasPulse(cs: seq<Half>) {
    exists i | 0 <= i < |cs| :: cs[i].Pulse?
  }

  /** Every signal of the chain is of that kind. */
  ghost predicate AllSound(s: SendState, tx: Tx, r: Remote, n: Ncode, repeated: bool)
    requires Sendable(r) && AtNode(n, tx)
    decreases IntToNat(tx.countdown), |n.next| - tx.node
  {
    && Sound(SignalHalves(r, n, tx, repeated))
    && match OneRound(s, tx, r, n, repeated)
       case Fail => true
       case Done(_, _) => true
       case More(s', tx') => AllSound(s', tx', r, n, true)
  }

  predicate StartsWithPulse(cs: seq<Half>) {
    cs != [] && cs[0].Pulse?
  }

  /** Every signal of the chain after the first starts with a pulse. */
  predicate LaterStartWithPulse(s: SendState, tx: Tx, r: Remote, n: Ncode, repeated: bool)
    requires Sendable(r) && AtNode(n, tx)
    decreases IntToNat(tx.countdown), |n.next| - tx.node
  {
    match OneRound(s, tx, r, n, repeated)
    case Fail => true
    case Done(_, _) => true
    case More(s', tx') => StartsWithPulse(SignalHalves(r, n, tx', true)) && LaterStartWithPulse(s', tx', r, n, true)
  }

  // ----- one signal behind what is already stored

  /** A train that ends with a pulse: the normal form without a space at the end. */
  lemma TrimOdd(m: seq<Half>)
    requires Alternating(m) && m != [] && m[0].Pulse?
    ensures |Trim(m)| % 2 == 1 && Trim(m)[|Trim(m)| - 1].Pulse? && Trim(m)[0] == m[0]
    ensures |m| - 1 <= |Trim(m)| <= |m|
  {
    AlternatingParity(m, |m| - 1);
    if m[|m| - 1].Space? {
      AlternatingParity(m, |m| - 2);
    }
  }

  lemma {:induction false} MergeKeepsPulse(cs: seq<Half>)
    requires HasPulse(cs)
    ensures HasPulse(Merge(cs))
  {
    MergeShape(cs);
    if cs[0].Pulse? {
      assert Merge(cs)[0].Pulse?;
    } else {
      var i :| 0 <= i < |cs| && cs[i].Pulse?;
      assert cs[1..][i - 1].Pulse?;
      MergeKeepsPulse(cs[1..]);
      var m := Merge(cs[1..]);
      var j :| 0 <= j < |m| && m[j].Pulse?;
      assert Merge(cs)[if Alike(cs[0], m[0]) then j else j + 1].Pulse?;
    }
  }

  /** What sync_send_buffer leaves of a signal's normal form behind an even number of items: no space
      at the end; and if the signal starts with a space, its last pulse is taken back as well. */
  function Kept(m: seq<Half>): seq<Half> {
    if m == [] || m[0].Pulse? then Trim(m) else Trim(m)[..if Trim(m) == [] then 0 else |Trim(m)| - 1]
  }

  lemma KeptOdd(m: seq<Half>)
    requires Alternating(m) && HasPulse(m)
    ensures m != [] && |Kept(m)| % 2 == 1 && Kept(m) <= m && Kept(m)[0] == m[0]
    ensures m[0].Pulse? ==> Kept(m) == Trim(m)
    ensures m[0].Space? ==> |Trim(m)| == |Kept(m)| + 1 && |m| - |Trim(m)| == if m[|m| - 1].Space? then 1 else 0
  {
    if m[0].Pulse? {
      TrimOdd(m);
    } else {
      var i :| 0 <= i < |m| && m[i].Pulse?;
      assert !Alike(m[0], m[0 + 1]);
      forall k | 0 <= k < |m[1..]| - 1 ensures !Alike(m[1..][k], m[1..][k + 1]) {
        assert !Alike(m[k + 1], m[k + 1 + 1]);
      }
      AlternatingParity(m[1..], |m| - 2);
    }
  }

  lemma FitExact(base: seq<int>, ds: seq<int>)
    requires |base| + |ds| <= WBUF_SIZE
    ensures Fit(base, ds) == base + ds
  {}

  /** sync_send_buffer behind an even base: what is kept of the normal form is stored, or too much
      is reported. */
  lemma SyncedBehind(s: SendState, base: seq<int>, m: seq<Half>, baseSum: int)
    requires Holds(s, base, baseSum, m) && Positive(m) && Alternating(m) && HasPulse(m)
    requires |base| % 2 == 0
    ensures var t := Synced(s);
            !Bad(t) ==>
              && t.out == base + Durations(Kept(m)) && !t.tooLong && t.pendingp == 0
              && t.pendings == (if m[|m| - 1].Space? then m[|m| - 1].dur else 0)
  {
    hide Kept, HasPulse, Alternating, Positive, Holds, Trim, Synced, Durations;
    KeptOdd(m);
    TakenBack(base, m);
    if s.tooLong {
      StaysTooLong(s);
    } else {
      if m[|m| - 1].Pulse? {
        SyncedPulse(s, base, m, baseSum);
      } else {
        SyncedSpace(s, base, m, baseSum);
      }
    }
  }

  lemma StaysTooLong(s: SendState)
    requires s.tooLong
    ensures Synced(s).tooLong
  {}

  lemma SyncedPulse(s: SendState, base: seq<int>, m: seq<Half>, baseSum: int)
    requires Holds(s, base, baseSum, m) && Positive(m) && m != [] && m[|m| - 1].Pulse? && !s.tooLong
    ensures var t, all := Synced(s), base + Durations(m);
            !Bad(t) ==>
              && t.out == (if |all| % 2 == 0 then all[..|all| - 1] else all) && Trim(m) == m
              && !t.tooLong && t.pendingp == 0 && t.pendings == 0
  {
    hide SumOf;
    var init, last := m[..|m| - 1], m[|m| - 1];
    FitExact(base, Durations(init));
    assert Durations(m) == Durations(init) + [last.dur];
    assert base + Durations(m) == (base + Durations(init)) + [last.dur];
  }

  lemma SyncedSpace(s: SendState, base: seq<int>, m: seq<Half>, baseSum: int)
    requires Holds(s, base, baseSum, m) && Positive(m) && m != [] && m[|m| - 1].Space? && !s.tooLong
    ensures var t, all := Synced(s), base + Durations(m[..|m| - 1]);
            !Bad(t) ==>
              && t.out == (if all != [] && |all| % 2 == 0 then all[..|all| - 1] else all) && Trim(m) == m[..|m| - 1]
              && !t.tooLong && t.pendingp == 0 && t.pendings == m[|m| - 1].dur
  {
    hide SumOf;
    FitExact(base, Durations(m[..|m| - 1]));
  }

  lemma TakenBack(base: seq<int>, m: seq<Half>)
    requires HasPulse(m) && Alternating(m) && |base| % 2 == 0
    ensures var all := base + Durations(Trim(m));
            && all != [] && (|all| % 2 == 0 <==> m[0].Space?)
            && base + Durations(Kept(m)) == if m[0].Pulse? then all else all[..|all| - 1]
  {
    KeptOdd(m);
  }

  /** The buffer between two signals: an even number of items and nothing pending. */
  predicate Settled(s: SendState) {
    s == SendState(s.out, false, 0, 0, s.sum) && |s.out| <= WBUF_SIZE && |s.out| % 2 == 0
  }

  /** A train as the buffer takes it: with nothing stored yet, leading spaces are dropped. */
  function Heard(s: SendState, cs: seq<Half>): seq<Half> {
    if s.out == [] then DropSpaces(cs) else cs
  }

  lemma {:induction false} HeardRun(s: SendState, cs: seq<Half>)
    requires Settled(s)
    ensures Run(s, cs) == Run(s, Heard(s, cs))
  {
    if s.out == [] && cs != [] && cs[0].Space? {
      HeardRun(s, cs[1..]);
    }
  }

  lemma {:induction false} DropsToPulse(cs: seq<Half>, later: seq<Half>)
    requires Sound(cs)
    ensures Sound(DropSpaces(cs)) && StartsWithPulse(DropSpaces(cs))
    ensures DropSpaces(cs + later) == DropSpaces(cs) + later
  {
    assert cs != [];
    if cs[0].Space? {
      var i :| 0 <= i < |cs| && cs[i].Pulse?;
      assert cs[1..][i - 1].Pulse?;
      assert (cs + later)[1..] == cs[1..] + later;
      DropsToPulse(cs[1..], later);
    } else {
      assert (cs + later)[0] == cs[0];
    }
  }

  lemma HeardIsSound(s: SendState, cs: seq<Half>, later: seq<Half>)
    requires Sound(cs)
    ensures Sound(Heard(s, cs)) && (s.out == [] ==> StartsWithPulse(Heard(s, cs)))
    ensures Heard(s, cs + later) == Heard(s, cs) + later
  {
    DropsToPulse(cs, later);
  }

  lemma SignalStored(s: SendState, r: Remote, n: Ncode, tx: Tx, repeated: bool)
    requires Sendable(r) && AtNode(n, tx) && Sound(SignalHalves(r, n, tx, repeated)) && Settled(s)
    ensures var t, m := AfterSignal(s, r, n, tx, repeated), Merge(Heard(s, SignalHalves(r, n, tx, repeated)));
            NormalForm(m) && (s.out == [] ==> m[0].Pulse?) &&
            (!Bad(t) ==>
               && t.out == s.out + Durations(Kept(m)) && !t.tooLong && t.pendingp == 0
               && t.pendings == (if m[|m| - 1].Space? then m[|m| - 1].dur else 0))
  {
    hide Run, Merge, Synced, Bad, Kept, CodeHalves, RepeatHalves, Heard;
    var cs := SignalHalves(r, n, tx, repeated);
    HeardIsSound(s, cs, []);
    HeardRun(s, cs);
    RunHolds(s, s.out, s.sum, Heard(s, cs));
    MergeShape(Heard(s, cs));
    MergeKeepsPulse(Heard(s, cs));
    SyncedBehind(Run(s, cs), s.out, Merge(Heard(s, cs)), s.sum);
    if !(repeated && r.HasRepeat()) {
      var full := AfterCode(s, r.(toggleMaskState := tx.toggle), CodeAt(r, n, tx, repeated), repeated);
      SumIrrelevant(Run(s, cs), full.sum);
    }
  }

  ghost predicate NormalForm(m: seq<Half>) {
    Positive(m) && Alternating(m) && HasPulse(m) && m != []
  }

  // ----- the gap behind a signal

  lemma GapJoins(m: seq<Half>, g: nat)
    requires m != []
    ensures Append(m, Space(g)) ==
            Trim(m) + [Space(g + (if m[|m| - 1].Space? then m[|m| - 1].dur else 0))]
  {}

  function GapItem(m: seq<Half>, g: nat): int
    requires m != []
  {
    g + (if m[|m| - 1].Space? then m[|m| - 1].dur else 0)
  }

  lemma GapStored(t: SendState, m: seq<Half>, base: seq<int>, g: nat)
    requires NormalForm(m) && g > 0 && t.out == base + Durations(Kept(m))
    requires !t.tooLong && t.pendingp == 0 && |base| % 2 == 0
    requires t.pendings == (if m[|m| - 1].Space? then m[|m| - 1].dur else 0)
    ensures var u := Flushed(Push(t, Space(g))).(sum := 0);
            !u.tooLong ==>
              && u == SendState(base + Durations(Kept(m)) + [GapItem(m, g)], false, 0, 0, 0)
              && |u.out| <= WBUF_SIZE && |u.out| % 2 == 0
  {
    KeptOdd(m);
    assert m[|m| - 1].dur > 0;
  }

  lemma {:induction false} TooLongRuns(s: SendState, cs: seq<Half>)
    requires s.tooLong
    ensures Run(s, cs).tooLong
    decreases cs
  {
    if cs != [] {
      TooLongRuns(Push(s, cs[0]), cs[1..]);
    }
  }

  /** Once too much has been pushed, the chain is refused. */
  lemma TooLongFails(s: SendState, tx: Tx, r: Remote, n: Ncode, repeated: bool)
    requires Sendable(r) && AtNode(n, tx) && s.tooLong
    ensures Chain(s, tx, r, n, repeated).Refused?
  {
    TooLongRuns(s, SignalHalves(r, n, tx, repeated));
  }

  lemma GapPositive(r: Remote, repeated: bool, sum: int)
    requires r.MinGap() > 0 && GapAfter(r, repeated, sum).Gap?
    ensures GapAfter(r, repeated, sum).min > 0
  {}

  /** What one round that goes on leaves: what is kept of the signal and the gap behind it. */
  lemma RoundStored(s: SendState, tx: Tx, r: Remote, n: Ncode, repeated: bool)
    requires Sendable(r) && AtNode(n, tx) && Sound(SignalHalves(r, n, tx, repeated)) && r.MinGap() > 0 && Settled(s)
    requires OneRound(s, tx, r, n, repeated).More?
    ensures var o, m := OneRound(s, tx, r, n, repeated), Merge(Heard(s, SignalHalves(r, n, tx, repeated)));
            && NormalForm(m) && o.tx.minGap > 0 && o.s.sum == 0
            && (!o.s.tooLong ==>
                  Settled(o.s) && o.s.out == s.out + Durations(Kept(m)) + [GapItem(m, o.tx.minGap)])
  {
    hide SignalHalves, AfterSignal, Merge, Heard, Kept, GapItem, NormalForm, Flushed, Push;
    var m := Merge(Heard(s, SignalHalves(r, n, tx, repeated)));
    var t := AfterSignal(s, r, n, tx, repeated);
    var g := GapAfter(r, repeated, t.sum).min;
    SignalStored(s, r, n, tx, repeated);
    GapPositive(r, repeated, t.sum);
    GapStored(t, m, s.out, g);
  }

  /** A signal for which there is room, with its gap, is not refused by the buffer. */
  lemma RoomEnough(s: SendState, r: Remote, n: Ncode, tx: Tx, repeated: bool, g: nat)
    requires Sendable(r) && AtNode(n, tx) && Sound(SignalHalves(r, n, tx, repeated)) && Settled(s) && g > 0
    requires |s.out| + |SignalHalves(r, n, tx, repeated)| + 1 <= WBUF_SIZE
    ensures var t := AfterSignal(s, r, n, tx, repeated);
            && !Bad(t) && !Flushed(Push(t, Space(g))).tooLong
            && |Flushed(Push(t, Space(g))).out| <= |s.out| + |SignalHalves(r, n, tx, repeated)| + 1
  {
    hide Run, Merge, CodeHalves, RepeatHalves, Heard;
    var cs := SignalHalves(r, n, tx, repeated);
    HeardIsSound(s, cs, []);
    HeardRun(s, cs);
    HeardLength(s, cs);
    RunHolds(s, s.out, s.sum, Heard(s, cs));
    MergeShape(Heard(s, cs));
    SyncedRoom(Run(s, cs), s.out, s.sum, Merge(Heard(s, cs)), g);
    if !(repeated && r.HasRepeat()) {
      var full := AfterCode(s, r.(toggleMaskState := tx.toggle), CodeAt(r, n, tx, repeated), repeated);
      SumIrrelevantGap(Run(s, cs), full.sum, g);
    }
  }

  lemma HeardLength(s: SendState, cs: seq<Half>)
    ensures |Heard(s, cs)| <= |cs|
  {
    DropSpacesShape(cs);
  }

  lemma SyncedRoom(s: SendState, base: seq<int>, baseSum: int, m: seq<Half>, g: nat)
    requires Holds(s, base, baseSum, m) && m != [] && Positive(m) && |base| + |m| + 1 <= WBUF_SIZE && g > 0
    ensures var t := Synced(s);
            !Bad(t) && !Flushed(Push(t, Space(g))).tooLong && |Flushed(Push(t, Space(g))).out| <= |base| + |m| + 1
  {
    assert m[|m| - 1].dur > 0;
  }

  lemma SumIrrelevantGap(s: SendState, x: int, g: nat)
    ensures var t, u := Synced(s), Synced(s.(sum := x));
            && Bad(u) == Bad(t)
            && Flushed(Push(u, Space(g))).tooLong == Flushed(Push(t, Space(g))).tooLong
            && |Flushed(Push(u, Space(g))).out| == |Flushed(Push(t, Space(g))).out|
  {
    hide Synced, Flushed, Push;
    SyncedSum(s, x);
    PushedSum(Synced(s), Synced(s.(sum := x)).sum, g);
  }

  lemma SyncedSum(s: SendState, x: int)
    ensures var t, u := Synced(s), Synced(s.(sum := x)); u == t.(sum := u.sum)
  {}

  lemma PushedSum(t: SendState, x: int, g: nat)
    ensures var a, b := Flushed(Push(t, Space(g))), Flushed(Push(t.(sum := x), Space(g)));
            b.tooLong == a.tooLong && |b.out| == |a.out|
  {}

  // ----- what every successful chain leaves

  ghost predicate AllPositive(ds: seq<int>) {
    forall i | 0 <= i < |ds| :: ds[i] > 0
  }

  lemma KeptPositive(base: seq<int>, m: seq<Half>, g: nat)
    requires AllPositive(base) && NormalForm(m) && |base| % 2 == 0
    ensures var ds := base + Durations(Kept(m));
            && AllPositive(ds) && |ds| % 2 == 1 && base + [m[0].dur] <= ds
            && (g > 0 ==> AllPositive(ds + [GapItem(m, g)]))
  {
    KeptOdd(m);
    assert m[|m| - 1].dur > 0;
    assert forall i | 0 <= i < |Kept(m)| :: Kept(m)[i] == m[i];
  }

  /** Whatever a chain of sound signals fills the buffer with, it is an odd number of positive
      durations, and begins with what was there and the first half of the next signal. */
  lemma {:induction false} ChainFills(s: SendState, tx: Tx, r: Remote, n: Ncode, repeated: bool)
    requires Sendable(r) && AtNode(n, tx) && AllSound(s, tx, r, n, repeated) && r.MinGap() > 0
    requires Settled(s) && AllPositive(s.out) && Chain(s, tx, r, n, repeated).Filled?
    ensures var out, m := Chain(s, tx, r, n, repeated).s.out, Merge(Heard(s, SignalHalves(r, n, tx, repeated)));
            m != [] && |out| % 2 == 1 && AllPositive(out) && s.out + [m[0].dur] <= out
    decreases IntToNat(tx.countdown), |n.next| - tx.node
  {
    hide SignalHalves, AfterSignal, Kept, GapItem, Merge, Heard, Sound, NormalForm, AllPositive;
    var m := Merge(Heard(s, SignalHalves(r, n, tx, repeated)));
    NormalFormNotEmpty(m);
    match OneRound(s, tx, r, n, repeated)
    case Fail =>
    case Done(_, _) =>
      SignalStored(s, r, n, tx, repeated);
      KeptPositive(s.out, m, 0);
    case More(s', tx') =>
      RoundStored(s, tx, r, n, repeated);
      if s'.tooLong {
        TooLongFails(s', tx', r, n, true);
      } else {
        KeptPositive(s.out, m, tx'.minGap);
        ChainFills(s', tx', r, n, true);
      }
  }

  lemma NormalFormNotEmpty(m: seq<Half>)
    ensures NormalForm(m) ==> m != []
  {}

  // ----- when the waveform is kept

  lemma {:induction false} MergeConcat(a: seq<Half>, b: seq<Half>)
    requires a != [] && b != [] && !Alike(a[|a| - 1], b[0])
    ensures Merge(a + b) == Merge(a) + Merge(b)
  {
    assert (a + b)[1..] == a[1..] + b;
    if |a| == 1 {
      assert a[1..] + b == b;
      MergeUnlike(a[0], b);
      assert a == [a[0]] && Merge(a) == [a[0]] + Merge(a[1..]);
    } else {
      MergeConcat(a[1..], b);
      MergeShape(a[1..]);
      PrependSplit2(a[0], Merge(a[1..]), Merge(b));
    }
  }

  lemma PrependSplit2(h: Half, m: seq<Half>, t: seq<Half>)
    requires m != []
    ensures Prepend(h, m + t) == Prepend(h, m) + t
  {
    assert (m + t)[1..] == m[1..] + t;
  }

  /** The first half of a chain is the first half of its first signal. */
  lemma TranscriptStarts(s: SendState, tx: Tx, r: Remote, n: Ncode, repeated: bool)
    requires Sendable(r) && AtNode(n, tx) && SignalHalves(r, n, tx, repeated) != []
    ensures Transcript(s, tx, r, n, repeated) != []
    ensures Transcript(s, tx, r, n, repeated)[0] == SignalHalves(r, n, tx, repeated)[0]
  {}

  lemma TrimBehind(a: seq<Half>, b: seq<Half>)
    requires b != [] && b[0].Pulse?
    ensures Trim(a + b) == a + Trim(b)
  {}

  lemma MoreMerges(signal: seq<Half>, g: nat, later: seq<Half>)
    requires signal != [] && later != [] && later[0].Pulse?
    ensures Merge(signal + ([Space(g)] + later)) == Append(Merge(signal), Space(g)) + Merge(later)
    ensures Trim(Merge(signal + ([Space(g)] + later))) == Append(Merge(signal), Space(g)) + Trim(Merge(later))
  {
    assert signal + ([Space(g)] + later) == (signal + [Space(g)]) + later;
    MergeConcat(signal + [Space(g)], later);
    MergeAppend(signal, Space(g));
    MergeShape(later);
    TrimBehind(Append(Merge(signal), Space(g)), Merge(later));
  }

  lemma LaterStored(base: seq<int>, signal: seq<Half>, g: nat, later: seq<Half>)
    requires Sound(signal) && signal[0].Pulse? && later != [] && later[0].Pulse?
    ensures Merge(signal) != []
    ensures (base + Durations(Kept(Merge(signal))) + [GapItem(Merge(signal), g)]) + Durations(Trim(Merge(later))) ==
            base + Durations(Trim(Merge(signal + ([Space(g)] + later))))
  {
    hide Merge, Append, Trim, Sound, Durations, GapItem, Kept;
    SoundNotEmpty(signal);
    MergeShape(signal);
    MoreMerges(signal, g, later);
    KeptFromPulse(Merge(signal));
    GapDurations(Merge(signal), g);
    var head, tail := Append(Merge(signal), Space(g)), Trim(Merge(later));
    DurationsConcat(head, tail);
    Regroup(base, Durations(Trim(Merge(signal))), [GapItem(Merge(signal), g)], Durations(tail));
  }

  lemma GapDurations(m: seq<Half>, g: nat)
    requires m != []
    ensures Durations(Append(m, Space(g))) == Durations(Trim(m)) + [GapItem(m, g)]
  {
    GapJoins(m, g);
  }

  lemma DurationsConcat(a: seq<Half>, b: seq<Half>)
    ensures Durations(a + b) == Durations(a) + Durations(b)
  {}

  lemma Regroup<T>(a: seq<T>, b: seq<T>, c: seq<T>, d: seq<T>)
    ensures a + b + c + d == a + (b + c + d)
  {}

  lemma SoundNotEmpty(cs: seq<Half>)
    requires Sound(cs)
    ensures cs != []
  {}

  /** If every further signal starts with a pulse, the chain fills the buffer, behind what was there,
      with the normal form of all its signals and gaps, without a space at the end. */
  lemma {:induction false} ChainStored(s: SendState, tx: Tx, r: Remote, n: Ncode, repeated: bool)
    requires Sendable(r) && AtNode(n, tx) && AllSound(s, tx, r, n, repeated) && r.MinGap() > 0 && Settled(s)
    requires LaterStartWithPulse(s, tx, r, n, repeated)
    requires s.out == [] || StartsWithPulse(SignalHalves(r, n, tx, repeated))
    ensures var o := Chain(s, tx, r, n, repeated);
            o.Filled? ==> o.s.out == s.out + Durations(Trim(Merge(Heard(s, Transcript(s, tx, r, n, repeated)))))
    decreases IntToNat(tx.countdown), |n.next| - tx.node
  {
    hide SignalHalves, AfterSignal, Merge, Heard, GapItem, Sound, NormalForm;
    var signal := SignalHalves(r, n, tx, repeated);
    HeardStarts(s, signal);
    match OneRound(s, tx, r, n, repeated)
    case Fail =>
    case Done(_, _) => SignalStored(s, r, n, tx, repeated);
    case More(s', tx') =>
      RoundStored(s, tx, r, n, repeated);
      if s'.tooLong {
        TooLongFails(s', tx', r, n, true);
      } else {
        ChainStored(s', tx', r, n, true);
        TranscriptStarts(s', tx', r, n, true);
        var later := Transcript(s', tx', r, n, true);
        HeardIsSound(s, signal, [Space(tx'.minGap)] + later);
        HeardBehind(s', later);
        LaterStored(s.out, Heard(s, signal), tx'.minGap, later);
      }
  }

  lemma HeardStarts(s: SendState, cs: seq<Half>)
    requires Sound(cs) && (s.out == [] || StartsWithPulse(cs))
    ensures cs != [] && StartsWithPulse(Heard(s, cs)) && Merge(Heard(s, cs)) != [] && Merge(Heard(s, cs))[0].Pulse?
  {
    HeardIsSound(s, cs, []);
    MergeShape(Heard(s, cs));
  }

  lemma HeardBehind(s: SendState, cs: seq<Half>)
    ensures s.out != [] ==> Heard(s, cs) == cs
  {}

  lemma {:induction false} TranscriptPositive(s: SendState, tx: Tx, r: Remote, n: Ncode, repeated: bool)
    requires Sendable(r) && AtNode(n, tx) && AllSound(s, tx, r, n, repeated) && r.MinGap() > 0
    ensures Positive(Transcript(s, tx, r, n, repeated))
    decreases IntToNat(tx.countdown), |n.next| - tx.node
  {
    hide SignalHalves, AfterSignal;
    match OneRound(s, tx, r, n, repeated)
    case Fail =>
    case Done(_, _) =>
    case More(s', tx') =>
      GapPositive(r, repeated, AfterSignal(s, r, n, tx, repeated).sum);
      TranscriptPositive(s', tx', r, n, true);
  }

  /** The train a is what b leaves of its waveform before the silence at its end. */
  ghost predicate UpToSilence(a: seq<Half>, b: seq<Half>, silence: nat)
    requires Positive(a) && Positive(b)
  {
    Levels(b) == Levels(a) + seq(silence, _ => false)
  }

  /** The stored durations, read as pulse, space, pulse ..., have the waveform of the train up to
      the silence at its end. */
  ghost predicate KeepsWaveform(out: seq<int>, sent: seq<Half>) {
    Positive(Stored(out)) && Positive(sent) && exists silence: nat :: UpToSilence(Stored(out), sent, silence)
  }

  lemma TrimmedWaveform(sent: seq<Half>) returns (silence: nat)
    requires Positive(sent) && sent != [] && sent[0].Pulse?
    ensures var t := Trim(Merge(sent));
            && Positive(t) && UpToSilence(t, sent, silence)
            && |t| % 2 == 1 && Stored(Durations(t)) == t
  {
    hide Merge, Levels, Stored, Alternating;
    var m := Merge(sent);
    var t := Trim(m);
    MergeShape(sent);
    MergeKeepsLevels(sent);
    TrimOdd(m);
    AlternatingPrefix(m, |t|);
    StoredDurations(t);
    assert forall i | 0 <= i < |t| :: t[i] == m[i];
    if m[|m| - 1].Space? {
      silence := m[|m| - 1].dur;
      assert m == t + [m[|m| - 1]];
      LevelsSnoc(t, m[|m| - 1]);
    } else {
      silence := 0;
      assert Levels(t) + seq(0, _ => false) == Levels(t);
    }
  }

  lemma {:induction false} LevelsSnoc(cs: seq<Half>, h: Half)
    requires Positive(cs) && h.dur > 0
    ensures Levels(cs + [h]) == Levels(cs) + seq(h.dur, _ => h.Pulse?)
  {
    if cs == [] {
      assert cs + [h] == [h] && [h][1..] == [];
      assert Levels([h]) == seq(h.dur, _ => h.Pulse?) + Levels([]);
    } else {
      assert (cs + [h])[1..] == cs[1..] + [h];
      LevelsSnoc(cs[1..], h);
    }
  }

  lemma {:induction false} LevelsConcat(a: seq<Half>, b: seq<Half>)
    requires Positive(a) && Positive(b)
    ensures Positive(a + b) && Levels(a + b) == Levels(a) + Levels(b)
  {
    if b == [] {
      assert a + b == a;
    } else {
      var n := |b| - 1;
      assert a + b == (a + b[..n]) + [b[n]] && b == b[..n] + [b[n]];
      LevelsConcat(a, b[..n]);
      LevelsSnoc(a + b[..n], b[n]);
      LevelsSnoc(b[..n], b[n]);
    }
  }

  // ----- when it is not

  /** The buffer reads a pulse where the train has a space, so the waveforms differ. */
  lemma SpaceReadAsPulse(out: seq<int>, base: seq<int>, a: int, done: seq<Half>, later: seq<Half>)
    requires base + [a] <= out && |base| % 2 == 0 && AllPositive(out)
    requires Positive(done) && Positive(Stored(base)) && Levels(Stored(base)) == Levels(done)
    requires later != [] && later[0].Space? && Positive(later)
    ensures !KeepsWaveform(out, done + later)
  {
    hide Levels, UpToSilence;
    var read, t := Stored(out), |Levels(done)|;
    var front, rest := Stored(base), read[|base| + 1..];
    assert read == front + ([Pulse(a)] + rest);
    assert forall i | 0 <= i < |rest| :: rest[i].dur == out[|base| + 1 + i];
    assert a == out[|base|];
    LevelsConcat(front, [Pulse(a)] + rest);
    LevelsConcat([Pulse(a)], rest);
    LevelsFirst([Pulse(a)] + rest);
    LevelsConcat(done, later);
    LevelsFirst(later);
    assert Levels(read)[t] && !Levels(done + later)[t];
    forall silence: nat ensures !UpToSilence(read, done + later, silence) {
      AgreeBefore(read, done + later, silence, t);
    }
  }

  lemma AgreeBefore(a: seq<Half>, b: seq<Half>, silence: nat, t: nat)
    requires Positive(a) && Positive(b)
    ensures UpToSilence(a, b, silence) && t < |Levels(a)| ==> t < |Levels(b)| && Levels(b)[t] == Levels(a)[t]
  {}

  lemma LevelsFirst(cs: seq<Half>)
    requires Positive(cs) && cs != []
    ensures |Levels(cs)| > 0 && Levels(cs)[0] == cs[0].Pulse?
  {
    assert cs[0].dur > 0;
  }

  lemma StoredConcat(base: seq<int>, m: seq<Half>)
    requires |base| % 2 == 0 && Alternating(m) && m != [] && m[0].Pulse?
    ensures Stored(base + Durations(m)) == Stored(base) + m
  {
    StoredDurations(m);
  }

  /** A signal that starts with a pulse, and its gap, are stored with their waveform. */
  lemma RoundKeepsWaveform(base: seq<int>, done: seq<Half>, signal: seq<Half>, g: nat)
    requires |base| % 2 == 0 && Positive(done) && Positive(Stored(base)) && Levels(Stored(base)) == Levels(done)
    requires Sound(signal) && signal[0].Pulse? && g > 0
    ensures Merge(signal) != []
    ensures var out := base + Durations(Kept(Merge(signal))) + [GapItem(Merge(signal), g)];
            && Positive(Stored(out)) && Positive(done + (signal + [Space(g)]))
            && Levels(Stored(out)) == Levels(done + (signal + [Space(g)]))
  {
    hide Levels, Merge, Stored, Append, Trim;
    MergeShape(signal);
    var m := Append(Merge(signal), Space(g));
    GapJoins(Merge(signal), g);
    MergeAppend(signal, Space(g));
    MergeShape(signal + [Space(g)]);
    MergeKeepsLevels(signal + [Space(g)]);
    KeptFromPulse(Merge(signal));
    assert Durations(m) == Durations(Trim(Merge(signal))) + [GapItem(Merge(signal), g)];
    assert base + Durations(m) == base + Durations(Kept(Merge(signal))) + [GapItem(Merge(signal), g)];
    StoredConcat(base, m);
    LevelsConcat(Stored(base), m);
    LevelsConcat(done, signal + [Space(g)]);
  }

  lemma KeptFromPulse(m: seq<Half>)
    ensures m == [] || m[0].Pulse? ==> Kept(m) == Trim(m)
  {}

  /** As soon as a further signal starts with a space, the waveform is lost. */
  lemma {:induction false} ChainSpoilt(s: SendState, tx: Tx, r: Remote, n: Ncode, repeated: bool, done: seq<Half>)
    requires Sendable(r) && AtNode(n, tx) && AllSound(s, tx, r, n, repeated) && r.MinGap() > 0 && Settled(s)
    requires AllPositive(s.out) && Chain(s, tx, r, n, repeated).Filled?
    requires Positive(done) && Positive(Stored(s.out)) && Levels(Stored(s.out)) == Levels(done)
    requires !LaterStartWithPulse(s, tx, r, n, repeated)
             || !(s.out == [] || StartsWithPulse(SignalHalves(r, n, tx, repeated)))
    ensures !KeepsWaveform(Chain(s, tx, r, n, repeated).s.out, done + Heard(s, Transcript(s, tx, r, n, repeated)))
    decreases IntToNat(tx.countdown), |n.next| - tx.node
  {
    hide SignalHalves, AfterSignal, Merge, Heard, GapItem, Kept, Sound, NormalForm, Levels, Stored, KeepsWaveform;
    hide AllPositive;
    var signal := SignalHalves(r, n, tx, repeated);
    SoundNotEmpty(signal);
    if s.out == [] || StartsWithPulse(signal) {
      var s', tx' := OneRound(s, tx, r, n, repeated).s, OneRound(s, tx, r, n, repeated).tx;
      RoundStored(s, tx, r, n, repeated);
      if s'.tooLong {
        TooLongFails(s', tx', r, n, true);
      } else {
        HeardStarts(s, signal);
        var later := Transcript(s', tx', r, n, true);
        var gap := [Space(tx'.minGap)];
        HeardIsSound(s, signal, gap + later);
        RoundKeepsWaveform(s.out, done, Heard(s, signal), tx'.minGap);
        KeptPositive(s.out, Merge(Heard(s, signal)), tx'.minGap);
        HeardBehind(s', later);
        ChainSpoilt(s', tx', r, n, true, done + (Heard(s, signal) + gap));
        assert done + (Heard(s, signal) + (gap + later)) == (done + (Heard(s, signal) + gap)) + later;
      }
    } else {
      ChainFills(s, tx, r, n, repeated);
      TranscriptPositive(s, tx, r, n, repeated);
      TranscriptStarts(s, tx, r, n, repeated);
      HeardBehind(s, Transcript(s, tx, r, n, repeated));
      SpaceReadAsPulse(Chain(s, tx, r, n, repeated).s.out, s.out, Merge(Heard(s, signal))[0].dur,
                       done, Transcript(s, tx, r, n, repeated));
    }
  }

  // ----- the theorem

  /** A successful call fills the buffer with an odd number of positive durations, at most
      WBUF_SIZE of them. Read as pulse, space, pulse ... they have the waveform of all the chain's
      signals with their gaps, without the silence at the beginning and the end, if and only if every
      signal after the first starts with a pulse. */
  lemma ChainAlternates(tx: Tx, r: Remote, n: Ncode, repeated: bool)
    requires Sendable(r) && AtNode(n, tx) && AllSound(EMPTY, tx, r, n, repeated) && r.MinGap() > 0
    requires Chain(EMPTY, tx, r, n, repeated).Filled?
    ensures var out := Chain(EMPTY, tx, r, n, repeated).s.out;
            && |out| % 2 == 1 && |out| <= WBUF_SIZE && AllPositive(out)
            && (KeepsWaveform(out, DropSpaces(Transcript(EMPTY, tx, r, n, repeated))) <==>
                LaterStartWithPulse(EMPTY, tx, r, n, repeated))
  {
    hide SignalHalves, OneRound, Sound, Merge, Levels, Stored, Chain;
    var sent := Transcript(EMPTY, tx, r, n, repeated);
    ChainFills(EMPTY, tx, r, n, repeated);
    ChainFits(EMPTY, tx, r, n, repeated);
    if LaterStartWithPulse(EMPTY, tx, r, n, repeated) {
      ChainStored(EMPTY, tx, r, n, repeated);
      FirstHeard(tx, r, n, repeated);
      var silence := TrimmedWaveform(DropSpaces(sent));
      assert [] + Durations(Trim(Merge(DropSpaces(sent)))) == Durations(Trim(Merge(DropSpaces(sent))));
      assert UpToSilence(Stored(Chain(EMPTY, tx, r, n, repeated).s.out), DropSpaces(sent), silence);
    } else {
      assert Stored([]) == [];
      ChainSpoilt(EMPTY, tx, r, n, repeated, []);
      assert [] + DropSpaces(sent) == DropSpaces(sent);
    }
  }

  lemma FirstHeard(tx: Tx, r: Remote, n: Ncode, repeated: bool)
    requires Sendable(r) && AtNode(n, tx) && AllSound(EMPTY, tx, r, n, repeated) && r.MinGap() > 0
    ensures var sent := DropSpaces(Transcript(EMPTY, tx, r, n, repeated));
            Positive(sent) && sent != [] && sent[0].Pulse?
  {
    var signal, sent := SignalHalves(r, n, tx, repeated), Transcript(EMPTY, tx, r, n, repeated);
    TranscriptPositive(EMPTY, tx, r, n, repeated);
    DropSpacesShape(sent);
    DropsToPulse(signal, sent[|signal|..]);
    assert sent == signal + sent[|signal|..];
  }

  lemma SignalFits(s: SendState, r: Remote, n: Ncode, tx: Tx, repeated: bool)
    requires Sendable(r) && AtNode(n, tx) && |s.out| <= WBUF_SIZE
    ensures |AfterSignal(s, r, n, tx, repeated).out| <= WBUF_SIZE
  {
    hide CodeHalves, RepeatHalves;
    RunFits(s, SignalHalves(r, n, tx, repeated));
  }

  lemma {:induction false} ChainFits(s: SendState, tx: Tx, r: Remote, n: Ncode, repeated: bool)
    requires Sendable(r) && AtNode(n, tx) && |s.out| <= WBUF_SIZE
    ensures var o := Chain(s, tx, r, n, repeated); o.Filled? ==> |o.s.out| <= WBUF_SIZE
    decreases IntToNat(tx.countdown), |n.next| - tx.node
  {
    hide SignalHalves, AfterSignal;
    SignalFits(s, r, n, tx, repeated);
    match OneRound(s, tx, r, n, repeated)
    case Fail =>
    case Done(_, _) =>
    case More(s', tx') => ChainFits(s', tx', r, n, true);
  }

  // ----- how many signals

  /** Every gap after which something is left to send is short enough to go on in the same buffer. */
  ghost predicate ShortGaps(s: SendState, tx: Tx, r: Remote, n: Ncode, repeated: bool)
    requires Sendable(r) && AtNode(n, tx)
    decreases IntToNat(tx.countdown), |n.next| - tx.node
  {
    var g := GapAfter(r, repeated, AfterSignal(s, r, n, tx, repeated).sum);
    tx.countdown > 0 || NextNode(n, tx) != 0 ==>
      && (g.NoGap? || g.min < LIRCD_EXACT_GAP_THRESHOLD)
      && match OneRound(s, tx, r, n, repeated)
         case More(s', tx') => ShortGaps(s', tx', r, n, true)
         case _ => true
  }

  /** That is so if the gap is fixed and short, whatever the signals. */
  predicate ShortFixedGap(r: Remote) {
    && !r.constLength && r.MinGap() < LIRCD_EXACT_GAP_THRESHOLD
    && (r.HasRepeatGap() && r.HasRepeat() ==> r.repeatGap < LIRCD_EXACT_GAP_THRESHOLD)
  }

  lemma {:induction false} FixedGapsShort(s: SendState, tx: Tx, r: Remote, n: Ncode, repeated: bool)
    requires Sendable(r) && AtNode(n, tx) && ShortFixedGap(r)
    ensures ShortGaps(s, tx, r, n, repeated)
    decreases IntToNat(tx.countdown), |n.next| - tx.node
  {
    hide SignalHalves, AfterSignal, Push, Flushed, Toggle, Bad;
    match OneRound(s, tx, r, n, repeated)
    case More(s', tx') => FixedGapsShort(s', tx', r, n, true);
    case _ =>
  }

  lemma Product(c: int, k: int)
    ensures c * k == (c - 1) * k + k
  {}

  /** The signals still to be sent: the rest of the button's codes, and all of them once for every repeat. */
  function SignalsDue(tx: Tx, n: Ncode): int {
    |n.next| + 1 - tx.node + IntToNat(tx.countdown) * (|n.next| + 1)
  }

  lemma DueNext(tx: Tx, tx': Tx, n: Ncode)
    requires AtNode(n, tx) && tx'.node == NextNode(n, tx) && (tx.countdown > 0 || tx'.node != 0)
    requires tx'.countdown == if tx'.node == 0 then tx.countdown - 1 else tx.countdown
    ensures SignalsDue(tx, n) == 1 + SignalsDue(tx', n) && SignalsDue(tx', n) >= 1
  {
    if tx'.node == 0 {
      Product(tx.countdown, |n.next| + 1);
    }
    DuePositive(tx', n);
  }

  lemma DuePositive(tx: Tx, n: Ncode)
    requires AtNode(n, tx)
    ensures SignalsDue(tx, n) >= 1
    ensures tx.countdown > 0 || tx.node < |n.next| ==> SignalsDue(tx, n) > 1
  {
    if tx.countdown > 0 {
      Product(tx.countdown, |n.next| + 1);
    }
  }

  /** A chain that succeeds sends all that is due exactly if every gap on the way is short; otherwise it
      stops earlier and leaves the rest to the alarm. */
  lemma {:induction false} SignalsCount(s: SendState, tx: Tx, r: Remote, n: Ncode, repeated: bool)
    requires Sendable(r) && AtNode(n, tx)
    requires Chain(s, tx, r, n, repeated).Filled?
    ensures Signals(s, tx, r, n, repeated) <= SignalsDue(tx, n)
    ensures Signals(s, tx, r, n, repeated) == SignalsDue(tx, n) <==> ShortGaps(s, tx, r, n, repeated)
    ensures ShortGaps(s, tx, r, n, repeated) ==>
              var tx' := Chain(s, tx, r, n, repeated).tx;
              tx'.node == 0 && tx'.countdown == if tx.countdown > 0 then 0 else tx.countdown
    decreases IntToNat(tx.countdown), |n.next| - tx.node
  {
    hide SignalHalves, AfterSignal, Push, Flushed, GapAfter, Toggle, Bad, SignalsDue;
    DuePositive(tx, n);
    match OneRound(s, tx, r, n, repeated)
    case Fail =>
    case Done(_, tx') =>
      if tx.countdown <= 0 && tx.node == |n.next| {
        NothingDue(tx, n);
      }
    case More(s', tx') =>
      DueNext(tx, tx', n);
      SignalsCount(s', tx', r, n, true);
  }

  lemma NothingDue(tx: Tx, n: Ncode)
    requires tx.countdown <= 0 && tx.node == |n.next|
    ensures SignalsDue(tx, n) == 1
  {}

  /** A button of one code is sent 1 + min_repeat times at once, exactly if the gaps are short. */
  lemma SingleCodeSignals(r: Remote, n: Ncode, tx: Tx, minRepeat: nat)
    requires Sendable(r) && n.next == [] && AtNode(n, tx)
    requires Chain(EMPTY, Started(tx, minRepeat, false), r, n, false).Filled?
    ensures Signals(EMPTY, Started(tx, minRepeat, false), r, n, false) == 1 + minRepeat <==>
            ShortGaps(EMPTY, Started(tx, minRepeat, false), r, n, false)
    ensures ShortFixedGap(r) ==> ShortGaps(EMPTY, Started(tx, minRepeat, false), r, n, false)
  {
    hide Signals, Chain, ShortFixedGap, ShortGaps;
    SignalsCount(EMPTY, Started(tx, minRepeat, false), r, n, false);
    if ShortFixedGap(r) {
      FixedGapsShort(EMPTY, Started(tx, minRepeat, false), r, n, false);
    }
  }

  // ----- one signal that starts with a space

  /** Behind what the buffer held stands the normal form m of a signal, its first space where a pulse is
      read, and without its last pulse. */
  ghost predicate StoredAmiss(before: seq<int>, m: seq<Half>, out: seq<int>) {
    && |m| >= 2 && m[0].Space? && |Trim(m)| >= 2 && Trim(m)[|Trim(m)| - 1].Pulse?
    && out == before + Durations(Trim(m)[..|Trim(m)| - 1])
    && |before| < |out| && Stored(out)[|before|] == Pulse(m[0].dur)
  }

  /** A further signal that begins with a space is stored from its first space on where a pulse is
      read, and when the buffer is synced it loses its last pulse. */
  lemma SpaceFirstMisplaced(s: SendState, r: Remote, n: Ncode, tx: Tx, repeated: bool)
    requires Sendable(r) && AtNode(n, tx) && Sound(SignalHalves(r, n, tx, repeated)) && Settled(s) && s.out != []
    requires SignalHalves(r, n, tx, repeated)[0].Space? && !Bad(AfterSignal(s, r, n, tx, repeated))
    ensures StoredAmiss(s.out, Merge(SignalHalves(r, n, tx, repeated)), AfterSignal(s, r, n, tx, repeated).out)
  {
    hide AfterSignal, SignalHalves, Merge;
    var m := Merge(SignalHalves(r, n, tx, repeated));
    SignalStored(s, r, n, tx, repeated);
    MergeShape(SignalHalves(r, n, tx, repeated));
    KeptOdd(m);
    assert m[|m| - 1].Space? ==> !Alike(m[|m| - 2], m[|m| - 2 + 1]);
  }
}
