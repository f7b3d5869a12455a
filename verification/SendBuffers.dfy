/** The send buffer of lib/transmit.c: pulses and spaces are pushed one by one, and the half
    pushed last stays pending so that a like one can still be added to it. */
module SendBuffers {
  import opened Waveform

  const WBUF_SIZE: nat := 256

  /** The buffer's contents as a value. */
  datatype SendState = SendState(out: seq<int>, tooLong: bool, pendingp: int, pendings: int, sum: int)

  const EMPTY := SendState([], false, 0, 0, 0)

  function Added(s: SendState, d: int): SendState {
    if |s.out| < WBUF_SIZE then s.(out := s.out + [d], sum := s.sum + d) else s.(tooLong := true)
  }

  function Push(s: SendState, h: Half): SendState {
    match h
    case Pulse(d) =>
      if s.pendingp > 0 then s.(pendingp := s.pendingp + d)
      else if s.pendings > 0 then Added(s, s.pendings).(pendings := 0, pendingp := d)
      else s.(pendingp := d)
    case Space(d) =>
      if s.out == [] && s.pendingp == 0 then s
      else if s.pendings > 0 then s.(pendings := s.pendings + d)
      else if s.pendingp > 0 then Added(s, s.pendingp).(pendingp := 0, pendings := d)
      else s.(pendings := d)
  }

  /** A run of pushes. */
  function Run(s: SendState, cs: seq<Half>): SendState
    decreases cs
  {
    if cs == [] then s else Run(Push(s, cs[0]), cs[1..])
  }

  function Flushed(s: SendState): SendState {
    var s := if s.pendingp > 0 then Added(s, s.pendingp).(pendingp := 0) else s;
    if s.pendings > 0 then Added(s, s.pendings).(pendings := 0) else s
  }

  function Synced(s: SendState): SendState {
    var s := if s.pendingp > 0 then Added(s, s.pendingp).(pendingp := 0) else s;
    if |s.out| > 0 && |s.out| % 2 == 0 then s.(out := s.out[..|s.out| - 1]) else s
  }

  predicate Bad(s: SendState) {
    s.tooLong || (|s.out| == WBUF_SIZE && s.pendingp > 0)
  }

  class SendBuffer {
    const data: array<int>
    var wptr: nat
    var tooLong: bool
    var pendingp: int
    var pendings: int
    var sum: int

    ghost predicate Valid()
      reads this
    {
      data.Length == WBUF_SIZE && wptr <= WBUF_SIZE
    }

    ghost function State(): SendState
      requires Valid()
      reads this, data
    {
      SendState(data[..wptr], tooLong, pendingp, pendings, sum)
    }

    constructor ()
      ensures Valid() && fresh(data) && State() == EMPTY
    {
      data := new int[WBUF_SIZE];
      wptr, tooLong, pendingp, pendings, sum := 0, false, 0, 0, 0;
    }

    method Clear()
      requires Valid()
      modifies this
      ensures Valid() && State() == EMPTY
    {
      wptr, tooLong, pendingp, pendings, sum := 0, false, 0, 0, 0;
    }

    method Add(d: int)
      requires Valid()
      modifies this, data
      ensures Valid() && State() == Added(old(State()), d)
    {
      if wptr < WBUF_SIZE {
        sum := sum + d;
        data[wptr] := d;
        wptr := wptr + 1;
      } else {
        tooLong := true;
      }
    }

    method SendPulse(d: int)
      requires Valid()
      modifies this, data
      ensures Valid() && State() == Push(old(State()), Pulse(d))
    {
      if pendingp > 0 {
        pendingp := pendingp + d;
      } else {
        if pendings > 0 {
          Add(pendings);
          pendings := 0;
        }
        pendingp := d;
      }
    }

    method SendSpace(d: int)
      requires Valid()
      modifies this, data
      ensures Valid() && State() == Push(old(State()), Space(d))
    {
      if wptr == 0 && pendingp == 0 {
        return;
      }
      if pendings > 0 {
        pendings := pendings + d;
      } else {
        if pendingp > 0 {
          Add(pendingp);
          pendingp := 0;
        }
        pendings := d;
      }
    }

    method Flush()
      requires Valid()
      modifies this, data
      ensures Valid() && State() == Flushed(old(State()))
    {
      if pendingp > 0 {
        Add(pendingp);
        pendingp := 0;
      }
      if pendings > 0 {
        Add(pendings);
        pendings := 0;
      }
    }

    method Sync()
      requires Valid()
      modifies this, data
      ensures Valid() && State() == Synced(old(State()))
    {
      if pendingp > 0 {
        Add(pendingp);
        pendingp := 0;
      }
      if wptr > 0 && wptr % 2 == 0 {
        wptr := wptr - 1;
      }
    }

    method IsBad() returns (bad: bool)
      requires Valid()
      ensures bad == Bad(State())
    {
      bad := tooLong || (wptr == WBUF_SIZE && pendingp > 0);
    }

    /** check_send_buffer: something to send, and no zero among it. */
    method Check() returns (ok: bool)
      requires Valid()
      ensures ok <==> State().out != [] && forall i | 0 <= i < |State().out| :: State().out[i] != 0
    {
      if wptr == 0 {
        return false;
      }
      for i := 0 to wptr
        invariant forall j | 0 <= j < i :: data[j] != 0
      {
        if data[i] == 0 {
          assert State().out[i] == 0;
          return false;
        }
      }
      ok := true;
    }
  }

  lemma {:induction false} RunConcat(s: SendState, a: seq<Half>, b: seq<Half>)
    ensures Run(s, a + b) == Run(Run(s, a), b)
    decreases a
  {
    if a == [] {
      assert a + b == b;
    } else {
      assert (a + b)[1..] == a[1..] + b;
      RunConcat(Push(s, a[0]), a[1..], b);
    }
  }

  lemma RunTwo(s: SendState, a: Half, b: Half, cs: seq<Half>)
    ensures Run(s, [a, b] + cs) == Run(Push(Push(s, a), b), cs)
  {
    assert ([a, b] + cs)[1..] == [b] + cs;
    assert ([b] + cs)[1..] == cs;
  }

  lemma RunNone(s: SendState)
    ensures Run(s, []) == s
  {}

  lemma RunOne(s: SendState, a: Half)
    ensures Run(s, [a]) == Push(s, a)
  {
    assert [a][1..] == [];
  }

  // ----- the run-length normal form

  /** Room for n items behind `base` of them. */
  function Fit(base: seq<int>, ds: seq<int>): seq<int> {
    if |base| + |ds| <= WBUF_SIZE then base + ds
    else if |base| <= WBUF_SIZE then base + ds[..WBUF_SIZE - |base|]
    else base
  }

  /** The state of a buffer that held `base` with nothing pending when the pushes that have the
      normal form m began: all of m but its last half is stored as far as it fits, and the last
      half is pending. */
  ghost predicate Holds(s: SendState, base: seq<int>, baseSum: int, m: seq<Half>) {
    && |base| <= WBUF_SIZE
    && (m == [] ==> s == SendState(base, false, 0, 0, baseSum))
    && (m != [] ==>
          var stored := Durations(m[..|m| - 1]);
          var last := m[|m| - 1];
          && s.out == Fit(base, stored)
          && s.tooLong == (|base| + |stored| > WBUF_SIZE)
          && s.pendingp == (if last.Pulse? then last.dur else 0)
          && s.pendings == (if last.Space? then last.dur else 0)
          && s.sum == baseSum + SumOf(s.out[|base|..]))
  }

  lemma SumOfSnoc(ds: seq<int>, d: int)
    ensures SumOf(ds + [d]) == SumOf(ds) + d
  {
    assert (ds + [d])[..|ds|] == ds;
  }

  lemma FitSnoc(base: seq<int>, ds: seq<int>, d: int)
    requires |base| <= WBUF_SIZE
    ensures Fit(base, ds + [d]) == if |base| + |ds| < WBUF_SIZE then Fit(base, ds) + [d] else Fit(base, ds)
  {}

  lemma PushLike(s: SendState, base: seq<int>, baseSum: int, m: seq<Half>, h: Half)
    requires Holds(s, base, baseSum, m) && Positive(m) && h.dur > 0
    requires m != [] && (base != [] || m[0].Pulse?) && Alike(m[|m| - 1], h)
    ensures Holds(Push(s, h), base, baseSum, Append(m, h))
  {
    var last := m[|m| - 1];
    assert last.dur > 0;
    assert Append(m, h)[..|Append(m, h)| - 1] == m[..|m| - 1];
    if h.Space? {
      assert |Fit(base, Durations(m[..|m| - 1]))| > 0;
    }
  }

  lemma AddedSum(s: SendState, base: nat, d: int)
    requires base <= |s.out|
    ensures var s' := Added(s, d);
            s'.sum - SumOf(s'.out[base..]) == s.sum - SumOf(s.out[base..])
  {
    if |s.out| < WBUF_SIZE {
      assert (s.out + [d])[base..] == s.out[base..] + [d];
      SumOfSnoc(s.out[base..], d);
    }
  }

  lemma PushUnlike(s: SendState, base: seq<int>, baseSum: int, m: seq<Half>, h: Half)
    requires Holds(s, base, baseSum, m) && Positive(m) && h.dur > 0
    requires m != [] && !Alike(m[|m| - 1], h)
    ensures Holds(Push(s, h), base, baseSum, Append(m, h))
  {
    var last := m[|m| - 1];
    var stored := Durations(m[..|m| - 1]);
    assert last.dur > 0;
    assert (m + [h])[..|m|] == m;
    assert Durations(m) == stored + [last.dur];
    FitSnoc(base, stored, last.dur);
    AddedSum(s, |base|, last.dur);
  }

  /** One push keeps the buffer in the normal form of what was pushed. */
  lemma PushAppends(s: SendState, base: seq<int>, baseSum: int, m: seq<Half>, h: Half)
    requires Holds(s, base, baseSum, m) && Positive(m) && h.dur > 0
    requires base != [] || (if m == [] then h else m[0]).Pulse?
    ensures Holds(Push(s, h), base, baseSum, Append(m, h))
  {
    if m == [] {
      assert Append(m, h) == [h];
    } else if Alike(m[|m| - 1], h) {
      PushLike(s, base, baseSum, m, h);
    } else {
      PushUnlike(s, base, baseSum, m, h);
    }
  }

  /** From any buffer with nothing pending, pushing a train leaves the train's normal form behind
      what was there; if that was nothing, the train must begin with a pulse. */
  lemma {:induction false} RunHolds(s: SendState, base: seq<int>, baseSum: int, cs: seq<Half>)
    requires s == SendState(base, false, 0, 0, baseSum) && |base| <= WBUF_SIZE
    requires Positive(cs) && (base != [] || cs == [] || cs[0].Pulse?)
    ensures Holds(Run(s, cs), base, baseSum, Merge(cs))
  {
    if cs != [] {
      var n := |cs| - 1;
      var init, h := cs[..n], cs[n];
      RunHolds(s, base, baseSum, init);
      assert cs == init + [h];
      RunConcat(s, init, [h]);
      RunOne(Run(s, init), h);
      MergeAppend(init, h);
      MergeShape(init);
      PushAppends(Run(s, init), base, baseSum, Merge(init), h);
    }
  }

  /** Spaces pushed into an empty buffer are dropped. */
  lemma {:induction false} LeadingSpacesDrop(cs: seq<Half>)
    ensures Run(EMPTY, cs) == Run(EMPTY, DropSpaces(cs))
  {
    if cs != [] && cs[0].Space? {
      LeadingSpacesDrop(cs[1..]);
    }
  }

  lemma {:induction false} DropSpacesShape(cs: seq<Half>)
    ensures DropSpaces(cs) != [] ==> DropSpaces(cs)[0].Pulse?
    ensures Positive(cs) ==> Positive(DropSpaces(cs))
    ensures |DropSpaces(cs)| <= |cs|
  {
    if cs != [] && cs[0].Space? {
      DropSpacesShape(cs[1..]);
    }
  }

  /** The pending half, as a train of at most one half. */
  function PendingOf(s: SendState): seq<Half> {
    if s.pendingp > 0 then [Pulse(s.pendingp)] else if s.pendings > 0 then [Space(s.pendings)] else []
  }

  /** The stored durations read back as halves: even places are pulses. */
  function Stored(ds: seq<int>): (cs: seq<Half>)
    ensures |cs| == |ds|
  {
    seq(|ds|, i requires 0 <= i < |ds| => if i % 2 == 0 then Pulse(ds[i]) else Space(ds[i]))
  }

  lemma {:induction false} AlternatingParity(m: seq<Half>, i: nat)
    requires Alternating(m) && i < |m| && m[0].Pulse?
    ensures m[i].Pulse? <==> i % 2 == 0
  {
    if i > 0 {
      AlternatingParity(m, i - 1);
      assert !Alike(m[i - 1], m[i - 1 + 1]);
    }
  }

  lemma StoredDurations(m: seq<Half>)
    requires Alternating(m) && (m != [] ==> m[0].Pulse?)
    ensures Stored(Durations(m)) == m
  {
    forall i | 0 <= i < |m| ensures Stored(Durations(m))[i] == m[i] {
      AlternatingParity(m, i);
    }
  }

  lemma AlternatingPrefix(m: seq<Half>, n: nat)
    requires Alternating(m) && n <= |m|
    ensures Alternating(m[..n])
  {
    forall i | 0 <= i < n - 1 ensures !Alike(m[..n][i], m[..n][i + 1]) { assert !Alike(m[i], m[i + 1]); }
  }

  lemma TotalSnoc(cs: seq<Half>, h: Half)
    ensures Total(cs + [h]) == Total(cs) + h.dur
  {
    TotalConcat(cs, [h]);
    assert Total([h]) == h.dur + Total([h][1..]);
  }

  lemma HoldsStored(s: SendState, m: seq<Half>)
    requires Holds(s, [], 0, m) && 0 < |m| <= WBUF_SIZE + 1
    ensures s.out == Durations(m[..|m| - 1]) && !s.tooLong
    ensures s.sum == SumOf(s.out)
  {
    assert s.out[0..] == s.out;
  }

  lemma StoredTrain(m: seq<Half>)
    requires Alternating(m) && m != [] && m[0].Pulse?
    ensures Stored(Durations(m[..|m| - 1])) + [m[|m| - 1]] == m
    ensures SumOf(Durations(m[..|m| - 1])) + m[|m| - 1].dur == Total(m)
  {
    var init := m[..|m| - 1];
    AlternatingPrefix(m, |m| - 1);
    StoredDurations(init);
    assert m == init + [m[|m| - 1]];
    SumOfDurations(init);
    TotalSnoc(init, m[|m| - 1]);
  }

  /** Reading back a buffer that holds m. */
  lemma HoldsTrain(s: SendState, m: seq<Half>)
    requires Holds(s, [], 0, m) && |m| <= WBUF_SIZE + 1
    requires Alternating(m) && Positive(m) && (m != [] ==> m[0].Pulse?)
    ensures !s.tooLong
    ensures Stored(s.out) + PendingOf(s) == m
    ensures s.sum + s.pendingp + s.pendings == Total(m)
  {
    if m != [] {
      HoldsStored(s, m);
      StoredTrain(m);
      assert PendingOf(s) == [m[|m| - 1]];
    }
  }

  lemma BufferTrain(cs: seq<Half>)
    requires Positive(cs)
    requires |Merge(DropSpaces(cs))| <= WBUF_SIZE + 1
    ensures var s := Run(EMPTY, cs);
            && !s.tooLong
            && Stored(s.out) + PendingOf(s) == Merge(DropSpaces(cs))
            && s.sum + s.pendingp + s.pendings == Total(Merge(DropSpaces(cs)))
  {
    LeadingSpacesDrop(cs);
    DropSpacesShape(cs);
    RunHolds(EMPTY, [], 0, DropSpaces(cs));
    MergeShape(DropSpaces(cs));
    HoldsTrain(Run(EMPTY, cs), Merge(DropSpaces(cs)));
  }

  /** The buffer is the normal form of the calls: for any train of positive durations that fits,
      what is stored (even places pulses, odd places spaces) followed by the pending half is the
      one alternating train with the calls' waveform, leading silence dropped; `sum` with the
      pending half is the total length of that waveform. */
  lemma BufferIsNormalForm(cs: seq<Half>)
    requires Positive(cs)
    requires |Merge(DropSpaces(cs))| <= WBUF_SIZE + 1
    ensures !Run(EMPTY, cs).tooLong
    ensures Positive(DropSpaces(cs))
    ensures var train := Stored(Run(EMPTY, cs).out) + PendingOf(Run(EMPTY, cs));
            && Alternating(train) && Positive(train)
            && Levels(train) == Levels(DropSpaces(cs))
            && forall t | Alternating(t) && Positive(t) && Levels(t) == Levels(DropSpaces(cs)) :: t == train
    ensures var s := Run(EMPTY, cs); s.sum + s.pendingp + s.pendings == Total(DropSpaces(cs))
  {
    var sent := DropSpaces(cs);
    BufferTrain(cs);
    DropSpacesShape(cs);
    MergeShape(sent);
    MergeKeepsLevels(sent);
    forall t | Alternating(t) && Positive(t) && Levels(t) == Levels(sent) ensures t == Merge(sent) {
      NormalFormUnique(t, Merge(sent));
    }
  }

  lemma {:induction false} RunFits(s: SendState, cs: seq<Half>)
    requires |s.out| <= WBUF_SIZE
    ensures |Run(s, cs).out| <= WBUF_SIZE
    decreases cs
  {
    if cs != [] {
      RunFits(Push(s, cs[0]), cs[1..]);
    }
  }

  lemma SumIrrelevant(s: SendState, x: int)
    ensures Synced(s.(sum := x)) == Synced(s).(sum := Synced(s.(sum := x)).sum)
    ensures Bad(Synced(s.(sum := x))) == Bad(Synced(s))
  {}

  /** Whether sync_send_buffer stores the pending pulse before or after the question makes no
      difference to the answer of bad_send_buffer. */
  lemma SyncedBad(s: SendState)
    requires |s.out| <= WBUF_SIZE
    ensures Bad(Synced(s)) == Bad(s) && (Bad(Synced(s)) <==> Synced(s).tooLong)
  {}

  /** Too many halves: the overflow is never silently lost. When bad_send_buffer looks at the synced
      buffer, it reports exactly the trains of which more than WBUF_SIZE halves would be sent; and it
      is too_long that tells it, set by the last pulse if by nothing before. */
  lemma OverflowIsReported(cs: seq<Half>)
    requires Positive(cs)
    ensures var s, m := Run(EMPTY, cs), Merge(DropSpaces(cs));
            && (Bad(Synced(s)) <==> |Trim(m)| > WBUF_SIZE)
            && (Bad(Synced(s)) <==> Synced(s).tooLong)
            && (s.tooLong <==> |m| > WBUF_SIZE + 1)
  {
    LeadingSpacesDrop(cs);
    DropSpacesShape(cs);
    MergeShape(DropSpaces(cs));
    RunHolds(EMPTY, [], 0, DropSpaces(cs));
    RunFits(EMPTY, cs);
    SyncedBad(Run(EMPTY, cs));
  }
}
