/** Whole runs of the repeat machine: how often a button is sent, and who is answered. */
module RepeatRuns {
  import opened Words
  import Remotes
  import SendBuffers
  import opened Chains
  import opened Options
  import opened Repeating
  import opened SignalLengths

  lemma OneRefused(s: State, m: Setup, c: Client, q: Request, once: bool, sent: bool, delivered: bool)
    requires Valid(s) && Known(s, q, m) && s.repeat.Repeating?
    ensures var s' := CoreStep(s, m, c, q, once, sent, delivered);
            && s'.replies == s.replies + [s'.replies[|s.replies|]]
            && s'.replies[|s.replies|].Error? && s'.replies[|s.replies|].to == c
            && s'.(replies := s.replies) == s
  {}

  // ----- a button with one code whose signals are not concatenated

  function WithToggle(r: Remotes.Remote, w: Word): Remotes.Remote {
    r.(toggleBitMaskState := w)
  }

  /** Behind this signal, the first in the buffer, no other goes into it: it is not sent at all, or the gap
      is too long. */
  predicate StandsAlone(r: Remotes.Remote, n: Ncode, tx: Tx, repeated: bool)
    requires Sendable(r) && AtNode(n, tx)
  {
    var s := AfterSignal(SendBuffers.EMPTY, r, n, tx, repeated);
    var g := GapAfter(r, repeated, s.sum);
    SendBuffers.Bad(s) || g.NoGap? || g.min >= LIRCD_EXACT_GAP_THRESHOLD
  }

  /** That is so whatever the toggle states are, for the code and for its repeat. */
  ghost predicate LongGaps(r: Remotes.Remote, n: Ncode)
    requires Sendable(r)
  {
    forall w: Word, tx: Tx, repeated: bool | AtNode(n, tx) :: StandsAlone(WithToggle(r, w), n, tx, repeated)
  }

  /** For a button of one code that is exactly so if no signal is ever followed by another in its buffer. */
  lemma LongGapsExactly(r: Remotes.Remote, n: Ncode)
    requires Sendable(r) && n.next == []
    ensures LongGaps(r, n) <==>
            forall w: Word, tx: Tx, repeated: bool | AtNode(n, tx) ::
              !OneRound(SendBuffers.EMPTY, tx, WithToggle(r, w), n, repeated).More?
  {
    hide StandsAlone, OneRound;
    forall w: Word, tx: Tx, repeated: bool | AtNode(n, tx)
      ensures StandsAlone(WithToggle(r, w), n, tx, repeated) ==>
                !OneRound(SendBuffers.EMPTY, tx, WithToggle(r, w), n, repeated).More?
      ensures !OneRound(SendBuffers.EMPTY, tx.(countdown := 1), WithToggle(r, w), n, repeated).More? ==>
                StandsAlone(WithToggle(r, w), n, tx, repeated)
    {
      OneSignal(WithToggle(r, w), n, tx, repeated);
      OneSignal(WithToggle(r, w), n, tx.(countdown := 1), repeated);
      CountdownIrrelevant(WithToggle(r, w), n, tx, repeated);
    }
    if !LongGaps(r, n) {
      var w: Word, tx: Tx, repeated: bool :| AtNode(n, tx) && !StandsAlone(WithToggle(r, w), n, tx, repeated);
      assert AtNode(n, tx.(countdown := 1));
      assert OneRound(SendBuffers.EMPTY, tx.(countdown := 1), WithToggle(r, w), n, repeated).More?;
    }
  }

  lemma OneSignal(r: Remotes.Remote, n: Ncode, tx: Tx, repeated: bool)
    requires Sendable(r) && n.next == [] && AtNode(n, tx)
    ensures OneRound(SendBuffers.EMPTY, tx, r, n, repeated).More? <==>
            tx.countdown > 0 && !StandsAlone(r, n, tx, repeated)
  {
    hide AfterSignal, GapAfter, Toggle, SendBuffers.Bad;
  }

  lemma CountdownIrrelevant(r: Remotes.Remote, n: Ncode, tx: Tx, repeated: bool)
    requires Sendable(r) && AtNode(n, tx)
    ensures StandsAlone(r, n, tx.(countdown := 1), repeated) == StandsAlone(r, n, tx, repeated)
  {
    hide GapAfter, SendBuffers.Bad, SendBuffers.Run, SendBuffers.Synced;
  }

  ghost predicate Plain(st: Station, b: nat) {
    && Sendable(st.r) && b < |st.buttons| && st.buttons[b].codes.next == []
    && LongGaps(st.r, st.buttons[b].codes)
  }

  /** It is enough that the gap, of which a constant length may take the longest signal away, is long. */
  lemma LongGapsSuffice(r: Remotes.Remote, n: Ncode)
    requires Sendable(r)
    requires r.MinGap() >= LIRCD_EXACT_GAP_THRESHOLD + if r.constLength then LongestSignal(r) else 0
    requires r.HasRepeatGap() && r.HasRepeat() ==> r.repeatGap >= LIRCD_EXACT_GAP_THRESHOLD
    ensures LongGaps(r, n)
  {
    hide AfterSignal, LongestSignal, SendBuffers.Bad;
    forall w: Word, tx: Tx, repeated: bool | AtNode(n, tx)
      ensures StandsAlone(WithToggle(r, w), n, tx, repeated)
    {
      SignalWithin(WithToggle(r, w), n, tx, repeated);
      LongestToggled(r, w);
    }
  }

  lemma LongestToggled(r: Remotes.Remote, w: Word)
    ensures LongestSignal(WithToggle(r, w)) == LongestSignal(r)
  {
    hide SignalLengths.Max;
  }

  /** A remote of constant length: 13 bits of 1776 us, and 113792 us from one signal to the next. */
  const CONSTANT_RC5 := Remotes.Remote(
    Remotes.Rc5, false, false, true, false, 13, 30, 100, 0,
    0, 0, 0, 0, 0, 0, 888, 888, 888, 888, 888, 0, 0, 0, 0, 0,
    0, ZERO, 0, ZERO, 0, 0, 0, 0, 113792, 0, 0,
    Bit(11), ZERO, ZERO, ZERO, ZERO, 0)

  /** Its gaps keep its signals apart, whatever the code. */
  lemma ConstantLengthStandsAlone(n: Ncode)
    ensures LongGaps(CONSTANT_RC5, n)
  {
    LongGapsSuffice(CONSTANT_RC5, n);
  }

  /** A send of such a button leaves the repeats to go alone, or starts counting them. */
  lemma SendCounts(st: Station, b: nat, tx: Tx, repeating: bool)
    requires Plain(st, b) && tx.node == 0
    ensures var tx' := AfterSend(st, st.buttons[b].codes, tx, repeating);
            tx'.countdown == Started(tx, st.minRepeat, repeating).countdown && tx'.node == 0
  {
    var n, t := st.buttons[b].codes, Started(tx, st.minRepeat, repeating);
    assert StandsAlone(st.r, n, t, repeating) by {
      assert StandsAlone(WithToggle(st.r, st.r.toggleBitMaskState), n, t, repeating);
    }
    assert !OneRound(SendBuffers.EMPTY, t, st.r, n, repeating).More? by { hide AfterSignal, Toggle; }
    assert var o := OneRound(SendBuffers.EMPTY, t, st.r, n, repeating);
           o.Done? ==> o.tx.countdown == t.countdown && o.tx.node == 0
    by {
      hide AfterSignal, Toggle;
    }
    hide OneRound;
  }

  /** Repeating button b of remote i with `c` repeats to go, undisturbed. */
  ghost predicate Active(s: State, i: nat, b: nat, least: nat, c: nat) {
    && Valid(s) && s.repeat == Repeating(i, b) && c > 0
    && Plain(s.remotes[i], b) && s.remotes[i].minRepeat == least
    && s.remotes[i].tx.countdown == c && s.remotes[i].tx.node == 0 && s.remotes[i].lastCode == Some(b)
  }

  /** What SEND_ONCE still owes its client. */
  function Final(s: State): seq<Reply> {
    if s.pending.Some? then [Success(s.pending.value)] else []
  }

  lemma OneAlarm(s: State, i: nat, b: nat, least: nat, c: nat)
    requires Active(s, i, b, least, c)
    ensures var s' := AlarmStep(s, true);
            && s'.sends == s.sends + [Signal(i, b)]
            && if c > 1 then Active(s', i, b, least, c - 1) && s'.pending == s.pending && s'.replies == s.replies
               else s'.repeat.Idle? && s'.pending == None && s'.replies == s.replies + Final(s)
  {
    var st := s.remotes[i].(tx := s.remotes[i].tx.(countdown := c - 1));
    SendCounts(st, b, st.tx, true);
    hide AfterSend, Sendable, LongGaps, StandsAlone;
  }

  /** n alarms with successful sends; once idle no alarm is pending. */
  function Alarms(s: State, n: nat): (s': State)
    requires Valid(s)
    ensures Valid(s')
  {
    if n == 0 then s
    else
      var before := Alarms(s, n - 1);
      if before.repeat.Repeating? then AlarmStep(before, true) else before
  }

  function Times<T>(x: T, n: nat): seq<T> {
    seq(n, _ => x)
  }

  lemma TimesFirst<T>(a: seq<T>, x: T)
    ensures a + Times(x, 0) == a && Times(x, 1) == [x]
  {}

  lemma TimesMore<T>(a: seq<T>, x: T, m: nat, n: nat)
    ensures (a + Times(x, m)) + Times(x, n) == a + Times(x, m + n)
  {}

  lemma ActiveRepeats(s: State, i: nat, b: nat, least: nat, c: nat)
    requires Active(s, i, b, least, c)
    ensures s.repeat.Repeating? && Valid(s) && c > 0
  {}

  /** What n undisturbed alarms lead to from a state with c repeats to go. */
  ghost predicate Ran(s: State, s': State, i: nat, b: nat, least: nat, c: nat, n: nat) {
    if n < c then
      && Active(s', i, b, least, c - n) && s'.pending == s.pending && s'.replies == s.replies
      && s'.sends == s.sends + Times(Signal(i, b), n)
    else
      && s'.repeat.Idle? && s'.pending == None && s'.replies == s.replies + Final(s)
      && s'.sends == s.sends + Times(Signal(i, b), c)
  }

  lemma RanOne(s: State, before: State, i: nat, b: nat, least: nat, c: nat, n: nat)
    requires 0 < n <= c && Ran(s, before, i, b, least, c, n - 1)
    ensures before.repeat.Repeating? && Valid(before)
    ensures Ran(s, AlarmStep(before, true), i, b, least, c, n)
  {
    ActiveRepeats(before, i, b, least, c - (n - 1));
    OneAlarm(before, i, b, least, c - (n - 1));
    TimesMore(s.sends, Signal(i, b), n - 1, 1);
    TimesFirst(s.sends, Signal(i, b));
    hide AlarmStep, Active, Times, Valid;
  }

  lemma {:induction false} ManyAlarms(s: State, i: nat, b: nat, least: nat, c: nat, n: nat)
    requires Active(s, i, b, least, c)
    ensures Ran(s, Alarms(s, n), i, b, least, c, n)
  {
    hide Active, Times, AlarmStep, Valid;
    ActiveRepeats(s, i, b, least, c);
    if n == 0 {
      TimesFirst(s.sends, Signal(i, b));
    } else {
      ManyAlarms(s, i, b, least, c, n - 1);
      if n <= c {
        RanOne(s, Alarms(s, n - 1), i, b, least, c, n);
      }
    }
  }

  // ----- SEND_ONCE

  /** The first send of SEND_ONCE or SEND_START from rest. */
  lemma FirstSend(s: State, m: Setup, c: Client, q: Request, once: bool)
    requires Valid(s) && Known(s, q, m) && q.Asked? && m.canSend && s.repeat.Idle?
    requires Plain(s.remotes[q.remote], q.button)
    ensures var s' := CoreStep(s, m, c, q, once, true, true);
            var least := s.remotes[q.remote].minRepeat;
            var countdown := if once then Larger(least, q.reps) else m.repeatMax;
            && s'.sends == s.sends + [Signal(q.remote, q.button)]
            && if countdown > 0 then
                 && Active(s', q.remote, q.button, least, countdown)
                 && s'.pending == (if once then Some(c) else s.pending)
                 && s'.replies == if once then s.replies else s.replies + [Success(c)]
               else s'.repeat.Idle? && s'.pending == s.pending && s'.replies == s.replies + [Success(c)]
  {
    hide AfterSend, Sendable, LongGaps, StandsAlone;
    var st := Prepared(s.remotes[q.remote]);
    PreparedPlain(s.remotes[q.remote], q.button);
    SendCounts(st, q.button, st.tx, false);
  }

  lemma PreparedPlain(st: Station, b: nat)
    requires Plain(st, b)
    ensures Plain(Prepared(st), b)
  {
    hide StandsAlone;
    var r, r', n := st.r, Prepared(st).r, st.buttons[b].codes;
    forall w: Word, tx: Tx, repeated: bool | AtNode(n, tx)
      ensures StandsAlone(WithToggle(r', w), n, tx, repeated)
    {
      assert WithToggle(r', w) == WithToggle(r, w);
    }
  }

  /** An undisturbed SEND_ONCE sends the button once and then max(min_repeat, repeats asked for)
      times more, and its client gets one reply, when the last of them is out and not before. */
  lemma OnceRuns(s: State, m: Setup, c: Client, q: Request, n: nat)
    requires Valid(s) && Known(s, q, m) && q.Asked? && m.canSend && s.repeat.Idle? && s.pending == None
    requires Plain(s.remotes[q.remote], q.button)
    ensures var least := s.remotes[q.remote].minRepeat;
            var repeats := if q.reps > least then q.reps else least;
            var s' := Alarms(CoreStep(s, m, c, q, true, true, true), n);
            && s'.sends == s.sends + Times(Signal(q.remote, q.button), 1 + if n < repeats then n else repeats)
            && (s'.repeat.Idle? <==> n >= repeats)
            && s'.replies == (if n >= repeats then s.replies + [Success(c)] else s.replies)
  {
    hide CoreStep, Active, Alarms, Valid, Times, Plain;
    FirstSend(s, m, c, q, true);
    var least := s.remotes[q.remote].minRepeat;
    var repeats := if q.reps > least then q.reps else least;
    var s1 := CoreStep(s, m, c, q, true, true, true);
    var x := Signal(q.remote, q.button);
    TimesFirst(s.sends, x);
    if repeats > 0 {
      ManyAlarms(s1, q.remote, q.button, least, repeats, n);
      if n < repeats { ActiveRepeats(Alarms(s1, n), q.remote, q.button, least, repeats - n); }
      TimesMore(s.sends, x, 1, if n < repeats then n else repeats);
    } else {
      IdleStays(s1, n);
    }
  }

  lemma {:induction false} IdleStays(s: State, n: nat)
    requires Valid(s) && s.repeat.Idle?
    ensures Alarms(s, n) == s
  {
    hide AlarmStep, Valid;
    if n > 0 { IdleStays(s, n - 1); }
  }

  // ----- SEND_START ... SEND_STOP

  /** SEND_STOP while `done` repeats are out. */
  lemma StopInTime(s: State, m: Setup, c: Client, q: StopRequest, i: nat, b: nat, least: nat, done: nat)
    requires KnownStop(s, q) && q.AskedStop? && done < m.repeatMax && Active(s, i, b, least, m.repeatMax - done)
    requires !NamesDiffer(s, q) && !CodesDiffer(s, q)
    ensures var s' := StopStep(s, m, c, q);
            && s'.sends == s.sends && s'.replies == s.replies + [Success(c)] && s'.pending == s.pending
            && if done < least then Active(s', i, b, least, least - done) else s'.repeat.Idle?
  {
    hide Sendable, LongGaps, StandsAlone;
  }

  /** SEND_START, k alarms, one SEND_STOP and the alarms that follow send the button once and then
      max(k, min_repeat) times more; each of the two commands is answered once. */
  lemma StartThenStop(s: State, m: Setup, c: Client, q: Request, k: nat, c2: Client, q2: StopRequest, n: nat)
    requires Valid(s) && Known(s, q, m) && q.Asked? && m.canSend && s.repeat.Idle? && s.pending == None
    requires Plain(s.remotes[q.remote], q.button) && k < m.repeatMax
    ensures var least := s.remotes[q.remote].minRepeat;
            var s1 := Alarms(CoreStep(s, m, c, q, false, true, true), k);
            && s1.repeat.Repeating?
            && (KnownStop(s1, q2) && q2.AskedStop? && !NamesDiffer(s1, q2) && !CodesDiffer(s1, q2)
                && n >= least - k ==>
                  var s2 := Alarms(StopStep(s1, m, c2, q2), n);
                  && s2.repeat.Idle?
                  && s2.sends == s.sends + Times(Signal(q.remote, q.button), 1 + if k < least then least else k)
                  && s2.replies == s.replies + [Success(c), Success(c2)])
  {
    hide CoreStep, StopStep, Alarms, Active, Valid, Times, Plain, NamesDiffer, CodesDiffer;
    FirstSend(s, m, c, q, false);
    var least, x := s.remotes[q.remote].minRepeat, Signal(q.remote, q.button);
    var s0 := CoreStep(s, m, c, q, false, true, true);
    ManyAlarms(s0, q.remote, q.button, least, m.repeatMax, k);
    var s1 := Alarms(s0, k);
    ActiveRepeats(s1, q.remote, q.button, least, m.repeatMax - k);
    TimesFirst(s.sends, x);
    if KnownStop(s1, q2) && q2.AskedStop? && !NamesDiffer(s1, q2) && !CodesDiffer(s1, q2) && n >= least - k {
      StopPhase(s1, m, c2, q2, q.remote, q.button, least, k, n);
      TimesMore(s.sends, x, 1, k);
      TimesMore(s.sends, x, 1 + k, if k < least then least - k else 0);
    }
  }

  lemma StopPhase(s1: State, m: Setup, c: Client, q: StopRequest, i: nat, b: nat, least: nat, k: nat, n: nat)
    requires k < m.repeatMax && Active(s1, i, b, least, m.repeatMax - k) && s1.pending == None
    requires KnownStop(s1, q) && q.AskedStop? && !NamesDiffer(s1, q) && !CodesDiffer(s1, q) && n >= least - k
    ensures var s2 := Alarms(StopStep(s1, m, c, q), n);
            && s2.repeat.Idle? && s2.replies == s1.replies + [Success(c)]
            && s2.sends == s1.sends + Times(Signal(i, b), if k < least then least - k else 0)
  {
    hide StopStep, Active, Valid, Times, NamesDiffer, CodesDiffer, Alarms;
    ActiveRepeats(s1, i, b, least, m.repeatMax - k);
    StopInTime(s1, m, c, q, i, b, least, k);
    var s2 := StopStep(s1, m, c, q);
    TimesFirst(s1.sends, Signal(i, b));
    if k < least {
      ManyAlarms(s2, i, b, least, least - k, n);
    } else {
      IdleStays(s2, n);
    }
  }

  // ----- every command is answered

  datatype Step =
    | Once(c: Client, q: Request, sent: bool)
    | Start(c: Client, q: Request, sent: bool, delivered: bool)
    | Stop(c: Client, stop: StopRequest)
    | Alarm(sent: bool)
    | Receive(remote: nat, button: nat, toggleState: Word)

  ghost predicate Sensible(s: State, m: Setup, t: Step) {
    match t
    case Once(_, q, _) => Known(s, q, m)
    case Start(_, q, _, _) => Known(s, q, m)
    case Stop(_, q) => KnownStop(s, q)
    case Alarm(_) => true
    case Receive(i, b, _) => HasButton(s, i, b)
  }

  function Do(s: State, m: Setup, t: Step): (s': State)
    requires Valid(s) && Sensible(s, m, t)
    ensures Valid(s')
  {
    match t
    case Once(c, q, sent) => CoreStep(s, m, c, q, true, sent, true)
    case Start(c, q, sent, delivered) => CoreStep(s, m, c, q, false, sent, delivered)
    case Stop(c, q) => StopStep(s, m, c, q)
    case Alarm(sent) => if s.repeat.Repeating? then AlarmStep(s, sent) else s
    case Receive(i, b, w) => ReceiveStep(s, i, b, w)
  }

  /** While repeating, however many SEND_ONCE and SEND_START come, each gets one error and nothing
      else changes. */
  lemma {:induction false} BusyRefuses(s: State, m: Setup, steps: seq<Step>)
    requires Valid(s) && s.repeat.Repeating?
    requires forall j | 0 <= j < |steps| :: (steps[j].Once? || steps[j].Start?) && Sensible(s, m, steps[j])
    ensures AllSensible(s, m, steps)
    ensures var s' := DoAll(s, m, steps);
            && s'.(replies := s.replies) == s
            && s.replies <= s'.replies && Refusals(s'.replies[|s.replies|..], steps)
    decreases steps
  {
    hide Valid, Do, Sensible;
    if steps != [] {
      var s1 := Do(s, m, steps[0]);
      StepRefused(s, m, steps[0]);
      assert forall j | 0 <= j < |steps[1..]| :: steps[1..][j] == steps[j + 1];
      forall j | 0 <= j < |steps[1..]| ensures Sensible(s1, m, steps[1..][j]) {
        SensibleStill(s, s1, m, steps[j + 1]);
      }
      BusyRefuses(s1, m, steps[1..]);
      var s' := DoAll(s1, m, steps[1..]);
      assert s'.replies[|s.replies|..] == [s1.replies[|s.replies|]] + s'.replies[|s1.replies|..];
    }
  }

  /** One error for each of the commands, in order. */
  ghost predicate Refusals(errors: seq<Reply>, steps: seq<Step>)
    requires forall j | 0 <= j < |steps| :: steps[j].Once? || steps[j].Start?
  {
    |errors| == |steps| && forall j | 0 <= j < |steps| :: errors[j].Error? && errors[j].to == steps[j].c
  }

  lemma StepRefused(s: State, m: Setup, t: Step)
    requires Valid(s) && s.repeat.Repeating? && (t.Once? || t.Start?) && Sensible(s, m, t)
    ensures var s1 := Do(s, m, t);
            && s1.(replies := s.replies) == s && s1.replies == s.replies + [s1.replies[|s.replies|]]
            && s1.replies[|s.replies|].Error? && s1.replies[|s.replies|].to == t.c
  {
    OneRefused(s, m, t.c, t.q, t.Once?, t.sent, if t.Once? then true else t.delivered);
  }

  lemma SensibleStill(s: State, s1: State, m: Setup, t: Step)
    requires Sensible(s, m, t) && s1.(replies := s.replies) == s
    ensures Sensible(s1, m, t)
  {}

  /** Every step can be done in its state. */
  ghost predicate AllSensible(s: State, m: Setup, steps: seq<Step>)
    requires Valid(s)
    decreases steps
  {
    steps == [] || (Sensible(s, m, steps[0]) && AllSensible(Do(s, m, steps[0]), m, steps[1..]))
  }

  ghost function DoAll(s: State, m: Setup, steps: seq<Step>): State
    requires Valid(s) && AllSensible(s, m, steps)
    decreases steps
  {
    if steps == [] then s else DoAll(Do(s, m, steps[0]), m, steps[1..])
  }

  /** The states of a run: each follows from the one before by its step. */
  ghost predicate IsRun(states: seq<State>, m: Setup, steps: seq<Step>) {
    && |states| == |steps| + 1
    && (forall j | 0 <= j < |states| :: Valid(states[j]))
    && forall j | 0 <= j < |steps| :: Sensible(states[j], m, steps[j]) && states[j + 1] == Do(states[j], m, steps[j])
  }

  /** The clients that replies went to, each as often as it got one. */
  function Answered(replies: seq<Reply>): multiset<Client> {
    if replies == [] then multiset{} else Answered(replies[..|replies| - 1]) + multiset{replies[|replies| - 1].to}
  }

  /** The client of a command. */
  function Asker(t: Step): multiset<Client> {
    match t
    case Once(c, _, _) => multiset{c}
    case Start(c, _, _, _) => multiset{c}
    case Stop(c, _) => multiset{c}
    case _ => multiset{}
  }

  /** The clients that sent commands, each as often as it did. */
  function Askers(steps: seq<Step>): multiset<Client> {
    if steps == [] then multiset{} else Askers(steps[..|steps| - 1]) + Asker(steps[|steps| - 1])
  }

  /** The client that SEND_ONCE has still to answer. */
  function Owed(s: State): multiset<Client> {
    if s.pending.Some? then multiset{s.pending.value} else multiset{}
  }

  /** A SEND_STOP that is not refused arrives when the least repeats are out, while a SEND_ONCE still
      waits for its reply. */
  predicate CutsOff(s: State, m: Setup, t: Step)
    requires Valid(s) && Sensible(s, m, t)
  {
    && t.Stop? && t.stop.AskedStop? && s.repeat.Repeating? && s.pending.Some?
    && !NamesDiffer(s, t.stop) && !CodesDiffer(s, t.stop)
    && m.repeatMax - s.remotes[s.repeat.remote].tx.countdown >= s.remotes[s.repeat.remote].minRepeat
  }

  lemma AnsweredOneMore(replies: seq<Reply>, reply: Reply)
    ensures Answered(replies + [reply]) == Answered(replies) + multiset{reply.to}
  {
    assert (replies + [reply])[..|replies|] == replies;
  }

  /** The effect of one step on the books. */
  lemma OneReply(s: State, m: Setup, t: Step)
    requires Valid(s) && Sensible(s, m, t)
    requires s.repeat.Idle? ==> s.pending == None
    ensures var s' := Do(s, m, t);
            && Answered(s'.replies) + Owed(s') == Answered(s.replies) + Owed(s) + Asker(t)
            && (s'.repeat.Idle? ==> (s'.pending == None <==> !CutsOff(s, m, t)))
            && (CutsOff(s, m, t) ==> s'.repeat.Idle?)
  {
    hide CoreStep, StopStep, AlarmStep, Answered, NamesDiffer, CodesDiffer;
    match t
    case Once(c, q, sent) => OneReplyCore(s, m, c, q, true, sent, true);
    case Start(c, q, sent, delivered) => OneReplyCore(s, m, c, q, false, sent, delivered);
    case Stop(c, q) => OneReplyStop(s, m, c, q);
    case Alarm(sent) => OneReplyAlarm(s, sent);
    case Receive(_, _, _) =>
  }

  lemma OneReplyCore(s: State, m: Setup, c: Client, q: Request, once: bool, sent: bool, delivered: bool)
    requires Valid(s) && Known(s, q, m) && (s.repeat.Idle? ==> s.pending == None)
    ensures var s' := CoreStep(s, m, c, q, once, sent, delivered);
            && Answered(s'.replies) + Owed(s') == Answered(s.replies) + Owed(s) + multiset{c}
            && (s'.repeat.Idle? ==> s'.pending == None)
  {
    hide CoreStep, Valid, Known, Answered;
    var s' := CoreStep(s, m, c, q, once, sent, delivered);
    CoreReplies(s, m, c, q, once, sent, delivered);
    if s'.replies != s.replies {
      AnsweredOneMore(s.replies, s'.replies[|s.replies|]);
    }
  }

  /** Either the client is answered at once, or from rest the reply is put off. */
  lemma CoreReplies(s: State, m: Setup, c: Client, q: Request, once: bool, sent: bool, delivered: bool)
    requires Valid(s) && Known(s, q, m)
    ensures var s' := CoreStep(s, m, c, q, once, sent, delivered);
            if s'.replies == s.replies then
              s.repeat.Idle? && s'.repeat.Repeating? && s'.pending == Some(c)
            else
              && |s'.replies| > |s.replies| && s'.replies == s.replies + [s'.replies[|s.replies|]]
              && s'.replies[|s.replies|].to == c && s'.pending == s.pending && (s'.repeat.Idle? ==> s.repeat.Idle?)
  {
    hide Prepared, Sendable, AfterSend;
  }

  lemma OneReplyStop(s: State, m: Setup, c: Client, q: StopRequest)
    requires Valid(s) && KnownStop(s, q) && (s.repeat.Idle? ==> s.pending == None)
    ensures var s' := StopStep(s, m, c, q);
            && Answered(s'.replies) == Answered(s.replies) + multiset{c} && s'.pending == s.pending
            && (s'.repeat.Idle? <==>
                  s.repeat.Idle? ||
                  (q.AskedStop? && !NamesDiffer(s, q) && !CodesDiffer(s, q)
                   && m.repeatMax - s.remotes[s.repeat.remote].tx.countdown >= s.remotes[s.repeat.remote].minRepeat))
  {
    hide Sendable, Answered;
    var s' := StopStep(s, m, c, q);
    AnsweredOneMore(s.replies, s'.replies[|s.replies|]);
  }

  lemma OneReplyAlarm(s: State, sent: bool)
    requires Valid(s) && (s.repeat.Idle? ==> s.pending == None)
    ensures s.repeat.Repeating? ==>
              var s' := AlarmStep(s, sent);
              && Answered(s'.replies) + Owed(s') == Answered(s.replies) + Owed(s)
              && (s'.repeat.Idle? ==> s'.pending == None)
  {
    hide AlarmStep, Valid, Answered;
    if s.repeat.Repeating? {
      AlarmReplies(s, sent);
      var s' := AlarmStep(s, sent);
      if s'.replies != s.replies {
        AnsweredOneMore(s.replies, s'.replies[|s.replies|]);
      }
    }
  }

  /** Only a client that waits is answered, and when repeating ends. */
  lemma AlarmReplies(s: State, sent: bool)
    requires Valid(s) && s.repeat.Repeating?
    ensures var s' := AlarmStep(s, sent);
            if s'.repeat.Repeating? || s.pending == None then s'.replies == s.replies && s'.pending == s.pending
            else
              && |s'.replies| > |s.replies| && s'.replies == s.replies + [s'.replies[|s.replies|]]
              && s'.replies[|s.replies|].to == s.pending.value && s'.pending == None
  {
    hide Sendable, AfterSend;
  }

  /** No SEND_STOP cuts anything off before step upTo. */
  ghost predicate NoCut(states: seq<State>, m: Setup, steps: seq<Step>, upTo: nat)
    requires IsRun(states, m, steps) && upTo <= |steps|
  {
    forall j | 0 <= j < upTo :: !CutsOff(states[j], m, steps[j])
  }

  lemma {:induction false} Books(states: seq<State>, m: Setup, steps: seq<Step>, j: nat)
    requires IsRun(states, m, steps) && states[0].repeat.Idle? && states[0].pending == None
    requires j <= |steps| && NoCut(states, m, steps, j)
    ensures Answered(states[j].replies) + Owed(states[j]) == Answered(states[0].replies) + Askers(steps[..j])
    ensures states[j].repeat.Idle? ==> states[j].pending == None
  {
    hide Answered, CutsOff, Do, Valid, Sensible;
    if j > 0 {
      var i := j - 1;
      Books(states, m, steps, i);
      assert Sensible(states[i], m, steps[i]) && states[i + 1] == Do(states[i], m, steps[i]);
      assert !CutsOff(states[i], m, steps[i]);
      OneReply(states[i], m, steps[i]);
      assert steps[..j][..i] == steps[..i];
    }
  }

  /** At rest, every client has got as many replies as it sent commands. */
  ghost predicate AllAnswered(states: seq<State>, steps: seq<Step>)
    requires |states| == |steps| + 1
  {
    forall j | 0 <= j <= |steps| ::
      states[j].repeat.Idle? ==> Answered(states[j].replies) == Answered(states[0].replies) + Askers(steps[..j])
  }

  /** Over any run of commands, alarms and receptions, whatever fails: whenever the daemon is at
      rest every client has got exactly one reply for each of its commands, unless, and only unless,
      a SEND_STOP has cut off a SEND_ONCE. */
  lemma EveryCommandAnswered(states: seq<State>, m: Setup, steps: seq<Step>)
    requires IsRun(states, m, steps) && states[0].repeat.Idle? && states[0].pending == None
    ensures AllAnswered(states, steps) <==> NoCut(states, m, steps, |steps|)
  {
    if NoCut(states, m, steps, |steps|) {
      forall j | 0 <= j <= |steps| && states[j].repeat.Idle?
        ensures Answered(states[j].replies) == Answered(states[0].replies) + Askers(steps[..j])
      {
        Books(states, m, steps, j);
      }
    } else {
      var j := FirstCut(states, m, steps, |steps|);
      Books(states, m, steps, j);
      CutLosesReply(states, m, steps, j);
    }
  }

  /** After the first cut the daemon is at rest and its client has one reply too few. */
  lemma CutLosesReply(states: seq<State>, m: Setup, steps: seq<Step>, j: nat)
    requires IsRun(states, m, steps) && j < |steps| && CutsOff(states[j], m, steps[j])
    requires Answered(states[j].replies) + Owed(states[j]) == Answered(states[0].replies) + Askers(steps[..j])
    requires states[j].repeat.Idle? ==> states[j].pending == None
    ensures states[j + 1].repeat.Idle? && states[j + 1].pending.Some?
    ensures Answered(states[j + 1].replies) + Owed(states[j + 1]) ==
            Answered(states[0].replies) + Askers(steps[..j + 1])
    ensures !AllAnswered(states, steps)
  {
    hide Answered, CutsOff, Do, Valid, Sensible;
    assert Sensible(states[j], m, steps[j]) && states[j + 1] == Do(states[j], m, steps[j]);
    OneReply(states[j], m, steps[j]);
    assert steps[..j + 1][..j] == steps[..j];
    MissingOne(Answered(states[j + 1].replies), Answered(states[0].replies) + Askers(steps[..j + 1]),
               states[j + 1].pending.value);
  }

  lemma MissingOne<T>(a: multiset<T>, b: multiset<T>, x: T)
    requires a + multiset{x} == b
    ensures a != b
  {
    assert b[x] == a[x] + 1;
  }

  lemma {:induction false} FirstCut(states: seq<State>, m: Setup, steps: seq<Step>, upTo: nat) returns (j: nat)
    requires IsRun(states, m, steps) && upTo <= |steps| && !NoCut(states, m, steps, upTo)
    ensures j < upTo && NoCut(states, m, steps, j) && CutsOff(states[j], m, steps[j])
  {
    if NoCut(states, m, steps, upTo - 1) {
      j := upTo - 1;
    } else {
      j := FirstCut(states, m, steps, upTo - 1);
    }
  }

  // ----- what interrupts

  /** Another button of the repeated remote, received, ends the repeating at the next alarm: nothing more is
      sent, and a client that waits is told. The same button, or one of another remote, does not. */
  lemma ReceptionInterrupts(s: State, i: nat, b: nat, w: Word, sent: bool)
    requires Valid(s) && s.repeat.Repeating? && HasButton(s, i, b)
    requires s.remotes[s.repeat.remote].lastCode == Some(s.repeat.button)
    ensures var r := ReceiveStep(s, i, b, w);
            var s' := AlarmStep(r, sent);
            if i == s.repeat.remote && b != s.repeat.button then
              && s'.repeat.Idle? && s'.pending == None && s'.sends == s.sends
              && s'.replies ==
                 s.replies + if s.pending.Some? then [Error(s.pending.value, "repeating interrupted\n")] else []
            else sent ==> s'.sends == s.sends + [Signal(s.repeat.remote, s.repeat.button)]
  {
    hide AfterSend, Sendable;
  }

  /** A command whose transmission fails is answered with an error, and starts nothing. */
  lemma FailureStartsNothing(s: State, m: Setup, c: Client, q: Request, once: bool, delivered: bool)
    requires Valid(s) && Known(s, q, m) && q.Asked? && m.canSend && s.repeat.Idle?
    ensures var s' := CoreStep(s, m, c, q, once, false, delivered);
            && s'.repeat.Idle? && s'.sends == s.sends && s'.pending == s.pending
            && s'.replies == s.replies + [Error(c, "transmission failed\n")]
  {
    hide AfterSend, Sendable;
  }

  /** A repeat whose transmission fails is the last one, and the client that waits is answered. */
  lemma FailureEnds(s: State)
    requires Valid(s) && s.repeat.Repeating? && s.remotes[s.repeat.remote].lastCode == Some(s.repeat.button)
    ensures var s' := AlarmStep(s, false);
            s'.repeat.Idle? && s'.sends == s.sends && s'.pending == None && s'.replies == s.replies + Final(s)
  {
    hide AfterSend, Sendable;
  }

  // ----- a run that is cut off

  /** SEND_ONCE from one client, SEND_STOP from another: whenever the repeats asked for leave the
      SEND_STOP something to cut, the second client alone has a reply and the daemon is at rest. */
  lemma CutOff(s: State, m: Setup, c: Client, q: Request, c2: Client)
    requires Valid(s) && Known(s, q, m) && q.Asked? && m.canSend && s.repeat.Idle? && s.pending == None
    requires Plain(s.remotes[q.remote], q.button) && q.reps > 0
    requires m.repeatMax - Larger(s.remotes[q.remote].minRepeat, q.reps) >= s.remotes[q.remote].minRepeat
    ensures var s1 := CoreStep(s, m, c, q, true, true, true);
            var s2 := StopStep(s1, m, c2, AskedStop(None, None));
            var states, steps := [s, s1, s2], [Once(c, q, true), Stop(c2, AskedStop(None, None))];
            && IsRun(states, m, steps) && !NoCut(states, m, steps, 2) && !AllAnswered(states, steps)
            && s2.repeat.Idle? && s2.pending == Some(c) && s2.replies == s.replies + [Success(c2)]
  {
    hide Prepared, AfterSend, Sendable, LongGaps, StandsAlone;
    FirstSend(s, m, c, q, true);
    var s1 := CoreStep(s, m, c, q, true, true, true);
    var s2 := StopStep(s1, m, c2, AskedStop(None, None));
    var states, steps := [s, s1, s2], [Once(c, q, true), Stop(c2, AskedStop(None, None))];
    assert CutsOff(states[1], m, steps[1]);
    EveryCommandAnswered(states, m, steps);
  }

  /** A space-encoded remote with a gap of 100 ms, and a daemon that knows it and one of its buttons. */
  const LONG_GAP_REMOTE := Remotes.Remote(
    Remotes.SpaceEnc, false, false, false, false, 16, 30, 100, 0,
    9000, 4500, 0, 0, 0, 0, 560, 1690, 560, 560, 0, 560, 0, 0, 0, 0,
    0, ZERO, 0, ZERO, 0, 0, 0, 0, 100000, 0, 0,
    ZERO, ZERO, ZERO, ZERO, ZERO, 0)

  const AT_REST := State(
    [Station("tv", LONG_GAP_REMOTE, 0, [Button("power", Ncode(ZERO, []))], Tx(0, 0, 0, 0, 0), None)],
    Idle, None, [], [])

  /** With repeat_max at its default of 600, one repeat asked for, and a SEND_STOP before it is out. */
  lemma CutOffOccurs(c: Client, c2: Client)
    ensures var m, q := Setup(true, 600), Asked(0, 0, 1);
            && Valid(AT_REST) && Known(AT_REST, q, m)
            && var s := StopStep(CoreStep(AT_REST, m, c, q, true, true, true), m, c2, AskedStop(None, None));
               s.repeat.Idle? && s.pending == Some(c) && s.replies == [Success(c2)]
  {
    CutOff(AT_REST, Setup(true, 600), c, Asked(0, 0, 1), c2);
  }
}
