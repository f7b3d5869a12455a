/** Buttons with several codes, sent one by one: how many of them SEND_ONCE sends, and in which order. */
module SeveralCodes {
  import Remotes
  import SendBuffers
  import Transmit
  import opened Chains
  import opened Options
  import opened Repeating
  import opened RepeatRuns

  /** The signal goes out, and the gap behind it is too long for another one in the same buffer. */
  predicate GoesOut(r: Remotes.Remote, n: Ncode, tx: Tx, repeated: bool)
    requires Sendable(r) && AtNode(n, tx)
  {
    var s := AfterSignal(SendBuffers.EMPTY, r, n, tx, repeated);
    var g := GapAfter(r, repeated, s.sum);
    !SendBuffers.Bad(s) && g.Gap? && g.min >= LIRCD_EXACT_GAP_THRESHOLD
  }

  /** A button of several codes, each of which goes out alone, whatever the toggle states. */
  ghost predicate Apart(st: Station, b: nat) {
    && Sendable(st.r) && b < |st.buttons| && st.buttons[b].codes.next != []
    && forall w, tx: Tx, repeated: bool | AtNode(st.buttons[b].codes, tx) ::
         GoesOut(WithToggle(st.r, w), st.buttons[b].codes, tx, repeated)
  }

  /** The number of codes. */
  function Codes(st: Station, b: nat): nat
    requires b < |st.buttons|
  {
    |st.buttons[b].codes.next| + 1
  }

  /** A send moves on to the next code, behind the last one to the first. */
  lemma SendNext(st: Station, b: nat, tx: Tx, repeating: bool)
    requires Apart(st, b) && AtNode(st.buttons[b].codes, tx)
    ensures var tx', m := AfterSend(st, st.buttons[b].codes, tx, repeating), Codes(st, b);
            && tx'.countdown == (if repeating then tx.countdown else st.minRepeat)
            && tx'.node == if tx.node + 1 < m then tx.node + 1 else 0
  {
    hide AfterSignal, Toggle, GapAfter;
    var n, t := st.buttons[b].codes, Started(tx, st.minRepeat, repeating);
    assert GoesOut(WithToggle(st.r, st.r.toggleBitMaskState), n, t, repeating);
    assert WithToggle(st.r, st.r.toggleBitMaskState) == st.r;
    assert OneRound(SendBuffers.EMPTY, t, st.r, n, repeating).Done?;
  }

  lemma PreparedApart(st: Station, b: nat)
    requires Apart(st, b)
    ensures Apart(Prepared(st), b)
  {
    hide GoesOut;
    var r, r', n := st.r, Prepared(st).r, st.buttons[b].codes;
    forall w, tx: Tx, repeated: bool | AtNode(n, tx) ensures GoesOut(WithToggle(r', w), n, tx, repeated) {
      assert WithToggle(r', w) == WithToggle(r, w);
    }
  }

  /** Repeating button b of remote i, with code k next and the countdown at c. */
  ghost predicate Sending(s: State, i: nat, b: nat, c: int, k: nat) {
    && Valid(s) && s.repeat == Repeating(i, b) && Apart(s.remotes[i], b) && k < Codes(s.remotes[i], b)
    && s.remotes[i].tx.countdown == c && s.remotes[i].tx.node == k && s.remotes[i].lastCode == Some(b)
  }

  lemma OneAlarmMore(s: State, i: nat, b: nat, c: int, k: nat)
    requires Sending(s, i, b, c, k) && (c > 0 || k > 0)
    ensures var s', m := AlarmStep(s, true), Codes(s.remotes[i], b);
            var c' := if k == m - 1 then c - 1 else c;
            && s'.sends == s.sends + [Signal(i, b)]
            && if c' > 0 then
                 && Sending(s', i, b, c', if k + 1 < m then k + 1 else 0)
                 && Codes(s'.remotes[i], b) == m && s'.pending == s.pending && s'.replies == s.replies
               else s'.repeat.Idle? && s'.pending == None && s'.replies == s.replies + Final(s)
  {
    var m := Codes(s.remotes[i], b);
    var st := if k == m - 1 then s.remotes[i].(tx := s.remotes[i].tx.(countdown := c - 1)) else s.remotes[i];
    SendNext(st, b, st.tx, true);
    hide AfterSend, Sendable, GoesOut;
  }

  /** The alarms still to come: the rest of the codes, and all of them for every further count. */
  function Due(m: nat, c: int, k: nat): int { if c > 0 then m * (c - 1) + (m - k) else 1 }

  lemma DueLess(m: nat, c: int, k: nat)
    requires k < m && m >= 2
    ensures var c' := if k == m - 1 then c - 1 else c;
            var k' := if k + 1 < m then k + 1 else 0;
            if c' > 0 then Due(m, c', k') == Due(m, c, k) - 1 && Due(m, c', k') >= 1 else Due(m, c, k) == 1
  {
    if k == m - 1 && c > 1 {
      assert m * (c - 1) == m * (c - 2) + m;
      assert m * (c - 2) >= 0;
    } else if c > 0 {
      assert m * (c - 1) >= 0;
    }
  }

  /** Repeating, with so many alarms to come. */
  ghost predicate StillSending(s: State, i: nat, b: nat, m: nat, left: int) {
    exists c: int, k: nat ::
      Sending(s, i, b, c, k) && (c > 0 || k > 0) && Due(m, c, k) == left && Codes(s.remotes[i], b) == m
  }

  /** What n undisturbed alarms lead to. */
  ghost predicate Went(s: State, s': State, i: nat, b: nat, m: nat, due: nat, n: nat) {
    if n < due then
      && StillSending(s', i, b, m, due - n)
      && s'.pending == s.pending && s'.replies == s.replies && s'.sends == s.sends + Times(Signal(i, b), n)
    else
      && s'.repeat.Idle? && s'.pending == None && s'.replies == s.replies + Final(s)
      && s'.sends == s.sends + Times(Signal(i, b), due)
  }

  lemma WentOne(s: State, before: State, i: nat, b: nat, m: nat, due: nat, n: nat)
    requires 0 < n <= due && Went(s, before, i, b, m, due, n - 1)
    ensures before.repeat.Repeating? && Valid(before) && Went(s, AlarmStep(before, true), i, b, m, due, n)
  {
    hide AlarmStep, GoesOut, Times, Due, Final;
    var c: int, k: nat :| Sending(before, i, b, c, k) && (c > 0 || k > 0) && Due(m, c, k) == due - (n - 1)
                          && Codes(before.remotes[i], b) == m;
    SeveralCodesThere(before, i, b, c, k);
    OneAlarmMore(before, i, b, c, k);
    DueLess(m, c, k);
    TimesMore(s.sends, Signal(i, b), n - 1, 1);
    TimesFirst(s.sends, Signal(i, b));
    var c', k' := if k == m - 1 then c - 1 else c, if k + 1 < m then k + 1 else 0;
    if c' > 0 {
      assert Sending(AlarmStep(before, true), i, b, c', k') && Due(m, c', k') == due - n;
      assert StillSending(AlarmStep(before, true), i, b, m, due - n);
    }
    SameFinal(s, before);
  }

  lemma SameFinal(s: State, before: State)
    ensures before.pending == s.pending ==> Final(before) == Final(s)
  {}

  lemma {:induction false} SeveralAlarms(s: State, i: nat, b: nat, c: int, k: nat, n: nat)
    requires Sending(s, i, b, c, k) && (c > 0 || k > 0)
    ensures var m := Codes(s.remotes[i], b);
            Valid(s) && Due(m, c, k) >= 1 && Went(s, Alarms(s, n), i, b, m, Due(m, c, k), n)
  {
    SeveralCodesThere(s, i, b, c, k);
    var m := Codes(s.remotes[i], b);
    DuePositive(m, c, k);
    hide AlarmStep, Apart, Times, Valid, Due, Final;
    if n == 0 {
      TimesFirst(s.sends, Signal(i, b));
    } else {
      SeveralAlarms(s, i, b, c, k, n - 1);
      if n <= Due(m, c, k) {
        WentOne(s, Alarms(s, n - 1), i, b, m, Due(m, c, k), n);
      }
    }
  }

  lemma SeveralCodesThere(s: State, i: nat, b: nat, c: int, k: nat)
    requires Sending(s, i, b, c, k)
    ensures Valid(s) && s.repeat.Repeating?
    ensures i < |s.remotes| && b < |s.remotes[i].buttons| && Codes(s.remotes[i], b) >= 2 && k < Codes(s.remotes[i], b)
  {}

  lemma DuePositive(m: nat, c: int, k: nat)
    requires k < m
    ensures Due(m, c, k) >= 1
  {
    if c > 0 { assert m * (c - 1) >= 0; }
  }

  lemma FirstOfSeveral(s: State, m: Setup, c: Client, q: Request)
    requires Valid(s) && Known(s, q, m) && q.Asked? && m.canSend && s.repeat.Idle?
    requires Apart(s.remotes[q.remote], q.button)
    ensures var s' := CoreStep(s, m, c, q, true, true, true);
            && s'.sends == s.sends + [Signal(q.remote, q.button)] && s'.replies == s.replies && s'.pending == Some(c)
            && Sending(s', q.remote, q.button, Larger(s.remotes[q.remote].minRepeat, q.reps), 1)
            && Codes(s'.remotes[q.remote], q.button) == Codes(s.remotes[q.remote], q.button)
  {
    hide AfterSend, Sendable, GoesOut;
    var st := Prepared(s.remotes[q.remote]);
    PreparedApart(s.remotes[q.remote], q.button);
    SendNext(st, q.button, st.tx, false);
  }

  /** So many signals of the button in all, of which at most `seen` are out, and the client is answered
      when the last one is. */
  ghost predicate InAll(s: State, s': State, x: Signal, c: Client, all: nat, seen: nat) {
    && s'.sends == s.sends + Times(x, if seen < all then seen else all)
    && (s'.repeat.Idle? <==> seen >= all)
    && s'.replies == if seen >= all then s.replies + [Success(c)] else s.replies
  }

  lemma WentInAll(s: State, s1: State, s': State, i: nat, b: nat, m: nat, due: nat, n: nat, c: Client)
    requires Went(s1, s', i, b, m, due, n) && s1.sends == s.sends + [Signal(i, b)]
    requires s1.replies == s.replies && s1.pending == Some(c)
    ensures InAll(s, s', Signal(i, b), c, 1 + due, 1 + n)
  {
    hide Apart, Valid, Due, Times;
    TimesFirst(s.sends, Signal(i, b));
    TimesMore(s.sends, Signal(i, b), 1, if n < due then n else due);
    if n < due {
      var c: int, k: nat :| Sending(s', i, b, c, k);
    }
  }

  function SendsInAll(repeats: int, codes: nat): nat {
    if repeats > 0 then (NotNegative(repeats, codes); repeats * codes) else 2
  }

  lemma NotNegative(a: nat, b: nat)
    ensures a * b >= 0
  {}

  /** An undisturbed SEND_ONCE for a button of m codes, m at least 2: with R = max(min_repeat, repeats asked for)
      it sends R times m signals in all, the first ones counting as the first repeat; and with R = 0 it sends
      two, so that from the third code on nothing goes out. The client gets one reply, at the end. */
  lemma SeveralOnce(s: State, m: Setup, c: Client, q: Request, n: nat)
    requires Valid(s) && Known(s, q, m) && q.Asked? && m.canSend && s.repeat.Idle? && s.pending == None
    requires Apart(s.remotes[q.remote], q.button)
    ensures var st := s.remotes[q.remote];
            var repeats := if q.reps > st.minRepeat then q.reps else st.minRepeat;
            InAll(s, Alarms(CoreStep(s, m, c, q, true, true, true), n), Signal(q.remote, q.button), c,
                  SendsInAll(repeats, Codes(st, q.button)), 1 + n)
  {
    hide CoreStep, Alarms, Times, GoesOut, Due, Went, InAll, Valid;
    FirstOfSeveral(s, m, c, q);
    var s1 := CoreStep(s, m, c, q, true, true, true);
    var repeats, codes := Larger(s.remotes[q.remote].minRepeat, q.reps), Codes(s.remotes[q.remote], q.button);
    SeveralAlarms(s1, q.remote, q.button, repeats, 1, n);
    SeveralDue(codes, repeats);
    WentInAll(s, s1, Alarms(s1, n), q.remote, q.button, codes, Due(codes, repeats, 1), n, c);
  }

  lemma SeveralDue(m: nat, repeats: int)
    ensures 1 + Due(m, repeats, 1) == SendsInAll(repeats, m)
  {
    if repeats > 0 { assert m * (repeats - 1) + m == repeats * m; }
  }

  /** The codes go out in order: each send is of the code that the node stands at, and moves it on. */
  lemma CodesInOrder(r: Remotes.Remote, n: Ncode, tx: Tx, repeated: bool)
    requires Sendable(r) && AtNode(n, tx) && !(repeated && (r.HasRepeatMask() || r.HasRepeat()))
    ensures SignalHalves(r, n, tx, repeated) ==
            Transmit.CodeHalves(r.(toggleMaskState := tx.toggle), ([n.code] + n.next)[tx.node], repeated)
  {
    hide Transmit.CodeHalves;
  }
}
