/** What the daemon's commands do to the toggle states: every accepted command looks like a new press, and all
    its repeats like the same one. */
module TogglesInRuns {
  import opened Words
  import Remotes
  import Transmit
  import opened Chains
  import opened Options
  import opened Repeating
  import opened RepeatRuns

  /** A command that is carried out, for remote i. */
  predicate Accepted(s: State, m: Setup, t: Step, i: nat) {
    (t.Once? || t.Start?) && m.canSend && t.q.Asked? && t.q.remote == i && s.repeat.Idle?
  }

  /** The remote with the toggle bits as they are kept, and flipped. */
  function Flipped(r: Remotes.Remote): Remotes.Remote {
    r.(toggleBitMaskState := Xor(r.toggleBitMaskState, r.toggleBitMask))
  }

  lemma FlippedTwice(r: Remotes.Remote)
    ensures Flipped(Flipped(r)) == r
  {
    assert Xor(Xor(r.toggleBitMaskState, r.toggleBitMask), r.toggleBitMask) == r.toggleBitMaskState;
  }

  /** Nothing to flip. */
  lemma NotFlipped(r: Remotes.Remote)
    requires !r.HasToggleBitMask()
    ensures Flipped(r) == r
  {
    assert Xor(r.toggleBitMaskState, ZERO) == r.toggleBitMaskState;
  }

  /** One step flips the toggle bits of a remote exactly if it is a command for it that is carried out. */
  lemma StepFlips(s: State, m: Setup, t: Step, i: nat)
    requires Valid(s) && Sensible(s, m, t) && i < |s.remotes| && !(t.Receive? && t.remote == i)
    ensures |Do(s, m, t).remotes| == |s.remotes|
    ensures Do(s, m, t).remotes[i].r == if Accepted(s, m, t, i) then Flipped(s.remotes[i].r) else s.remotes[i].r
  {
    hide CoreStep, StopStep, AlarmStep, Flipped;
    match t
    case Once(c, q, sent) => CoreFlips(s, m, c, q, true, sent, true, i);
    case Start(c, q, sent, delivered) => CoreFlips(s, m, c, q, false, sent, delivered, i);
    case Stop(c, q) => StopKeeps(s, m, c, q, i);
    case Alarm(sent) => AlarmKeeps(s, sent, i);
    case Receive(_, _, _) =>
  }

  lemma CoreFlips(s: State, m: Setup, c: Client, q: Request, once: bool, sent: bool, delivered: bool, i: nat)
    requires Valid(s) && Known(s, q, m) && i < |s.remotes|
    ensures var s' := CoreStep(s, m, c, q, once, sent, delivered);
            && |s'.remotes| == |s.remotes|
            && s'.remotes[i].r ==
               if m.canSend && q.Asked? && q.remote == i && s.repeat.Idle? then Flipped(s.remotes[i].r)
                                  else s.remotes[i].r
  {
    hide AfterSend, Sendable, Xor;
    if !s.remotes[i].r.HasToggleBitMask() {
      NotFlipped(s.remotes[i].r);
    }
  }

  lemma StopKeeps(s: State, m: Setup, c: Client, q: StopRequest, i: nat)
    requires Valid(s) && KnownStop(s, q) && i < |s.remotes|
    ensures var s' := StopStep(s, m, c, q); |s'.remotes| == |s.remotes| && s'.remotes[i].r == s.remotes[i].r
  {
    hide Sendable, NamesDiffer, CodesDiffer;
  }

  lemma AlarmKeeps(s: State, sent: bool, i: nat)
    requires Valid(s) && i < |s.remotes|
    ensures s.repeat.Repeating? ==>
              var s' := AlarmStep(s, sent); |s'.remotes| == |s.remotes| && s'.remotes[i].r == s.remotes[i].r
  {
    hide AfterSend, Sendable;
  }

  /** The commands for remote i carried out before step j. */
  function Presses(states: seq<State>, m: Setup, steps: seq<Step>, i: nat, j: nat): nat
    requires j <= |steps| <= |states|
  {
    if j == 0 then 0
    else Presses(states, m, steps, i, j - 1) + if Accepted(states[j - 1], m, steps[j - 1], i) then 1 else 0
  }

  /** A run in which remote i is not received. */
  ghost predicate OnlySent(states: seq<State>, m: Setup, steps: seq<Step>, i: nat) {
    && IsRun(states, m, steps) && i < |states[0].remotes|
    && forall j | 0 <= j < |steps| :: !(steps[j].Receive? && steps[j].remote == i)
  }

  /** Over any run the toggle bits are those of the beginning, flipped once for every command. */
  lemma {:induction false} PressesFlip(states: seq<State>, m: Setup, steps: seq<Step>, i: nat, j: nat)
    requires OnlySent(states, m, steps, i) && j <= |steps|
    ensures |states[j].remotes| == |states[0].remotes|
    ensures var r := states[0].remotes[i].r;
            states[j].remotes[i].r == if Presses(states, m, steps, i, j) % 2 == 0 then r else Flipped(r)
  {
    hide Do, Valid, Sensible, Flipped;
    if j > 0 {
      PressesFlip(states, m, steps, i, j - 1);
      assert Sensible(states[j - 1], m, steps[j - 1]) && states[j] == Do(states[j - 1], m, steps[j - 1]);
      StepFlips(states[j - 1], m, steps[j - 1], i);
      FlippedTwice(states[0].remotes[i].r);
    }
  }

  /** Flipping the toggle bits flips exactly the bits sent at toggle_bit_mask. */
  lemma FlippedSends(r: Remotes.Remote, data: Word, bits: nat, done: nat, k: nat)
    requires bits <= 64 && k < bits
    ensures var a, b := Transmit.SentBits(r, data, bits, done), Transmit.SentBits(Flipped(r), data, bits, done);
            b[k] == if Remotes.Remote.Has(r.toggleBitMask, r.Pos(done + k)) then !a[k] else a[k]
  {
    var pos := r.Pos(done + k);
    FlippedBit(r, data[bits - 1 - k], pos);
  }

  lemma FlippedBit(r: Remotes.Remote, v: bool, pos: int)
    ensures Transmit.SentBit(Flipped(r), v, pos) ==
            if Remotes.Remote.Has(r.toggleBitMask, pos) then
              !Transmit.SentBit(r, v, pos)
            else
              Transmit.SentBit(r, v, pos)
  {
    hide CountBelow;
    if Remotes.Remote.Has(r.toggleBitMask, pos) {
      assert r.toggleBitMask[pos] && !ZERO[pos];
    }
  }

  /** Two sends of a run, behind steps j and k: the bits of any field differ exactly at toggle_bit_mask, if the
      number of commands for the remote carried out in between is odd, and else not at all. So the repeats of
      one command carry the same bits, and two commands in a row different ones. */
  lemma BitsOfPresses(states: seq<State>, m: Setup, steps: seq<Step>, i: nat, j: nat, k: nat,
                      data: Word, bits: nat, done: nat, at: nat)
    requires OnlySent(states, m, steps, i) && j < k < |steps| && at < bits <= 64
    ensures |states[j + 1].remotes| == |states[k + 1].remotes| == |states[0].remotes|
    ensures var r := states[j + 1].remotes[i].r;
            var a := Transmit.SentBits(r, data, bits, done);
            var b := Transmit.SentBits(states[k + 1].remotes[i].r, data, bits, done);
            var odd := (Presses(states, m, steps, i, k + 1) - Presses(states, m, steps, i, j + 1)) % 2 == 1;
            b[at] == if odd && Remotes.Remote.Has(r.toggleBitMask, r.Pos(done + at)) then !a[at] else a[at]
  {
    hide Presses, Flipped, Transmit.SentBits, Do, Valid, Sensible;
    PressesFlip(states, m, steps, i, j + 1);
    PressesFlip(states, m, steps, i, k + 1);
    var r := states[0].remotes[i].r;
    FlippedSends(r, data, bits, done, at);
    SameMask(r);
  }

  lemma SameMask(r: Remotes.Remote)
    ensures Flipped(r).toggleBitMask == r.toggleBitMask
    ensures forall done: nat :: Flipped(r).Pos(done) == r.Pos(done)
  {}

  /** CONSTANT_RC5 has its toggle bit set after the first SEND_ONCE, and clear after the second one. */
  lemma TwoPresses(s: State, m: Setup, c: Client, q: Request, s1: State, c2: Client, q2: Request)
    requires Valid(s) && Known(s, q, m) && q.Asked? && m.canSend && s.repeat.Idle?
    requires s.remotes[q.remote].r == CONSTANT_RC5
    requires s1 == CoreStep(s, m, c, q, true, true, true).(repeat := Idle)
    requires Valid(s1) && Known(s1, q2, m) && q2.Asked? && q2.remote == q.remote
    ensures s1.remotes[q.remote].r.toggleBitMaskState[11]
    ensures !CoreStep(s1, m, c2, q2, true, true, true).remotes[q.remote].r.toggleBitMaskState[11]
  {
    hide Do, CoreStep;
    StepFlips(s, m, Once(c, q, true), q.remote);
    StepFlips(s1, m, Once(c2, q2, true), q.remote);
    FlippedTwice(CONSTANT_RC5);
    OnceIs(s, m, c, q);
    OnceIs(s1, m, c2, q2);
    assert CONSTANT_RC5.toggleBitMask[11] && !CONSTANT_RC5.toggleBitMaskState[11];
  }

  lemma OnceIs(s: State, m: Setup, c: Client, q: Request)
    requires Valid(s) && Known(s, q, m)
    ensures Do(s, m, Once(c, q, true)) == CoreStep(s, m, c, q, true, true, true)
  {
    hide CoreStep;
  }

  // ----- toggle_mask

  /** A command that is carried out: its first signal goes out in the even state. That of a button of one code
      whose signals stand alone leaves the state odd. */
  lemma CommandStartsEven(s: State, m: Setup, c: Client, q: Request, once: bool, delivered: bool)
    requires Valid(s) && Known(s, q, m) && q.Asked? && m.canSend && s.repeat.Idle?
    requires s.remotes[q.remote].r.HasToggleMask()
    ensures var st := Prepared(s.remotes[q.remote]);
            var n, s' := st.buttons[q.button].codes, CoreStep(s, m, c, q, once, true, delivered);
            var o := OneRound(SendBuffers.EMPTY, Started(st.tx, st.minRepeat, false), st.r, n, false);
            && SignalHalves(st.r, n, st.tx, false) ==
               Transmit.CodeHalves(st.r.(toggleMaskState := 0), CodeAt(st.r, n, st.tx, false), false)
            && (Plain(s.remotes[q.remote], q.button) ==>
                  s'.remotes[q.remote].tx.toggle == if o.Fail? then 0 else 1)
  {
    hide AfterSend, StandsAlone, Transmit.CodeHalves, AfterSignal;
    var st := Prepared(s.remotes[q.remote]);
    if Plain(s.remotes[q.remote], q.button) {
      PreparedPlain(s.remotes[q.remote], q.button);
      OneSend(st, q.button, st.tx, false);
    }
  }

  /** What one send of such a button leaves of the toggle state. */
  lemma OneSend(st: Station, b: nat, tx: Tx, repeating: bool)
    requires Plain(st, b) && tx.node == 0
    ensures var n, t := st.buttons[b].codes, Started(tx, st.minRepeat, repeating);
            var o := OneRound(SendBuffers.EMPTY, t, st.r, n, repeating);
            AfterSend(st, n, tx, repeating).toggle == if o.Fail? then tx.toggle else Toggle(st.r, tx, repeating)
  {
    hide StandsAlone, AfterSignal, GapAfter;
    var n, t := st.buttons[b].codes, Started(tx, st.minRepeat, repeating);
    assert StandsAlone(st.r, n, t, repeating) by {
      assert StandsAlone(WithToggle(st.r, st.r.toggleBitMaskState), n, t, repeating);
      assert WithToggle(st.r, st.r.toggleBitMaskState) == st.r;
    }
    OneSignal(st.r, n, t, repeating);
  }

  /** The toggle states run 0, 1, 2, 3, 2, 3 ...: odd and even in turn, and 0 not again before the next command. */
  lemma TogglesInTurn(r: Remotes.Remote, tx: Tx, repeated: bool)
    requires r.HasToggleMask() && !(repeated && r.HasRepeat()) && tx.toggle < 4
    ensures var t := Toggle(r, tx, repeated);
            0 < t < 4 && t % 2 != tx.toggle % 2 && (tx.toggle >= 1 ==> t >= 2)
  {}

  /** SEND_STOP that ends the repeating leaves the even state behind. */
  lemma StopLeavesEven(s: State, m: Setup, c: Client, q: StopRequest)
    requires Valid(s) && KnownStop(s, q) && s.repeat.Repeating?
    ensures var s' := StopStep(s, m, c, q);
            s'.repeat.Idle? ==> s'.remotes[s.repeat.remote].tx.toggle == 0
  {
    hide Sendable, NamesDiffer, CodesDiffer;
  }
}
