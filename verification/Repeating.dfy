/** Sending and repeating in daemons/lircd.cpp: SEND_ONCE, SEND_START, SEND_STOP and the alarm. */
module Repeating {
  import Words
  import Remotes
  import opened SendBuffers
  import opened Chains
  import Lircrc
  import opened Options

  datatype Button = Button(name: string, codes: Ncode)

  /** A remote as the daemon keeps it. `tx.countdown` is repeat_countdown; `lastCode` the button last
      sent or received. */
  datatype Station = Station(
    name: string, r: Remotes.Remote, minRepeat: nat, buttons: seq<Button>, tx: Tx, lastCode: Option<nat>)

  datatype Client = Client(fd: int, message: string)
  datatype Reply = Success(to: Client) | Error(to: Client, text: string)

  /** One signal handed to the driver. */
  datatype Signal = Signal(remote: nat, button: nat)

  /** repeat_remote and repeat_code; the alarm is pending exactly while repeating. */
  datatype Repeat = Idle | Repeating(remote: nat, button: nat)

  /** What parse_rc finds: a reply text, or a button and the repeats asked for (-1 for none). */
  datatype Request = Bad(text: string) | Asked(remote: nat, button: nat, reps: int)
  datatype StopRequest = BadStop(text: string) | AskedStop(remote: Option<nat>, button: Option<nat>)

  datatype State = State(remotes: seq<Station>, repeat: Repeat, pending: Option<Client>,
                         sends: seq<Signal>, replies: seq<Reply>)

  /** Numbers the configuration fixes. */
  datatype Setup = Setup(canSend: bool, repeatMax: nat)

  predicate HasButton(s: State, remote: nat, button: nat) {
    remote < |s.remotes| && button < |s.remotes[remote].buttons|
  }

  ghost predicate Valid(s: State) {
    && (forall i | 0 <= i < |s.remotes| :: Sendable(s.remotes[i].r))
    && (s.repeat.Repeating? ==>
          && HasButton(s, s.repeat.remote, s.repeat.button)
          && AtNode(s.remotes[s.repeat.remote].buttons[s.repeat.button].codes, s.remotes[s.repeat.remote].tx))
  }

  ghost predicate Known(s: State, q: Request, m: Setup) {
    q.Asked? ==> HasButton(s, q.remote, q.button) && -1 <= q.reps <= m.repeatMax
  }

  ghost predicate KnownStop(s: State, q: StopRequest) {
    q.AskedStop? ==>
      && (q.remote.Some? ==> q.remote.value < |s.remotes|)
      && (q.button.Some? ==> q.remote.Some? && HasButton(s, q.remote.value, q.button.value))
  }

  /** What send_ir_ncode leaves of the transmission state. After a failure the source leaves more
      or less of it changed, but sends again only after setting it anew. */
  function AfterSend(st: Station, n: Ncode, tx: Tx, repeating: bool): (tx': Tx)
    requires Sendable(st.r) && AtNode(n, tx)
    ensures AtNode(n, tx')
  {
    var o := Chain(EMPTY, Started(tx, st.minRepeat, repeating), st.r, n, repeating);
    if o.Filled? then (ChainAtNode(EMPTY, Started(tx, st.minRepeat, repeating), st.r, n, repeating); o.tx)
    else Started(tx, st.minRepeat, repeating)
  }

  lemma {:induction false} ChainAtNode(s: SendState, tx: Tx, r: Remotes.Remote, n: Ncode, repeated: bool)
    requires Sendable(r) && AtNode(n, tx)
    ensures var o := Chain(s, tx, r, n, repeated); o.Filled? ==> AtNode(n, o.tx)
    decreases IntToNat(tx.countdown), |n.next| - tx.node
  {
    var o := OneRound(s, tx, r, n, repeated);
    hide OneRound;
    if o.More? {
      assert IntToNat(o.tx.countdown) < IntToNat(tx.countdown)
             || (o.tx.countdown == tx.countdown && o.tx.node == tx.node + 1) by {
        MoreMoves(s, tx, r, n, repeated);
      }
      ChainAtNode(o.s, o.tx, r, n, true);
    }
  }

  lemma MoreMoves(s: SendState, tx: Tx, r: Remotes.Remote, n: Ncode, repeated: bool)
    requires Sendable(r) && AtNode(n, tx) && OneRound(s, tx, r, n, repeated).More?
    ensures var o := OneRound(s, tx, r, n, repeated);
            || IntToNat(o.tx.countdown) < IntToNat(tx.countdown)
            || (o.tx.countdown == tx.countdown && o.tx.node == tx.node + 1)
  {
    hide AfterSignal, GapAfter, Toggle;
  }

  // ----- the steps as functions

  function Replied(s: State, reply: Reply): State {
    s.(replies := s.replies + [reply])
  }

  /** The remote made ready for a new button: toggle states moved on, the first code next. */
  function Prepared(st: Station): Station {
    var st := if st.r.HasToggleMask() then st.(tx := st.tx.(toggle := 0)) else st;
    var st := if st.r.HasToggleBitMask()
      then st.(r := st.r.(toggleBitMaskState := Words.Xor(st.r.toggleBitMaskState, st.r.toggleBitMask))) else st;
    st.(tx := st.tx.(node := 0))
  }

  /** After a transmission the driver reported as sent or not. */
  function Transmitted(s: State, i: nat, st: Station, b: nat, repeating: bool, sent: bool): (s': State)
    requires i < |s.remotes| && Sendable(st.r) && b < |st.buttons| && AtNode(st.buttons[b].codes, st.tx)
    ensures |s'.remotes| == |s.remotes| && AtNode(st.buttons[b].codes, s'.remotes[i].tx)
    ensures s'.remotes[i].buttons == st.buttons && s'.remotes[i].r == st.r
    ensures s'.repeat == s.repeat && s'.pending == s.pending && s'.replies == s.replies
  {
    var tx := AfterSend(st, st.buttons[b].codes, st.tx, repeating);
    s.(remotes := s.remotes[i := st.(tx := tx, lastCode := if sent then Some(b) else st.lastCode)],
       sends := if sent then s.sends + [Signal(i, b)] else s.sends)
  }

  function WithCountdown(s: State, i: nat, countdown: int): State
    requires i < |s.remotes|
  {
    s.(remotes := s.remotes[i := s.remotes[i].(tx := s.remotes[i].tx.(countdown := countdown))])
  }

  function Larger(a: int, b: int): int { if a > b then a else b }

  function CoreStep(s: State, m: Setup, c: Client, q: Request, once: bool, sent: bool, delivered: bool): (s': State)
    requires Valid(s) && Known(s, q, m)
    ensures Valid(s')
  {
    if !m.canSend then Replied(s, Error(c, "hardware does not support sending\n"))
    else if q.Bad? then Replied(s, Error(c, q.text))
    else if s.repeat.Repeating? then Replied(s, Error(c, if once then "busy: repeating\n" else "already repeating\n"))
    else
      var st := Prepared(s.remotes[q.remote]);
      var s1 := Transmitted(s, q.remote, st, q.button, false, sent);
      if !sent then Replied(s1, Error(c, "transmission failed\n"))
      else
        var countdown := if once then Larger(s1.remotes[q.remote].tx.countdown, q.reps) else m.repeatMax;
        var s2 := WithCountdown(s1, q.remote, countdown);
        if countdown > 0 || st.buttons[q.button].codes.next != [] then
          if once then s2.(repeat := Repeating(q.remote, q.button), pending := Some(c))
          else
            Replied(if delivered then s2.(repeat := Repeating(q.remote, q.button)) else s2, Success(c))
        else Replied(s2, Success(c))
  }

  predicate NamesDiffer(s: State, q: StopRequest)
    requires Valid(s) && s.repeat.Repeating? && KnownStop(s, q) && q.AskedStop?
  {
    q.remote.Some? && !Lircrc.SameText(s.remotes[q.remote.value].name, s.remotes[s.repeat.remote].name)
  }

  predicate CodesDiffer(s: State, q: StopRequest)
    requires Valid(s) && s.repeat.Repeating? && KnownStop(s, q) && q.AskedStop?
  {
    q.button.Some? && !Lircrc.SameText(s.remotes[q.remote.value].buttons[q.button.value].name,
                                s.remotes[s.repeat.remote].buttons[s.repeat.button].name)
  }

  function StopStep(s: State, m: Setup, c: Client, q: StopRequest): (s': State)
    requires Valid(s) && KnownStop(s, q)
    ensures Valid(s')
  {
    if q.BadStop? then Replied(s, Error(c, q.text))
    else if s.repeat.Idle? then Replied(s, Error(c, "not repeating\n"))
    else if NamesDiffer(s, q) then Replied(s, Error(c, "specified remote does not match\n"))
    else if CodesDiffer(s, q) then Replied(s, Error(c, "specified code does not match\n"))
    else
      var i := s.repeat.remote;
      var st := s.remotes[i];
      var done := m.repeatMax - st.tx.countdown;
      if done < st.minRepeat then Replied(WithCountdown(s, i, st.minRepeat - done), Success(c))
      else
        Replied(s.(remotes := s.remotes[i := st.(tx := st.tx.(toggle := 0))], repeat := Idle), Success(c))
  }

  /** The alarm handler. */
  function AlarmStep(s: State, sent: bool): (s': State)
    requires Valid(s) && s.repeat.Repeating?
    ensures Valid(s')
  {
    var i, b := s.repeat.remote, s.repeat.button;
    var st := s.remotes[i];
    var n := st.buttons[b].codes;
    if st.lastCode != Some(b) then
      var s1 := s.(repeat := Idle, pending := None);
      if s.pending.Some? then Replied(s1, Error(s.pending.value, "repeating interrupted\n")) else s1
    else
      var last := n.next == [] || (st.tx.node != 0 && st.tx.node == |n.next|);
      var st1 := if last then st.(tx := st.tx.(countdown := st.tx.countdown - 1)) else st;
      var s1 := Transmitted(s, i, st1, b, true, sent);
      if sent && s1.remotes[i].tx.countdown > 0 then s1
      else
        var s2 := s1.(repeat := Idle);
        if s.pending.Some? then Replied(s2.(pending := None), Success(s.pending.value)) else s2
  }

  /** A button of a remote is received. */
  function ReceiveStep(s: State, i: nat, b: nat, toggleState: Words.Word): (s': State)
    requires Valid(s) && HasButton(s, i, b)
    ensures Valid(s')
  {
    var st := s.remotes[i];
    s.(remotes := s.remotes[i := st.(lastCode := Some(b), r := st.r.(toggleBitMaskState := toggleState))])
  }

  // ----- the code

  class Daemon {
    const setup: Setup
    var remotes: seq<Station>
    var repeat: Repeat
    var pending: Option<Client>
    var sends: seq<Signal>
    var replies: seq<Reply>

    function Now(): State
      reads this
    {
      State(remotes, repeat, pending, sends, replies)
    }

    constructor (setup: Setup, remotes: seq<Station>)
      requires forall i | 0 <= i < |remotes| :: Sendable(remotes[i].r)
      ensures this.setup == setup && Now() == State(remotes, Idle, None, [], []) && Valid(Now())
    {
      this.setup, this.remotes := setup, remotes;
      repeat, pending, sends, replies := Idle, None, [], [];
    }

    method Answer(reply: Reply)
      modifies this`replies
      ensures Now() == Replied(old(Now()), reply)
    {
      replies := replies + [reply];
    }

    /** send_ir_ncode; `sent` is the driver's answer. */
    method SendNcode(i: nat, b: nat, repeating: bool, sent: bool)
      requires HasButton(Now(), i, b) && Sendable(remotes[i].r) && AtNode(remotes[i].buttons[b].codes, remotes[i].tx)
      modifies this`remotes, this`sends
      ensures Now() == Transmitted(old(Now()), i, old(remotes[i]), b, repeating, sent)
    {
      var st := remotes[i];
      st := st.(tx := AfterSend(st, st.buttons[b].codes, st.tx, repeating));
      if sent {
        st := st.(lastCode := Some(b));
        sends := sends + [Signal(i, b)];
      }
      remotes := remotes[i := st];
    }

    method SetCountdown(i: nat, countdown: int)
      requires i < |remotes|
      modifies this`remotes
      ensures Now() == WithCountdown(old(Now()), i, countdown)
    {
      remotes := remotes[i := remotes[i].(tx := remotes[i].tx.(countdown := countdown))];
    }

    method Prepare(i: nat)
      requires i < |remotes|
      modifies this`remotes
      ensures remotes == old(remotes)[i := Prepared(old(remotes[i]))]
    {
      var st := remotes[i];
      if st.r.HasToggleMask() {
        st := st.(tx := st.tx.(toggle := 0));
      }
      if st.r.HasToggleBitMask() {
        st := st.(r := st.r.(toggleBitMaskState := Words.Xor(st.r.toggleBitMaskState, st.r.toggleBitMask)));
      }
      st := st.(tx := st.tx.(node := 0));
      remotes := remotes[i := st];
    }

    method SendCore(c: Client, q: Request, once: bool, sent: bool, delivered: bool)
      requires Valid(Now()) && Known(Now(), q, setup)
      modifies this
      ensures Now() == CoreStep(old(Now()), setup, c, q, once, sent, delivered)
    {
      hide AfterSend, Sendable;
      if !setup.canSend { Answer(Error(c, "hardware does not support sending\n")); return; }
      if q.Bad? { Answer(Error(c, q.text)); return; }
      if repeat.Repeating? {
        Answer(Error(c, if once then "busy: repeating\n" else "already repeating\n"));
        return;
      }
      var i, b := q.remote, q.button;
      Prepare(i);
      assert Sendable(remotes[i].r) by { PreparedSendable(old(remotes[i])); }
      SendNcode(i, b, false, sent);
      assert Now() == Transmitted(old(Now()), i, Prepared(old(remotes[i])), b, false, sent);
      if !sent { Answer(Error(c, "transmission failed\n")); return; }
      if once {
        SetCountdown(i, Larger(remotes[i].tx.countdown, q.reps));
      } else {
        SetCountdown(i, setup.repeatMax);
      }
      if remotes[i].tx.countdown > 0 || remotes[i].buttons[b].codes.next != [] {
        repeat := Repeating(i, b);
        if once {
          pending := Some(c);
        } else {
          Answer(Success(c));
          if !delivered { repeat := Idle; }
        }
      } else {
        Answer(Success(c));
      }
    }

    method SendStop(c: Client, q: StopRequest)
      requires Valid(Now()) && KnownStop(Now(), q)
      modifies this
      ensures Now() == StopStep(old(Now()), setup, c, q)
    {
      if q.BadStop? { Answer(Error(c, q.text)); return; }
      if repeat.Idle? { Answer(Error(c, "not repeating\n")); return; }
      if NamesDiffer(Now(), q) { Answer(Error(c, "specified remote does not match\n")); return; }
      if CodesDiffer(Now(), q) { Answer(Error(c, "specified code does not match\n")); return; }
      var i := repeat.remote;
      var done := setup.repeatMax - remotes[i].tx.countdown;
      if done < remotes[i].minRepeat {
        SetCountdown(i, remotes[i].minRepeat - done);
        Answer(Success(c));
        return;
      }
      remotes := remotes[i := remotes[i].(tx := remotes[i].tx.(toggle := 0))];
      repeat := Idle;
      Answer(Success(c));
    }

    /** dosigalrm */
    method Alarm(sent: bool)
      requires Valid(Now()) && repeat.Repeating?
      modifies this
      ensures Now() == AlarmStep(old(Now()), sent)
    {
      hide AfterSend, Sendable;
      var i, b := repeat.remote, repeat.button;
      if remotes[i].lastCode != Some(b) {
        if pending.Some? {
          Answer(Error(pending.value, "repeating interrupted\n"));
        }
        repeat, pending := Idle, None;
        return;
      }
      var n := remotes[i].buttons[b].codes;
      if n.next == [] || (remotes[i].tx.node != 0 && remotes[i].tx.node == |n.next|) {
        SetCountdown(i, remotes[i].tx.countdown - 1);
      }
      SendNcode(i, b, true, sent);
      if sent && remotes[i].tx.countdown > 0 { return; }
      repeat := Idle;
      if pending.Some? {
        Answer(Success(pending.value));
        pending := None;
      }
    }
  }

  lemma PreparedSendable(st: Station)
    requires Sendable(st.r)
    ensures Sendable(Prepared(st).r)
  {}
}
