/** init_send_or_sim of lib/transmit.c: one call fills the send buffer with a signal and, while the
    gaps between them are short, with its repeats and the further codes of the button. */
module Chains {
  import Words
  import Waveform
  import opened Remotes
  import opened SendBuffers
  import opened Transmit

  const LIRCD_EXACT_GAP_THRESHOLD: nat := 10000

  /** A button: its first code and the codes that follow it. */
  datatype Ncode = Ncode(code: Words.Word, next: seq<Words.Word>)

  /** What transmitting changes of the remote and the button: the repeats still to send, the code
      node reached (0 for none, else the place in `next`, counted from 1), the toggle mask
      state and the gap to leave after the signal. */
  datatype Tx = Tx(countdown: int, node: nat, toggle: nat, minGap: nat, maxGap: nat)

  /** A protocol that can be sent; raw codes and XMP are not modelled here. */
  predicate Sendable(r: Remote) {
    match r.protocol
    case Rc5 | Rc6 | Rcmm | SpaceEnc | SpaceFirst => r.BitCount() <= 64
    case _ => false
  }

  predicate AtNode(n: Ncode, tx: Tx) {
    tx.node <= |n.next|
  }

  function CodeAt(r: Remote, n: Ncode, tx: Tx, repeated: bool): Words.Word
    requires AtNode(n, tx)
  {
    var code := if tx.node == 0 then n.code else n.next[tx.node - 1];
    if repeated && r.HasRepeatMask() then Words.Xor(code, r.repeatMask) else code
  }

  /** The halves pushed for one signal of the chain. */
  function SignalHalves(r: Remote, n: Ncode, tx: Tx, repeated: bool): seq<Waveform.Half>
    requires Sendable(r) && AtNode(n, tx)
  {
    if repeated && r.HasRepeat() then (if r.repeatHeader then HeaderHalves(r) else []) + RepeatHalves(r)
    else CodeHalves(r.(toggleMaskState := tx.toggle), CodeAt(r, n, tx, repeated), repeated)
  }

  /** The send buffer after the signal's halves and sync_send_buffer. */
  function AfterSignal(s: SendState, r: Remote, n: Ncode, tx: Tx, repeated: bool): SendState
    requires Sendable(r) && AtNode(n, tx)
  {
    if repeated && r.HasRepeat() then Synced(Run(s, SignalHalves(r, n, tx, repeated)))
    else Synced(AfterCode(s, r.(toggleMaskState := tx.toggle), CodeAt(r, n, tx, repeated), repeated))
  }

  function Toggle(r: Remote, tx: Tx, repeated: bool): nat {
    if (repeated && r.HasRepeat()) || !r.HasToggleMask() then tx.toggle
    else if tx.toggle + 1 == 4 then 2 else tx.toggle + 1
  }

  datatype Gap = NoGap | Gap(min: nat, max: nat)

  /** The gap to leave after a signal of the given length. */
  function GapAfter(r: Remote, repeated: bool, sum: int): Gap {
    if r.HasRepeatGap() && repeated && r.HasRepeat() then Gap(r.repeatGap, r.repeatGap)
    else if r.constLength then
      if r.MinGap() > sum then Gap(IntToNat(r.MinGap() - sum), IntToNat(r.MaxGap() - sum)) else NoGap
    else Gap(r.MinGap(), r.MaxGap())
  }

  function IntToNat(x: int): nat {
    if x >= 0 then x else 0
  }

  function NextNode(n: Ncode, tx: Tx): (node: nat)
    requires AtNode(n, tx)
    ensures node <= |n.next|
  {
    if tx.node < |n.next| then tx.node + 1 else 0
  }

  /** One signal of the chain: sending fails, is finished, or goes on with another signal. */
  datatype Round = Fail | Done(s: SendState, tx: Tx) | More(s: SendState, tx: Tx)

  function OneRound(s: SendState, tx: Tx, r: Remote, n: Ncode, repeated: bool): (o: Round)
    requires Sendable(r) && AtNode(n, tx)
    ensures !o.Fail? ==> AtNode(n, o.tx)
  {
    var s1 := AfterSignal(s, r, n, tx, repeated);
    var g := GapAfter(r, repeated, s1.sum);
    if Bad(s1) || g.NoGap? then Fail
    else
      var node := NextNode(n, tx);
      var tx1 := Tx(tx.countdown, node, Toggle(r, tx, repeated), g.min, g.max);
      if (tx.countdown > 0 || node != 0) && g.min < LIRCD_EXACT_GAP_THRESHOLD then
        More(Flushed(Push(s1, Waveform.Space(g.min))).(sum := 0),
             if node == 0 then tx1.(countdown := tx.countdown - 1) else tx1)
      else Done(s1, tx1)
  }

  datatype Outcome = Refused | Filled(s: SendState, tx: Tx)

  /** The whole chain. Every further signal either moves on in the button's codes or uses up one
      of the repeats. */
  function Chain(s: SendState, tx: Tx, r: Remote, n: Ncode, repeated: bool): Outcome
    requires Sendable(r) && AtNode(n, tx)
    decreases IntToNat(tx.countdown), |n.next| - tx.node
  {
    match OneRound(s, tx, r, n, repeated)
    case Fail => Refused
    case Done(s', tx') => Filled(s', tx')
    case More(s', tx') => Chain(s', tx', r, n, true)
  }

  /** The state a call starts from: repeats are counted anew unless the daemon is repeating. */
  function Started(tx: Tx, minRepeat: nat, repeating: bool): Tx {
    if repeating then tx else tx.(countdown := minRepeat)
  }

  /** The transmitting side of a remote and a button. */
  class Sender {
    const buf: SendBuffer
    var tx: Tx

    ghost predicate Valid(n: Ncode)
      reads this, buf
    {
      buf.Valid() && AtNode(n, tx)
    }

    constructor (buf: SendBuffer)
      requires buf.Valid()
      ensures this.buf == buf && tx == Tx(0, 0, 0, 0, 0)
    {
      this.buf := buf;
      tx := Tx(0, 0, 0, 0, 0);
    }

    /** One pass of the loop up to sync_send_buffer. */
    method SendSignal(r: Remote, n: Ncode, repeated: bool)
      requires Valid(n) && Sendable(r)
      modifies this, buf, buf.data
      ensures Valid(n)
      ensures buf.State() == AfterSignal(old(buf.State()), r, n, old(tx), repeated)
      ensures tx == old(tx).(toggle := Toggle(r, old(tx), repeated))
    {
      hide RepeatHalves, Run, Synced, Words.Xor, CodeHalves, Push;
      RunNone(buf.State());
      if repeated && r.HasRepeat() {
        RunConcat(buf.State(), if r.repeatHeader then HeaderHalves(r) else [], RepeatHalves(r));
        if r.repeatHeader && r.HasHeader() {
          SendHeader(buf, r);
        }
        SendRepeat(buf, r);
      } else {
        var nextCode := if tx.node == 0 then n.code else n.next[tx.node - 1];
        if repeated && r.HasRepeatMask() {
          nextCode := Words.Xor(nextCode, r.repeatMask);
        }
        SendCode(buf, r.(toggleMaskState := tx.toggle), nextCode, repeated);
        if r.HasToggleMask() {
          tx := tx.(toggle := tx.toggle + 1);
          if tx.toggle == 4 {
            tx := tx.(toggle := 2);
          }
        }
      }
      buf.Sync();
    }

    /** Choosing the gap to leave; refused when the signal is longer than the constant length. */
    method ChooseGap(r: Remote, repeated: bool) returns (ok: bool)
      requires buf.Valid()
      modifies this
      ensures ok == GapAfter(r, repeated, buf.sum).Gap?
      ensures ok ==> var g := GapAfter(r, repeated, buf.sum); tx == old(tx).(minGap := g.min, maxGap := g.max)
      ensures tx == old(tx).(minGap := tx.minGap, maxGap := tx.maxGap)
    {
      if r.HasRepeatGap() && repeated && r.HasRepeat() {
        tx := tx.(minGap := r.repeatGap, maxGap := r.repeatGap);
      } else if r.constLength {
        if r.MinGap() > buf.sum {
          tx := tx.(minGap := r.MinGap() - buf.sum, maxGap := r.MaxGap() - buf.sum);
        } else {
          tx := tx.(minGap := r.MinGap(), maxGap := r.MaxGap());
          return false;
        }
      } else {
        tx := tx.(minGap := r.MinGap(), maxGap := r.MaxGap());
      }
      ok := true;
    }

    method Step(r: Remote, n: Ncode, repeated: bool) returns (ok: bool, more: bool)
      requires Valid(n) && Sendable(r)
      modifies this, buf, buf.data
      ensures Valid(n)
      ensures match OneRound(old(buf.State()), old(tx), r, n, repeated)
              case Fail => !ok
              case Done(s', tx') => ok && !more && buf.State() == s' && tx == tx'
              case More(s', tx') => ok && more && buf.State() == s' && tx == tx'
    {
      hide AfterSignal, GapAfter, Toggle, Flushed, Push, Bad;
      ok, more := false, false;
      SendSignal(r, n, repeated);
      var bad := buf.IsBad();
      if bad { return; }
      ok := ChooseGap(r, repeated);
      if !ok { return; }
      if n.next != [] {
        tx := tx.(node := if tx.node == |n.next| then 0 else tx.node + 1);
      }
      if (tx.countdown > 0 || tx.node != 0) && tx.minGap < LIRCD_EXACT_GAP_THRESHOLD {
        more := true;
        if n.next == [] || tx.node == 0 {
          tx := tx.(countdown := tx.countdown - 1);
        }
        buf.SendSpace(tx.minGap);
        buf.Flush();
        buf.sum := 0;
      }
    }

    /** init_send_or_sim for sending. */
    method InitSend(r: Remote, n: Ncode, minRepeat: nat, repeating: bool) returns (ok: bool)
      requires Valid(n) && Sendable(r)
      modifies this, buf, buf.data
      ensures Valid(n)
      ensures var o := Chain(EMPTY, Started(old(tx), minRepeat, repeating), r, n, repeating);
              if o.Refused? then !ok
              else
                && buf.State() == o.s && tx == o.tx
                && (ok <==> o.s.out != [] && forall i | 0 <= i < |o.s.out| :: o.s.out[i] != 0)
    {
      buf.Clear();
      var repeated := repeating;
      if !repeating {
        tx := tx.(countdown := minRepeat);
      }
      ghost var goal := Chain(buf.State(), tx, r, n, repeated);
      var more := true;
      while more
        invariant Valid(n)
        invariant if more then Chain(buf.State(), tx, r, n, repeated) == goal
                  else goal == Filled(buf.State(), tx)
        decreases more, IntToNat(tx.countdown), |n.next| - tx.node
      {
        ok, more := Step(r, n, repeated);
        if !ok { return; }
        repeated := true;
      }
      ok := buf.Check();
    }
  }
}
