/** A remote whose repeats in one buffer are not sent as they should be. */
module MisplacedRepeats {
  import Waveform
  import opened SendBuffers
  import opened Transmit
  import Codec
  import Tolerances
  import opened Chains
  import opened ChainProofs

  /** The RC-5 remote without header and lead, with a gap short enough for repeats in one buffer. */
  const SHORT_RC5 := Tolerances.BARE_RC5.(gap := 5000)

  /** A code that begins with a 1: every signal, first or repeated, begins with a space. */
  lemma BeginsWithSpace(n: Ncode, tx: Tx, repeated: bool)
    requires n.next == [] && n.code[13] && AtNode(n, tx)
    ensures Sendable(SHORT_RC5)
    ensures var cs := SignalHalves(SHORT_RC5, n, tx, repeated);
            Sound(cs) && |cs| == 28 && cs[0].Space?
  {
    var r := SHORT_RC5.(toggleMaskState := tx.toggle);
    var cs := SignalHalves(SHORT_RC5, n, tx, repeated);
    var bs := SentBits(r, n.code, 14, 0);
    assert cs == BitTrain(r, bs, 0);
    Codec.FieldShape(r, n.code, 14, 0);
    assert bs[0] == n.code[13];
    assert BitTrain(r, bs, 0) == BitHalves(r, bs[0], 0) + BitTrain(r, bs[1..], 1);
    assert cs[1].Pulse?;
  }

  lemma {:induction false} AllBeginWithSpace(s: SendState, n: Ncode, tx: Tx, repeated: bool)
    requires n.next == [] && n.code[13] && AtNode(n, tx)
    ensures Sendable(SHORT_RC5) && AllSound(s, tx, SHORT_RC5, n, repeated)
    decreases IntToNat(tx.countdown)
  {
    hide SignalHalves, AfterSignal, Sound;
    BeginsWithSpace(n, tx, repeated);
    match OneRound(s, tx, SHORT_RC5, n, repeated)
    case Fail =>
    case Done(_, _) =>
    case More(s', tx') => AllBeginWithSpace(s', n, tx', true);
  }

  /** Up to seven repeats fit into the buffer. */
  lemma {:induction false} RepeatsFit(s: SendState, n: Ncode, tx: Tx, repeated: bool)
    requires n.next == [] && n.code[13] && AtNode(n, tx)
    requires Settled(s) && tx.countdown >= 0 && |s.out| + 29 * (tx.countdown + 1) <= WBUF_SIZE
    ensures Sendable(SHORT_RC5) && Chain(s, tx, SHORT_RC5, n, repeated).Filled?
    decreases IntToNat(tx.countdown)
  {
    hide SignalHalves, AfterSignal, Sound, Flushed, Push, Waveform.Merge, Kept, GapItem, NormalForm, Heard;
    BeginsWithSpace(n, tx, repeated);
    RoomEnough(s, SHORT_RC5, n, tx, repeated, 5000);
    match OneRound(s, tx, SHORT_RC5, n, repeated)
    case Fail =>
    case Done(_, _) =>
    case More(s', tx') =>
      RoundStored(s, tx, SHORT_RC5, n, repeated);
      RepeatsFit(s', n, tx', true);
  }

  /** Sending a code of this remote that begins with a 1, with one or more repeats, never puts its
      signals on the air: for up to seven repeats the call succeeds, and whenever it succeeds what
      the buffer holds has another waveform. */
  lemma BareRc5RepeatsSpoilt(n: Ncode, tx: Tx, minRepeat: nat)
    requires n.next == [] && n.code[13] && AtNode(n, tx) && minRepeat >= 1
    ensures Sendable(SHORT_RC5)
    ensures var start := Started(tx, minRepeat, false);
            var o := Chain(EMPTY, start, SHORT_RC5, n, false);
            && (minRepeat <= 7 ==> o.Filled?)
            && (o.Filled? ==>
                  !KeepsWaveform(o.s.out, Waveform.DropSpaces(Transcript(EMPTY, start, SHORT_RC5, n, false))))
  {
    hide SignalHalves, AfterSignal, Sound, Flushed, Push, KeepsWaveform, Transcript, AllSound;
    var start := Started(tx, minRepeat, false);
    BeginsWithSpace(n, start, false);
    if minRepeat <= 7 { RepeatsFit(EMPTY, n, start, false); }
    if Chain(EMPTY, start, SHORT_RC5, n, false).Filled? {
      AllBeginWithSpace(EMPTY, n, start, false);
      var o := OneRound(EMPTY, start, SHORT_RC5, n, false);
      assert o.More?;
      BeginsWithSpace(n, o.tx, true);
      ChainAlternates(start, SHORT_RC5, n, false);
    }
  }
}
