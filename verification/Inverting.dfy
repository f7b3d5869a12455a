/** Inverting all data of a recorded remote: which remotes send the same signals afterwards. */
module Inverting {
  import opened Words
  import Waveform
  import opened Remotes
  import opened Transmit
  import Chains
  import opened Factoring
  import FactoringProofs

  /** A bit of the word whose value the old single-bit toggle mask fixes, whatever the data says. */
  predicate FixedAt(r: Remote, pos: int) {
    Remote.Has(r.toggleBitMask, pos) && CountBelow(r.toggleBitMask, 64) == 1
  }

  /** One and zero look the same on the air. */
  predicate Indistinct(r: Remote) {
    r.pone == r.pzero && r.sone == r.szero
  }

  /** No biphase and no two-bit or four-bit symbols. */
  predicate PulseSpace(r: Remote) {
    (r.protocol.SpaceEnc? || r.protocol.SpaceFirst?) && r.rc6Mask == ZERO && r.BitCount() <= 64
  }

  lemma BitAlike(r: Remote, r': Remote, v: bool, done: nat)
    requires PulseSpace(r) && r' == Inverted(Recorded(r, [])).r
    ensures BitHalves(r, SentBit(r, v, r.Pos(done)), done) == BitHalves(r', SentBit(r', !v, r'.Pos(done)), done)
            <==> Indistinct(r) || !FixedAt(r, r.Pos(done))
  {
    assert !r.Doubled(done) && !r'.Doubled(done);
    MaskHits(r.Pos(done), r.toggleBitMask);
    assert FixedAt(r, r.Pos(done)) ==> r.toggleBitMask[r.Pos(done)] && !ZERO[r.Pos(done)];
  }

  lemma {:induction false} TrainAlike(r: Remote, bs: seq<bool>, r': Remote, bs': seq<bool>, done: nat)
    requires |bs| == |bs'|
    ensures |BitTrain(r, bs, done)| == |BitTrain(r', bs', done)|
    ensures BitTrain(r, bs, done) == BitTrain(r', bs', done) <==>
            forall i | 0 <= i < |bs| :: BitHalves(r, bs[i], done + i) == BitHalves(r', bs'[i], done + i)
    decreases bs
  {
    hide BitHalves;
    if bs != [] {
      var a, a' := BitHalves(r, bs[0], done), BitHalves(r', bs'[0], done);
      var t, t' := BitTrain(r, bs[1..], done + 1), BitTrain(r', bs'[1..], done + 1);
      TrainAlike(r, bs[1..], r', bs'[1..], done + 1);
      PartsEqual(a, t, a', t');
      if forall i | 0 <= i < |bs| :: BitHalves(r, bs[i], done + i) == BitHalves(r', bs'[i], done + i) {
        forall i | 0 <= i < |bs[1..]|
          ensures BitHalves(r, bs[1..][i], done + 1 + i) == BitHalves(r', bs'[1..][i], done + 1 + i)
        {
          var k := i + 1;
          assert BitHalves(r, bs[k], done + k) == BitHalves(r', bs'[k], done + k);
        }
      } else if t == t' {
        forall i | 1 <= i < |bs| ensures BitHalves(r, bs[i], done + i) == BitHalves(r', bs'[i], done + i) {
          var k := i - 1;
          assert BitHalves(r, bs[1..][k], done + 1 + k) == BitHalves(r', bs'[1..][k], done + 1 + k);
        }
      }
    }
  }

  lemma PartsEqual<T>(a: seq<T>, b: seq<T>, a': seq<T>, b': seq<T>)
    requires |a| == |a'|
    ensures a + b == a' + b' <==> a == a' && b == b'
  {
    if a + b == a' + b' {
      assert a == (a + b)[..|a|] && b == (a + b)[|a|..];
      assert a' == (a' + b')[..|a|] && b' == (a' + b')[|a|..];
    }
  }

  /** No bit of a field of `bits` bits, with `done` before it, is fixed. */
  predicate FieldFree(r: Remote, bits: nat, done: nat) {
    forall pos | r.BitCount() - done - bits <= pos < r.BitCount() - done :: !FixedAt(r, pos)
  }

  lemma FieldAlike(r: Remote, r': Remote, data: Word, data': Word, bits: nat, done: nat)
    requires PulseSpace(r) && r' == Inverted(Recorded(r, [])).r && done + bits <= r.BitCount()
    requires data' == Xor(data, Low(bits))
    ensures |DataHalves(r, data, bits, done)| == |DataHalves(r', data', bits, done)|
    ensures DataHalves(r, data, bits, done) == DataHalves(r', data', bits, done) <==>
            Indistinct(r) || FieldFree(r, bits, done)
  {
    hide BitTrain, SentBits, BitHalves, Indistinct, FieldFree, Xor, Low;
    var bs, bs' := SentBits(r, data, bits, done), SentBits(r', data', bits, done);
    TrainAlike(r, bs, r', bs', done);
    FieldBits(r, r', data, data', bits, done);
  }

  lemma FieldBit(r: Remote, r': Remote, data: Word, data': Word, bits: nat, done: nat, i: nat)
    requires PulseSpace(r) && r' == Inverted(Recorded(r, [])).r && i < bits <= 64 && data' == Xor(data, Low(bits))
    ensures var v, v' := SentBits(r, data, bits, done)[i], SentBits(r', data', bits, done)[i];
            BitHalves(r, v, done + i) == BitHalves(r', v', done + i) <==> Indistinct(r) || !FixedAt(r, r.Pos(done + i))
  {
    hide BitHalves, FixedAt, SentBit;
    BitAlike(r, r', data[bits - 1 - i], done + i);
  }

  lemma FieldBits(r: Remote, r': Remote, data: Word, data': Word, bits: nat, done: nat)
    requires PulseSpace(r) && r' == Inverted(Recorded(r, [])).r && done + bits <= r.BitCount()
    requires data' == Xor(data, Low(bits))
    ensures var bs, bs' := SentBits(r, data, bits, done), SentBits(r', data', bits, done);
            (forall i | 0 <= i < bits :: BitHalves(r, bs[i], done + i) == BitHalves(r', bs'[i], done + i)) <==>
            Indistinct(r) || FieldFree(r, bits, done)
  {
    hide BitHalves, SentBits, SentBit, Xor, Low, FixedAt, Inverted, Indistinct;
    var bs, bs' := SentBits(r, data, bits, done), SentBits(r', data', bits, done);
    forall i | 0 <= i < bits ensures
        BitHalves(r, bs[i], done + i) == BitHalves(r', bs'[i], done + i) <==>
        Indistinct(r) || !FixedAt(r, r.Pos(done + i))
    {
      FieldBit(r, r', data, data', bits, done, i);
    }
    if forall i | 0 <= i < bits :: BitHalves(r, bs[i], done + i) == BitHalves(r', bs'[i], done + i) {
      forall pos | r.BitCount() - done - bits <= pos < r.BitCount() - done
        ensures Indistinct(r) || !FixedAt(r, pos)
      {
        var i := r.BitCount() - 1 - pos - done;
        assert BitHalves(r, bs[i], done + i) == BitHalves(r', bs'[i], done + i);
        assert r.Pos(done + i) == pos;
      }
    }
  }

  /** A toggle bit sent as it is kept, not exchanged with the data's: invert_data breaks it. */
  predicate FixesABit(r: Remote) {
    CountBelow(r.toggleBitMask, 64) == 1 && exists pos | 0 <= pos < r.BitCount() :: Remote.Has(r.toggleBitMask, pos)
  }

  /** A bit is fixed in the word exactly if it is in one of the fields. */
  lemma FieldsCover(r: Remote)
    ensures FixesABit(r) <==>
            !(FieldFree(r, r.preDataBits, 0) && FieldFree(r, r.bits, r.preDataBits)
              && FieldFree(r, r.postDataBits, r.preDataBits + r.bits))
  {
    assert forall pos :: FixedAt(r, pos) ==> Remote.Has(r.toggleBitMask, pos);
    if FixesABit(r) {
      var pos :| 0 <= pos < r.BitCount() && Remote.Has(r.toggleBitMask, pos);
      assert FixedAt(r, pos);
    }
  }

  /** invert_data preserves the waveform of every code exactly if no sent bit is fixed by a toggle
      mask of a single bit (or one and zero are the same); masks that flip bits do no harm. */
  lemma InvertKeepsWaveform(r: Remote, code: Word, repeated: bool)
    requires PulseSpace(r)
    ensures CodeHalves(Inverted(Recorded(r, [])).r, Xor(code, Low(r.bits)), repeated) == CodeHalves(r, code, repeated)
            <==> Indistinct(r) || !FixesABit(r)
  {
    var r' := Inverted(Recorded(r, [])).r;
    var code' := Xor(code, Low(r.bits));
    FieldsCover(r);
    FieldAlike(r, r', code, code', r.bits, r.preDataBits);
    PreAlike(r, r');
    PostAlike(r, r');
    hide *;
    SplitCode(r, code, repeated);
    SplitCode(r', code', repeated);
    SameFrame(r, r', repeated);
    var post, post' := PostHalves(r), PostHalves(r');
    var end := TrailHalves(r) + (if !repeated || !r.noFootRep then FootHalves(r) else []);
    var data, data' := DataHalves(r, code, r.bits, r.preDataBits), DataHalves(r', code', r.bits, r.preDataBits);
    PartsEqual(post, end, post', end);
    PartsEqual(data, post + end, data', post' + end);
    PartsEqual(PreHalves(r), data + (post + end), PreHalves(r'), data' + (post' + end));
    var start := (if !repeated || !r.noHeadRep then HeaderHalves(r) else []) + LeadHalves(r);
    PartsEqual(start, PreHalves(r) + (data + (post + end)), start, PreHalves(r') + (data' + (post' + end)));
  }

  lemma SameFrame(r: Remote, r': Remote, repeated: bool)
    requires r' == Inverted(Recorded(r, [])).r
    ensures HeaderHalves(r') == HeaderHalves(r) && LeadHalves(r') == LeadHalves(r)
    ensures TrailHalves(r') == TrailHalves(r) && FootHalves(r') == FootHalves(r)
    ensures r'.noHeadRep == r.noHeadRep && r'.noFootRep == r.noFootRep
    ensures r'.bits == r.bits && r'.preDataBits == r.preDataBits && r'.BitCount() == r.BitCount()
  {}

  lemma SplitCode(r: Remote, code: Word, repeated: bool)
    requires r.BitCount() <= 64
    ensures r.preDataBits <= 64 && r.postDataBits <= 64 && r.bits <= 64
    ensures CodeHalves(r, code, repeated) ==
            ((if !repeated || !r.noHeadRep then HeaderHalves(r) else []) + LeadHalves(r))
            + (PreHalves(r)
            + (DataHalves(r, code, r.bits, r.preDataBits)
            + (PostHalves(r)
            + (TrailHalves(r)
            + (if !repeated || !r.noFootRep then FootHalves(r) else [])))))
  {
    hide HeaderHalves, LeadHalves, PreHalves, DataHalves, PostHalves, TrailHalves, FootHalves;
  }

  lemma PreAlike(r: Remote, r': Remote)
    requires PulseSpace(r) && r' == Inverted(Recorded(r, [])).r
    ensures |PreHalves(r)| == |PreHalves(r')|
    ensures PreHalves(r) == PreHalves(r') <==> Indistinct(r) || FieldFree(r, r.preDataBits, 0)
  {
    hide DataHalves, Indistinct, FixedAt;
    if r.HasPre() {
      FieldAlike(r, r', r.preData, r'.preData, r.preDataBits, 0);
      var g := if r.HasPreGap() then [Waveform.Pulse(r.preP), Waveform.Space(r.preS)] else [];
      PartsEqual(DataHalves(r, r.preData, r.preDataBits, 0), g, DataHalves(r', r'.preData, r.preDataBits, 0), g);
    }
  }

  lemma PostAlike(r: Remote, r': Remote)
    requires PulseSpace(r) && r' == Inverted(Recorded(r, [])).r
    ensures |PostHalves(r)| == |PostHalves(r')|
    ensures PostHalves(r) == PostHalves(r') <==>
            Indistinct(r) || FieldFree(r, r.postDataBits, r.preDataBits + r.bits)
  {
    hide DataHalves, Indistinct, FixedAt;
    if r.HasPost() {
      var done := r.preDataBits + r.bits;
      FieldAlike(r, r', r.postData, r'.postData, r.postDataBits, done);
      var g := if r.HasPostGap() then [Waveform.Pulse(r.postP), Waveform.Space(r.postS)] else [];
      PartsEqual(g, DataHalves(r, r.postData, r.postDataBits, done),
                 g, DataHalves(r', r'.postData, r.postDataBits, done));
    }
  }

  // ----- the whole remote

  ghost predicate SameSignals(r: Remote, n: Chains.Ncode, r': Remote, n': Chains.Ncode, repeated: bool)
    requires r.BitCount() <= 64 && r'.BitCount() <= 64
  {
    && CodeHalves(r', n'.code, repeated) == CodeHalves(r, n.code, repeated)
    && |n'.next| == |n.next|
    && forall j | 0 <= j < |n.next| :: CodeHalves(r', n'.next[j], repeated) == CodeHalves(r, n.next[j], repeated)
  }

  /** Every button of the inverted remote, further codes included, sends the pulses and spaces it
      sent before, under that condition and no other. */
  lemma InvertKeepsButton(d: Recorded, k: nat, repeated: bool)
    requires PulseSpace(d.r) && k < |d.codes|
    ensures |Inverted(d).codes| == |d.codes| && Inverted(d).r.BitCount() <= 64
    ensures SameSignals(d.r, d.codes[k], Inverted(d).r, Inverted(d).codes[k], repeated) <==>
            Indistinct(d.r) || !FixesABit(d.r)
  {
    var b, d' := d.codes[k], Inverted(d);
    var b' := MapCode(b, Flipping(Low(d.r.bits)));
    assert d'.r == Inverted(Recorded(d.r, [])).r;
    if d.r.bits == 0 {
      assert forall w: Word :: Xor(w, Low(0)) == w;
      assert b'.code == b.code && b'.next == b.next;
    }
    assert d'.codes[k] == b';
    InvertKeepsWaveform(d.r, b.code, repeated);
    forall j | 0 <= j < |b.next| {
      InvertKeepsWaveform(d.r, b.next[j], repeated);
    }
    hide CodeHalves, FixesABit, Indistinct, Inverted;
  }

  /** Inverting twice is no change. */
  lemma InvertTwice(d: Recorded)
    ensures Inverted(Inverted(d)) == d
  {
    var r, f := d.r, Flipping(Low(d.r.bits));
    assert forall w: Word, m: Word :: Xor(Xor(w, m), m) == w;
    forall k | 0 <= k < |d.codes| ensures FactoringProofs.ButtonBack(d.codes[k], f, f) {}
    FactoringProofs.MapBack(d.codes, f, f);
  }

  // ----- remotes that invert_data changes

  /** A remote with the old toggle bit in front, and ones and zeros of different lengths: it sends every
      code differently once its data is inverted. */
  lemma ToggleBitInverted(r: Remote, code: Word, repeated: bool)
    requires PulseSpace(r) && r.BitCount() > 0 && r.toggleBitMask == Bit(r.BitCount() - 1) && r.sone != r.szero
    ensures CodeHalves(Inverted(Recorded(r, [])).r, Xor(code, Low(r.bits)), repeated) != CodeHalves(r, code, repeated)
  {
    hide CodeHalves, Inverted, Xor, Low;
    OneBitSet(r.BitCount() - 1, 64);
    assert Remote.Has(r.toggleBitMask, r.BitCount() - 1);
    InvertKeepsWaveform(r, code, repeated);
  }

  lemma {:induction false} OneBitSet(k: nat, n: nat)
    requires n <= 64
    ensures CountBelow(Bit(k), n) == if k < n then 1 else 0
  {
    if n > 0 { OneBitSet(k, n - 1); }
  }
}
