/** How long a signal can get, from the remote's description alone; with that, when a remote of constant
    length leaves gaps that are long enough to keep its signals apart. */
module SignalLengths {
  import opened Words
  import opened Waveform
  import opened Remotes
  import opened SendBuffers
  import opened Transmit
  import opened Chains

  // ----- the sum that the send buffer keeps

  predicate NoneNegative(cs: seq<Half>) {
    forall i | 0 <= i < |cs| :: cs[i].dur >= 0
  }

  /** A train of at most that length. */
  predicate Within(cs: seq<Half>, length: int) {
    NoneNegative(cs) && Total(cs) <= length
  }

  function Spent(s: SendState): int { s.sum + s.pendingp + s.pendings }

  lemma {:induction false} RunSpends(s: SendState, cs: seq<Half>)
    requires NoneNegative(cs) && s.pendingp >= 0 && s.pendings >= 0
    ensures var u := Run(s, cs); u.pendingp >= 0 && u.pendings >= 0 && Spent(u) <= Spent(s) + Total(cs)
    decreases cs
  {
    if cs != [] {
      RunSpends(Push(s, cs[0]), cs[1..]);
    }
  }

  lemma SyncedSpends(s: SendState)
    requires s.pendingp >= 0 && s.pendings >= 0
    ensures Synced(s).sum <= Spent(s)
  {}

  // ----- the parts of a signal

  lemma Longer(a: seq<Half>, x: int, b: seq<Half>, y: int)
    requires Within(a, x) && Within(b, y)
    ensures Within(a + b, x + y)
  {
    TotalConcat(a, b);
  }

  lemma Short(cs: seq<Half>)
    requires |cs| <= 2 && NoneNegative(cs)
    ensures Within(cs, if cs == [] then 0 else if |cs| == 1 then cs[0].dur else cs[0].dur + cs[1].dur)
  {
    if cs != [] {
      var rest := cs[1..];
      assert Total(cs) == cs[0].dur + Total(rest);
      assert |rest| == 1 ==> rest[0] == cs[1] && Total(rest) == cs[1].dur + Total(rest[1..]);
    }
  }

  function Max(a: nat, b: nat): nat { if a > b then a else b }

  /** The longest bit; RC-6 doubles some. */
  function BitLength(r: Remote): nat {
    var longer := Max(r.pone + r.sone, r.pzero + r.szero);
    if r.rc6Mask == ZERO then longer else 2 * longer
  }

  /** The longest RC-MM symbol. */
  function SymbolLength(r: Remote): nat {
    Max(Max(r.pzero + r.szero, r.pone + r.sone), Max(r.ptwo + r.stwo, r.pthree + r.sthree))
  }

  function FieldLength(r: Remote, bits: nat): nat {
    if r.protocol.Rcmm? then bits / 2 * SymbolLength(r) else bits * BitLength(r)
  }

  function HeaderLength(r: Remote): nat { if r.HasHeader() then r.phead + r.shead else 0 }

  /** The longest signal of a code, and of a repeat. */
  function LongestCode(r: Remote): nat {
    HeaderLength(r)
    + (r.plead
    + (FieldLength(r, r.preDataBits) + (if r.HasPreGap() then r.preP + r.preS else 0)
    + (FieldLength(r, r.bits)
    + ((if r.HasPostGap() then r.postP + r.postS else 0) + FieldLength(r, r.postDataBits)
    + (r.ptrail
    + (if r.HasFoot() then r.sfoot + r.pfoot else 0))))))
  }

  function LongestRepeat(r: Remote): nat {
    HeaderLength(r) + (r.plead + (r.prepeat + r.srepeat + r.ptrail))
  }

  function LongestSignal(r: Remote): nat {
    Max(LongestCode(r), if r.HasRepeat() then LongestRepeat(r) else 0)
  }

  lemma OneMore(k: nat, x: nat)
    ensures x + k * x == (k + 1) * x
  {}

  lemma BitWithin(r: Remote, v: bool, at: nat)
    ensures Within(BitHalves(r, v, at), BitLength(r))
  {
    Short(BitHalves(r, v, at));
  }

  lemma {:induction false} BitsWithin(r: Remote, bs: seq<bool>, at: nat)
    ensures Within(BitTrain(r, bs, at), |bs| * BitLength(r))
    decreases bs
  {
    hide BitLength, BitHalves;
    if bs != [] {
      BitWithin(r, bs[0], at);
      BitsWithin(r, bs[1..], at + 1);
      Longer(BitHalves(r, bs[0], at), BitLength(r), BitTrain(r, bs[1..], at + 1), |bs[1..]| * BitLength(r));
      OneMore(|bs[1..]|, BitLength(r));
    }
  }

  lemma SymbolWithin(r: Remote, hi: bool, lo: bool)
    ensures Within(SymbolHalves(r, hi, lo), SymbolLength(r))
  {
    Short(SymbolHalves(r, hi, lo));
  }

  lemma {:induction false} SymbolsWithin(r: Remote, bs: seq<bool>)
    ensures Within(SymbolTrain(r, bs), |bs| / 2 * SymbolLength(r))
    decreases bs
  {
    hide SymbolLength, SymbolHalves;
    if |bs| >= 2 {
      SymbolWithin(r, bs[0], bs[1]);
      SymbolsWithin(r, bs[2..]);
      var k := |bs[2..]| / 2;
      assert |bs| / 2 == k + 1;
      Longer(SymbolHalves(r, bs[0], bs[1]), SymbolLength(r), SymbolTrain(r, bs[2..]), k * SymbolLength(r));
      OneMore(k, SymbolLength(r));
    } else {
      assert |bs| / 2 == 0;
    }
  }

  lemma FieldWithin(r: Remote, data: Word, bits: nat, done: nat)
    requires bits <= 64 && !r.protocol.Xmp?
    ensures Within(DataHalves(r, data, bits, done), FieldLength(r, bits))
  {
    hide BitLength, SymbolLength, BitTrain, SymbolTrain;
    if r.protocol.Rcmm? {
      SymbolsWithin(r, ToBits(data, bits));
      Short([]);
      OneMore(bits / 2, SymbolLength(r));
    } else {
      BitsWithin(r, SentBits(r, data, bits, done), done);
    }
  }

  lemma PreWithin(r: Remote)
    requires r.BitCount() <= 64 && !r.protocol.Xmp?
    ensures Within(PreHalves(r), FieldLength(r, r.preDataBits) + if r.HasPreGap() then r.preP + r.preS else 0)
  {
    hide DataHalves, FieldLength;
    var sep := if r.HasPreGap() then [Pulse(r.preP), Space(r.preS)] else [];
    FieldWithin(r, r.preData, r.preDataBits, 0);
    Short(sep);
    Short([]);
    Longer(DataHalves(r, r.preData, r.preDataBits, 0), FieldLength(r, r.preDataBits),
           sep, if r.HasPreGap() then r.preP + r.preS else 0);
  }

  lemma PostWithin(r: Remote)
    requires r.BitCount() <= 64 && !r.protocol.Xmp?
    ensures Within(PostHalves(r), (if r.HasPostGap() then r.postP + r.postS else 0) + FieldLength(r, r.postDataBits))
  {
    hide DataHalves, FieldLength;
    var done := r.preDataBits + r.bits;
    var sep := if r.HasPostGap() then [Pulse(r.postP), Space(r.postS)] else [];
    FieldWithin(r, r.postData, r.postDataBits, done);
    Short(sep);
    Short([]);
    Longer(sep, if r.HasPostGap() then r.postP + r.postS else 0,
           DataHalves(r, r.postData, r.postDataBits, done), FieldLength(r, r.postDataBits));
  }

  /** Header, lead, trail and foot, sent or not. */
  lemma FrameWithin(r: Remote)
    ensures Within(HeaderHalves(r), HeaderLength(r)) && Within(LeadHalves(r), r.plead)
    ensures Within(TrailHalves(r), r.ptrail) && Within([], HeaderLength(r))
    ensures Within(FootHalves(r), if r.HasFoot() then r.sfoot + r.pfoot else 0)
    ensures Within([], if r.HasFoot() then r.sfoot + r.pfoot else 0)
  {
    Short(HeaderHalves(r));
    Short(LeadHalves(r));
    Short(TrailHalves(r));
    Short(FootHalves(r));
  }

  lemma SevenWithin(h: seq<Half>, l: seq<Half>, e: seq<Half>, c: seq<Half>, p: seq<Half>, t: seq<Half>, f: seq<Half>,
                    a: int, b: int, x: int, y: int, z: int, u: int, v: int)
    requires Within(h, a) && Within(l, b) && Within(e, x) && Within(c, y) && Within(p, z)
    requires Within(t, u) && Within(f, v)
    ensures Within(h + (l + (e + (c + (p + (t + f))))), a + (b + (x + (y + (z + (u + v))))))
  {
    hide Within;
    Longer(t, u, f, v);
    Longer(p, z, t + f, u + v);
    Longer(c, y, p + (t + f), z + (u + v));
    Longer(e, x, c + (p + (t + f)), y + (z + (u + v)));
    Longer(l, b, e + (c + (p + (t + f))), x + (y + (z + (u + v))));
    Longer(h, a, l + (e + (c + (p + (t + f)))), b + (x + (y + (z + (u + v)))));
  }

  lemma CodeWithin(r: Remote, code: Word, repeated: bool)
    requires r.BitCount() <= 64 && !r.protocol.Xmp?
    ensures Within(CodeHalves(r, code, repeated), LongestCode(r))
  {
    hide Within, HeaderHalves, LeadHalves, PreHalves, DataHalves, PostHalves, TrailHalves, FootHalves;
    hide HeaderLength, FieldLength;
    FrameWithin(r);
    PreWithin(r);
    FieldWithin(r, code, r.bits, r.preDataBits);
    PostWithin(r);
    SevenWithin(if !repeated || !r.noHeadRep then HeaderHalves(r) else [], LeadHalves(r), PreHalves(r),
                DataHalves(r, code, r.bits, r.preDataBits), PostHalves(r), TrailHalves(r),
                if !repeated || !r.noFootRep then FootHalves(r) else [],
                HeaderLength(r), r.plead,
                FieldLength(r, r.preDataBits) + (if r.HasPreGap() then r.preP + r.preS else 0),
                FieldLength(r, r.bits),
                (if r.HasPostGap() then r.postP + r.postS else 0) + FieldLength(r, r.postDataBits), r.ptrail,
                if r.HasFoot() then r.sfoot + r.pfoot else 0);
  }

  lemma RepeatWithin(r: Remote)
    ensures Within((if r.repeatHeader then HeaderHalves(r) else []) + RepeatHalves(r), LongestRepeat(r))
  {
    hide HeaderHalves, LeadHalves, TrailHalves, HeaderLength;
    FrameWithin(r);
    var two := [Pulse(r.prepeat), Space(r.srepeat)];
    Short(two);
    Longer(two, r.prepeat + r.srepeat, TrailHalves(r), r.ptrail);
    Longer(LeadHalves(r), r.plead, two + TrailHalves(r), r.prepeat + r.srepeat + r.ptrail);
    Longer(if r.repeatHeader then HeaderHalves(r) else [], HeaderLength(r),
           RepeatHalves(r), r.plead + (r.prepeat + r.srepeat + r.ptrail));
  }

  // ----- a whole signal

  lemma LongestUntoggled(r: Remote, toggle: nat)
    ensures LongestCode(r.(toggleMaskState := toggle)) == LongestCode(r)
  {
    var r' := r.(toggleMaskState := toggle);
    assert BitLength(r') == BitLength(r) && SymbolLength(r') == SymbolLength(r);
    hide BitLength, SymbolLength;
    assert FieldLength(r', r.preDataBits) == FieldLength(r, r.preDataBits);
    assert FieldLength(r', r.bits) == FieldLength(r, r.bits);
    assert FieldLength(r', r.postDataBits) == FieldLength(r, r.postDataBits);
    hide FieldLength;
  }

  lemma HalvesWithin(r: Remote, n: Ncode, tx: Tx, repeated: bool)
    requires Sendable(r) && AtNode(n, tx)
    ensures Within(SignalHalves(r, n, tx, repeated), LongestSignal(r))
  {
    hide LongestCode, LongestRepeat, CodeHalves, RepeatHalves, HeaderHalves;
    if repeated && r.HasRepeat() {
      RepeatWithin(r);
    } else {
      CodeWithin(r.(toggleMaskState := tx.toggle), CodeAt(r, n, tx, repeated), repeated);
      LongestUntoggled(r, tx.toggle);
    }
  }

  /** The sum that the gap of a constant length is computed from never exceeds the longest signal, whatever
      the toggle states are. */
  lemma SignalWithin(r: Remote, n: Ncode, tx: Tx, repeated: bool)
    requires Sendable(r) && AtNode(n, tx)
    ensures AfterSignal(EMPTY, r, n, tx, repeated).sum <= LongestSignal(r)
  {
    hide LongestSignal, CodeHalves, RepeatHalves, HeaderHalves, Run, Synced;
    var cs := SignalHalves(r, n, tx, repeated);
    HalvesWithin(r, n, tx, repeated);
    RunSpends(EMPTY, cs);
    SyncedSpends(Run(EMPTY, cs));
    if !(repeated && r.HasRepeat()) {
      var u := AfterCode(EMPTY, r.(toggleMaskState := tx.toggle), CodeAt(r, n, tx, repeated), repeated);
      SyncedSpends(u);
    }
  }
}
