/** Turning codes into halves: send_header ... send_code of lib/transmit.c. */
module Transmit {
  import opened Words
  import opened Waveform
  import opened Remotes
  import opened SendBuffers

  // ----- what each part of a signal pushes

  /** The value sent for a data bit at a position of the whole word, after the toggle masks. */
  function SentBit(r: Remote, v: bool, pos: int): bool {
    var v1 :=
      if r.HasToggleBitMask() && Remote.Has(r.toggleBitMask, pos) then
        if CountBelow(r.toggleBitMask, 64) == 1 then Remote.Has(r.toggleBitMaskState, pos)
        else v != Remote.Has(r.toggleBitMaskState, pos)
      else v;
    if r.HasToggleMask() && Remote.Has(r.toggleMask, pos) && r.toggleMaskState % 2 == 1 then !v1 else v1
  }

  /** The bits sent for a field of `bits` bits, first one first, when `done` bits of the word precede it. */
  function SentBits(r: Remote, data: Word, bits: nat, done: nat): (bs: seq<bool>)
    requires bits <= 64
    ensures |bs| == bits
  {
    seq(bits, i requires 0 <= i < bits => SentBit(r, data[bits - 1 - i], r.Pos(done + i)))
  }

  function BitHalves(r: Remote, v: bool, done: nat): (cs: seq<Half>)
    ensures |cs| == 2
  {
    if v then
      if r.IsBiphase() then
        if r.Doubled(done) then [Space(2 * r.sone), Pulse(2 * r.pone)] else [Space(r.sone), Pulse(r.pone)]
      else if r.protocol.SpaceFirst? then [Space(r.sone), Pulse(r.pone)]
      else [Pulse(r.pone), Space(r.sone)]
    else
      if r.Doubled(done) then [Pulse(2 * r.pzero), Space(2 * r.szero)]
      else if r.protocol.SpaceFirst? then [Space(r.szero), Pulse(r.pzero)]
      else [Pulse(r.pzero), Space(r.szero)]
  }

  function BitTrain(r: Remote, bs: seq<bool>, done: nat): seq<Half>
    decreases bs
  {
    if bs == [] then [] else BitHalves(r, bs[0], done) + BitTrain(r, bs[1..], done + 1)
  }

  /** RC-MM: one pulse and space for two bits. */
  function SymbolHalves(r: Remote, hi: bool, lo: bool): (cs: seq<Half>)
    ensures |cs| == 2 && cs[0].Pulse? && cs[1].Space?
  {
    if !hi && !lo then [Pulse(r.pzero), Space(r.szero)]
    else if !hi then [Pulse(r.pone), Space(r.sone)]
    else if !lo then [Pulse(r.ptwo), Space(r.stwo)]
    else [Pulse(r.pthree), Space(r.sthree)]
  }

  function SymbolTrain(r: Remote, bs: seq<bool>): seq<Half> {
    if |bs| < 2 then [] else SymbolHalves(r, bs[0], bs[1]) + SymbolTrain(r, bs[2..])
  }

  /** XMP: four bits in the length of one space. */
  function NibbleOf(bs: seq<bool>): nat
    requires |bs| == 4
  {
    (if bs[0] then 8 else 0) + (if bs[1] then 4 else 0) + (if bs[2] then 2 else 0) + (if bs[3] then 1 else 0)
  }

  function NibbleTrain(r: Remote, bs: seq<bool>): seq<Half> {
    if |bs| < 4 then []
    else [Pulse(r.pzero), Space(r.szero + NibbleOf(bs[..4]) * r.sone)] + NibbleTrain(r, bs[4..])
  }

  /** A number of bits that is sent as whole symbols; other protocols send single bits. */
  predicate Aligned(r: Remote, bits: int) {
    (r.protocol.Rcmm? ==> bits % 2 == 0) && (r.protocol.Xmp? ==> bits % 4 == 0)
  }

  lemma AlignedSum(r: Remote, m: int, n: int)
    requires Aligned(r, m) && Aligned(r, n)
    ensures Aligned(r, m + n)
  {
    Twos(m, n);
    Fours(m, n);
  }

  lemma Twos(m: int, n: int)
    ensures m % 2 == 0 && n % 2 == 0 ==> (m + n) % 2 == 0
  {}

  lemma Fours(m: int, n: int)
    ensures m % 4 == 0 && n % 4 == 0 ==> (m + n) % 4 == 0
  {}

  function DataHalves(r: Remote, data: Word, bits: nat, done: nat): seq<Half>
    requires bits <= 64
  {
    if r.protocol.Rcmm? then
      if bits % 2 != 0 || done % 2 != 0 then [] else SymbolTrain(r, ToBits(data, bits))
    else if r.protocol.Xmp? then
      if bits % 4 != 0 || done % 4 != 0 then [] else NibbleTrain(r, ToBits(data, bits))
    else BitTrain(r, SentBits(r, data, bits, done), done)
  }

  function HeaderHalves(r: Remote): seq<Half> {
    if r.HasHeader() then [Pulse(r.phead), Space(r.shead)] else []
  }

  function LeadHalves(r: Remote): seq<Half> {
    if r.plead != 0 then [Pulse(r.plead)] else []
  }

  function PreHalves(r: Remote): seq<Half>
    requires r.preDataBits <= 64
  {
    if r.HasPre() then
      DataHalves(r, r.preData, r.preDataBits, 0) + (if r.HasPreGap() then [Pulse(r.preP), Space(r.preS)] else [])
    else []
  }

  function PostHalves(r: Remote): seq<Half>
    requires r.postDataBits <= 64
  {
    if r.HasPost() then
      (if r.HasPostGap() then [Pulse(r.postP), Space(r.postS)] else []) +
      DataHalves(r, r.postData, r.postDataBits, r.preDataBits + r.bits)
    else []
  }

  function TrailHalves(r: Remote): seq<Half> {
    if r.ptrail != 0 then [Pulse(r.ptrail)] else []
  }

  function FootHalves(r: Remote): seq<Half> {
    if r.HasFoot() then [Space(r.sfoot), Pulse(r.pfoot)] else []
  }

  function CodeHalves(r: Remote, code: Word, repeated: bool): seq<Half>
    requires r.BitCount() <= 64
  {
    (if !repeated || !r.noHeadRep then HeaderHalves(r) else [])
    + (LeadHalves(r)
    + (PreHalves(r)
    + (DataHalves(r, code, r.bits, r.preDataBits)
    + (PostHalves(r)
    + (TrailHalves(r)
    + (if !repeated || !r.noFootRep then FootHalves(r) else []))))))
  }

  function RepeatHalves(r: Remote): seq<Half> {
    LeadHalves(r) + ([Pulse(r.prepeat), Space(r.srepeat)] + TrailHalves(r))
  }

  function AfterCode(s: SendState, r: Remote, code: Word, repeated: bool): SendState
    requires r.BitCount() <= 64
  {
    var s := Run(s, CodeHalves(r, code, repeated));
    if !repeated && r.noHeadRep && r.constLength then s.(sum := s.sum - (r.phead + r.shead)) else s
  }

  function When(there: bool, cs: seq<Half>): seq<Half> { if there then cs else [] }

  /** Which parts a signal has, and in which order: a repeated signal may lack header and foot. */
  lemma CodeLayout(r: Remote, code: Word, repeated: bool)
    requires r.BitCount() <= 64
    ensures CodeHalves(r, code, repeated) ==
            When(r.phead > 0 && r.shead > 0 && !(repeated && r.noHeadRep), [Pulse(r.phead), Space(r.shead)])
            + (When(r.plead > 0, [Pulse(r.plead)])
            + ((When(r.preDataBits > 0, DataHalves(r, r.preData, r.preDataBits, 0))
                + When(r.preDataBits > 0 && r.preP > 0 && r.preS > 0, [Pulse(r.preP), Space(r.preS)]))
            + (DataHalves(r, code, r.bits, r.preDataBits)
            + ((When(r.postDataBits > 0 && r.postP > 0 && r.postS > 0, [Pulse(r.postP), Space(r.postS)])
                + When(r.postDataBits > 0, DataHalves(r, r.postData, r.postDataBits, r.preDataBits + r.bits)))
            + (When(r.ptrail > 0, [Pulse(r.ptrail)])
            + When(r.sfoot > 0 && r.pfoot > 0 && !(repeated && r.noFootRep), [Space(r.sfoot), Pulse(r.pfoot)]))))))
  {
    hide DataHalves, PreHalves, PostHalves;
    PreIsWhen(r);
    PostIsWhen(r);
  }

  lemma PreIsWhen(r: Remote)
    requires r.preDataBits <= 64
    ensures PreHalves(r) ==
            When(r.preDataBits > 0, DataHalves(r, r.preData, r.preDataBits, 0))
            + When(r.preDataBits > 0 && r.preP > 0 && r.preS > 0, [Pulse(r.preP), Space(r.preS)])
  {
    hide DataHalves;
  }

  lemma PostIsWhen(r: Remote)
    requires r.postDataBits <= 64
    ensures PostHalves(r) ==
            When(r.postDataBits > 0 && r.postP > 0 && r.postS > 0, [Pulse(r.postP), Space(r.postS)])
            + When(r.postDataBits > 0, DataHalves(r, r.postData, r.postDataBits, r.preDataBits + r.bits))
  {
    hide DataHalves;
  }

  // ----- the pushes, step by step

  method SendOne(buf: SendBuffer, h: Half)
    requires buf.Valid()
    modifies buf, buf.data
    ensures buf.Valid() && buf.State() == Push(old(buf.State()), h)
  {
    match h
    case Pulse(d) => buf.SendPulse(d);
    case Space(d) => buf.SendSpace(d);
  }

  method SendPair(buf: SendBuffer, a: Half, b: Half)
    requires buf.Valid()
    modifies buf, buf.data
    ensures buf.Valid() && buf.State() == Run(old(buf.State()), [a, b])
  {
    RunTwo(buf.State(), a, b, []);
    assert [a, b] + [] == [a, b];
    SendOne(buf, a);
    SendOne(buf, b);
  }

  lemma BitsShift(rev: Word, i: nat, k: nat)
    ensures Shr(Shr(rev, i), k) == Shr(rev, i + k)
  {}

  /** What has reached the low end of the reversed data after i shifts. */
  lemma ShiftedOut(data0: Word, bits: nat, i: nat)
    requires bits <= 64
    ensures Shr(Reversed(data0, bits), 0) == Reversed(data0, bits)
    ensures forall j | 0 <= j && i + j < bits :: Shr(Reversed(data0, bits), i)[j] == data0[bits - 1 - i - j]
  {}

  lemma MaskShift(pos: int)
    requires pos < 64
    ensures Shr(Bit(pos), 1) == Bit(pos - 1)
  {}

  /** The toggle tests of send_data on one bit, the mask marking the bit's place in the word. */
  function Toggled(r: Remote, toggleBits: nat, mask: Word, bit: bool): bool {
    var low :=
      if r.HasToggleBitMask() && And(mask, r.toggleBitMask) != ZERO then
        if toggleBits == 1 then And(mask, r.toggleBitMaskState) != ZERO
        else bit != (And(mask, r.toggleBitMaskState) != ZERO)
      else bit;
    if r.HasToggleMask() && And(mask, r.toggleMask) != ZERO && r.toggleMaskState % 2 != 0 then !low else low
  }

  lemma ToggledIsSent(r: Remote, data0: Word, bits: nat, done: nat, i: nat)
    requires i < bits <= 64
    ensures Toggled(r, CountBelow(r.toggleBitMask, 64), Bit(r.Pos(done + i)), data0[bits - 1 - i]) ==
            SentBits(r, data0, bits, done)[i]
  {
    MaskHits(r.Pos(done + i), r.toggleBitMask);
    MaskHits(r.Pos(done + i), r.toggleBitMaskState);
    MaskHits(r.Pos(done + i), r.toggleMask);
  }

  method SendBit(buf: SendBuffer, r: Remote, low: bool, mask: Word, ghost done: nat)
    requires buf.Valid() && mask == Bit(r.Pos(done))
    modifies buf, buf.data
    ensures buf.Valid() && buf.State() == Run(old(buf.State()), BitHalves(r, low, done))
  {
    MaskHits(r.Pos(done), r.rc6Mask);
    if low {
      if r.IsBiphase() {
        if And(mask, r.rc6Mask) != ZERO {
          SendPair(buf, Space(2 * r.sone), Pulse(2 * r.pone));
        } else {
          SendPair(buf, Space(r.sone), Pulse(r.pone));
        }
      } else if r.protocol.SpaceFirst? {
        SendPair(buf, Space(r.sone), Pulse(r.pone));
      } else {
        SendPair(buf, Pulse(r.pone), Space(r.sone));
      }
    } else {
      if And(mask, r.rc6Mask) != ZERO {
        SendPair(buf, Pulse(2 * r.pzero), Space(2 * r.szero));
      } else if r.protocol.SpaceFirst? {
        SendPair(buf, Space(r.szero), Pulse(r.pzero));
      } else {
        SendPair(buf, Pulse(r.pzero), Space(r.szero));
      }
    }
  }

  lemma RunBit(s: SendState, r: Remote, bs: seq<bool>, i: nat, done: nat)
    requires i < |bs|
    ensures Run(s, BitTrain(r, bs[i..], done)) ==
            Run(Run(s, BitHalves(r, bs[i], done)), BitTrain(r, bs[i + 1..], done + 1))
  {
    assert bs[i..][1..] == bs[i + 1..];
    RunConcat(s, BitHalves(r, bs[i], done), BitTrain(r, bs[i + 1..], done + 1));
  }

  lemma BitRound(r: Remote, data0: Word, bits: nat, done: nat, i: nat)
    requires i < bits && done + bits <= r.BitCount() <= 64
    ensures var rev, mask := Reversed(data0, bits), Bit(r.Pos(done + i));
            && Toggled(r, CountBelow(r.toggleBitMask, 64), mask, Shr(rev, i)[0]) == SentBits(r, data0, bits, done)[i]
            && Shr(Shr(rev, i), 1) == Shr(rev, i + 1)
            && Shr(mask, 1) == Bit(r.Pos(done + i + 1))
  {
    ShiftedOut(data0, bits, i);
    ToggledIsSent(r, data0, bits, done, i);
    BitsShift(Reversed(data0, bits), i, 1);
    MaskShift(r.Pos(done + i));
  }

  /** The state of send_data before round i: the reversed data shifted out i times, a one-bit mask
      on the place of bit i, and the pushes for the bits from i on still to be done. */
  ghost predicate AtBit(s: SendState, goal: SendState, r: Remote, data: Word, mask: Word,
                        data0: Word, bits: nat, done: nat, i: nat)
  {
    && i <= bits <= 64
    && data == Shr(Reversed(data0, bits), i)
    && mask == Bit(r.Pos(done + i))
    && Run(s, BitTrain(r, SentBits(r, data0, bits, done)[i..], done + i)) == goal
  }

  lemma StartBits(s: SendState, r: Remote, data0: Word, bits: nat, done: nat)
    requires done + bits <= r.BitCount() <= 64
    ensures AtBit(s, Run(s, BitTrain(r, SentBits(r, data0, bits, done), done)), r,
                  Reversed(data0, bits), Bit(r.BitCount() - 1 - done), data0, bits, done, 0)
  {
    ShiftedOut(data0, bits, 0);
    assert SentBits(r, data0, bits, done)[0..] == SentBits(r, data0, bits, done);
  }

  lemma AdvanceBit(s: SendState, goal: SendState, r: Remote, data: Word, mask: Word,
                   data0: Word, bits: nat, done: nat, i: nat)
    requires i < bits && done + bits <= r.BitCount() <= 64
    requires AtBit(s, goal, r, data, mask, data0, bits, done, i)
    ensures var low := Toggled(r, CountBelow(r.toggleBitMask, 64), mask, data[0]);
            AtBit(Run(s, BitHalves(r, low, done + i)), goal, r, Shr(data, 1), Shr(mask, 1), data0, bits, done, i + 1)
  {
    hide Run, Shr, Reversed, Bit, Toggled, BitHalves, BitTrain;
    ghost var bs := SentBits(r, data0, bits, done);
    BitRound(r, data0, bits, done, i);
    RunBit(s, r, bs, i, done + i);
    assert done + i + 1 == done + (i + 1);
    assert Run(Run(s, BitHalves(r, bs[i], done + i)), BitTrain(r, bs[i + 1..], done + (i + 1))) == goal;
  }

  /** One round of send_data: the bit at the low end of the data, after the toggle masks. */
  method SendNextBit(buf: SendBuffer, r: Remote, toggleBits: nat, data: Word, mask: Word,
                     ghost goal: SendState, ghost data0: Word, ghost bits: nat, ghost done: nat, ghost i: nat)
    returns (data': Word, mask': Word)
    requires buf.Valid() && i < bits && done + bits <= r.BitCount() <= 64
    requires toggleBits == CountBelow(r.toggleBitMask, 64)
    requires AtBit(buf.State(), goal, r, data, mask, data0, bits, done, i)
    modifies buf, buf.data
    ensures buf.Valid() && AtBit(buf.State(), goal, r, data', mask', data0, bits, done, i + 1)
  {
    AdvanceBit(buf.State(), goal, r, data, mask, data0, bits, done, i);
    var low := Toggled(r, toggleBits, mask, data[0]);
    SendBit(buf, r, low, mask, done + i);
    data' := Shr(data, 1);
    mask' := Shr(mask, 1);
  }

  lemma BitsSent(s: SendState, goal: SendState, r: Remote, data: Word, mask: Word, data0: Word, bits: nat, done: nat)
    ensures AtBit(s, goal, r, data, mask, data0, bits, done, bits) ==> s == goal
  {}

  /** The loop of send_data over single bits: the data, reversed, is shifted out at its low end
      while a one-bit mask walks down the word beside it. */
  method SendBits(buf: SendBuffer, r: Remote, data0: Word, bits: nat, done: nat)
    requires buf.Valid() && done + bits <= r.BitCount() <= 64
    modifies buf, buf.data
    ensures buf.Valid()
    ensures buf.State() == Run(old(buf.State()), BitTrain(r, SentBits(r, data0, bits, done), done))
  {
    hide AtBit, Run, SentBits;
    ghost var goal := Run(buf.State(), BitTrain(r, SentBits(r, data0, bits, done), done));
    var toggleBits := BitsSet(r.toggleBitMask);
    var data := Reverse(data0, bits);
    var mask := Bit(r.BitCount() - 1 - done);
    StartBits(buf.State(), r, data0, bits, done);
    for i := 0 to bits
      invariant buf.Valid() && AtBit(buf.State(), goal, r, data, mask, data0, bits, done, i)
    {
      data, mask := SendNextBit(buf, r, toggleBits, data, mask, goal, data0, bits, done, i);
    }
    BitsSent(buf.State(), goal, r, data, mask, data0, bits, done);
  }

  /** The switch on `data & 3`: its low bit is the symbol's high bit, because the data is reversed. */
  method SendSymbol(buf: SendBuffer, r: Remote, data: Word)
    requires buf.Valid()
    modifies buf, buf.data
    ensures buf.Valid() && buf.State() == Run(old(buf.State()), SymbolHalves(r, data[0], data[1]))
  {
    if !data[1] && !data[0] {
      SendPair(buf, Pulse(r.pzero), Space(r.szero));
    } else if data[1] && !data[0] {
      SendPair(buf, Pulse(r.pone), Space(r.sone));
    } else if !data[1] {
      SendPair(buf, Pulse(r.ptwo), Space(r.stwo));
    } else {
      SendPair(buf, Pulse(r.pthree), Space(r.sthree));
    }
  }

  lemma RunSymbol(s: SendState, r: Remote, bs: seq<bool>, i: nat)
    requires i + 2 <= |bs|
    ensures Run(s, SymbolTrain(r, bs[i..])) ==
            Run(Run(s, SymbolHalves(r, bs[i], bs[i + 1])), SymbolTrain(r, bs[i + 2..]))
  {
    assert bs[i..][2..] == bs[i + 2..];
    RunConcat(s, SymbolHalves(r, bs[i], bs[i + 1]), SymbolTrain(r, bs[i + 2..]));
  }

  ghost predicate AtSymbol(s: SendState, goal: SendState, r: Remote, data: Word, data0: Word, bits: nat, i: nat) {
    && i <= bits <= 64
    && data == Shr(Reversed(data0, bits), i)
    && Run(s, SymbolTrain(r, ToBits(data0, bits)[i..])) == goal
  }

  method SendNextSymbol(buf: SendBuffer, r: Remote, data: Word,
                        ghost goal: SendState, ghost data0: Word, ghost bits: nat, ghost i: nat)
    returns (data': Word)
    requires buf.Valid() && i + 2 <= bits && AtSymbol(buf.State(), goal, r, data, data0, bits, i)
    modifies buf, buf.data
    ensures buf.Valid() && AtSymbol(buf.State(), goal, r, data', data0, bits, i + 2)
  {
    RunSymbol(buf.State(), r, ToBits(data0, bits), i);
    ShiftedOut(data0, bits, i);
    SendSymbol(buf, r, data);
    BitsShift(Reversed(data0, bits), i, 2);
    data' := Shr(data, 2);
  }

  lemma StartSymbols(s: SendState, r: Remote, data0: Word, bits: nat)
    requires bits <= 64
    ensures AtSymbol(s, Run(s, SymbolTrain(r, ToBits(data0, bits))), r, Reversed(data0, bits), data0, bits, 0)
  {
    ShiftedOut(data0, bits, 0);
    assert ToBits(data0, bits)[0..] == ToBits(data0, bits);
  }

  lemma SymbolsSent(s: SendState, goal: SendState, r: Remote, data: Word, data0: Word, bits: nat)
    ensures AtSymbol(s, goal, r, data, data0, bits, bits) ==> s == goal
  {}

  method SendSymbols(buf: SendBuffer, r: Remote, data0: Word, bits: nat)
    requires buf.Valid() && bits <= 64 && bits % 2 == 0
    modifies buf, buf.data
    ensures buf.Valid()
    ensures buf.State() == Run(old(buf.State()), SymbolTrain(r, ToBits(data0, bits)))
  {
    hide AtSymbol, Run;
    ghost var goal := Run(buf.State(), SymbolTrain(r, ToBits(data0, bits)));
    var data := Reverse(data0, bits);
    StartSymbols(buf.State(), r, data0, bits);
    var i := 0;
    while i < bits
      invariant i <= bits && i % 2 == 0
      invariant buf.Valid() && AtSymbol(buf.State(), goal, r, data, data0, bits, i)
    {
      data := SendNextSymbol(buf, r, data, goal, data0, bits, i);
      i := i + 2;
    }
    SymbolsSent(buf.State(), goal, r, data, data0, bits);
  }

  lemma NibbleValue(w: Word, bs: seq<bool>)
    requires |bs| == 4
    requires forall j | 0 <= j < 4 :: w[j] == bs[j]
    ensures Value(Reversed(And(w, Low(4)), 4), 4) == NibbleOf(bs)
  {
    var v := Reversed(And(w, Low(4)), 4);
    var v1 := Shr(v, 1);
    var v2 := Shr(v1, 1);
    var v3 := Shr(v2, 1);
    assert v[0] == bs[3] && v1[0] == bs[2] && v2[0] == bs[1] && v3[0] == bs[0];
    assert Value(v3, 1) == (if v3[0] then 1 else 0) + 2 * Value(Shr(v3, 1), 0);
    assert Value(v2, 2) == (if v2[0] then 1 else 0) + 2 * Value(v3, 1);
    assert Value(v1, 3) == (if v1[0] then 1 else 0) + 2 * Value(v2, 2);
    assert Value(v, 4) == (if v[0] then 1 else 0) + 2 * Value(v1, 3);
  }

  lemma RunNibble(s: SendState, r: Remote, bs: seq<bool>, i: nat)
    requires i + 4 <= |bs|
    ensures var four := bs[i..][..4];
            Run(s, NibbleTrain(r, bs[i..])) ==
            Run(Run(s, [Pulse(r.pzero), Space(r.szero + NibbleOf(four) * r.sone)]), NibbleTrain(r, bs[i + 4..]))
  {
    assert bs[i..][4..] == bs[i + 4..];
    RunConcat(s, [Pulse(r.pzero), Space(r.szero + NibbleOf(bs[i..][..4]) * r.sone)], NibbleTrain(r, bs[i + 4..]));
  }

  ghost predicate AtNibble(s: SendState, goal: SendState, r: Remote, data: Word, data0: Word, bits: nat, i: nat) {
    && i <= bits <= 64
    && data == Shr(Reversed(data0, bits), i)
    && Run(s, NibbleTrain(r, ToBits(data0, bits)[i..])) == goal
  }

  lemma LowNibble(data0: Word, bits: nat, i: nat)
    requires i + 4 <= bits <= 64
    ensures Value(Reversed(And(Shr(Reversed(data0, bits), i), Low(4)), 4), 4) == NibbleOf(ToBits(data0, bits)[i..][..4])
  {
    ShiftedOut(data0, bits, i);
    NibbleValue(Shr(Reversed(data0, bits), i), ToBits(data0, bits)[i..][..4]);
  }

  /** One round of send_data for XMP: the low nibble of the data. */
  method SendNextNibble(buf: SendBuffer, r: Remote, data: Word,
                        ghost goal: SendState, ghost data0: Word, ghost bits: nat, ghost i: nat)
    returns (data': Word)
    requires buf.Valid() && i + 4 <= bits && AtNibble(buf.State(), goal, r, data, data0, bits, i)
    modifies buf, buf.data
    ensures buf.Valid() && AtNibble(buf.State(), goal, r, data', data0, bits, i + 4)
  {
    var reversed := Reverse(And(data, Low(4)), 4);
    var nibble := Value(reversed, 4);
    LowNibble(data0, bits, i);
    RunNibble(buf.State(), r, ToBits(data0, bits), i);
    SendPair(buf, Pulse(r.pzero), Space(r.szero + nibble * r.sone));
    BitsShift(Reversed(data0, bits), i, 4);
    data' := Shr(data, 4);
  }

  lemma StartNibbles(s: SendState, r: Remote, data0: Word, bits: nat)
    requires bits <= 64
    ensures AtNibble(s, Run(s, NibbleTrain(r, ToBits(data0, bits))), r, Reversed(data0, bits), data0, bits, 0)
  {
    ShiftedOut(data0, bits, 0);
    assert ToBits(data0, bits)[0..] == ToBits(data0, bits);
  }

  lemma NibblesSent(s: SendState, goal: SendState, r: Remote, data: Word, data0: Word, bits: nat)
    ensures AtNibble(s, goal, r, data, data0, bits, bits) ==> s == goal
  {}

  method SendNibbles(buf: SendBuffer, r: Remote, data0: Word, bits: nat)
    requires buf.Valid() && bits <= 64 && bits % 4 == 0
    modifies buf, buf.data
    ensures buf.Valid()
    ensures buf.State() == Run(old(buf.State()), NibbleTrain(r, ToBits(data0, bits)))
  {
    hide AtNibble, Run;
    ghost var goal := Run(buf.State(), NibbleTrain(r, ToBits(data0, bits)));
    var data := Reverse(data0, bits);
    StartNibbles(buf.State(), r, data0, bits);
    var i := 0;
    while i < bits
      invariant i <= bits && i % 4 == 0
      invariant buf.Valid() && AtNibble(buf.State(), goal, r, data, data0, bits, i)
    {
      data := SendNextNibble(buf, r, data, goal, data0, bits, i);
      i := i + 4;
    }
    NibblesSent(buf.State(), goal, r, data, data0, bits);
  }

  method SendData(buf: SendBuffer, r: Remote, data: Word, bits: nat, done: nat)
    requires buf.Valid() && done + bits <= r.BitCount() <= 64
    modifies buf, buf.data
    ensures buf.Valid()
    ensures buf.State() == Run(old(buf.State()), DataHalves(r, data, bits, done))
  {
    if r.protocol.Rcmm? {
      if bits % 2 != 0 || done % 2 != 0 { return; }
      SendSymbols(buf, r, data, bits);
    } else if r.protocol.Xmp? {
      if bits % 4 != 0 || done % 4 != 0 { return; }
      SendNibbles(buf, r, data, bits);
    } else {
      SendBits(buf, r, data, bits, done);
    }
  }

  method SendHeader(buf: SendBuffer, r: Remote)
    requires buf.Valid()
    modifies buf, buf.data
    ensures buf.Valid() && buf.State() == Run(old(buf.State()), HeaderHalves(r))
  {
    if r.HasHeader() { SendPair(buf, Pulse(r.phead), Space(r.shead)); }
  }

  method SendFoot(buf: SendBuffer, r: Remote)
    requires buf.Valid()
    modifies buf, buf.data
    ensures buf.Valid() && buf.State() == Run(old(buf.State()), FootHalves(r))
  {
    if r.HasFoot() { SendPair(buf, Space(r.sfoot), Pulse(r.pfoot)); }
  }

  method SendLead(buf: SendBuffer, r: Remote)
    requires buf.Valid()
    modifies buf, buf.data
    ensures buf.Valid() && buf.State() == Run(old(buf.State()), LeadHalves(r))
  {
    if r.plead != 0 {
      RunOne(buf.State(), Pulse(r.plead));
      buf.SendPulse(r.plead);
    }
  }

  method SendTrail(buf: SendBuffer, r: Remote)
    requires buf.Valid()
    modifies buf, buf.data
    ensures buf.Valid() && buf.State() == Run(old(buf.State()), TrailHalves(r))
  {
    if r.ptrail != 0 {
      RunOne(buf.State(), Pulse(r.ptrail));
      buf.SendPulse(r.ptrail);
    }
  }

  method SendPre(buf: SendBuffer, r: Remote)
    requires buf.Valid() && r.BitCount() <= 64
    modifies buf, buf.data
    ensures buf.Valid() && buf.State() == Run(old(buf.State()), PreHalves(r))
  {
    hide Run, DataHalves;
    RunNone(buf.State());
    if r.HasPre() {
      SendData(buf, r, r.preData, r.preDataBits, 0);
      ghost var gapHalves := if r.HasPreGap() then [Pulse(r.preP), Space(r.preS)] else [];
      RunConcat(old(buf.State()), DataHalves(r, r.preData, r.preDataBits, 0), gapHalves);
      RunNone(buf.State());
      if r.preP > 0 && r.preS > 0 { SendPair(buf, Pulse(r.preP), Space(r.preS)); }
    }
  }

  method SendPost(buf: SendBuffer, r: Remote)
    requires buf.Valid() && r.BitCount() <= 64
    modifies buf, buf.data
    ensures buf.Valid() && buf.State() == Run(old(buf.State()), PostHalves(r))
  {
    hide Run, DataHalves;
    RunNone(buf.State());
    if r.HasPost() {
      ghost var gapHalves := if r.HasPostGap() then [Pulse(r.postP), Space(r.postS)] else [];
      RunConcat(old(buf.State()), gapHalves, DataHalves(r, r.postData, r.postDataBits, r.preDataBits + r.bits));
      if r.postP > 0 && r.postS > 0 { SendPair(buf, Pulse(r.postP), Space(r.postS)); }
      SendData(buf, r, r.postData, r.postDataBits, r.preDataBits + r.bits);
    }
  }

  method SendRepeat(buf: SendBuffer, r: Remote)
    requires buf.Valid()
    modifies buf, buf.data
    ensures buf.Valid() && buf.State() == Run(old(buf.State()), RepeatHalves(r))
  {
    RunConcat(buf.State(), LeadHalves(r), [Pulse(r.prepeat), Space(r.srepeat)] + TrailHalves(r));
    SendLead(buf, r);
    RunConcat(buf.State(), [Pulse(r.prepeat), Space(r.srepeat)], TrailHalves(r));
    SendPair(buf, Pulse(r.prepeat), Space(r.srepeat));
    SendTrail(buf, r);
  }

  /** A whole signal: header, lead, pre data, code, post data, trail, foot. */
  method SendCode(buf: SendBuffer, r: Remote, code: Word, repeated: bool)
    requires buf.Valid() && r.BitCount() <= 64
    modifies buf, buf.data
    ensures buf.Valid() && buf.State() == AfterCode(old(buf.State()), r, code, repeated)
  {
    hide Run, DataHalves, HeaderHalves, LeadHalves, PreHalves, PostHalves, TrailHalves, FootHalves;
    ghost var f := if !repeated || !r.noFootRep then FootHalves(r) else [];
    ghost var h := if !repeated || !r.noHeadRep then HeaderHalves(r) else [];
    ghost var t := TrailHalves(r) + f;
    ghost var p := PostHalves(r) + t;
    ghost var d := DataHalves(r, code, r.bits, r.preDataBits) + p;
    ghost var e := PreHalves(r) + d;
    RunNone(buf.State());
    RunConcat(buf.State(), h, LeadHalves(r) + e);
    if !repeated || !r.noHeadRep { SendHeader(buf, r); }
    RunConcat(buf.State(), LeadHalves(r), e);
    SendLead(buf, r);
    RunConcat(buf.State(), PreHalves(r), d);
    SendPre(buf, r);
    RunConcat(buf.State(), DataHalves(r, code, r.bits, r.preDataBits), p);
    SendData(buf, r, code, r.bits, r.preDataBits);
    RunConcat(buf.State(), PostHalves(r), t);
    SendPost(buf, r);
    RunConcat(buf.State(), TrailHalves(r), f);
    SendTrail(buf, r);
    RunNone(buf.State());
    if !repeated || !r.noFootRep { SendFoot(buf, r); }
    assert buf.State() == Run(old(buf.State()), CodeHalves(r, code, repeated));
    if !repeated && r.noHeadRep && r.constLength {
      buf.sum := buf.sum - (r.phead + r.shead);
    }
  }
}
