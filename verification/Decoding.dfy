/** The decoder of lib/receive.c as functions on the receive buffer's state: what each of its
    routines returns and the state it leaves behind, also when it fails.

    `inp` is everything the driver will ever deliver; reading past it is a timeout. */
module Decoding {
  import opened Words
  import opened Waveform
  import opened Remotes

  const RBUF_SIZE: nat := 512

  /** The read position, the running sum since the last sync and the two pending halves. */
  datatype Rec = Rec(rptr: int, sum: int, pendingp: int, pendings: int)

  /** A routine's truth value and the state afterwards. */
  datatype Step = Step(ok: bool, s: Rec)

  /** A duration read (0 for none) and the state afterwards. */
  datatype Got = Got(dur: int, s: Rec)

  /** A data field read (ONES for failure) and the state afterwards. */
  datatype Data = Data(code: Word, s: Rec)

  datatype Decoded = Failed | Decoded(pre: Word, code: Word, post: Word)

  /** The protocols whose decoder is modelled. */
  predicate Modelled(r: Remote) {
    match r.protocol
    case Rc5 | Rc6 | Rcmm | SpaceFirst => true
    case SpaceEnc => r.pone > 0
    case Xmp => r.sone > 0
    case _ => false
  }

  function Limit(inp: seq<Half>): nat {
    if |inp| < RBUF_SIZE then |inp| else RBUF_SIZE
  }

  predicate CanGet(inp: seq<Half>, s: Rec) {
    0 <= s.rptr < Limit(inp)
  }

  function DurAt(inp: seq<Half>, i: int): int {
    if 0 <= i < |inp| then inp[i].dur else 0
  }

  function Advance(inp: seq<Half>, s: Rec): Rec {
    s.(rptr := s.rptr + 1, sum := s.sum + DurAt(inp, s.rptr))
  }

  /** unget_rec_buffer for one or two items. */
  function Unget1(inp: seq<Half>, s: Rec): Rec {
    s.(rptr := s.rptr - 1, sum := s.sum - DurAt(inp, s.rptr - 1))
  }

  function Unget2(inp: seq<Half>, s: Rec): Rec {
    s.(rptr := s.rptr - 2, sum := s.sum - DurAt(inp, s.rptr - 2) - DurAt(inp, s.rptr - 1))
  }

  /** Reading an item of the other kind consumes it all the same. */
  function GetPulse(inp: seq<Half>, s: Rec): Got {
    if !CanGet(inp, s) then Got(0, s)
    else Got(if inp[s.rptr].Pulse? then inp[s.rptr].dur else 0, Advance(inp, s))
  }

  function GetSpace(inp: seq<Half>, s: Rec): Got {
    if !CanGet(inp, s) then Got(0, s)
    else Got(if inp[s.rptr].Space? then inp[s.rptr].dur else 0, Advance(inp, s))
  }

  function SyncPendingPulse(r: Remote, inp: seq<Half>, s: Rec): Step {
    if s.pendingp > 0 then
      var g := GetPulse(inp, s);
      if g.dur == 0 || !r.Expect(g.dur, s.pendingp) then Step(false, g.s) else Step(true, g.s.(pendingp := 0))
    else Step(true, s)
  }

  function SyncPendingSpace(r: Remote, inp: seq<Half>, s: Rec): Step {
    if s.pendings > 0 then
      var g := GetSpace(inp, s);
      if g.dur == 0 || !r.Expect(g.dur, s.pendings) then Step(false, g.s) else Step(true, g.s.(pendings := 0))
    else Step(true, s)
  }

  function ExpectPulse(r: Remote, inp: seq<Half>, s: Rec, exdelta: int): Step {
    var y := SyncPendingSpace(r, inp, s);
    if !y.ok then y
    else
      var g := GetPulse(inp, y.s);
      if g.dur == 0 then Step(false, g.s)
      else if g.s.pendingp > 0 then
        if g.s.pendingp > g.dur || !r.Expect(g.dur - g.s.pendingp, exdelta) then Step(false, g.s)
        else Step(true, g.s.(pendingp := 0))
      else Step(r.Expect(g.dur, exdelta), g.s)
  }

  function ExpectSpace(r: Remote, inp: seq<Half>, s: Rec, exdelta: int): Step {
    var y := SyncPendingPulse(r, inp, s);
    if !y.ok then y
    else
      var g := GetSpace(inp, y.s);
      if g.dur == 0 then Step(false, g.s)
      else if g.s.pendings > 0 then
        if g.s.pendings > g.dur || !r.Expect(g.dur - g.s.pendings, exdelta) then Step(false, g.s)
        else Step(true, g.s.(pendings := 0))
      else Step(r.Expect(g.dur, exdelta), g.s)
  }

  /** The length of a biphase half bit: RC-6 doubles the bits of its mask. */
  function HalfBit(r: Remote, dur: nat, at: nat): nat {
    if r.Doubled(at) then 2 * dur else dur
  }

  function ExpectOne(r: Remote, inp: seq<Half>, s: Rec, at: nat): Step {
    if r.IsBiphase() then
      var q := if r.sone > 0 then ExpectSpace(r, inp, s, HalfBit(r, r.sone, at)) else Step(true, s);
      if !q.ok then Step(false, Unget1(inp, q.s))
      else Step(true, q.s.(pendingp := HalfBit(r, r.pone, at)))
    else if r.protocol.SpaceFirst? then
      var q := if r.sone > 0 then ExpectSpace(r, inp, s, r.sone) else Step(true, s);
      if !q.ok then Step(false, Unget1(inp, q.s))
      else
        var p := if r.pone > 0 then ExpectPulse(r, inp, q.s, r.pone) else q;
        if !p.ok then Step(false, Unget2(inp, p.s)) else p
    else
      var p := if r.pone > 0 then ExpectPulse(r, inp, s, r.pone) else Step(true, s);
      if !p.ok then Step(false, Unget1(inp, p.s))
      else if r.ptrail > 0 then
        var q := if r.sone > 0 then ExpectSpace(r, inp, p.s, r.sone) else p;
        if !q.ok then Step(false, Unget2(inp, q.s)) else q
      else Step(true, p.s.(pendings := r.sone))
  }

  function ExpectZero(r: Remote, inp: seq<Half>, s: Rec, at: nat): Step {
    if r.IsBiphase() then
      var p := ExpectPulse(r, inp, s, HalfBit(r, r.pzero, at));
      if !p.ok then Step(false, Unget1(inp, p.s))
      else Step(true, p.s.(pendings := HalfBit(r, r.szero, at)))
    else if r.protocol.SpaceFirst? then
      var q := if r.szero > 0 then ExpectSpace(r, inp, s, r.szero) else Step(true, s);
      if !q.ok then Step(false, Unget1(inp, q.s))
      else
        var p := if r.pzero > 0 then ExpectPulse(r, inp, q.s, r.pzero) else q;
        if !p.ok then Step(false, Unget2(inp, p.s)) else p
    else
      var p := ExpectPulse(r, inp, s, r.pzero);
      if !p.ok then Step(false, Unget1(inp, p.s))
      else if r.ptrail > 0 then
        var q := ExpectSpace(r, inp, p.s, r.szero);
        if !q.ok then Step(false, Unget2(inp, q.s)) else q
      else Step(true, p.s.(pendings := r.szero))
  }

  /** One bit: 1 is tried first, then 0 from the state the failed try leaves. */
  datatype BitRead = NoBit(s: Rec) | BitRead(bit: bool, s: Rec)

  function ReadBit(r: Remote, inp: seq<Half>, s: Rec, at: nat): BitRead {
    var one := ExpectOne(r, inp, s, at);
    if one.ok then BitRead(true, one.s)
    else
      var zero := ExpectZero(r, inp, one.s, at);
      if zero.ok then BitRead(false, zero.s) else NoBit(zero.s)
  }

  /** n more bits, the first of them number `at` of the whole word. */
  function GetBits(r: Remote, inp: seq<Half>, s: Rec, code: Word, n: nat, at: nat): Data
    decreases n
  {
    if n == 0 then Data(code, s)
    else
      match ReadBit(r, inp, s, at)
      case NoBit(s') => Data(ONES, s')
      case BitRead(bit, s') => GetBits(r, inp, s', Or(Shl(code, 1), if bit then Bit(0) else ZERO), n - 1, at + 1)
  }

  /** The RC-MM symbol a pulse and space together are taken for, the smallest that matches. */
  function SymbolFor(r: Remote, sum: int): (v: int)
    ensures -1 <= v < 4
  {
    if r.Expect(sum, r.pzero + r.szero) then 0
    else if r.Expect(sum, r.pone + r.sone) then 1
    else if r.Expect(sum, r.ptwo + r.stwo) then 2
    else if r.Expect(sum, r.pthree + r.sthree) then 3
    else -1
  }

  function SymbolBits(v: int): (bs: seq<bool>)
    ensures |bs| == 2
  {
    [v / 2 == 1, v % 2 == 1]
  }

  /** A symbol's value, -1 for failure, and the state afterwards. */
  datatype SymbolRead = SymbolRead(v: int, s: Rec)

  function NextSymbol(r: Remote, inp: seq<Half>, s: Rec): (y: SymbolRead)
    ensures -1 <= y.v < 4
  {
    var p := GetPulse(inp, s);
    var q := GetSpace(inp, p.s);
    SymbolRead(if p.dur == 0 || q.dur == 0 then -1 else SymbolFor(r, p.dur + q.dur), q.s)
  }

  /** n more symbols. */
  function GetSymbols(r: Remote, inp: seq<Half>, s: Rec, code: Word, n: nat): Data
    decreases n
  {
    if n == 0 then Data(code, s)
    else
      var y := NextSymbol(r, inp, s);
      if y.v < 0 then Data(ONES, y.s)
      else GetSymbols(r, inp, y.s, Or(Shl(code, 2), FromBits(SymbolBits(y.v))), n - 1)
  }

  /** Division as C does it: towards zero. */
  function TruncDiv(a: int, b: int): int
    requires b > 0
  {
    if a >= 0 then a / b else -(-a / b)
  }

  /** The XMP nibble for a pulse and space of a given total length; the result is unsigned in
      the source, so a negative one is too large as well. */
  function NibbleFor(r: Remote, sum: int): (n: int)
    requires r.sone > 0
    ensures -1 <= n < 16
  {
    var n := TruncDiv(sum - (r.pzero + r.szero) + r.sone / 2, r.sone);
    if n < 0 || n >= 16 then -1 else n
  }

  function NibbleBits(n: int): (bs: seq<bool>)
    requires 0 <= n < 16
    ensures |bs| == 4
  {
    [n / 8 == 1, n / 4 % 2 == 1, n / 2 % 2 == 1, n % 2 == 1]
  }

  function NextNibble(r: Remote, inp: seq<Half>, s: Rec): (y: SymbolRead)
    requires r.sone > 0
    ensures -1 <= y.v < 16
  {
    var p := GetPulse(inp, s);
    var q := GetSpace(inp, p.s);
    SymbolRead(if p.dur == 0 || q.dur == 0 then -1 else NibbleFor(r, p.dur + q.dur), q.s)
  }

  /** n more nibbles. */
  function GetNibbles(r: Remote, inp: seq<Half>, s: Rec, code: Word, n: nat): Data
    requires r.sone > 0
    decreases n
  {
    if n == 0 then Data(code, s)
    else
      var y := NextNibble(r, inp, s);
      if y.v < 0 then Data(ONES, y.s)
      else GetNibbles(r, inp, y.s, Or(Shl(code, 4), FromBits(NibbleBits(y.v))), n - 1)
  }

  function GetData(r: Remote, inp: seq<Half>, s: Rec, bits: nat, done: nat): Data
    requires Modelled(r)
  {
    if r.protocol.Rcmm? then
      if bits % 2 != 0 || done % 2 != 0 then Data(ONES, s)
      else
        var y := SyncPendingSpace(r, inp, s);
        if !y.ok then Data(ZERO, y.s) else GetSymbols(r, inp, y.s, ZERO, bits / 2)
    else if r.protocol.Xmp? then
      if bits % 4 != 0 || done % 4 != 0 then Data(ONES, s)
      else
        var y := SyncPendingSpace(r, inp, s);
        if !y.ok then Data(ZERO, y.s) else GetNibbles(r, inp, y.s, ZERO, bits / 4)
    else GetBits(r, inp, s, ZERO, bits, done)
  }

  function GetHeader(r: Remote, inp: seq<Half>, s: Rec): Step {
    if r.protocol.Rcmm? then
      var p := GetPulse(inp, s);
      if p.dur == 0 then Step(false, Unget1(inp, p.s))
      else
        var q := GetSpace(inp, p.s);
        if q.dur != 0 && r.Expect(p.dur + q.dur, r.phead + r.shead) then Step(true, q.s)
        else Step(false, Unget2(inp, q.s))
    else if r.shead == 0 then
      var y := SyncPendingSpace(r, inp, s);
      if !y.ok then y else Step(true, y.s.(pendingp := r.phead))
    else
      var p := ExpectPulse(r, inp, s, r.phead);
      if !p.ok then Step(false, Unget1(inp, p.s))
      else
        var q := GetSpace(inp, p.s);
        if r.noHeadRep && q.dur != 0 then
          if r.Expect(r.shead, q.dur) then Step(true, q.s) else Step(false, Unget2(inp, q.s))
        else Step(true, (if r.noHeadRep then q.s else p.s).(pendings := r.shead))
  }

  function GetLead(r: Remote, inp: seq<Half>, s: Rec): Step {
    if r.plead == 0 then Step(true, s)
    else
      var y := SyncPendingSpace(r, inp, s);
      if !y.ok then y else Step(true, y.s.(pendingp := r.plead))
  }

  function GetTrail(r: Remote, inp: seq<Half>, s: Rec): Step {
    var p := if r.ptrail != 0 then ExpectPulse(r, inp, s, r.ptrail) else Step(true, s);
    if !p.ok then p else SyncPendingPulse(r, inp, p.s)
  }

  function GetFoot(r: Remote, inp: seq<Half>, s: Rec): Step {
    var q := ExpectSpace(r, inp, s, r.sfoot);
    if !q.ok then q else ExpectPulse(r, inp, q.s, r.pfoot)
  }

  function GetGap(r: Remote, inp: seq<Half>, s: Rec, gap: int): Step {
    if !CanGet(inp, s) then Step(true, s)
    else if !inp[s.rptr].Space? then Step(false, Advance(inp, s))
    else Step(r.ExpectAtLeast(inp[s.rptr].dur, gap), s)
  }

  function GetPre(r: Remote, inp: seq<Half>, s: Rec): Data
    requires Modelled(r)
  {
    var d := GetData(r, inp, s, r.preDataBits, 0);
    if d.code == ONES then d
    else if r.HasPreGap() then
      var p := ExpectPulse(r, inp, d.s, r.preP);
      if !p.ok then Data(ONES, p.s) else Data(d.code, p.s.(pendings := r.preS))
    else d
  }

  function GetPost(r: Remote, inp: seq<Half>, s: Rec): Data
    requires Modelled(r)
  {
    if r.HasPostGap() then
      var p := ExpectPulse(r, inp, s, r.postP);
      if !p.ok then Data(ONES, p.s)
      else GetData(r, inp, p.s.(pendings := r.postS), r.postDataBits, r.preDataBits + r.bits)
    else GetData(r, inp, s, r.postDataBits, r.preDataBits + r.bits)
  }

  /** The gap a signal must be followed by, given what the buffer has summed up. */
  function GapNeeded(r: Remote, sum: int): int {
    if r.protocol.Rcmm? then 1000
    else if r.constLength then (if r.MinGap() > sum then r.MinGap() - sum else 0)
    else r.MinGap()
  }

  /** The part of receive_decode from the trailing pulse on. */
  function DecodeEnd(r: Remote, inp: seq<Half>, s: Rec, header: bool): Step {
    var t := GetTrail(r, inp, s);
    if !t.ok then t
    else
      var f := if r.HasFoot() then GetFoot(r, inp, t.s) else t;
      if !f.ok then f
      else
        var s := if header && r.constLength && r.noHeadRep then f.s.(sum := f.s.sum - (r.phead + r.shead)) else f.s;
        GetGap(r, inp, s, GapNeeded(r, s.sum))
  }

  /** The three data fields. */
  datatype Fields = NoFields(s: Rec) | Fields(pre: Word, code: Word, post: Word, s: Rec)

  function DecodeFields(r: Remote, inp: seq<Half>, s: Rec): Fields
    requires Modelled(r)
  {
    var pre := if r.HasPre() then GetPre(r, inp, s) else Data(ZERO, s);
    if pre.code == ONES then NoFields(pre.s)
    else
      var code := GetData(r, inp, pre.s, r.bits, r.preDataBits);
      if code.code == ONES then NoFields(code.s)
      else
        var post := if r.HasPost() then GetPost(r, inp, code.s) else Data(ZERO, code.s);
        if post.code == ONES then NoFields(post.s) else Fields(pre.code, code.code, post.code, post.s)
  }

  /** receive_decode for a driver that delivers pulses and spaces, when nothing has been received
      before (last_remote is NULL). */
  function ReceiveDecode(r: Remote, inp: seq<Half>): Decoded
    requires Modelled(r)
  {
    var sync := GetSpace(inp, Rec(0, 0, 0, 0));
    if sync.dur == 0 then Failed
    else
      var s := sync.s.(sum := 0);
      var h := if r.HasHeader() then GetHeader(r, inp, s) else Step(false, s);
      if r.HasHeader() && !h.ok && !(r.noHeadRep && r.ExpectAtMost(sync.dur, r.MaxGap())) then Failed
      else
        var l := GetLead(r, inp, h.s);
        if !l.ok then Failed
        else
          var f := DecodeFields(r, inp, l.s);
          if f.NoFields? then Failed
          else if !DecodeEnd(r, inp, f.s, h.ok).ok then Failed
          else Decoded(f.pre, f.code, f.post)
  }
}
