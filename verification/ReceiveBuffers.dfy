/** The receive buffer of lib/receive.c and the decoder on it, step by step. Every routine is proved
    to return what the function of the same name in Decoding returns, and to leave the state
    it says. */
module ReceiveBuffers {
  import opened Options
  import opened Words
  import opened Waveform
  import opened Remotes
  import opened Decoding

  /** What is still to be read brings the loop to its goal. */
  ghost predicate BitsLeft(r: Remote, inp: seq<Half>, s: Rec, code: Word, left: nat, at: nat, goal: Data) {
    GetBits(r, inp, s, code, left, at) == goal
  }

  lemma BitsStep(r: Remote, inp: seq<Half>, s: Rec, code: Word, left: nat, at: nat, goal: Data)
    requires left > 0 && BitsLeft(r, inp, s, code, left, at, goal)
    ensures match ReadBit(r, inp, s, at)
            case NoBit(s') => Data(ONES, s') == goal
            case BitRead(bit, s') =>
              BitsLeft(r, inp, s', Or(Shl(code, 1), if bit then Bit(0) else ZERO), left - 1, at + 1, goal)
  {}

  lemma NoBitsLeft(r: Remote, inp: seq<Half>, s: Rec, code: Word, at: nat)
    ensures GetBits(r, inp, s, code, 0, at) == Data(code, s)
  {}

  lemma NoSymbolsLeft(r: Remote, inp: seq<Half>, s: Rec, code: Word)
    ensures GetSymbols(r, inp, s, code, 0) == Data(code, s)
  {}

  lemma NoNibblesLeft(r: Remote, inp: seq<Half>, s: Rec, code: Word)
    requires r.sone > 0
    ensures GetNibbles(r, inp, s, code, 0) == Data(code, s)
  {}

  ghost predicate SymbolsLeft(r: Remote, inp: seq<Half>, s: Rec, code: Word, left: nat, goal: Data)
  {
    GetSymbols(r, inp, s, code, left) == goal
  }

  ghost predicate NibblesLeft(r: Remote, inp: seq<Half>, s: Rec, code: Word, left: nat, goal: Data)
    requires r.sone > 0
  {
    GetNibbles(r, inp, s, code, left) == goal
  }

  /** A failed bit gives back no more than has been read: of what is read first there is something, and if
      that is a space, the silence in front of the signal is not all that ever comes. */
  predicate GivesBack(r: Remote, input: seq<Half>) {
    || r.IsBiphase()
    || if r.protocol.SpaceFirst? then r.sone > 0 && r.szero > 0 && |input| >= 2 else r.pone > 0
  }

  /** The remotes decoded on the buffer itself. */
  predicate Buffered(r: Remote, input: seq<Half>) {
    Modelled(r) && (r.protocol.Rcmm? || r.protocol.Xmp? || GivesBack(r, input))
  }

  class ReceiveBuffer {
    /** Everything the driver will deliver; once it is exhausted, reading times out. */
    const input: seq<Half>
    /** What has been delivered so far, kept so that it can be read again. */
    const data: array<Half>
    var rptr: int
    var wptr: int
    var tooLong: bool
    var pendingp: int
    var pendings: int
    var sum: int

    /** The items stored are the ones the driver delivered; a duration is never zero. */
    ghost predicate Valid()
      reads this, data
    {
      && data.Length == RBUF_SIZE
      && 0 <= rptr <= wptr <= Limit(input)
      && data[..wptr] == input[..wptr]
      && forall i | 0 <= i < |input| :: input[i].dur > 0
    }

    /** The silence that every signal is preceded by has been seen: what is read back never
        leads in front of it. */
    ghost predicate Started()
      reads this, data
    {
      Valid() && wptr >= 1 && input[0].Space?
    }

    ghost function State(): Rec
      reads this
    {
      Rec(rptr, sum, pendingp, pendings)
    }

    constructor (input: seq<Half>)
      requires forall i | 0 <= i < |input| :: input[i].dur > 0
      ensures Valid() && State() == Rec(0, 0, 0, 0) && this.input == input && wptr == 0
      ensures fresh(data)
    {
      this.input := input;
      data := new Half[RBUF_SIZE](_ => Space(0));
      rptr, wptr, tooLong, pendingp, pendings, sum := 0, 0, false, 0, 0, 0;
    }

    /** get_next_rec_buffer: from the buffer if an item is left there, else from the driver. */
    method GetNext() returns (item: Option<Half>)
      requires Valid()
      modifies this, data
      ensures Valid() && wptr >= old(wptr)
      ensures wptr >= 1 ==> rptr >= 1
      ensures if CanGet(input, old(State())) then
                item == Some(input[old(rptr)]) && State() == Advance(input, old(State()))
              else item == None && State() == old(State())
    {
      if rptr < wptr {
        assert data[rptr] == data[..wptr][rptr] == input[..wptr][rptr];
        sum := sum + data[rptr].dur;
        rptr := rptr + 1;
        return Some(data[rptr - 1]);
      }
      if wptr < RBUF_SIZE {
        if wptr == |input| {
          return None;
        }
        data[wptr] := input[wptr];
        sum := sum + data[rptr].dur;
        wptr := wptr + 1;
        rptr := rptr + 1;
        assert data[..wptr] == input[..wptr];
        return Some(data[rptr - 1]);
      }
      tooLong := true;
      return None;
    }

    method Unget(count: nat)
      requires Valid() && 1 <= count <= 2 && count <= rptr
      modifies this
      ensures Valid() && wptr == old(wptr)
      ensures State() == if count == 1 then Unget1(input, old(State())) else Unget2(input, old(State()))
    {
      assert forall i | 0 <= i < wptr :: data[i] == data[..wptr][i] == input[..wptr][i];
      rptr := rptr - count;
      sum := sum - data[rptr].dur;
      if count == 2 {
        sum := sum - data[rptr + 1].dur;
      }
    }

    method NextPulse() returns (dur: int)
      requires Valid()
      modifies this, data
      ensures Valid() && wptr >= old(wptr) && (wptr >= 1 ==> rptr >= 1)
      ensures old(rptr) >= 1 && |input| >= 2 ==> rptr >= 2
      ensures Got(dur, State()) == GetPulse(input, old(State()))
      ensures dur != 0 ==> rptr >= 1 && input[rptr - 1].Pulse?
    {
      var item := GetNext();
      if item.None? || !item.value.Pulse? {
        return 0;
      }
      dur := item.value.dur;
    }

    method NextSpace() returns (dur: int)
      requires Valid()
      modifies this, data
      ensures Valid() && wptr >= old(wptr) && (wptr >= 1 ==> rptr >= 1)
      ensures old(rptr) >= 1 && |input| >= 2 ==> rptr >= 2
      ensures Got(dur, State()) == GetSpace(input, old(State()))
    {
      var item := GetNext();
      if item.None? || !item.value.Space? {
        return 0;
      }
      dur := item.value.dur;
    }

    method SyncPulse(r: Remote) returns (ok: bool)
      requires Started()
      modifies this, data
      ensures Started() && (old(rptr) >= 1 ==> rptr >= 1) && (!ok ==> rptr >= 1)
      ensures Step(ok, State()) == SyncPendingPulse(r, input, old(State()))
    {
      if pendingp > 0 {
        var deltap := NextPulse();
        if deltap == 0 { return false; }
        if !r.Expect(deltap, pendingp) { return false; }
        pendingp := 0;
      }
      ok := true;
    }

    method SyncSpace(r: Remote) returns (ok: bool)
      requires Started()
      modifies this, data
      ensures Started() && (old(rptr) >= 1 ==> rptr >= 1) && (!ok ==> rptr >= 1)
      ensures Step(ok, State()) == SyncPendingSpace(r, input, old(State()))
    {
      if pendings > 0 {
        var deltas := NextSpace();
        if deltas == 0 { return false; }
        if !r.Expect(deltas, pendings) { return false; }
        pendings := 0;
      }
      ok := true;
    }

    method ExpectedPulse(r: Remote, exdelta: int) returns (ok: bool)
      requires Started()
      modifies this, data
      ensures Started() && rptr >= 1 && (ok || (old(rptr) >= 1 && |input| >= 2) ==> rptr >= 2)
      ensures Step(ok, State()) == ExpectPulse(r, input, old(State()), exdelta)
    {
      var synced := SyncSpace(r);
      if !synced { return false; }
      var deltap := NextPulse();
      if deltap == 0 { return false; }
      if pendingp > 0 {
        if pendingp > deltap { return false; }
        if !r.Expect(deltap - pendingp, exdelta) { return false; }
        pendingp := 0;
        ok := true;
      } else {
        ok := r.Expect(deltap, exdelta);
      }
    }

    method ExpectedSpace(r: Remote, exdelta: int) returns (ok: bool)
      requires Started()
      modifies this, data
      ensures Started() && rptr >= 1 && (old(rptr) >= 2 ==> rptr >= 2)
      ensures Step(ok, State()) == ExpectSpace(r, input, old(State()), exdelta)
    {
      var synced := SyncPulse(r);
      if !synced { return false; }
      var deltas := NextSpace();
      if deltas == 0 { return false; }
      if pendings > 0 {
        if pendings > deltas { return false; }
        if !r.Expect(deltas - pendings, exdelta) { return false; }
        pendings := 0;
        ok := true;
      } else {
        ok := r.Expect(deltas, exdelta);
      }
    }

    method ExpectedOne(r: Remote, at: nat) returns (ok: bool)
      requires Started() && GivesBack(r, input)
      modifies this, data
      ensures Started()
      ensures Step(ok, State()) == ExpectOne(r, input, old(State()), at)
    {
      if r.IsBiphase() {
        // The mask test picks the doubled half bits of RC-6.
        if r.Doubled(at) {
          if r.sone > 0 {
            var space := ExpectedSpace(r, 2 * r.sone);
            if !space { Unget(1); return false; }
          }
          pendingp := 2 * r.pone;
        } else {
          if r.sone > 0 {
            var space := ExpectedSpace(r, r.sone);
            if !space { Unget(1); return false; }
          }
          pendingp := r.pone;
        }
      } else if r.protocol.SpaceFirst? {
        if r.sone > 0 {
          var space := ExpectedSpace(r, r.sone);
          if !space { Unget(1); return false; }
        }
        if r.pone > 0 {
          var pulse := ExpectedPulse(r, r.pone);
          if !pulse { Unget(2); return false; }
        }
      } else {
        if r.pone > 0 {
          var pulse := ExpectedPulse(r, r.pone);
          if !pulse { Unget(1); return false; }
        }
        if r.ptrail > 0 {
          if r.sone > 0 {
            var space := ExpectedSpace(r, r.sone);
            if !space { Unget(2); return false; }
          }
        } else {
          pendings := r.sone;
        }
      }
      ok := true;
    }

    method ExpectedZero(r: Remote, at: nat) returns (ok: bool)
      requires Started() && GivesBack(r, input)
      modifies this, data
      ensures Started()
      ensures Step(ok, State()) == ExpectZero(r, input, old(State()), at)
    {
      if r.IsBiphase() {
        if r.Doubled(at) {
          var pulse := ExpectedPulse(r, 2 * r.pzero);
          if !pulse { Unget(1); return false; }
          pendings := 2 * r.szero;
        } else {
          var pulse := ExpectedPulse(r, r.pzero);
          if !pulse { Unget(1); return false; }
          pendings := r.szero;
        }
      } else if r.protocol.SpaceFirst? {
        if r.szero > 0 {
          var space := ExpectedSpace(r, r.szero);
          if !space { Unget(1); return false; }
        }
        if r.pzero > 0 {
          var pulse := ExpectedPulse(r, r.pzero);
          if !pulse { Unget(2); return false; }
        }
      } else {
        var pulse := ExpectedPulse(r, r.pzero);
        if !pulse { Unget(1); return false; }
        if r.ptrail > 0 {
          var space := ExpectedSpace(r, r.szero);
          if !space { Unget(2); return false; }
        } else {
          pendings := r.szero;
        }
      }
      ok := true;
    }

    /** One bit of get_data: a 1 is tried first. */
    method ReadNextBit(r: Remote, at: nat) returns (ok: bool, bit: bool)
      requires Started() && GivesBack(r, input)
      modifies this, data
      ensures Started()
      ensures ReadBit(r, input, old(State()), at) == if ok then BitRead(bit, State()) else NoBit(State())
    {
      bit := ExpectedOne(r, at);
      if bit { return true, true; }
      ok := ExpectedZero(r, at);
    }

    method ShiftInBit(r: Remote, code: Word, at: nat, ghost left: nat, ghost goal: Data) returns (code': Word, ok: bool)
      requires Started() && GivesBack(r, input)
      requires left > 0 && BitsLeft(r, input, State(), code, left, at, goal)
      modifies this, data
      ensures Started()
      ensures if ok then BitsLeft(r, input, State(), code', left - 1, at + 1, goal) else Data(ONES, State()) == goal
    {
      BitsStep(r, input, State(), code, left, at, goal);
      var bit;
      ok, bit := ReadNextBit(r, at);
      code' := Or(Shl(code, 1), if bit then Bit(0) else ZERO);
    }

    /** The bit loop of get_data. */
    method ReadBits(r: Remote, bits: nat, done: nat) returns (code: Word)
      requires Started() && GivesBack(r, input)
      modifies this, data
      ensures Started()
      ensures Data(code, State()) == GetBits(r, input, old(State()), ZERO, bits, done)
    {
      hide GetBits;
      code := ZERO;
      ghost var goal := GetBits(r, input, State(), ZERO, bits, done);
      ghost var left := bits;
      var i, at := 0, done;
      while i < bits
        invariant left == bits - i && at == done + i && Started()
        invariant BitsLeft(r, input, State(), code, left, at, goal)
      {
        var ok;
        code, ok := ShiftInBit(r, code, at, left, goal);
        if !ok { return ONES; }
        i, at, left := i + 1, at + 1, left - 1;
      }
      NoBitsLeft(r, input, State(), code, at);
    }

    /** One RC-MM symbol: two bits from the length of a pulse and space together. */
    method ReadNextSymbol(r: Remote) returns (v: int)
      requires Started()
      modifies this, data
      ensures Started()
      ensures SymbolRead(v, State()) == NextSymbol(r, input, old(State()))
    {
      var deltap := NextPulse();
      var deltas := NextSpace();
      if deltap == 0 || deltas == 0 { return -1; }
      var sum := deltap + deltas;
      if r.Expect(sum, r.pzero + r.szero) {
        v := 0;
      } else if r.Expect(sum, r.pone + r.sone) {
        v := 1;
      } else if r.Expect(sum, r.ptwo + r.stwo) {
        v := 2;
      } else if r.Expect(sum, r.pthree + r.sthree) {
        v := 3;
      } else {
        v := -1;
      }
    }

    method ShiftInSymbol(r: Remote, code: Word, ghost left: nat, ghost goal: Data) returns (code': Word, ok: bool)
      requires Started() && left > 0 && SymbolsLeft(r, input, State(), code, left, goal)
      modifies this, data
      ensures Started()
      ensures if ok then SymbolsLeft(r, input, State(), code', left - 1, goal) else Data(ONES, State()) == goal
    {
      var v := ReadNextSymbol(r);
      ok := v >= 0;
      code' := Or(Shl(code, 2), if ok then FromBits(SymbolBits(v)) else ZERO);
    }

    method ReadSymbols(r: Remote, bits: nat) returns (code: Word)
      requires Started() && bits % 2 == 0
      modifies this, data
      ensures Started()
      ensures Data(code, State()) == GetSymbols(r, input, old(State()), ZERO, bits / 2)
    {
      hide GetSymbols;
      code := ZERO;
      ghost var left := bits / 2;
      ghost var goal := GetSymbols(r, input, State(), ZERO, left);
      var i := 0;
      while i < bits
        invariant 0 <= left && 2 * left == bits - i && Started()
        invariant SymbolsLeft(r, input, State(), code, left, goal)
      {
        var ok;
        code, ok := ShiftInSymbol(r, code, left, goal);
        if !ok { return ONES; }
        i, left := i + 2, left - 1;
      }
      NoSymbolsLeft(r, input, State(), code);
    }

    /** One XMP nibble: four bits from the length of a pulse and space together. */
    method ReadNextNibble(r: Remote) returns (n: int)
      requires Started() && r.sone > 0
      modifies this, data
      ensures Started()
      ensures SymbolRead(n, State()) == NextNibble(r, input, old(State()))
    {
      var deltap := NextPulse();
      var deltas := NextSpace();
      if deltap == 0 || deltas == 0 { return -1; }
      var sum := deltap + deltas;
      sum := sum - (r.pzero + r.szero);
      n := TruncDiv(sum + r.sone / 2, r.sone);
      // n is unsigned in the source, so a negative value is beyond 16 as well.
      if n < 0 || n >= 16 { return -1; }
    }

    method ShiftInNibble(r: Remote, code: Word, ghost left: nat, ghost goal: Data) returns (code': Word, ok: bool)
      requires r.sone > 0
      requires Started() && left > 0 && NibblesLeft(r, input, State(), code, left, goal)
      modifies this, data
      ensures Started()
      ensures if ok then NibblesLeft(r, input, State(), code', left - 1, goal) else Data(ONES, State()) == goal
    {
      var n := ReadNextNibble(r);
      ok := n >= 0;
      code' := Or(Shl(code, 4), if ok then FromBits(NibbleBits(n)) else ZERO);
    }

    method ReadNibbles(r: Remote, bits: nat) returns (code: Word)
      requires Started() && bits % 4 == 0 && r.sone > 0
      modifies this, data
      ensures Started()
      ensures Data(code, State()) == GetNibbles(r, input, old(State()), ZERO, bits / 4)
    {
      hide GetNibbles;
      code := ZERO;
      ghost var left := bits / 4;
      ghost var goal := GetNibbles(r, input, State(), ZERO, left);
      var i := 0;
      while i < bits
        invariant 0 <= left && 4 * left == bits - i && Started()
        invariant NibblesLeft(r, input, State(), code, left, goal)
      {
        var ok;
        code, ok := ShiftInNibble(r, code, left, goal);
        if !ok { return ONES; }
        i, left := i + 4, left - 1;
      }
      NoNibblesLeft(r, input, State(), code);
    }

    method ReadData(r: Remote, bits: nat, done: nat) returns (code: Word)
      requires Started() && Buffered(r, input)
      modifies this, data
      ensures Started()
      ensures Data(code, State()) == GetData(r, input, old(State()), bits, done)
    {
      if r.protocol.Rcmm? {
        if bits % 2 != 0 || done % 2 != 0 { return ONES; }
        var synced := SyncSpace(r);
        if !synced { return ZERO; }
        code := ReadSymbols(r, bits);
      } else if r.protocol.Xmp? {
        if bits % 4 != 0 || done % 4 != 0 { return ONES; }
        var synced := SyncSpace(r);
        if !synced { return ZERO; }
        code := ReadNibbles(r, bits);
      } else {
        code := ReadBits(r, bits, done);
      }
    }

    method ReadHeader(r: Remote) returns (ok: bool)
      requires Started()
      modifies this, data
      ensures Started()
      ensures Step(ok, State()) == GetHeader(r, input, old(State()))
    {
      hide SyncPendingSpace, Remote.Expect;
      if r.protocol.Rcmm? {
        var deltap := NextPulse();
        if deltap == 0 { Unget(1); return false; }
        var deltas := NextSpace();
        if deltas == 0 { Unget(2); return false; }
        if r.Expect(deltap + deltas, r.phead + r.shead) { return true; }
        Unget(2);
        return false;
      }
      if r.shead == 0 {
        var synced := SyncSpace(r);
        if !synced { return false; }
        pendingp := r.phead;
        return true;
      }
      var pulse := ExpectedPulse(r, r.phead);
      if !pulse { Unget(1); return false; }
      if r.noHeadRep {
        var deltas := NextSpace();
        if deltas != 0 {
          if r.Expect(r.shead, deltas) { return true; }
          Unget(2);
          return false;
        }
      }
      pendings := r.shead;
      ok := true;
    }

    method ReadLead(r: Remote) returns (ok: bool)
      requires Started()
      modifies this, data
      ensures Started()
      ensures Step(ok, State()) == GetLead(r, input, old(State()))
    {
      if r.plead == 0 { return true; }
      var synced := SyncSpace(r);
      if !synced { return false; }
      pendingp := r.plead;
      ok := true;
    }

    method ReadTrail(r: Remote) returns (ok: bool)
      requires Started()
      modifies this, data
      ensures Started()
      ensures Step(ok, State()) == GetTrail(r, input, old(State()))
    {
      if r.ptrail != 0 {
        var pulse := ExpectedPulse(r, r.ptrail);
        if !pulse { return false; }
      }
      if pendingp > 0 {
        var synced := SyncPulse(r);
        if !synced { return false; }
      }
      ok := true;
    }

    method ReadFoot(r: Remote) returns (ok: bool)
      requires Started()
      modifies this, data
      ensures Started()
      ensures Step(ok, State()) == GetFoot(r, input, old(State()))
    {
      var space := ExpectedSpace(r, r.sfoot);
      if !space { return false; }
      ok := ExpectedPulse(r, r.pfoot);
    }

    method ReadGap(r: Remote, gap: int) returns (ok: bool)
      requires Started()
      modifies this, data
      ensures Started()
      ensures Step(ok, State()) == GetGap(r, input, old(State()), gap)
    {
      var item := GetNext();
      if item.None? { return true; }
      if !item.value.Space? { return false; }
      Unget(1);
      ok := r.ExpectAtLeast(item.value.dur, gap);
    }

    /** The gap test that ends receive_decode. */
    method ReadGapAfter(r: Remote) returns (ok: bool)
      requires Started()
      modifies this, data
      ensures Started()
      ensures Step(ok, State()) == GetGap(r, input, old(State()), GapNeeded(r, old(sum)))
    {
      if r.protocol.Rcmm? {
        ok := ReadGap(r, 1000);
      } else if r.constLength {
        ok := ReadGap(r, if r.MinGap() > sum then r.MinGap() - sum else 0);
      } else {
        ok := ReadGap(r, r.MinGap());
      }
    }

    method ReadPre(r: Remote) returns (pre: Word)
      requires Started() && Buffered(r, input)
      modifies this, data
      ensures Started()
      ensures Data(pre, State()) == GetPre(r, input, old(State()))
    {
      hide GetData, ExpectPulse;
      pre := ReadData(r, r.preDataBits, 0);
      if pre == ONES { return; }
      if r.preP > 0 && r.preS > 0 {
        var pulse := ExpectedPulse(r, r.preP);
        if !pulse { return ONES; }
        pendings := r.preS;
      }
    }

    method ReadPost(r: Remote) returns (post: Word)
      requires Started() && Buffered(r, input)
      modifies this, data
      ensures Started()
      ensures Data(post, State()) == GetPost(r, input, old(State()))
    {
      hide GetData, ExpectPulse;
      if r.postP > 0 && r.postS > 0 {
        var pulse := ExpectedPulse(r, r.postP);
        if !pulse { return ONES; }
        pendings := r.postS;
        post := ReadData(r, r.postDataBits, r.preDataBits + r.bits);
      } else {
        post := ReadData(r, r.postDataBits, r.preDataBits + r.bits);
      }
    }

    method ReadFields(r: Remote) returns (ok: bool, pre: Word, code: Word, post: Word)
      requires Started() && Buffered(r, input)
      modifies this, data
      ensures Started()
      ensures DecodeFields(r, input, old(State())) ==
              if ok then Fields(pre, code, post, State()) else NoFields(State())
    {
      ok, pre, code, post := false, ZERO, ZERO, ZERO;
      assert ZERO != ONES by { assert !ZERO[0] && ONES[0]; }
      if r.HasPre() {
        pre := ReadPre(r);
        if pre == ONES { return; }
      }
      code := ReadData(r, r.bits, r.preDataBits);
      if code == ONES { return; }
      if r.HasPost() {
        post := ReadPost(r);
        if post == ONES { return; }
      }
      ok := true;
    }

    method ReadEnd(r: Remote, header: bool) returns (ok: bool)
      requires Started()
      modifies this, data
      ensures Started()
      ensures Step(ok, State()) == DecodeEnd(r, input, old(State()), header)
    {
      hide GetTrail, GetFoot, GetGap, GapNeeded;
      ok := ReadTrail(r);
      if !ok { return; }
      if r.HasFoot() {
        ok := ReadFoot(r);
        if !ok { return; }
      }
      if header && r.constLength && r.noHeadRep {
        sum := sum - (r.phead + r.shead);
      }
      ok := ReadGapAfter(r);
    }

    /** receive_decode, with nothing received before. */
    method Decode(r: Remote) returns (result: Decoded)
      requires Valid() && Buffered(r, input)
      modifies this, data
      ensures Valid() && result == ReceiveDecode(r, input)
    {
      rptr, tooLong, pendingp, pendings, sum := 0, false, 0, 0, 0;
      var sync := NextSpace();
      if sync == 0 { return Failed; }
      sum := 0;
      var header := false;
      if r.HasHeader() {
        header := ReadHeader(r);
        if !header && !(r.noHeadRep && r.ExpectAtMost(sync, r.MaxGap())) {
          return Failed;
        }
      }
      var lead := ReadLead(r);
      if !lead { return Failed; }
      var fields, pre, code, post := ReadFields(r);
      if !fields { return Failed; }
      var end := ReadEnd(r, header);
      if !end { return Failed; }
      return Decoded(pre, code, post);
    }
  }
}
