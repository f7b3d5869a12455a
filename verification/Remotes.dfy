/** The description of one remote control (lib/ir_remote_types.h) and the tests on it
    that lib/ir_remote.h defines. */
module Remotes {
  import opened Words

  /** The protocol part of `flags`; protocols are never combined. */
  datatype Protocol = RawCodes | Rc5 | Rc6 | Rcmm | SpaceEnc | SpaceFirst | Grundig | Bo | Serial | Xmp

  /** Durations are microseconds. `resolution` is the current driver's. */
  datatype Remote = Remote(
    protocol: Protocol, noHeadRep: bool, noFootRep: bool, constLength: bool, repeatHeader: bool,
    bits: nat, eps: nat, aeps: nat, resolution: nat,
    phead: nat, shead: nat, pthree: nat, sthree: nat, ptwo: nat, stwo: nat,
    pone: nat, sone: nat, pzero: nat, szero: nat, plead: nat, ptrail: nat,
    pfoot: nat, sfoot: nat, prepeat: nat, srepeat: nat,
    preDataBits: nat, preData: Word, postDataBits: nat, postData: Word,
    preP: nat, preS: nat, postP: nat, postS: nat,
    gap: nat, gap2: nat, repeatGap: nat,
    toggleBitMask: Word, toggleMask: Word, rc6Mask: Word, repeatMask: Word,
    toggleBitMaskState: Word, toggleMaskState: nat)
  {
    function BitCount(): nat { preDataBits + bits + postDataBits }

    predicate IsBiphase() { protocol.Rc5? || protocol.Rc6? || rc6Mask != ZERO }
    predicate HasRepeat() { prepeat > 0 && srepeat > 0 }
    predicate HasRepeatGap() { repeatGap > 0 }
    predicate HasPre() { preDataBits > 0 }
    predicate HasPost() { postDataBits > 0 }
    predicate HasHeader() { phead > 0 && shead > 0 }
    predicate HasFoot() { pfoot > 0 && sfoot > 0 }
    predicate HasToggleBitMask() { toggleBitMask != ZERO }
    predicate HasToggleMask() { toggleMask != ZERO }
    predicate HasRepeatMask() { repeatMask != ZERO }

    /** A pulse and space stand between the pre data and the code (the code and the post data). */
    predicate HasPreGap() { preP > 0 && preS > 0 }
    predicate HasPostGap() { postP > 0 && postS > 0 }

    function MinGap(): nat { if gap2 != 0 && gap2 < gap then gap2 else gap }
    function MaxGap(): nat { if gap2 > gap then gap2 else gap }

    /** The absolute tolerance: at least the resolution of the driver. */
    function AbsTol(): nat { if resolution > aeps then resolution else aeps }

    predicate Expect(delta: int, exdelta: int) {
      var off := if exdelta >= delta then exdelta - delta else delta - exdelta;
      off <= exdelta * eps / 100 || off <= AbsTol()
    }

    predicate ExpectAtLeast(delta: int, exdelta: int) {
      delta + exdelta * eps / 100 >= exdelta || delta + AbsTol() >= exdelta
    }

    predicate ExpectAtMost(delta: int, exdelta: int) {
      delta <= exdelta + exdelta * eps / 100 || delta <= exdelta + AbsTol()
    }

    /** Bit position, from the least significant end of the whole word, of the bit sent as number `done`. */
    function Pos(done: nat): int { BitCount() - 1 - done }

    /** The bit at a position of a mask that spans the whole word. */
    static predicate Has(mask: Word, pos: int) { 0 <= pos < 64 && mask[pos] }

    predicate Doubled(done: nat) { Has(rc6Mask, Pos(done)) }

    /** gen_ir_code: the transmitted word, pre data first. */
    function GenIrCode(pre: Word, code: Word, post: Word): Word {
      var field := if protocol.RawCodes? then code else And(code, Low(bits));
      Or(Shl(Or(Shl(And(pre, Low(preDataBits)), bits), field), postDataBits), And(post, Low(postDataBits)))
    }
  }

  /** Parts of a signal are there if both their durations are given, data fields if they have bits. */
  lemma PartsThere(r: Remote)
    ensures r.HasHeader() <==> r.phead > 0 && r.shead > 0
    ensures r.HasFoot() <==> r.pfoot > 0 && r.sfoot > 0
    ensures r.HasRepeat() <==> r.prepeat > 0 && r.srepeat > 0
    ensures r.HasPreGap() <==> r.preP > 0 && r.preS > 0
    ensures r.HasPostGap() <==> r.postP > 0 && r.postS > 0
    ensures r.HasPre() <==> r.preDataBits != 0
    ensures r.HasPost() <==> r.postDataBits != 0
    ensures r.IsBiphase() <==> r.protocol == Rc5 || r.protocol == Rc6 || exists i | 0 <= i < 64 :: r.rc6Mask[i]
  {
    assert r.rc6Mask != ZERO ==> exists i | 0 <= i < 64 :: r.rc6Mask[i] by {
      if forall i | 0 <= i < 64 :: !r.rc6Mask[i] { assert r.rc6Mask == ZERO; }
    }
  }

  /** The tolerance is a band around the expected duration: a percentage of it, or an absolute width, or the
      resolution of the driver, whichever is the widest. */
  lemma ExpectIsBand(r: Remote, delta: int, expected: nat)
    ensures r.Expect(delta, expected) <==>
            || expected - expected * r.eps / 100 <= delta <= expected + expected * r.eps / 100
            || expected - r.aeps <= delta <= expected + r.aeps
            || expected - r.resolution <= delta <= expected + r.resolution
  {}

  /** An exact duration always meets its own expectation. */
  lemma ExpectSelf(r: Remote, d: nat)
    ensures r.Expect(d, d) && r.ExpectAtLeast(d, d)
  {}

  /** gen_ir_code concatenates: bit by bit, the word is post data, then code, then pre data. */
  lemma GenIrCodeBits(r: Remote, pre: Word, code: Word, post: Word, i: nat)
    requires i < 64 && !r.protocol.RawCodes?
    ensures r.GenIrCode(pre, code, post)[i] ==
            if i < r.postDataBits then post[i]
            else if i < r.postDataBits + r.bits then code[i - r.postDataBits]
            else i < r.BitCount() && pre[i - r.postDataBits - r.bits]
  {}
}
