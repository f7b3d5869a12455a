/** Toggle masks and regrouping: get_code and map_code of lib/ir_remote.c against send_data. */
module Toggles {
  import opened Words
  import Waveform
  import opened Remotes
  import opened Transmit
  import opened Decoding
  import RoundTrip
  import opened Codec
  import OnAir
  import Tolerances

  // ----- the loop of get_code

  /** A field with the bits of the mask from position `at` on flipped. */
  function Flipped(field: Word, mask: Word, at: nat, width: nat): Word {
    Xor(field, And(Shr(mask, at), Low(width)))
  }

  function FlipAll(r: Remote, pre: Word, code: Word, post: Word): Decoded {
    Decoded(Flipped(pre, r.toggleMask, r.postDataBits + r.bits, r.preDataBits),
            Flipped(code, r.toggleMask, r.postDataBits, r.bits),
            Flipped(post, r.toggleMask, 0, r.postDataBits))
  }

  /** A field of which the flips below mask position `upto` are done. */
  ghost predicate FlippedUpTo(now: Word, before: Word, mask: Word, at: nat, width: nat, upto: nat) {
    forall j | 0 <= j < 64 :: now[j] == (before[j] != (j < width && at + j < upto && at + j < 64 && mask[at + j]))
  }

  datatype Field = PostField | CodeField | PreField

  lemma NothingFlipped(w: Word, mask: Word, at: nat, width: nat)
    ensures FlippedUpTo(w, w, mask, at, width, 0)
  {}

  lemma FlipOne(now: Word, before: Word, mask: Word, at: nat, width: nat, upto: nat)
    requires FlippedUpTo(now, before, mask, at, width, upto)
    requires at <= upto < at + width && upto < 64
    ensures FlippedUpTo(Xor(now, Shl(if mask[upto] then Bit(0) else ZERO, upto - at)), before, mask, at, width,
                        upto + 1)
  {}

  lemma FlipNone(now: Word, before: Word, mask: Word, at: nat, width: nat, upto: nat)
    requires FlippedUpTo(now, before, mask, at, width, upto)
    requires upto < at || at + width <= upto
    ensures FlippedUpTo(now, before, mask, at, width, upto + 1)
  {}

  lemma LowAfter(mask: Word, k: nat)
    requires k < 64
    ensures Shr(mask, 0) == mask && Shr(mask, k)[0] == mask[k]
  {}

  lemma FlippedFully(now: Word, before: Word, mask: Word, at: nat, width: nat, upto: nat)
    requires FlippedUpTo(now, before, mask, at, width, upto) && at + width <= upto
    ensures now == Flipped(before, mask, at, width)
  {}

  /** The toggle loop of get_code: one bit of the mask per round, applied to the field the round
      has reached, which changes from post data to code to pre data on the way. */
  method FlipFields(r: Remote, pre0: Word, code0: Word, post0: Word) returns (pre: Word, code: Word, post: Word)
    requires r.BitCount() <= 64
    ensures Decoded(pre, code, post) == FlipAll(r, pre0, code0, post0)
  {
    pre, code, post := pre0, code0, post0;
    ghost var codeAt, preAt := r.postDataBits, r.postDataBits + r.bits;
    var affected := PostField;
    var mask := r.toggleMask;
    var bit, currentBit := 0, 0;
    hide Xor, Shl, Shr, Bit, Flipped, FlippedUpTo;
    LowAfter(r.toggleMask, 0);
    NothingFlipped(post, r.toggleMask, 0, r.postDataBits);
    NothingFlipped(code, r.toggleMask, codeAt, r.bits);
    NothingFlipped(pre, r.toggleMask, preAt, r.preDataBits);
    while bit < r.BitCount()
      invariant bit <= r.BitCount() && 0 <= currentBit
      invariant mask == Shr(r.toggleMask, bit)
      invariant FlippedUpTo(post, post0, r.toggleMask, 0, r.postDataBits, bit)
      invariant FlippedUpTo(code, code0, r.toggleMask, codeAt, r.bits, bit)
      invariant FlippedUpTo(pre, pre0, r.toggleMask, preAt, r.preDataBits, bit)
      invariant bit <= codeAt ==> affected == PostField && currentBit == bit
      invariant codeAt < bit <= preAt ==> affected == CodeField && currentBit == bit - codeAt
      invariant preAt < bit ==> affected == PreField && currentBit == bit - preAt
      decreases r.BitCount() - bit
    {
      if bit == r.postDataBits {
        affected := CodeField;
        currentBit := 0;
      }
      if bit == r.postDataBits + r.bits {
        affected := PreField;
        currentBit := 0;
      }
      LowAfter(r.toggleMask, bit);
      var maskBit := if mask[0] then Bit(0) else ZERO;
      match affected {
      case PostField =>
        FlipOne(post, post0, r.toggleMask, 0, r.postDataBits, bit);
        FlipNone(code, code0, r.toggleMask, codeAt, r.bits, bit);
        FlipNone(pre, pre0, r.toggleMask, preAt, r.preDataBits, bit);
        post := Xor(post, Shl(maskBit, currentBit));
      case CodeField =>
        FlipNone(post, post0, r.toggleMask, 0, r.postDataBits, bit);
        FlipOne(code, code0, r.toggleMask, codeAt, r.bits, bit);
        FlipNone(pre, pre0, r.toggleMask, preAt, r.preDataBits, bit);
        code := Xor(code, Shl(maskBit, currentBit));
      case PreField =>
        FlipNone(post, post0, r.toggleMask, 0, r.postDataBits, bit);
        FlipNone(code, code0, r.toggleMask, codeAt, r.bits, bit);
        FlipOne(pre, pre0, r.toggleMask, preAt, r.preDataBits, bit);
        pre := Xor(pre, Shl(maskBit, currentBit));
      }
      BitsShift(r.toggleMask, bit, 1);
      mask := Shr(mask, 1);
      bit, currentBit := bit + 1, currentBit + 1;
    }
    FlippedFully(post, post0, r.toggleMask, 0, r.postDataBits, bit);
    FlippedFully(code, code0, r.toggleMask, codeAt, r.bits, bit);
    FlippedFully(pre, pre0, r.toggleMask, preAt, r.preDataBits, bit);
  }

  lemma FlipIsXorAt(r: Remote, pre: Word, code: Word, post: Word, p: Word, c: Word, q: Word, i: nat)
    requires r.BitCount() <= 64 && !r.protocol.RawCodes? && i < 64
    requires p == Flipped(pre, r.toggleMask, r.postDataBits + r.bits, r.preDataBits)
    requires c == Flipped(code, r.toggleMask, r.postDataBits, r.bits)
    requires q == Flipped(post, r.toggleMask, 0, r.postDataBits)
    ensures r.GenIrCode(p, c, q)[i] == (r.GenIrCode(pre, code, post)[i] != (i < r.BitCount() && r.toggleMask[i]))
  {
    hide Flipped, Remote.GenIrCode;
    GenIrCodeBits(r, pre, code, post, i);
    GenIrCodeBits(r, p, c, q, i);
    if i < r.postDataBits {
      FlippedAt(post, r.toggleMask, 0, r.postDataBits, i);
    } else if i < r.postDataBits + r.bits {
      FlippedAt(code, r.toggleMask, r.postDataBits, r.bits, i - r.postDataBits);
    } else if i < r.BitCount() {
      FlippedAt(pre, r.toggleMask, r.postDataBits + r.bits, r.preDataBits, i - r.postDataBits - r.bits);
    }
  }

  lemma FlippedAt(field: Word, mask: Word, at: nat, width: nat, j: nat)
    requires j < width && at + j < 64
    ensures j < 64 && Flipped(field, mask, at, width)[j] == (field[j] != mask[at + j])
  {}

  /** Flipping field by field is one exclusive or on the concatenated word. */
  lemma FlipIsXor(r: Remote, pre: Word, code: Word, post: Word)
    requires r.BitCount() <= 64 && !r.protocol.RawCodes?
    ensures var f := FlipAll(r, pre, code, post);
            r.GenIrCode(f.pre, f.code, f.post) ==
            Xor(r.GenIrCode(pre, code, post), And(r.toggleMask, Low(r.BitCount())))
  {
    var f := FlipAll(r, pre, code, post);
    var a, b := r.GenIrCode(f.pre, f.code, f.post), r.GenIrCode(pre, code, post);
    forall i | 0 <= i < 64 ensures a[i] == (b[i] != (i < r.BitCount() && r.toggleMask[i])) {
      FlipIsXorAt(r, pre, code, post, f.pre, f.code, f.post, i);
    }
    XorBelow(a, b, r.toggleMask, r.BitCount());
  }

  lemma XorBelow(a: Word, b: Word, mask: Word, n: nat)
    requires forall i | 0 <= i < 64 :: a[i] == (b[i] != (i < n && mask[i]))
    ensures a == Xor(b, And(mask, Low(n)))
  {}

  // ----- the sending side

  /** The toggle mask is in its odd state and there is no toggle_bit_mask. */
  predicate OddToggle(r: Remote) {
    !r.HasToggleBitMask() && r.HasToggleMask() && r.toggleMaskState % 2 == 1
  }

  lemma OddSentBit(r: Remote, v: bool, pos: nat)
    requires OddToggle(r) && pos < 64
    ensures SentBit(r, v, pos) == (v != r.toggleMask[pos])
  {}

  /** All bits of a signal, pre data first. */
  function AllSentBits(r: Remote, code: Word): seq<bool>
    requires r.BitCount() <= 64
  {
    SentBits(r, r.preData, r.preDataBits, 0) + SentBits(r, code, r.bits, r.preDataBits)
    + SentBits(r, r.postData, r.postDataBits, r.preDataBits + r.bits)
  }

  /** Bit k of a signal, counted from the first one sent, in terms of the three fields. */
  lemma SentBitAt(r: Remote, code: Word, k: nat)
    requires OddToggle(r) && k < r.BitCount() <= 64
    ensures var i := r.BitCount() - 1 - k;
            AllSentBits(r, code)[k] ==
            ((if i < r.postDataBits then r.postData[i]
              else if i < r.postDataBits + r.bits then code[i - r.postDataBits]
              else r.preData[i - r.postDataBits - r.bits]) != r.toggleMask[i])
  {
    var i := r.BitCount() - 1 - k;
    if k < r.preDataBits {
      OddSentBit(r, r.preData[r.preDataBits - 1 - k], i);
    } else if k < r.preDataBits + r.bits {
      var j := k - r.preDataBits;
      OddSentBit(r, code[r.bits - 1 - j], i);
      assert AllSentBits(r, code)[k] == SentBits(r, code, r.bits, r.preDataBits)[j];
      assert r.Pos(r.preDataBits + j) == i && r.bits - 1 - j == i - r.postDataBits;
    } else {
      var j := k - r.preDataBits - r.bits;
      OddSentBit(r, r.postData[r.postDataBits - 1 - j], i);
      assert AllSentBits(r, code)[k] == SentBits(r, r.postData, r.postDataBits, r.preDataBits + r.bits)[j];
      assert r.Pos(r.preDataBits + r.bits + j) == i && r.postDataBits - 1 - j == i;
    }
  }

  /** In the odd state, the bits sent are those of the concatenated word with the toggle mask
      applied, most significant first. */
  lemma OddStateSendsXor(r: Remote, code: Word)
    requires OddToggle(r) && r.BitCount() <= 64 && !r.protocol.RawCodes?
    ensures AllSentBits(r, code) == ToBits(Xor(r.GenIrCode(r.preData, code, r.postData), r.toggleMask), r.BitCount())
  {
    var n := r.BitCount();
    var g := r.GenIrCode(r.preData, code, r.postData);
    var bs := AllSentBits(r, code);
    forall k | 0 <= k < n ensures bs[k] == (g[n - 1 - k] != r.toggleMask[n - 1 - k]) {
      GenIrCodeBits(r, r.preData, code, r.postData, n - 1 - k);
      SentBitAt(r, code, k);
    }
    BitsOfXor(bs, g, r.toggleMask, n);
  }

  lemma BitsOfXor(bs: seq<bool>, g: Word, mask: Word, n: nat)
    requires |bs| == n <= 64 && forall k | 0 <= k < n :: bs[k] == (g[n - 1 - k] != mask[n - 1 - k])
    ensures bs == ToBits(Xor(g, mask), n)
  {}

  lemma OddField(r: Remote, data: Word, bits: nat, done: nat)
    requires OddToggle(r) && done + bits <= r.BitCount() <= 64
    ensures RoundTrip.SentWord(r, data, bits, done) ==
            Flipped(And(data, Low(bits)), r.toggleMask, r.BitCount() - done - bits, bits)
  {
    var a := RoundTrip.SentWord(r, data, bits, done);
    var b := Flipped(And(data, Low(bits)), r.toggleMask, r.BitCount() - done - bits, bits);
    var bs := SentBits(r, data, bits, done);
    forall j | 0 <= j < 64 ensures a[j] == b[j] {
      if j < bits {
        var i := bits - 1 - j;
        assert a[j] == bs[i] == SentBit(r, data[j], r.Pos(done + i));
        OddSentBit(r, data[j], r.BitCount() - done - bits + j);
      }
    }
    assert a == b;
  }

  lemma FlipTwice(w: Word, mask: Word, at: nat, width: nat)
    ensures Flipped(Flipped(w, mask, at, width), mask, at, width) == w
  {}

  lemma SentFlipsBack(r: Remote, code: Word)
    requires OddToggle(r) && r.BitCount() <= 64
    ensures FlipAll(r, RoundTrip.SentPre(r), RoundTrip.SentCode(r, code), RoundTrip.SentPost(r)) ==
            Tolerances.Plain(r, code)
  {
    OddField(r, r.preData, r.preDataBits, 0);
    OddField(r, code, r.bits, r.preDataBits);
    OddField(r, r.postData, r.postDataBits, r.preDataBits + r.bits);
    FlipTwice(And(r.preData, Low(r.preDataBits)), r.toggleMask, r.postDataBits + r.bits, r.preDataBits);
    FlipTwice(And(code, Low(r.bits)), r.toggleMask, r.postDataBits, r.bits);
    FlipTwice(And(r.postData, Low(r.postDataBits)), r.toggleMask, 0, r.postDataBits);
  }

  /** Sending and receiving cancel: a signal sent in the odd state and received in the odd state
      gives, after the flips of get_code, the fields as they stand in the remote's description. */
  lemma TogglesCancel(r: Remote, code: Word, before: nat, gap: OnAir.Silence)
    requires RoundTrips(r) && OddToggle(r) && Faithful(r, code)
    requires before > 0 && GapSuffices(r, gap, Waveform.Total(Signal(r, code)))
    ensures var d := ReceiveDecode(r, Received(r, code, before, gap));
            d.Decoded? && FlipAll(r, d.pre, d.code, d.post) == Tolerances.Plain(r, code)
  {
    CodecRoundTrip(r, code, before, gap);
    SentFlipsBack(r, code);
  }

  // ----- map_code

  /** A word given as three fields of other widths. */
  function Concatenated(preBits: nat, pre: Word, bits: nat, code: Word, postBits: nat, post: Word): Word {
    Or(Shl(Or(Shl(And(pre, Low(preBits)), bits), And(code, Low(bits))), postBits), And(post, Low(postBits)))
  }

  /** map_code: the word is cut anew at the remote's field boundaries. */
  method MapCode(r: Remote, preBits: nat, pre: Word, bits: nat, code: Word, postBits: nat, post: Word)
    returns (ok: bool, ctx: Decoded)
    requires !r.protocol.RawCodes? && r.BitCount() <= 64
    ensures ok <==> preBits + bits + postBits == r.BitCount()
    ensures ok ==>
              && ctx.Decoded?
              && r.GenIrCode(ctx.pre, ctx.code, ctx.post) == Concatenated(preBits, pre, bits, code, postBits, post)
    ensures ok ==>
              ctx == Decoded(And(ctx.pre, Low(r.preDataBits)), And(ctx.code, Low(r.bits)),
                             And(ctx.post, Low(r.postDataBits)))
  {
    if preBits + bits + postBits != r.preDataBits + r.bits + r.postDataBits {
      return false, Failed;
    }
    var all := And(pre, Low(preBits));
    all := Shl(all, bits);
    all := Or(all, And(code, Low(bits)));
    all := Shl(all, postBits);
    all := Or(all, And(post, Low(postBits)));
    ghost var word := all;

    var ctxPost := And(all, Low(r.postDataBits));
    all := Shr(all, r.postDataBits);
    var ctxCode := And(all, Low(r.bits));
    all := Shr(all, r.bits);
    var ctxPre := And(all, Low(r.preDataBits));
    Recut(r, preBits, pre, bits, code, postBits, post);
    MaskTwice(Shr(Shr(word, r.postDataBits), r.bits), r.preDataBits);
    MaskTwice(Shr(word, r.postDataBits), r.bits);
    MaskTwice(word, r.postDataBits);
    return true, Decoded(ctxPre, ctxCode, ctxPost);
  }

  lemma MaskTwice(w: Word, n: nat)
    ensures And(And(w, Low(n)), Low(n)) == And(w, Low(n))
  {}

  lemma ConcatenatedBits(preBits: nat, pre: Word, bits: nat, code: Word, postBits: nat, post: Word, i: nat)
    requires i < 64
    ensures Concatenated(preBits, pre, bits, code, postBits, post)[i] ==>  i < preBits + bits + postBits
  {}

  lemma Recut(r: Remote, preBits: nat, pre: Word, bits: nat, code: Word, postBits: nat, post: Word)
    requires preBits + bits + postBits == r.BitCount() <= 64 && !r.protocol.RawCodes?
    ensures var w := Concatenated(preBits, pre, bits, code, postBits, post);
            r.GenIrCode(And(Shr(Shr(w, r.postDataBits), r.bits), Low(r.preDataBits)),
                        And(Shr(w, r.postDataBits), Low(r.bits)),
                        And(w, Low(r.postDataBits))) == w
  {
    var w := Concatenated(preBits, pre, bits, code, postBits, post);
    forall i | 0 <= i < 64 && w[i] ensures i < r.BitCount() {
      ConcatenatedBits(preBits, pre, bits, code, postBits, post, i);
    }
    RecutWord(r, w);
  }

  /** Cutting a word that fits and putting it together again. */
  lemma RecutWord(r: Remote, w: Word)
    requires r.BitCount() <= 64 && !r.protocol.RawCodes? && forall i | 0 <= i < 64 && w[i] :: i < r.BitCount()
    ensures r.GenIrCode(And(Shr(Shr(w, r.postDataBits), r.bits), Low(r.preDataBits)),
                        And(Shr(w, r.postDataBits), Low(r.bits)),
                        And(w, Low(r.postDataBits))) == w
  {
    var p, c, q := And(Shr(Shr(w, r.postDataBits), r.bits), Low(r.preDataBits)),
      And(Shr(w, r.postDataBits), Low(r.bits)), And(w, Low(r.postDataBits));
    forall i | 0 <= i < 64 ensures r.GenIrCode(p, c, q)[i] == w[i] {
      GenIrCodeBits(r, p, c, q, i);
    }
    assert r.GenIrCode(p, c, q) == w;
  }
}
