/** 64-bit words, the `ir_code` of the source, and the bit helpers of lib/ir_remote.h.

    A word is the sequence of its 64 bits, least significant first, so that shifting,
    masking and the loss of the bits shifted out are stated bit by bit. */
module Words {
  type Word = w: seq<bool> | |w| == 64 witness seq(64, _ => false)

  const ZERO: Word := Low(0)

  /** `(ir_code)-1` */
  const ONES: Word := Low(64)

  function And(a: Word, b: Word): Word {
    seq(64, i requires 0 <= i < 64 => a[i] && b[i])
  }

  function Or(a: Word, b: Word): Word {
    seq(64, i requires 0 <= i < 64 => a[i] || b[i])
  }

  function Xor(a: Word, b: Word): Word {
    seq(64, i requires 0 <= i < 64 => a[i] != b[i])
  }

  function Not(a: Word): Word {
    seq(64, i requires 0 <= i < 64 => !a[i])
  }

  function Shl(a: Word, k: nat): Word {
    seq(64, i requires 0 <= i < 64 => k <= i && a[i - k])
  }

  function Shr(a: Word, k: nat): Word {
    seq(64, i requires 0 <= i < 64 => i + k < 64 && a[i + k])
  }

  /** `((ir_code)1) << k`. A shift count outside 0..63 is undefined in C and gives ZERO here;
      the source evaluates such a shift only when the mask is not used afterwards. */
  function Bit(k: int): Word {
    seq(64, i requires 0 <= i < 64 => i == k)
  }

  /** The word whose low n bits are set. */
  function Low(n: int): Word {
    seq(64, i requires 0 <= i < 64 => i < n)
  }

  /** The low `bits` bits of a word in opposite order. */
  function Reversed(data: Word, bits: nat): Word {
    seq(64, j requires 0 <= j < 64 => j < bits && bits - 1 - j < 64 && data[bits - 1 - j])
  }

  /** The word that a train of bits, most significant first, denotes. */
  function FromBits(bs: seq<bool>): Word {
    seq(64, j requires 0 <= j < 64 => j < |bs| && bs[|bs| - 1 - j])
  }

  /** The low n bits of a word, most significant first. */
  function ToBits(w: Word, n: nat): (bs: seq<bool>)
    requires n <= 64
    ensures |bs| == n
  {
    seq(n, i requires 0 <= i < n => w[n - 1 - i])
  }

  /** Number of bits set among the lowest n. */
  function CountBelow(w: Word, n: nat): (c: nat)
    requires n <= 64
    ensures c <= n
  {
    if n == 0 then 0 else CountBelow(w, n - 1) + (if w[n - 1] then 1 else 0)
  }

  /** The number a word's low n bits denote. */
  function Value(w: Word, n: nat): nat
    requires n <= 64
    decreases n
  {
    if n == 0 then 0 else (if w[0] then 1 else 0) + 2 * Value(Shr(w, 1), n - 1)
  }

  lemma MaskHits(k: int, w: Word)
    ensures And(Bit(k), w) != ZERO <==> 0 <= k < 64 && w[k]
  {
    if 0 <= k < 64 && w[k] {
      assert And(Bit(k), w)[k] && !ZERO[k];
    } else {
      assert And(Bit(k), w) == ZERO;
    }
  }

  lemma FromToBits(w: Word, n: nat)
    requires n <= 64
    ensures FromBits(ToBits(w, n)) == And(w, Low(n))
  {}

  lemma AppendBit(bs: seq<bool>, v: bool)
    ensures Or(Shl(FromBits(bs), 1), if v then Bit(0) else ZERO) == FromBits(bs + [v])
  {}

  /** gen_mask: shifts in one set bit per round. */
  method GenMask(bits: nat) returns (mask: Word)
    ensures mask == Low(bits)
  {
    mask := ZERO;
    assert mask == Low(0);
    for i := 0 to bits
      invariant mask == Low(i)
    {
      mask := Shl(mask, 1);
      mask := Or(mask, Bit(0));
    }
  }

  /** reverse: moves bit i to bit bits-1-i, one bit per round. */
  method Reverse(data: Word, bits: nat) returns (c: Word)
    requires bits <= 64
    ensures c == Reversed(data, bits)
  {
    c := ZERO;
    for i := 0 to bits
      invariant forall j | 0 <= j < 64 :: c[j] == (bits - i <= j < bits && data[bits - 1 - j])
    {
      c := Or(c, Shl(if And(data, Bit(i)) != ZERO then Bit(0) else ZERO, bits - 1 - i));
      MaskHits(i, data);
      assert And(data, Bit(i)) == And(Bit(i), data);
    }
    assert c == Reversed(data, bits);
  }

  /** Reversing twice gives back the low bits, and reversing swaps the two bit orders. */
  lemma ReverseTwice(data: Word, bits: nat)
    requires bits <= 64
    ensures Reversed(Reversed(data, bits), bits) == And(data, Low(bits))
    ensures FromBits(seq(bits, i requires 0 <= i < bits => Reversed(data, bits)[i])) == And(data, Low(bits))
  {}

  lemma CountShr(w: Word, n: nat)
    requires n < 64
    ensures CountBelow(w, n + 1) == (if w[0] then 1 else 0) + CountBelow(Shr(w, 1), n)
  {}

  lemma CountZero(n: nat)
    requires n <= 64
    ensures CountBelow(ZERO, n) == 0
  {}

  /** bits_set: shifts the word out to the right, counting set low bits. */
  method BitsSet(data: Word) returns (ret: nat)
    ensures ret == CountBelow(data, 64)
  {
    ret := 0;
    var d := data;
    ghost var left := 64;
    while d != ZERO
      invariant 0 <= left <= 64
      invariant forall i | left <= i < 64 :: !d[i]
      invariant ret + CountBelow(d, left) == CountBelow(data, 64)
      decreases left
    {
      assert left == 0 ==> d == ZERO;
      CountShr(d, left - 1);
      if And(d, Bit(0)) != ZERO { ret := ret + 1; }
      assert And(d, Bit(0)) == And(Bit(0), d);
      MaskHits(0, d);
      d := Shr(d, 1);
      left := left - 1;
    }
    CountZero(left);
  }
}
