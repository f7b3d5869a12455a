/** Rewriting a recorded remote: get_pre_data, get_post_data, their inverses and invert_data of
    lib/irrecord.c, and what they keep. */
module Factoring {
  import opened Words
  import Remotes
  import opened Chains

  // ----- all code words of a remote

  /** f on every code of every button, the first ones and those that follow. */
  function MapCodes(codes: seq<Ncode>, f: Word -> Word): (r: seq<Ncode>)
    ensures |r| == |codes|
  {
    seq(|codes|, i requires 0 <= i < |codes| => MapCode(codes[i], f))
  }

  function MapCode(n: Ncode, f: Word -> Word): Ncode {
    Ncode(f(n.code), seq(|n.next|, j requires 0 <= j < |n.next| => f(n.next[j])))
  }

  // ----- the common bits

  /** The words the search compares with the first code: the buttons' codes from the second button
      on. The codes following the first button's are not looked at. */
  function Compared(codes: seq<Ncode>): seq<Word> {
    if codes == [] then [] else [codes[0].code] + codes[0].next + Compared(codes[1..])
  }

  /** Going through the words, the bits in which none differs from the one before it. */
  function CommonFrom(mask: Word, last: Word, ws: seq<Word>): Word
    decreases ws
  {
    if ws == [] then mask else CommonFrom(And(mask, Not(Xor(last, ws[0]))), ws[0], ws[1..])
  }

  function LastOf(last: Word, ws: seq<Word>): Word {
    if ws == [] then last else ws[|ws| - 1]
  }

  /** All words have the same value at a bit. */
  ghost predicate Agree(ws: seq<Word>, b: nat, v: bool)
    requires b < 64
  {
    forall k | 0 <= k < |ws| :: ws[k][b] == v
  }

  lemma AgreeNext(ws: seq<Word>, b: nat, v: bool)
    requires b < 64 && ws != []
    ensures Agree(ws, b, v) <==> ws[0][b] == v && Agree(ws[1..], b, v)
  {
    if ws[0][b] == v && Agree(ws[1..], b, v) {
      forall k | 0 <= k < |ws| ensures ws[k][b] == v {
        if k > 0 { assert ws[1..][k - 1] == ws[k]; }
      }
    }
  }

  /** A bit is common exactly if all words agree in it. */
  lemma {:induction false} CommonAgrees(mask: Word, last: Word, ws: seq<Word>, b: nat)
    requires b < 64
    ensures CommonFrom(mask, last, ws)[b] <==> mask[b] && Agree(ws, b, last[b])
    decreases ws
  {
    if ws != [] {
      CommonAgrees(And(mask, Not(Xor(last, ws[0]))), ws[0], ws[1..], b);
      AgreeNext(ws, b, last[b]);
    }
  }

  /** Number of bits set in a row from the top. */
  function LeadingOnes(mask: Word, n: nat): (count: nat)
    requires n <= 64
    ensures count <= n && forall i | n - count <= i < n :: mask[i]
    ensures count < n ==> !mask[n - 1 - count]
  {
    if n == 0 || !mask[n - 1] then 0 else 1 + LeadingOnes(mask, n - 1)
  }

  function TrailingOnes(mask: Word, n: nat): (count: nat)
    requires n <= 64
    ensures count <= 64 - n && forall i | n <= i < n + count :: mask[i]
    ensures n + count < 64 ==> !mask[n + count]
    decreases 64 - n
  {
    if n == 64 || !mask[n] then 0 else 1 + TrailingOnes(mask, n + 1)
  }

  /** Only "even" numbers of bits are factored out: a multiple of 8, or leaving one. */
  function Rounded(count: int, bits: nat): int {
    if count % 8 != 0 && (bits - count) % 8 != 0 then count - count % 8 else count
  }

  // ----- the rewritings as functions

  datatype Recorded = Recorded(r: Remotes.Remote, codes: seq<Ncode>)

  /** What each rewriting does to a code word. */
  function Clearing(mask: Word): Word -> Word { w => And(w, Not(mask)) }
  function Shifting(n: nat): Word -> Word { w => Shr(w, n) }
  function Prefixing(prefix: Word): Word -> Word { w => Or(w, prefix) }
  function Flipping(mask: Word): Word -> Word { w => Xor(w, mask) }
  function Suffixing(width: nat, post: Word): Word -> Word { w => Or(Shl(w, width), post) }

  /** How many bits get_pre_data takes off the front, 0 if none. */
  function PreCount(d: Recorded): (n: nat)
    requires d.r.bits <= 64
    ensures n <= d.r.bits && (n > 0 ==> |d.codes| >= 2)
  {
    if d.r.bits == 0 || |d.codes| < 2 then 0
    else
      var mask := CommonFrom(ONES, d.codes[0].code, Compared(d.codes[1..]));
      var count := Rounded(LeadingOnes(mask, 64) - (64 - d.r.bits), d.r.bits);
      if count > 0 then count else 0
  }

  function LastCompared(codes: seq<Ncode>): Word
    requires codes != []
  {
    LastOf(codes[0].code, Compared(codes[1..]))
  }

  /** The bits of the code that become pre data. */
  function PreMask(d: Recorded): Word
    requires d.r.bits <= 64
  {
    Shl(Low(PreCount(d)), d.r.bits - PreCount(d))
  }

  function WithPre(d: Recorded): Recorded
    requires d.r.bits <= 64
  {
    var n := PreCount(d);
    if n == 0 then d
    else
      var bits := d.r.bits - n;
      var mask := PreMask(d);
      Recorded(d.r.(bits := bits, preDataBits := n, preData := Shr(And(LastCompared(d.codes), mask), bits)),
               MapCodes(d.codes, Clearing(mask)))
  }

  /** How many bits get_post_data takes off the end. */
  function PostCount(d: Recorded): (n: int)
    requires d.r.bits <= 64
    ensures n > 0 ==> |d.codes| >= 2
  {
    if d.r.bits == 0 || |d.codes| < 2 then 0
    else Rounded(TrailingOnes(CommonFrom(ONES, d.codes[0].code, Compared(d.codes[1..])), 0), d.r.bits)
  }

  /** The codes compared are not all the same, or there is nothing to compare; get_post_data takes
      more bits than there are otherwise. */
  predicate PostWithinBits(d: Recorded)
    requires d.r.bits <= 64
  {
    PostCount(d) <= d.r.bits
  }

  function WithPost(d: Recorded): Recorded
    requires d.r.bits <= 64 && PostWithinBits(d)
  {
    var n := PostCount(d);
    if n <= 0 then d
    else
      Recorded(d.r.(bits := d.r.bits - n, postDataBits := n, postData := And(LastCompared(d.codes), Low(n))),
               MapCodes(d.codes, Shifting(n)))
  }

  function WithoutPre(d: Recorded): Recorded {
    if d.r.preDataBits == 0 || d.r.preP != 0 || d.r.preS != 0 then d
    else
      Recorded(d.r.(bits := d.r.bits + d.r.preDataBits, preData := ZERO, preDataBits := 0),
               MapCodes(d.codes, Prefixing(Shl(d.r.preData, d.r.bits))))
  }

  function WithoutPost(d: Recorded): Recorded {
    if d.r.postDataBits == 0 then d
    else
      Recorded(d.r.(bits := d.r.bits + d.r.postDataBits, postData := ZERO, postDataBits := 0),
               MapCodes(d.codes, Suffixing(d.r.postDataBits, d.r.postData)))
  }

  /** One and zero trade places, in the timings and in every bit. */
  function Inverted(d: Recorded): Recorded {
    var r := d.r;
    Recorded(r.(pone := r.pzero, sone := r.szero, pzero := r.pone, szero := r.sone,
                preData := if r.HasPre() then Xor(r.preData, Low(r.preDataBits)) else r.preData,
                postData := if r.HasPost() then Xor(r.postData, Low(r.postDataBits)) else r.postData),
             if r.bits == 0 then d.codes else MapCodes(d.codes, Flipping(Low(r.bits))))
  }

  // ----- the code

  class RecordedRemote {
    var remote: Remotes.Remote
    var codes: seq<Ncode>

    ghost function State(): Recorded
      reads this
    {
      Recorded(remote, codes)
    }

    constructor (remote: Remotes.Remote, codes: seq<Ncode>)
      ensures State() == Recorded(remote, codes)
    {
      this.remote, this.codes := remote, codes;
    }

    /** The loops over all buttons and their further codes. */
    method UpdateCodes(f: Word -> Word)
      modifies this`codes
      ensures codes == MapCodes(old(codes), f)
    {
      ghost var before := codes;
      var i := 0;
      while i < |codes|
        invariant i <= |codes| == |before|
        invariant forall k | 0 <= k < |codes| :: codes[k] == if k < i then MapCode(before[k], f) else before[k]
      {
        var code := f(codes[i].code);
        var next := codes[i].next;
        var n := 0;
        while n < |next|
          invariant n <= |next| == |before[i].next|
          invariant forall j | 0 <= j < |next| :: next[j] == if j < n then f(before[i].next[j]) else before[i].next[j]
        {
          next := next[n := f(next[n])];
          n := n + 1;
        }
        assert Ncode(code, next) == MapCode(before[i], f);
        codes := codes[i := Ncode(code, next)];
        i := i + 1;
      }
    }

    /** The search that get_pre_data and get_post_data share. */
    method FindCommon() returns (mask: Word, last: Word)
      requires |codes| >= 2
      ensures mask == CommonFrom(ONES, codes[0].code, Compared(codes[1..]))
      ensures last == LastCompared(codes)
    {
      hide CommonFrom, LastOf, Compared, And, Not, Xor;
      mask, last := ONES, codes[0].code;
      ghost var goal := CommonFrom(ONES, last, Compared(codes[1..]));
      var i := 1;
      while i < |codes|
        invariant 1 <= i <= |codes|
        invariant CommonFrom(mask, last, Compared(codes[i..])) == goal
        invariant LastOf(last, Compared(codes[i..])) == LastCompared(codes)
      {
        ghost var later := Compared(codes[i + 1..]);
        var next := codes[i].next;
        ComparedStep(codes, i);
        CommonStep(mask, last, [codes[i].code] + next + later);
        assert ([codes[i].code] + next + later)[1..] == next + later;
        mask := And(mask, Not(Xor(last, codes[i].code)));
        last := codes[i].code;
        assert next[0..] == next;
        var n := 0;
        while n < |next|
          invariant n <= |next|
          invariant CommonFrom(mask, last, next[n..] + later) == goal
          invariant LastOf(last, next[n..] + later) == LastCompared(codes)
        {
          CommonStep(mask, last, next[n..] + later);
          assert (next[n..] + later)[1..] == next[n + 1..] + later;
          mask := And(mask, Not(Xor(last, next[n])));
          last := next[n];
          n := n + 1;
        }
        assert next[n..] + later == later;
        i := i + 1;
      }
      CommonEnd(mask, last);
      assert codes[i..] == [];
    }

    method GetPreData()
      requires remote.bits <= 64
      modifies this
      ensures State() == WithPre(old(State()))
    {
      hide CommonFrom, LeadingOnes, TrailingOnes, Compared, MapCodes, LastOf, Low, Shl, Shr, And, Not, Xor, Or;
      if remote.bits == 0 { return; }
      if |codes| < 2 { return; }
      var mask, last := FindCommon();
      var count := CountLeading(mask);
      count := count - (64 - remote.bits);
      if count % 8 != 0 && (remote.bits - count) % 8 != 0 {
        count := count - count % 8;
      }
      if count > 0 {
        mask := GenMask(count);
        var bits := remote.bits - count;
        mask := Shl(mask, bits);
        remote := remote.(bits := bits, preDataBits := count, preData := Shr(And(last, mask), bits));
        UpdateCodes(Clearing(mask));
      }
    }

    method GetPostData()
      requires remote.bits <= 64 && PostWithinBits(State())
      modifies this
      ensures State() == WithPost(old(State()))
    {
      hide CommonFrom, LeadingOnes, TrailingOnes, Compared, MapCodes, LastOf, Low, Shl, Shr, And, Not, Xor, Or;
      if remote.bits == 0 { return; }
      if |codes| < 2 { return; }
      var mask, last := FindCommon();
      var count := CountTrailing(mask);
      if count % 8 != 0 && (remote.bits - count) % 8 != 0 {
        count := count - count % 8;
      }
      if count > 0 {
        mask := GenMask(count);
        remote := remote.(bits := remote.bits - count, postDataBits := count, postData := And(last, mask));
        UpdateCodes(Shifting(count));
      }
    }

    method RemovePreData()
      modifies this
      ensures State() == WithoutPre(old(State()))
    {
      if remote.preDataBits == 0 || remote.preP != 0 || remote.preS != 0 { return; }
      var prefix := Shl(remote.preData, remote.bits);
      UpdateCodes(Prefixing(prefix));
      remote := remote.(bits := remote.bits + remote.preDataBits, preData := ZERO, preDataBits := 0);
    }

    method RemovePostData()
      modifies this
      ensures State() == WithoutPost(old(State()))
    {
      if remote.postDataBits == 0 { return; }
      var width, post := remote.postDataBits, remote.postData;
      UpdateCodes(Suffixing(width, post));
      remote := remote.(bits := remote.bits + remote.postDataBits, postData := ZERO, postDataBits := 0);
    }

    method InvertData()
      modifies this
      ensures State() == Inverted(old(State()))
    {
      hide Xor, Low, MapCodes, Flipping;
      var p, s := remote.pone, remote.sone;
      remote := remote.(pone := remote.pzero, sone := remote.szero);
      remote := remote.(pzero := p, szero := s);
      if remote.HasPre() {
        var mask := GenMask(remote.preDataBits);
        remote := remote.(preData := Xor(remote.preData, mask));
      }
      if remote.HasPost() {
        var mask := GenMask(remote.postDataBits);
        remote := remote.(postData := Xor(remote.postData, mask));
      }
      if remote.bits == 0 { return; }
      var mask := GenMask(remote.bits);
      UpdateCodes(Flipping(mask));
    }
  }

  lemma CommonStep(mask: Word, last: Word, ws: seq<Word>)
    requires ws != []
    ensures CommonFrom(mask, last, ws) == CommonFrom(And(mask, Not(Xor(last, ws[0]))), ws[0], ws[1..])
    ensures LastOf(last, ws) == LastOf(ws[0], ws[1..])
  {}

  lemma ComparedStep(codes: seq<Ncode>, i: nat)
    requires i < |codes|
    ensures Compared(codes[i..]) == [codes[i].code] + codes[i].next + Compared(codes[i + 1..])
  {
    assert codes[i..][1..] == codes[i + 1..];
  }

  lemma CommonEnd(mask: Word, last: Word)
    ensures CommonFrom(mask, last, Compared([])) == mask && LastOf(last, Compared([])) == last
  {}

  method CountLeading(mask0: Word) returns (count: nat)
    ensures count == LeadingOnes(mask0, 64)
  {
    count := 0;
    var mask := mask0;
    assert Shl(mask0, 0) == mask0;
    while And(mask, Bit(63)) != ZERO
      invariant count <= 64 && mask == Shl(mask0, count)
      invariant count + LeadingOnes(mask0, 64 - count) == LeadingOnes(mask0, 64)
      decreases 64 - count
    {
      TopBit(mask0, count);
      count := count + 1;
      mask := Shl(mask, 1);
    }
    TopBit(mask0, count);
  }

  lemma TopBit(mask0: Word, count: nat)
    requires count <= 64
    ensures And(Shl(mask0, count), Bit(63)) != ZERO <==> count < 64 && mask0[63 - count]
    ensures Shl(Shl(mask0, count), 1) == Shl(mask0, count + 1)
  {
    var m := Shl(mask0, count);
    assert And(m, Bit(63)) == And(Bit(63), m);
    MaskHits(63, m);
  }

  method CountTrailing(mask0: Word) returns (count: nat)
    ensures count == TrailingOnes(mask0, 0)
  {
    count := 0;
    var mask := mask0;
    assert Shr(mask0, 0) == mask0;
    while And(mask, Bit(0)) != ZERO
      invariant count <= 64 && mask == Shr(mask0, count)
      invariant count + TrailingOnes(mask0, count) == TrailingOnes(mask0, 0)
      decreases 64 - count
    {
      LowBit(mask0, count);
      count := count + 1;
      mask := Shr(mask, 1);
    }
    LowBit(mask0, count);
  }

  lemma LowBit(mask0: Word, count: nat)
    requires count <= 64
    ensures And(Shr(mask0, count), Bit(0)) != ZERO <==> count < 64 && mask0[count]
    ensures Shr(Shr(mask0, count), 1) == Shr(mask0, count + 1)
  {
    var m := Shr(mask0, count);
    assert And(m, Bit(0)) == And(Bit(0), m);
    MaskHits(0, m);
  }
}
