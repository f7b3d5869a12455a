/** Factoring common bits out of the codes keeps what every button sends, and can be undone. */
module FactoringProofs {
  import opened Words
  import opened Remotes
  import opened Chains
  import opened Factoring

  /** The word a code stands for on this remote. */
  function Meaning(r: Remote, w: Word): Word {
    r.GenIrCode(r.preData, w, r.postData)
  }

  ghost predicate SameMeaning(r: Remote, n: Ncode, r': Remote, n': Ncode) {
    && Meaning(r', n'.code) == Meaning(r, n.code)
    && |n'.next| == |n.next|
    && forall j | 0 <= j < |n.next| :: Meaning(r', n'.next[j]) == Meaning(r, n.next[j])
  }

  /** Every code of every button, further codes included, stands for the same word. */
  ghost predicate SameWords(d: Recorded, d': Recorded) {
    && |d'.codes| == |d.codes|
    && forall i | 0 <= i < |d.codes| :: SameMeaning(d.r, d.codes[i], d'.r, d'.codes[i])
  }

  /** Two words agree in the bits from lo to hi. */
  predicate AgreeIn(a: Word, b: Word, lo: nat, hi: nat) {
    forall i | lo <= i < hi && i < 64 :: a[i] == b[i]
  }

  /** The codes that follow the first button's first one, which the search passes over, agree with
      the last code compared. */
  ghost predicate FirstContinuesAlike(d: Recorded, lo: nat, hi: nat)
    requires d.codes != []
  {
    forall j | 0 <= j < |d.codes[0].next| :: AgreeIn(d.codes[0].next[j], LastCompared(d.codes), lo, hi)
  }

  /** Bits up to 64, and no raw codes. */
  predicate Regular(r: Remote) {
    !r.protocol.RawCodes? && r.BitCount() <= 64
  }

  predicate NoPre(r: Remote) { r.preDataBits == 0 && r.preData == ZERO && r.preP == 0 && r.preS == 0 }
  predicate NoPost(r: Remote) { r.postDataBits == 0 && r.postData == ZERO }

  // ----- which codes the search covers

  lemma {:induction false} LastAgrees(last: Word, ws: seq<Word>, b: nat)
    requires b < 64 && Agree(ws, b, last[b])
    ensures LastOf(last, ws)[b] == last[b]
  {}

  lemma AgreeParts(a: seq<Word>, b: seq<Word>, i: nat, v: bool)
    requires i < 64
    ensures Agree(a + b, i, v) <==> Agree(a, i, v) && Agree(b, i, v)
  {
    if Agree(a + b, i, v) {
      forall k | 0 <= k < |a| ensures a[k][i] == v { assert (a + b)[k] == a[k]; }
      forall k | 0 <= k < |b| ensures b[k][i] == v { assert (a + b)[|a| + k] == b[k]; }
    }
  }

  /** All of a button's codes agree with v at bit i. */
  ghost predicate ButtonAgrees(n: Ncode, i: nat, v: bool)
    requires i < 64
  {
    n.code[i] == v && Agree(n.next, i, v)
  }

  lemma {:induction false} ComparedCovers(codes: seq<Ncode>, i: nat, v: bool, k: nat)
    requires i < 64 && Agree(Compared(codes), i, v) && k < |codes|
    ensures ButtonAgrees(codes[k], i, v)
  {
    var first := [codes[0].code];
    AgreeParts(first + codes[0].next, Compared(codes[1..]), i, v);
    AgreeParts(first, codes[0].next, i, v);
    if k == 0 {
      assert first[0][i] == v;
    } else {
      ComparedCovers(codes[1..], i, v, k - 1);
    }
  }

  /** At a common bit, every button but the first agrees with the last code in all its codes, and
      the first in its first one. */
  lemma CommonCovers(codes: seq<Ncode>, i: nat)
    requires |codes| >= 2 && i < 64 && CommonFrom(ONES, codes[0].code, Compared(codes[1..]))[i]
    ensures codes[0].code[i] == LastCompared(codes)[i]
    ensures forall k | 1 <= k < |codes| :: ButtonAgrees(codes[k], i, LastCompared(codes)[i])
  {
    var ws, v := Compared(codes[1..]), codes[0].code[i];
    CommonAgrees(ONES, codes[0].code, ws, i);
    LastAgrees(codes[0].code, ws, i);
    forall k | 1 <= k < |codes| ensures ButtonAgrees(codes[k], i, v) {
      ComparedCovers(codes[1..], i, v, k - 1);
      assert codes[1..][k - 1] == codes[k];
    }
  }

  /** The bits that become pre data are common. */
  lemma PreBitsCommon(d: Recorded, i: nat)
    requires d.r.bits <= 64 && PreCount(d) > 0 && d.r.bits - PreCount(d) <= i < 64
    ensures CommonFrom(ONES, d.codes[0].code, Compared(d.codes[1..]))[i]
  {
    var mask := CommonFrom(ONES, d.codes[0].code, Compared(d.codes[1..]));
    var lead := LeadingOnes(mask, 64);
    assert PreCount(d) <= lead - (64 - d.r.bits);
  }

  lemma PostBitsCommon(d: Recorded, i: nat)
    requires d.r.bits <= 64 && 0 <= i < PostCount(d)
    ensures i < 64 && CommonFrom(ONES, d.codes[0].code, Compared(d.codes[1..]))[i]
  {
    var mask := CommonFrom(ONES, d.codes[0].code, Compared(d.codes[1..]));
    assert PostCount(d) <= TrailingOnes(mask, 0);
  }

  /** All of a button's codes agree with the last code compared in the bits from lo to hi. */
  ghost predicate ButtonAlike(n: Ncode, last: Word, lo: nat, hi: nat) {
    AgreeIn(n.code, last, lo, hi) && forall j | 0 <= j < |n.next| :: AgreeIn(n.next[j], last, lo, hi)
  }

  lemma ButtonsAlike(codes: seq<Ncode>, lo: nat, hi: nat, k: nat)
    requires |codes| >= 2 && hi <= 64 && k < |codes|
    requires forall i | lo <= i < hi :: CommonFrom(ONES, codes[0].code, Compared(codes[1..]))[i]
    ensures if k == 0 then AgreeIn(codes[0].code, LastCompared(codes), lo, hi)
            else ButtonAlike(codes[k], LastCompared(codes), lo, hi)
  {
    var last := LastCompared(codes);
    forall i | lo <= i < hi
      ensures codes[0].code[i] == last[i] && (k > 0 ==> ButtonAgrees(codes[k], i, last[i]))
    {
      assert CommonFrom(ONES, codes[0].code, Compared(codes[1..]))[i];
      CommonCovers(codes, i);
    }
    if k > 0 {
      forall j | 0 <= j < |codes[k].next| ensures AgreeIn(codes[k].next[j], last, lo, hi) {
        forall i | lo <= i < hi ensures codes[k].next[j][i] == last[i] {
          assert ButtonAgrees(codes[k], i, last[i]);
        }
      }
      forall i | lo <= i < hi ensures codes[k].code[i] == last[i] {
        assert ButtonAgrees(codes[k], i, last[i]);
      }
    }
  }

  // ----- one word

  /** Taking bits from lo to `bits` for pre data keeps a word's meaning exactly if it has them. */
  lemma PreWord(r: Remote, last: Word, w: Word, n: nat)
    requires Regular(r) && r.preDataBits == 0 && 0 < n <= r.bits
    ensures var lo := r.bits - n;
            var mask := Shl(Low(n), lo);
            var r' := r.(bits := lo, preDataBits := n, preData := Shr(And(last, mask), lo));
            && r'.BitCount() == r.BitCount()
            && (Meaning(r', And(w, Not(mask))) == Meaning(r, w) <==> AgreeIn(w, last, lo, r.bits))
  {
    hide Remote.GenIrCode;
    var lo := r.bits - n;
    var mask := Shl(Low(n), lo);
    var r' := r.(bits := lo, preDataBits := n, preData := Shr(And(last, mask), lo));
    var a, b := Meaning(r', And(w, Not(mask))), Meaning(r, w);
    forall i | 0 <= i < 64
      ensures i < r.postDataBits || r.postDataBits + r.bits <= i || i < r.postDataBits + lo ==> a[i] == b[i]
      ensures r.postDataBits + lo <= i < r.postDataBits + r.bits ==>
                a[i] == last[i - r.postDataBits] && b[i] == w[i - r.postDataBits]
    {
      GenIrCodeBits(r, r.preData, w, r.postData, i);
      GenIrCodeBits(r', r'.preData, And(w, Not(mask)), r'.postData, i);
    }
    EqualExcept(a, b, r.postDataBits + lo, r.postDataBits + r.bits);
    if AgreeIn(a, b, r.postDataBits + lo, r.postDataBits + r.bits) {
      forall i | lo <= i < r.bits ensures w[i] == last[i] {
        assert a[i + r.postDataBits] == b[i + r.postDataBits];
      }
    }
  }

  lemma EqualExcept(a: Word, b: Word, lo: nat, hi: nat)
    requires forall i | 0 <= i < 64 && !(lo <= i < hi) :: a[i] == b[i]
    ensures a == b <==> AgreeIn(a, b, lo, hi)
  {}

  lemma PostWord(r: Remote, last: Word, w: Word, n: nat)
    requires Regular(r) && r.postDataBits == 0 && 0 < n <= r.bits
    ensures var r' := r.(bits := r.bits - n, postDataBits := n, postData := And(last, Low(n)));
            && r'.BitCount() == r.BitCount()
            && (Meaning(r', Shr(w, n)) == Meaning(r, w) <==> AgreeIn(w, last, 0, n))
  {
    hide Remote.GenIrCode;
    var r' := r.(bits := r.bits - n, postDataBits := n, postData := And(last, Low(n)));
    var a, b := Meaning(r', Shr(w, n)), Meaning(r, w);
    forall i | 0 <= i < 64
      ensures n <= i ==> a[i] == b[i]
      ensures i < n ==> a[i] == last[i] && b[i] == w[i]
    {
      GenIrCodeBits(r, r.preData, w, r.postData, i);
      GenIrCodeBits(r', r'.preData, Shr(w, n), r'.postData, i);
    }
    EqualExcept(a, b, 0, n);
  }

  // ----- whole remotes

  lemma PreButton(d: Recorded, k: nat)
    requires Regular(d.r) && NoPre(d.r) && PreCount(d) > 0 && k < |d.codes|
    ensures var lo := d.r.bits - PreCount(d);
            SameMeaning(d.r, d.codes[k], WithPre(d).r, WithPre(d).codes[k]) <==>
            ButtonAlike(d.codes[k], LastCompared(d.codes), lo, d.r.bits)
  {
    hide PreCount, LastCompared, Meaning, AgreeIn, And, Shl, Shr, Not, Low, SameMeaning, ButtonAlike, WithPre, MapCode;
    hide Clearing;
    WithPreIs(d, k);
    PreCodes(d.r, LastCompared(d.codes), d.codes[k], PreCount(d));
  }

  lemma WithPreIs(d: Recorded, k: nat)
    requires d.r.bits <= 64 && PreCount(d) > 0 && k < |d.codes|
    ensures var n, last := PreCount(d), LastCompared(d.codes);
            var lo := d.r.bits - n;
            var mask := Shl(Low(n), lo);
            && WithPre(d).r == d.r.(bits := lo, preDataBits := n, preData := Shr(And(last, mask), lo))
            && |WithPre(d).codes| == |d.codes| && WithPre(d).codes[k] == MapCode(d.codes[k], Clearing(mask))
  {
    hide PreCount, LastCompared, And, Shl, Shr, Low, MapCode, Clearing;
  }

  lemma PreCodes(r: Remote, last: Word, b: Ncode, n: nat)
    requires Regular(r) && r.preDataBits == 0 && 0 < n <= r.bits
    ensures var lo := r.bits - n;
            var mask := Shl(Low(n), lo);
            SameMeaning(r, b, r.(bits := lo, preDataBits := n, preData := Shr(And(last, mask), lo)),
                        MapCode(b, Clearing(mask)))
            <==> ButtonAlike(b, last, lo, r.bits)
  {
    hide Meaning, AgreeIn, And, Shl, Shr, Not, Low;
    PreWord(r, last, b.code, n);
    forall j | 0 <= j < |b.next| {
      PreWord(r, last, b.next[j], n);
    }
  }

  lemma PostButton(d: Recorded, k: nat)
    requires Regular(d.r) && NoPost(d.r) && 0 < PostCount(d) <= d.r.bits && k < |d.codes|
    ensures SameMeaning(d.r, d.codes[k], WithPost(d).r, WithPost(d).codes[k]) <==>
            ButtonAlike(d.codes[k], LastCompared(d.codes), 0, PostCount(d))
  {
    hide PostCount, LastCompared, Meaning, AgreeIn, And, Shr, Low, SameMeaning, ButtonAlike, WithPost, MapCode;
    hide Shifting;
    WithPostIs(d, k);
    PostCodes(d.r, LastCompared(d.codes), d.codes[k], PostCount(d));
  }

  lemma WithPostIs(d: Recorded, k: nat)
    requires d.r.bits <= 64 && 0 < PostCount(d) <= d.r.bits && k < |d.codes|
    ensures var n := PostCount(d);
            && WithPost(d).r ==
               d.r.(bits := d.r.bits - n, postDataBits := n, postData := And(LastCompared(d.codes), Low(n)))
            && |WithPost(d).codes| == |d.codes| && WithPost(d).codes[k] == MapCode(d.codes[k], Shifting(n))
  {
    hide PostCount, LastCompared, And, Low, MapCode, Shifting;
  }

  lemma PostCodes(r: Remote, last: Word, b: Ncode, n: nat)
    requires Regular(r) && r.postDataBits == 0 && 0 < n <= r.bits
    ensures var r' := r.(bits := r.bits - n, postDataBits := n, postData := And(last, Low(n)));
            SameMeaning(r, b, r', MapCode(b, Shifting(n))) <==> ButtonAlike(b, last, 0, n)
  {
    hide Meaning, AgreeIn, And, Shr, Low;
    PostWord(r, last, b.code, n);
    forall j | 0 <= j < |b.next| {
      PostWord(r, last, b.next[j], n);
    }
  }

  /** get_pre_data keeps what every code stands for, and the number of bits, exactly if the codes
      following the first button's agree with the others in the bits taken. */
  lemma PreKeepsMeaning(d: Recorded)
    requires Regular(d.r) && NoPre(d.r)
    ensures WithPre(d).r.BitCount() == d.r.BitCount()
    ensures SameWords(d, WithPre(d)) <==>
            PreCount(d) == 0 || FirstContinuesAlike(d, d.r.bits - PreCount(d), d.r.bits)
  {
    var n := PreCount(d);
    if n > 0 {
      var lo := d.r.bits - n;
      var last := LastCompared(d.codes);
      forall i | lo <= i < d.r.bits ensures CommonFrom(ONES, d.codes[0].code, Compared(d.codes[1..]))[i] {
        PreBitsCommon(d, i);
      }
      assert |d.codes| >= 2;
      forall k | 0 <= k < |d.codes| ensures
          SameMeaning(d.r, d.codes[k], WithPre(d).r, WithPre(d).codes[k]) <==>
          k > 0 || FirstContinuesAlike(d, lo, d.r.bits)
      {
        ButtonsAlike(d.codes, lo, d.r.bits, k);
        PreButton(d, k);
      }
      hide SameMeaning, FirstContinuesAlike;
      assert SameWords(d, WithPre(d)) ==> SameMeaning(d.r, d.codes[0], WithPre(d).r, WithPre(d).codes[0]);
    }
  }

  /** get_post_data likewise, with the bits at the other end. */
  lemma PostKeepsMeaning(d: Recorded)
    requires Regular(d.r) && NoPost(d.r) && PostWithinBits(d)
    ensures WithPost(d).r.BitCount() == d.r.BitCount()
    ensures SameWords(d, WithPost(d)) <==> PostCount(d) <= 0 || FirstContinuesAlike(d, 0, PostCount(d))
  {
    var n := PostCount(d);
    if n > 0 {
      var last := LastCompared(d.codes);
      forall i | 0 <= i < n ensures CommonFrom(ONES, d.codes[0].code, Compared(d.codes[1..]))[i] {
        PostBitsCommon(d, i);
      }
      assert |d.codes| >= 2;
      forall k | 0 <= k < |d.codes| ensures
          SameMeaning(d.r, d.codes[k], WithPost(d).r, WithPost(d).codes[k]) <==>
          k > 0 || FirstContinuesAlike(d, 0, n)
      {
        ButtonsAlike(d.codes, 0, n, k);
        PostButton(d, k);
      }
      hide SameMeaning, FirstContinuesAlike;
      assert SameWords(d, WithPost(d)) ==> SameMeaning(d.r, d.codes[0], WithPost(d).r, WithPost(d).codes[0]);
    }
  }

  // ----- both together

  ghost predicate AllFit(codes: seq<Ncode>, bits: nat) {
    forall k, i | 0 <= k < |codes| && bits <= i < 64 :: ButtonAgrees(codes[k], i, false)
  }

  lemma {:induction false} FitCompared(codes: seq<Ncode>, i: nat)
    requires i < 64 && forall k | 0 <= k < |codes| :: ButtonAgrees(codes[k], i, false)
    ensures Agree(Compared(codes), i, false)
  {
    if codes != [] {
      assert ButtonAgrees(codes[0], i, false);
      FitCompared(codes[1..], i);
      AgreeParts([codes[0].code], codes[0].next, i, false);
      AgreeParts([codes[0].code] + codes[0].next, Compared(codes[1..]), i, false);
    }
  }

  /** Bits beyond the codes' width are common: all zero. */
  lemma BeyondIsCommon(d: Recorded, i: nat)
    requires |d.codes| >= 2 && AllFit(d.codes, d.r.bits) && d.r.bits <= i < 64
    ensures CommonFrom(ONES, d.codes[0].code, Compared(d.codes[1..]))[i]
  {
    forall k | 0 <= k < |d.codes[1..]| ensures ButtonAgrees(d.codes[1..][k], i, false) {
      assert ButtonAgrees(d.codes[k + 1], i, false);
    }
    assert ButtonAgrees(d.codes[0], i, false);
    FitCompared(d.codes[1..], i);
    CommonAgrees(ONES, d.codes[0].code, Compared(d.codes[1..]), i);
  }

  lemma AllCommonTakesAll(d: Recorded)
    requires 0 < d.r.bits <= 64 && |d.codes| >= 2
    requires forall i | 0 <= i < 64 :: CommonFrom(ONES, d.codes[0].code, Compared(d.codes[1..]))[i]
    ensures PreCount(d) == d.r.bits
  {
    var mask := CommonFrom(ONES, d.codes[0].code, Compared(d.codes[1..]));
    assert LeadingOnes(mask, 64) == 64;
  }

  lemma {:induction false} ComparedMapped(codes: seq<Ncode>, f: Word -> Word)
    ensures Compared(MapCodes(codes, f)) == Mapped(Compared(codes), f)
  {
    if codes != [] {
      var m := MapCodes(codes, f);
      ComparedMapped(codes[1..], f);
      assert m[1..] == MapCodes(codes[1..], f);
      assert m[0] == MapCode(codes[0], f);
      MappedParts(codes[0], Compared(codes[1..]), f);
    }
  }

  lemma MappedParts(n: Ncode, later: seq<Word>, f: Word -> Word)
    ensures Mapped([n.code] + n.next + later, f) == [f(n.code)] + MapCode(n, f).next + Mapped(later, f)
  {}

  function Mapped(ws: seq<Word>, f: Word -> Word): (r: seq<Word>)
    ensures |r| == |ws|
  {
    seq(|ws|, i requires 0 <= i < |ws| => f(ws[i]))
  }

  /** Clearing the bits that went to the pre data leaves the other bits as common as they were. */
  lemma CommonAfterPre(d: Recorded, i: nat)
    requires d.r.bits <= 64 && |d.codes| >= 2 && i < d.r.bits - PreCount(d)
    ensures var d1 := WithPre(d);
            CommonFrom(ONES, d1.codes[0].code, Compared(d1.codes[1..]))[i] <==>
            CommonFrom(ONES, d.codes[0].code, Compared(d.codes[1..]))[i]
  {
    var d1 := WithPre(d);
    var mask := PreMask(d);
    var f := Clearing(mask);
    if PreCount(d) > 0 {
      assert d1.codes == MapCodes(d.codes, f);
      assert d1.codes[1..] == MapCodes(d.codes[1..], f);
      ComparedMapped(d.codes[1..], f);
      var ws, vs := Compared(d.codes[1..]), Compared(d1.codes[1..]);
      assert !mask[i];
      assert forall k | 0 <= k < |ws| :: vs[k][i] == ws[k][i];
      assert d1.codes[0].code[i] == d.codes[0].code[i];
      CommonAgrees(ONES, d.codes[0].code, ws, i);
      CommonAgrees(ONES, d1.codes[0].code, vs, i);
    }
  }

  /** After get_pre_data, get_post_data never takes more bits than are left: were all remaining bits
      common, the pre data would have taken everything. */
  lemma PostWithinBitsAfterPre(d: Recorded)
    requires d.r.bits <= 64 && AllFit(d.codes, d.r.bits)
    ensures PostWithinBits(WithPre(d))
  {
    var d1 := WithPre(d);
    if d1.r.bits > 0 && |d1.codes| >= 2 {
      var mask1 := CommonFrom(ONES, d1.codes[0].code, Compared(d1.codes[1..]));
      if TrailingOnes(mask1, 0) >= d1.r.bits {
        var mask := CommonFrom(ONES, d.codes[0].code, Compared(d.codes[1..]));
        forall i | 0 <= i < 64 ensures mask[i] {
          if i < d1.r.bits {
            CommonAfterPre(d, i);
            assert mask1[i];
          } else if i < d.r.bits {
            PreBitsCommon(d, i);
          } else {
            BeyondIsCommon(d, i);
          }
        }
        AllCommonTakesAll(d);
      }
    }
  }

  /** All codes that the search looks at are the same. */
  predicate AllSame(d: Recorded) {
    d.codes != [] && forall k | 0 <= k < |Compared(d.codes[1..])| :: Compared(d.codes[1..])[k] == d.codes[0].code
  }

  lemma SameIsCommon(d: Recorded)
    requires |d.codes| >= 2
    ensures AllSame(d) <==> CommonFrom(ONES, d.codes[0].code, Compared(d.codes[1..])) == ONES
  {
    var code, ws := d.codes[0].code, Compared(d.codes[1..]);
    var mask := CommonFrom(ONES, code, ws);
    forall i | 0 <= i < 64 ensures mask[i] <==> Agree(ws, i, code[i]) {
      CommonAgrees(ONES, code, ws, i);
    }
    if AllSame(d) {
      forall i | 0 <= i < 64 ensures mask[i] { assert Agree(ws, i, code[i]); }
    }
    if mask == ONES {
      forall k | 0 <= k < |ws| ensures ws[k] == code {
        forall i | 0 <= i < 64 ensures ws[k][i] == code[i] {
          assert mask[i];
          assert Agree(ws, i, code[i]);
        }
      }
    }
  }

  lemma {:induction false} OnesTrail(n: nat)
    requires n <= 64
    ensures TrailingOnes(ONES, n) == 64 - n
    decreases 64 - n
  {
    if n < 64 { OnesTrail(n + 1); }
  }

  /** get_post_data takes more bits than there are exactly if all codes it looks at are the same, and it
      takes 64 bits then. */
  lemma PostWithinBitsExactly(d: Recorded)
    requires d.r.bits <= 64 && AllFit(d.codes, d.r.bits)
    ensures PostWithinBits(d) <==> !(0 < d.r.bits < 64 && |d.codes| >= 2 && AllSame(d))
    ensures !PostWithinBits(d) ==> PostCount(d) == 64
  {
    if 0 < d.r.bits && |d.codes| >= 2 {
      var mask := CommonFrom(ONES, d.codes[0].code, Compared(d.codes[1..]));
      SameIsCommon(d);
      if AllSame(d) {
        OnesTrail(0);
      } else if TrailingOnes(mask, 0) >= d.r.bits {
        forall i | 0 <= i < 64 ensures mask[i] {
          if i >= d.r.bits { BeyondIsCommon(d, i); }
        }
      }
    }
  }

  /** All codes that the search looks at agree in this bit. */
  ghost predicate AgreeAt(d: Recorded, i: nat)
    requires i < 64 && d.codes != []
  {
    Agree(Compared(d.codes[1..]), i, d.codes[0].code[i])
  }

  /** A number of bits cut down to a multiple of 8, unless it is one or leaves one. */
  function CutDown(count: nat, bits: nat): nat {
    if count % 8 == 0 || (bits - count) % 8 == 0 then count else count - count % 8
  }

  /** get_pre_data takes all leading bits in which the codes agree, up to this rounding. */
  lemma PreTakesAll(d: Recorded) returns (common: nat)
    requires 0 < d.r.bits <= 64 && |d.codes| >= 2 && AllFit(d.codes, d.r.bits)
    ensures common <= d.r.bits && (forall i | d.r.bits - common <= i < d.r.bits :: AgreeAt(d, i))
    ensures common < d.r.bits ==> !AgreeAt(d, d.r.bits - common - 1)
    ensures PreCount(d) == CutDown(common, d.r.bits)
  {
    var code, ws := d.codes[0].code, Compared(d.codes[1..]);
    var mask := CommonFrom(ONES, code, ws);
    var lead := LeadingOnes(mask, 64);
    if lead < 64 - d.r.bits {
      BeyondIsCommon(d, 63 - lead);
    }
    common := lead - (64 - d.r.bits);
    forall i | 0 <= i < 64 ensures mask[i] <==> AgreeAt(d, i) {
      CommonAgrees(ONES, code, ws, i);
    }
  }

  /** get_post_data likewise with the trailing bits; beyond the width all codes agree. */
  lemma PostTakesAll(d: Recorded) returns (common: nat)
    requires 0 < d.r.bits <= 64 && |d.codes| >= 2
    ensures common <= 64 && (forall i | 0 <= i < common :: AgreeAt(d, i)) && (common < 64 ==> !AgreeAt(d, common))
    ensures PostCount(d) == CutDown(common, d.r.bits)
  {
    var code, ws := d.codes[0].code, Compared(d.codes[1..]);
    var mask := CommonFrom(ONES, code, ws);
    common := TrailingOnes(mask, 0);
    forall i | 0 <= i < 64 ensures mask[i] <==> AgreeAt(d, i) {
      CommonAgrees(ONES, code, ws, i);
    }
  }

  /** Two buttons with the same code of eight bits: get_post_data alone would take 64 bits off it. */
  lemma SameCodesTakeTooMuch(r: Remote, w: Word)
    requires r.bits == 8 && forall i | 8 <= i < 64 :: !w[i]
    ensures var d := Recorded(r, [Ncode(w, []), Ncode(w, [])]); PostCount(d) == 64 && !PostWithinBits(d)
  {
    var d := Recorded(r, [Ncode(w, []), Ncode(w, [])]);
    assert d.codes[1..] == [Ncode(w, [])] && d.codes[1..][1..] == [];
    assert Compared(d.codes[1..]) == [w] + [] + [] == [w];
    PostWithinBitsExactly(d);
  }

  /** A remote as recorded: no pre or post data yet, codes within their bits. */
  ghost predicate Fresh(d: Recorded) {
    Regular(d.r) && NoPre(d.r) && NoPost(d.r) && AllFit(d.codes, d.r.bits)
  }

  /** get_pre_data and then get_post_data. */
  function Factored(d: Recorded): Recorded
    requires d.r.bits <= 64 && PostWithinBits(WithPre(d))
  {
    WithPost(WithPre(d))
  }

  lemma SameWordsTwice(a: Recorded, b: Recorded, c: Recorded)
    requires SameWords(a, b) && SameWords(b, c)
    ensures SameWords(a, c)
  {
    forall i | 0 <= i < |a.codes| ensures SameMeaning(a.r, a.codes[i], c.r, c.codes[i]) {
      assert SameMeaning(a.r, a.codes[i], b.r, b.codes[i]);
      assert SameMeaning(b.r, b.codes[i], c.r, c.codes[i]);
    }
  }

  /** The codes following the first button's agree with the others in all bits that are taken. */
  ghost predicate NothingLost(d: Recorded)
    requires d.r.bits <= 64 && PostWithinBits(WithPre(d))
  {
    var n, m := PreCount(d), PostCount(WithPre(d));
    && (n == 0 || FirstContinuesAlike(d, d.r.bits - n, d.r.bits))
    && (m <= 0 || FirstContinuesAlike(d, 0, m))
  }

  lemma {:induction false} LastMapped(last: Word, ws: seq<Word>, f: Word -> Word)
    ensures LastOf(f(last), Mapped(ws, f)) == f(LastOf(last, ws))
  {}

  /** get_pre_data leaves the bits alone that get_post_data may take. */
  lemma AlikeAfterPre(d: Recorded, m: nat)
    requires d.r.bits <= 64 && |d.codes| >= 2 && m <= d.r.bits - PreCount(d)
    ensures |WithPre(d).codes| >= 2 && (FirstContinuesAlike(WithPre(d), 0, m) <==> FirstContinuesAlike(d, 0, m))
  {
    hide PreCount, Compared, CommonFrom;
    var d1, mask := WithPre(d), PreMask(d);
    var f := Clearing(mask);
    if PreCount(d) > 0 {
      assert d1.codes == MapCodes(d.codes, f) && d1.codes[1..] == MapCodes(d.codes[1..], f);
      ComparedMapped(d.codes[1..], f);
      LastMapped(d.codes[0].code, Compared(d.codes[1..]), f);
      assert LastCompared(d1.codes) == f(LastCompared(d.codes));
      forall w: Word, v: Word ensures AgreeIn(f(w), f(v), 0, m) <==> AgreeIn(w, v, 0, m) {
        ClearedAgree(w, v, mask, m);
      }
      forall j | 0 <= j < |d.codes[0].next| ensures d1.codes[0].next[j] == f(d.codes[0].next[j]) {}
    }
  }

  lemma ClearedAgree(w: Word, v: Word, mask: Word, m: nat)
    requires forall i | 0 <= i < m && i < 64 :: !mask[i]
    ensures AgreeIn(And(w, Not(mask)), And(v, Not(mask)), 0, m) <==> AgreeIn(w, v, 0, m)
  {
    forall i | 0 <= i < m && i < 64 ensures And(w, Not(mask))[i] == w[i] && And(v, Not(mask))[i] == v[i] {}
  }

  /** The two rewritings change different bits of the word: if both together keep it, the first one does. */
  lemma BothKeepWord(d: Recorded, w: Word)
    requires Fresh(d) && PreCount(d) > 0 && 0 < PostCount(WithPre(d)) <= WithPre(d).r.bits
    ensures var d1, m := WithPre(d), PostCount(WithPre(d));
            var w1 := Clearing(PreMask(d))(w);
            Meaning(WithPost(d1).r, Shr(w1, m)) == Meaning(d.r, w) ==> Meaning(d1.r, w1) == Meaning(d.r, w)
  {
    hide Remote.GenIrCode, PreCount, PostCount, LastCompared;
    var d1, m, w1 := WithPre(d), PostCount(WithPre(d)), Clearing(PreMask(d))(w);
    var a, b, c := Meaning(d.r, w), Meaning(d1.r, w1), Meaning(WithPost(d1).r, Shr(w1, m));
    forall i | 0 <= i < 64
      ensures m <= i ==> c[i] == b[i]
      ensures i < m ==> b[i] == a[i]
    {
      GenIrCodeBits(d.r, d.r.preData, w, d.r.postData, i);
      GenIrCodeBits(d1.r, d1.r.preData, w1, d1.r.postData, i);
      GenIrCodeBits(WithPost(d1).r, WithPost(d1).r.preData, Shr(w1, m), WithPost(d1).r.postData, i);
    }
  }

  lemma BothKeepButton(d: Recorded, k: nat)
    requires Fresh(d) && PreCount(d) > 0 && 0 < PostCount(WithPre(d)) <= WithPre(d).r.bits && k < |d.codes|
    requires |WithPre(d).codes| == |WithPost(WithPre(d)).codes| == |d.codes|
    requires SameMeaning(d.r, d.codes[k], WithPost(WithPre(d)).r, WithPost(WithPre(d)).codes[k])
    ensures SameMeaning(d.r, d.codes[k], WithPre(d).r, WithPre(d).codes[k])
  {
    hide Meaning, PreCount, PostCount, LastCompared, And, Shl, Shr, Low, Not, Fresh, WithPre, WithPost;
    FreshIs(d);
    var d1 := WithPre(d);
    var d2 := WithPost(d1);
    WithPreIs(d, k);
    WithPostIs(d1, k);
    BothKeepWord(d, d.codes[k].code);
    forall j | 0 <= j < |d.codes[k].next|
      ensures Meaning(d1.r, d1.codes[k].next[j]) == Meaning(d.r, d.codes[k].next[j])
    {
      assert Meaning(d2.r, d2.codes[k].next[j]) == Meaning(d.r, d.codes[k].next[j]);
      BothKeepWord(d, d.codes[k].next[j]);
    }
  }

  lemma SameWordsBack(a: Recorded, b: Recorded, c: Recorded)
    requires SameWords(a, b) && SameWords(a, c)
    ensures SameWords(b, c)
  {
    forall i | 0 <= i < |b.codes| ensures SameMeaning(b.r, b.codes[i], c.r, c.codes[i]) {
      assert SameMeaning(a.r, a.codes[i], b.r, b.codes[i]);
      assert SameMeaning(a.r, a.codes[i], c.r, c.codes[i]);
    }
  }

  lemma PreKeepsSize(d: Recorded)
    requires d.r.bits <= 64
    ensures |WithPre(d).codes| == |d.codes|
    ensures PostWithinBits(WithPre(d)) ==> |Factored(d).codes| == |d.codes|
  {}

  lemma SameWordsSelf(d: Recorded)
    ensures SameWords(d, d)
  {}

  lemma BothKeepWords(d: Recorded)
    requires Fresh(d) && PostWithinBits(WithPre(d)) && SameWords(d, Factored(d))
    ensures SameWords(d, WithPre(d))
  {
    hide SameMeaning, Fresh, PreCount, PostCount;
    FreshIs(d);
    PreKeepsSize(d);
    if PreCount(d) == 0 {
      SameWordsSelf(d);
    } else if PostCount(WithPre(d)) > 0 {
      forall k | 0 <= k < |d.codes| ensures SameMeaning(d.r, d.codes[k], WithPre(d).r, WithPre(d).codes[k]) {
        BothKeepButton(d, k);
      }
    }
  }

  /** Factoring preserves meaning: from a freshly recorded remote get_pre_data and then get_post_data
      leave what every button's codes stand for as it was, exactly if the codes that follow the first
      button's agree with the others in the bits taken; and the number of bits in any case. */
  lemma FactoringKeepsMeaning(d: Recorded)
    requires Fresh(d)
    ensures PostWithinBits(WithPre(d)) && Factored(d).r.BitCount() == d.r.BitCount()
    ensures SameWords(d, Factored(d)) <==> NothingLost(d)
    ensures d.codes == [] || d.codes[0].next == [] ==> NothingLost(d)
  {
    hide SameWords, PreCount, PostCount, FirstContinuesAlike, Fresh;
    FreshIs(d);
    PostWithinBitsAfterPre(d);
    PreKeepsMeaning(d);
    PostKeepsMeaning(WithPre(d));
    PreKeepsSize(d);
    if PostCount(WithPre(d)) > 0 {
      AlikeAfterPre(d, PostCount(WithPre(d)));
    }
    if SameWords(d, Factored(d)) {
      BothKeepWords(d);
      SameWordsBack(d, WithPre(d), Factored(d));
    } else if SameWords(d, WithPre(d)) && SameWords(WithPre(d), Factored(d)) {
      SameWordsTwice(d, WithPre(d), Factored(d));
    }
    if d.codes == [] || d.codes[0].next == [] {
      SingleLosesNothing(d);
    }
  }

  lemma FreshIs(d: Recorded)
    requires Fresh(d)
    ensures Regular(d.r) && NoPre(d.r) && AllFit(d.codes, d.r.bits)
    ensures Regular(WithPre(d).r) && NoPost(WithPre(d).r)
  {}

  lemma SingleLosesNothing(d: Recorded)
    requires d.r.bits <= 64 && PostWithinBits(WithPre(d)) && (d.codes == [] || d.codes[0].next == [])
    ensures NothingLost(d)
  {
    PreKeepsSize(d);
  }

  // ----- undoing it

  lemma PreWordBack(last: Word, w: Word, n: nat, bits: nat)
    requires n <= bits <= 64 && AgreeIn(w, last, bits - n, bits)
    ensures var lo := bits - n;
            var mask := Shl(Low(n), lo);
            Or(And(w, Not(mask)), Shl(Shr(And(last, mask), lo), lo)) == w
  {}

  lemma PostWordBack(last: Word, w: Word, n: nat)
    requires n <= 64 && AgreeIn(w, last, 0, n)
    ensures Or(Shl(Shr(w, n), n), And(last, Low(n))) == w
  {}

  /** If g undoes f on all codes, mapping undoes mapping. */
  lemma MapBack(codes: seq<Ncode>, f: Word -> Word, g: Word -> Word)
    requires forall k | 0 <= k < |codes| :: ButtonBack(codes[k], f, g)
    ensures MapCodes(MapCodes(codes, f), g) == codes
  {
    var m := MapCodes(MapCodes(codes, f), g);
    forall k | 0 <= k < |codes| ensures m[k] == codes[k] {
      assert ButtonBack(codes[k], f, g);
      assert m[k].next == codes[k].next;
    }
  }

  ghost predicate ButtonBack(n: Ncode, f: Word -> Word, g: Word -> Word) {
    g(f(n.code)) == n.code && forall j | 0 <= j < |n.next| :: g(f(n.next[j])) == n.next[j]
  }

  /** remove_pre_data undoes get_pre_data, under the condition that nothing was lost. */
  lemma PreUndone(d: Recorded)
    requires Regular(d.r) && NoPre(d.r)
    requires PreCount(d) > 0 ==> FirstContinuesAlike(d, d.r.bits - PreCount(d), d.r.bits)
    ensures WithoutPre(WithPre(d)) == d
  {
    hide PreCount, LastCompared, And, Or, Shl, Shr, Not, Low, Clearing, Prefixing, ButtonBack, MapCodes;
    hide FirstContinuesAlike;
    var n := PreCount(d);
    if n > 0 {
      var lo, last := d.r.bits - n, LastCompared(d.codes);
      var mask := Shl(Low(n), lo);
      var f, g := Clearing(mask), Prefixing(Shl(Shr(And(last, mask), lo), lo));
      forall k | 0 <= k < |d.codes| ensures ButtonBack(d.codes[k], f, g) {
        PreButtonAlike(d, k);
        PreButtonBack(d.codes[k], last, n, d.r.bits);
      }
      MapBack(d.codes, f, g);
    }
  }

  lemma PreButtonAlike(d: Recorded, k: nat)
    requires d.r.bits <= 64 && PreCount(d) > 0 && k < |d.codes|
    requires FirstContinuesAlike(d, d.r.bits - PreCount(d), d.r.bits)
    ensures ButtonAlike(d.codes[k], LastCompared(d.codes), d.r.bits - PreCount(d), d.r.bits)
  {
    var lo := d.r.bits - PreCount(d);
    forall i | lo <= i < d.r.bits ensures CommonFrom(ONES, d.codes[0].code, Compared(d.codes[1..]))[i] {
      PreBitsCommon(d, i);
    }
    assert |d.codes| >= 2;
    ButtonsAlike(d.codes, lo, d.r.bits, k);
  }

  lemma PreButtonBack(b: Ncode, last: Word, n: nat, bits: nat)
    requires n <= bits <= 64 && ButtonAlike(b, last, bits - n, bits)
    ensures var lo := bits - n;
            var mask := Shl(Low(n), lo);
            ButtonBack(b, Clearing(mask), Prefixing(Shl(Shr(And(last, mask), lo), lo)))
  {
    PreWordBack(last, b.code, n, bits);
    forall j | 0 <= j < |b.next| {
      PreWordBack(last, b.next[j], n, bits);
    }
  }

  /** remove_post_data undoes get_post_data likewise. */
  lemma PostUndone(d: Recorded)
    requires Regular(d.r) && NoPost(d.r) && PostWithinBits(d)
    requires PostCount(d) > 0 ==> FirstContinuesAlike(d, 0, PostCount(d))
    ensures WithoutPost(WithPost(d)) == d
  {
    hide PostCount, LastCompared, And, Or, Shl, Shr, Low, Shifting, Suffixing, ButtonBack, MapCodes;
    hide FirstContinuesAlike;
    var n := PostCount(d);
    if n > 0 {
      var last := LastCompared(d.codes);
      var f, g := Shifting(n), Suffixing(n, And(last, Low(n)));
      forall k | 0 <= k < |d.codes| ensures ButtonBack(d.codes[k], f, g) {
        PostButtonAlike(d, k);
        PostButtonBack(d.codes[k], last, n);
      }
      MapBack(d.codes, f, g);
    }
  }

  lemma PostButtonAlike(d: Recorded, k: nat)
    requires d.r.bits <= 64 && 0 < PostCount(d) <= d.r.bits && k < |d.codes|
    requires FirstContinuesAlike(d, 0, PostCount(d))
    ensures ButtonAlike(d.codes[k], LastCompared(d.codes), 0, PostCount(d))
  {
    forall i | 0 <= i < PostCount(d) ensures CommonFrom(ONES, d.codes[0].code, Compared(d.codes[1..]))[i] {
      PostBitsCommon(d, i);
    }
    assert |d.codes| >= 2;
    ButtonsAlike(d.codes, 0, PostCount(d), k);
  }

  lemma PostButtonBack(b: Ncode, last: Word, n: nat)
    requires n <= 64 && ButtonAlike(b, last, 0, n)
    ensures ButtonBack(b, Shifting(n), Suffixing(n, And(last, Low(n))))
  {
    PostWordBack(last, b.code, n);
    forall j | 0 <= j < |b.next| {
      PostWordBack(last, b.next[j], n);
    }
  }

  /** remove_post_data and then remove_pre_data restore the codes that were factored, if nothing was lost. */
  lemma FactoringUndone(d: Recorded)
    requires Fresh(d) && PostWithinBits(WithPre(d)) && NothingLost(d)
    ensures WithoutPre(WithoutPost(Factored(d))) == d
  {
    hide PreCount, PostCount, FirstContinuesAlike, Fresh, WithoutPre, WithoutPost;
    FreshIs(d);
    PreKeepsSize(d);
    if PostCount(WithPre(d)) > 0 {
      AlikeAfterPre(d, PostCount(WithPre(d)));
    }
    PostUndone(WithPre(d));
    PreUndone(d);
  }

  // ----- where meaning is lost

  /** A button whose second code is all ones in eight bits, and a button whose code is zero. */
  const LOSING_CODES: seq<Ncode> := [Ncode(ZERO, [Low(8)]), Ncode(ZERO, [])]

  /** A code following the first button's is not looked at: here all eight bits, zero in the codes
      compared, become pre data, and the following code loses its ones. */
  lemma FirstContinuationLost(r: Remote)
    requires Regular(r) && NoPre(r) && NoPost(r) && r.bits == 8
    ensures !SameWords(Recorded(r, LOSING_CODES), WithPre(Recorded(r, LOSING_CODES)))
  {
    var d := Recorded(r, LOSING_CODES);
    assert d.codes[1..] == [Ncode(ZERO, [])];
    assert Compared([]) == [] && d.codes[1..][1..] == [];
    assert Compared(d.codes[1..]) == [ZERO] + [] + [] == [ZERO];
    forall i | 0 <= i < 64 ensures CommonFrom(ONES, ZERO, [ZERO])[i] {
      CommonAgrees(ONES, ZERO, [ZERO], i);
    }
    AllCommonTakesAll(d);
    PreKeepsMeaning(d);
    assert LastCompared(d.codes) == ZERO;
    assert d.codes[0].next[0][0] && !ZERO[0];
    assert !AgreeIn(d.codes[0].next[0], ZERO, 0, 8);
  }
}
