/** Putting pre and post data back into the codes: what every button's codes stand for, and what it
    sends, before and after. */
module Removing {
  import opened Words
  import opened Waveform
  import opened Remotes
  import opened Transmit
  import opened Chains
  import opened Factoring
  import opened FactoringProofs
  import Inverting

  /** As read from a configuration file: data and codes are cut to their widths there. */
  ghost predicate Tidy(d: Recorded) {
    && Regular(d.r) && AllFit(d.codes, d.r.bits)
    && FitsIn(d.r.preData, d.r.preDataBits) && FitsIn(d.r.postData, d.r.postDataBits)
  }

  predicate FitsIn(w: Word, bits: nat) {
    forall i | bits <= i < 64 :: !w[i]
  }

  // ----- one word

  lemma PreInWord(r: Remote, w: Word)
    requires Regular(r) && FitsIn(w, r.bits) && FitsIn(r.preData, r.preDataBits)
    ensures var n, w' := r.bits + r.preDataBits, Or(w, Shl(r.preData, r.bits));
            && FitsIn(w', n)
            && (forall i | 0 <= i < r.bits :: w'[i] == w[i])
            && (forall i | 0 <= i < r.preDataBits :: w'[r.bits + i] == r.preData[i])
            && Meaning(r.(bits := n, preData := ZERO, preDataBits := 0), w') == Meaning(r, w)
  {
    hide Remote.GenIrCode;
    var n, w' := r.bits + r.preDataBits, Or(w, Shl(r.preData, r.bits));
    var r' := r.(bits := n, preData := ZERO, preDataBits := 0);
    forall i | 0 <= i < 64 ensures Meaning(r', w')[i] == Meaning(r, w)[i] {
      GenIrCodeBits(r, r.preData, w, r.postData, i);
      GenIrCodeBits(r', ZERO, w', r.postData, i);
    }
  }

  lemma PostInWord(r: Remote, w: Word)
    requires Regular(r) && FitsIn(w, r.bits) && FitsIn(r.postData, r.postDataBits)
    ensures var n, w' := r.bits + r.postDataBits, Or(Shl(w, r.postDataBits), r.postData);
            && FitsIn(w', n)
            && (forall i | 0 <= i < r.postDataBits :: w'[i] == r.postData[i])
            && (forall i | 0 <= i < r.bits :: w'[r.postDataBits + i] == w[i])
            && Meaning(r.(bits := n, postData := ZERO, postDataBits := 0), w') == Meaning(r, w)
  {
    hide Remote.GenIrCode;
    var n, w' := r.bits + r.postDataBits, Or(Shl(w, r.postDataBits), r.postData);
    var r' := r.(bits := n, postData := ZERO, postDataBits := 0);
    forall i | 0 <= i < 64 ensures Meaning(r', w')[i] == Meaning(r, w)[i] {
      GenIrCodeBits(r, r.preData, w, r.postData, i);
      GenIrCodeBits(r', r.preData, w', ZERO, i);
    }
  }

  // ----- whole remotes

  /** The codes of button k fit. */
  lemma ButtonFits(d: Recorded, k: nat)
    requires AllFit(d.codes, d.r.bits) && k < |d.codes|
    ensures FitsIn(d.codes[k].code, d.r.bits)
    ensures forall j | 0 <= j < |d.codes[k].next| :: FitsIn(d.codes[k].next[j], d.r.bits)
  {
    forall i | d.r.bits <= i < 64 ensures !d.codes[k].code[i] && Agree(d.codes[k].next, i, false) {
      assert ButtonAgrees(d.codes[k], i, false);
    }
    forall j | 0 <= j < |d.codes[k].next| ensures FitsIn(d.codes[k].next[j], d.r.bits) {
      forall i | d.r.bits <= i < 64 ensures !d.codes[k].next[j][i] { assert Agree(d.codes[k].next, i, false); }
    }
  }

  lemma FitAll(codes: seq<Ncode>, bits: nat)
    requires forall k | 0 <= k < |codes| :: FitsIn(codes[k].code, bits)
    requires forall k, j | 0 <= k < |codes| && 0 <= j < |codes[k].next| :: FitsIn(codes[k].next[j], bits)
    ensures AllFit(codes, bits)
  {
    forall k, i | 0 <= k < |codes| && bits <= i < 64 ensures ButtonAgrees(codes[k], i, false) {
      assert FitsIn(codes[k].code, bits);
      forall j | 0 <= j < |codes[k].next| ensures !codes[k].next[j][i] { assert FitsIn(codes[k].next[j], bits); }
    }
  }

  /** remove_pre_data keeps what every code stands for. */
  lemma PreRemoved(d: Recorded)
    requires Tidy(d)
    ensures Tidy(WithoutPre(d)) && SameWords(d, WithoutPre(d)) && WithoutPre(d).r.BitCount() == d.r.BitCount()
  {
    hide Meaning, Or, Shl, Prefixing;
    var d' := WithoutPre(d);
    if d.r.preDataBits > 0 && d.r.preP == 0 && d.r.preS == 0 {
      forall k | 0 <= k < |d.codes|
        ensures SameMeaning(d.r, d.codes[k], d'.r, d'.codes[k]) && FitsIn(d'.codes[k].code, d'.r.bits)
        ensures forall j | 0 <= j < |d'.codes[k].next| :: FitsIn(d'.codes[k].next[j], d'.r.bits)
      {
        ButtonFits(d, k);
        PreInCode(d, k, d.codes[k].code);
        forall j | 0 <= j < |d.codes[k].next| {
          PreInCode(d, k, d.codes[k].next[j]);
        }
      }
      FitAll(d'.codes, d'.r.bits);
    } else {
      NothingMoved(d);
    }
  }

  lemma PreInCode(d: Recorded, k: nat, w: Word)
    requires Tidy(d) && FitsIn(w, d.r.bits) && d.r.preDataBits > 0 && d.r.preP == 0 && d.r.preS == 0
    ensures var r', w' := WithoutPre(d).r, Prefixing(Shl(d.r.preData, d.r.bits))(w);
            Meaning(r', w') == Meaning(d.r, w) && FitsIn(w', r'.bits)
  {
    hide Meaning;
    PreInWord(d.r, w);
  }

  lemma NothingMoved(d: Recorded)
    ensures SameWords(d, d)
  {}

  /** remove_post_data likewise. */
  lemma PostRemoved(d: Recorded)
    requires Tidy(d)
    ensures Tidy(WithoutPost(d)) && SameWords(d, WithoutPost(d)) && WithoutPost(d).r.BitCount() == d.r.BitCount()
  {
    hide Meaning, Or, Shl, Suffixing;
    var d' := WithoutPost(d);
    if d.r.postDataBits > 0 {
      forall k | 0 <= k < |d.codes|
        ensures SameMeaning(d.r, d.codes[k], d'.r, d'.codes[k]) && FitsIn(d'.codes[k].code, d'.r.bits)
        ensures forall j | 0 <= j < |d'.codes[k].next| :: FitsIn(d'.codes[k].next[j], d'.r.bits)
      {
        ButtonFits(d, k);
        PostInCode(d, d.codes[k].code);
        forall j | 0 <= j < |d.codes[k].next| {
          PostInCode(d, d.codes[k].next[j]);
        }
      }
      FitAll(d'.codes, d'.r.bits);
    } else {
      NothingMoved(d);
    }
  }

  lemma PostInCode(d: Recorded, w: Word)
    requires Tidy(d) && FitsIn(w, d.r.bits) && d.r.postDataBits > 0
    ensures var r', w' := WithoutPost(d).r, Suffixing(d.r.postDataBits, d.r.postData)(w);
            Meaning(r', w') == Meaning(d.r, w) && FitsIn(w', r'.bits)
  {
    hide Meaning;
    PostInWord(d.r, w);
  }

  /** The two removals, in either order, keep what every code of every remote read from a file stands for. */
  lemma RemovalKeepsWords(d: Recorded)
    requires Tidy(d)
    ensures SameWords(d, WithoutPost(WithoutPre(d))) && SameWords(d, WithoutPre(WithoutPost(d)))
    ensures WithoutPost(WithoutPre(d)).r.BitCount() == d.r.BitCount() == WithoutPre(WithoutPost(d)).r.BitCount()
  {
    hide SameWords, Tidy, WithoutPre, WithoutPost;
    PreRemoved(d);
    PostRemoved(d);
    PostRemoved(WithoutPre(d));
    PreRemoved(WithoutPost(d));
    SameWordsTwice(d, WithoutPre(d), WithoutPost(WithoutPre(d)));
    SameWordsTwice(d, WithoutPost(d), WithoutPre(WithoutPost(d)));
  }

  // ----- what is sent

  /** A remote whose fields are whole symbols each. */
  predicate WholeFields(r: Remote) {
    && r.BitCount() <= 64
    && Aligned(r, r.preDataBits) && Aligned(r, r.bits) && Aligned(r, r.postDataBits)
  }

  /** The remotes differ only in how the word is cut into fields. */
  predicate CutAnew(r: Remote, r': Remote) {
    && r' == r.(bits := r'.bits, preData := r'.preData, preDataBits := r'.preDataBits,
                postData := r'.postData, postDataBits := r'.postDataBits)
    && r'.BitCount() == r.BitCount()
  }

  lemma {:induction false} SameTrain(r: Remote, r': Remote, bs: seq<bool>, at: nat)
    requires CutAnew(r, r')
    ensures BitTrain(r', bs, at) == BitTrain(r, bs, at)
    decreases bs
  {
    if bs != [] { SameTrain(r, r', bs[1..], at + 1); }
  }

  lemma {:induction false} TrainConcat(r: Remote, a: seq<bool>, b: seq<bool>, at: nat)
    ensures BitTrain(r, a + b, at) == BitTrain(r, a, at) + BitTrain(r, b, at + |a|)
    decreases a
  {
    if a == [] {
      assert a + b == b;
    } else {
      assert (a + b)[1..] == a[1..] + b;
      TrainConcat(r, a[1..], b, at + 1);
    }
  }

  lemma SameSymbol(r: Remote, r': Remote, hi: bool, lo: bool)
    requires CutAnew(r, r')
    ensures SymbolHalves(r', hi, lo) == SymbolHalves(r, hi, lo)
  {}

  lemma {:induction false} SymbolsConcat(r: Remote, r': Remote, a: seq<bool>, b: seq<bool>)
    requires CutAnew(r, r') && |a| % 2 == 0
    ensures SymbolTrain(r', a + b) == SymbolTrain(r, a) + SymbolTrain(r, b)
    decreases |a| + |b|
  {
    hide SymbolHalves;
    if a != [] {
      assert (a + b)[2..] == a[2..] + b && (a + b)[0] == a[0] && (a + b)[1] == a[1];
      SameSymbol(r, r', a[0], a[1]);
      SymbolsConcat(r, r', a[2..], b);
    } else {
      assert a + b == b;
      if |b| >= 2 {
        assert [] + b[2..] == b[2..];
        SameSymbol(r, r', b[0], b[1]);
        SymbolsConcat(r, r', [], b[2..]);
      }
    }
  }

  lemma {:induction false} NibblesConcat(r: Remote, r': Remote, a: seq<bool>, b: seq<bool>)
    requires CutAnew(r, r') && |a| % 4 == 0
    ensures NibbleTrain(r', a + b) == NibbleTrain(r, a) + NibbleTrain(r, b)
    decreases |a| + |b|
  {
    hide NibbleOf;
    if a != [] {
      assert (a + b)[4..] == a[4..] + b && (a + b)[..4] == a[..4];
      NibblesConcat(r, r', a[4..], b);
    } else {
      assert a + b == b;
      if |b| >= 4 {
        assert [] + b[4..] == b[4..];
        NibblesConcat(r, r', [], b[4..]);
      }
    }
  }

  lemma JoinedWord(a: Word, m: nat, b: Word, n: nat, joined: Word)
    requires m + n <= 64
    requires forall i | 0 <= i < n :: joined[i] == b[i]
    requires forall i | 0 <= i < m :: joined[n + i] == a[i]
    ensures ToBits(joined, m + n) == ToBits(a, m) + ToBits(b, n)
  {
    var all, both := ToBits(joined, m + n), ToBits(a, m) + ToBits(b, n);
    forall i | 0 <= i < |all| ensures all[i] == both[i] {
      if i < m {
        assert joined[n + (m - 1 - i)] == a[m - 1 - i];
      }
    }
  }

  lemma SameAlignment(r: Remote, r': Remote, m: int, n: int)
    requires r'.protocol == r.protocol && Aligned(r, m) && Aligned(r, n)
    ensures Aligned(r', m) && Aligned(r', n)
  {}

  lemma SymbolsAligned(r: Remote, m: int)
    requires Aligned(r, m)
    ensures (r.protocol.Rcmm? ==> m % 2 == 0) && (r.protocol.Xmp? ==> m % 4 == 0)
  {}

  /** The halves of a field of whole symbols. */
  lemma FieldIs(r: Remote, data: Word, bits: nat, done: nat)
    requires bits <= 64 && Aligned(r, bits) && Aligned(r, done)
    ensures DataHalves(r, data, bits, done) ==
            if r.protocol.Rcmm? then SymbolTrain(r, ToBits(data, bits))
            else if r.protocol.Xmp? then NibbleTrain(r, ToBits(data, bits))
            else BitTrain(r, SentBits(r, data, bits, done), done)
  {
    hide SymbolTrain, NibbleTrain, BitTrain, ToBits, SentBits;
  }

  /** Two neighbouring fields are sent as the one field they are joined to. */
  lemma JoinedFields(r: Remote, r': Remote, a: Word, m: nat, b: Word, n: nat, joined: Word, done: nat)
    requires WholeFields(r) && CutAnew(r, r') && m + n <= 64 && Aligned(r, m) && Aligned(r, n) && Aligned(r, done)
    requires forall i | 0 <= i < n :: joined[i] == b[i]
    requires forall i | 0 <= i < m :: joined[n + i] == a[i]
    ensures DataHalves(r', joined, m + n, done) == DataHalves(r, a, m, done) + DataHalves(r, b, n, done + m)
  {
    hide DataHalves, BitTrain, SymbolTrain, NibbleTrain, ToBits, SentBits, Aligned;
    AlignedSum(r, m, n);
    AlignedSum(r, done, m);
    SameAlignment(r, r', m + n, done);
    FieldIs(r', joined, m + n, done);
    FieldIs(r, a, m, done);
    FieldIs(r, b, n, done + m);
    SymbolsAligned(r, m);
    if r.protocol.Rcmm? {
      JoinedWord(a, m, b, n, joined);
      SymbolsConcat(r, r', ToBits(a, m), ToBits(b, n));
    } else if r.protocol.Xmp? {
      JoinedWord(a, m, b, n, joined);
      NibblesConcat(r, r', ToBits(a, m), ToBits(b, n));
    } else {
      SameTrain(r, r', SentBits(r', joined, m + n, done), done);
      TrainConcat(r, SentBits(r, a, m, done), SentBits(r, b, n, done + m), done);
      JoinedBits(r, r', a, m, b, n, joined, done);
    }
  }

  lemma SameBit(r: Remote, r': Remote, v: bool, at: nat)
    requires CutAnew(r, r')
    ensures SentBit(r', v, r'.Pos(at)) == SentBit(r, v, r.Pos(at))
  {}

  lemma JoinedBits(r: Remote, r': Remote, a: Word, m: nat, b: Word, n: nat, joined: Word, done: nat)
    requires CutAnew(r, r') && m + n <= 64
    requires forall i | 0 <= i < n :: joined[i] == b[i]
    requires forall i | 0 <= i < m :: joined[n + i] == a[i]
    ensures SentBits(r', joined, m + n, done) == SentBits(r, a, m, done) + SentBits(r, b, n, done + m)
  {
    hide SentBit;
    var all, both := SentBits(r', joined, m + n, done), SentBits(r, a, m, done) + SentBits(r, b, n, done + m);
    forall i | 0 <= i < |all| ensures all[i] == both[i] {
      SameBit(r, r', joined[m + n - 1 - i], done + i);
      if i < m {
        assert joined[n + (m - 1 - i)] == a[m - 1 - i];
      } else {
        assert joined[m + n - 1 - i] == b[n - 1 - (i - m)];
        assert done + m + (i - m) == done + i;
      }
    }
  }

  /** Header and lead, and trail and foot. */
  function Front(r: Remote, repeated: bool): seq<Half> {
    (if !repeated || !r.noHeadRep then HeaderHalves(r) else []) + LeadHalves(r)
  }

  function Back(r: Remote, repeated: bool): seq<Half> {
    TrailHalves(r) + (if !repeated || !r.noFootRep then FootHalves(r) else [])
  }

  lemma Whole(r: Remote, w: Word, repeated: bool)
    requires r.BitCount() <= 64
    ensures r.preDataBits <= 64 && r.bits <= 64 && r.postDataBits <= 64
    ensures CodeHalves(r, w, repeated) ==
            Front(r, repeated) + (PreHalves(r) + DataHalves(r, w, r.bits, r.preDataBits)) + PostHalves(r)
            + Back(r, repeated)
  {
    hide HeaderHalves, LeadHalves, PreHalves, DataHalves, PostHalves, TrailHalves, FootHalves;
  }

  /** remove_pre_data, which leaves remotes with a separator alone, keeps what is sent. */
  lemma PreRemovedSends(d: Recorded, w: Word, repeated: bool)
    requires Tidy(d) && WholeFields(d.r) && FitsIn(w, d.r.bits)
    requires d.r.preDataBits > 0 && d.r.preP == 0 && d.r.preS == 0
    ensures WithoutPre(d).r.BitCount() <= 64
    ensures CodeHalves(WithoutPre(d).r, Prefixing(Shl(d.r.preData, d.r.bits))(w), repeated) ==
            CodeHalves(d.r, w, repeated)
  {
    hide DataHalves, CodeHalves, Meaning, HeaderHalves, LeadHalves, TrailHalves, FootHalves, Shl, Or;
    var r, r', w' := d.r, WithoutPre(d).r, Or(w, Shl(d.r.preData, d.r.bits));
    PreInWord(r, w);
    JoinedFields(r, r', r.preData, r.preDataBits, w, r.bits, w', 0);
    PostUntouched(r, r');
    Whole(r, w, repeated);
    Whole(r', w', repeated);
    FrameUntouched(r, r', repeated);
  }

  lemma FrameUntouched(r: Remote, r': Remote, repeated: bool)
    requires CutAnew(r, r')
    ensures Front(r', repeated) == Front(r, repeated) && Back(r', repeated) == Back(r, repeated)
  {}

  lemma PostUntouched(r: Remote, r': Remote)
    requires WholeFields(r) && CutAnew(r, r') && r'.postData == r.postData && r'.postDataBits == r.postDataBits
    ensures PostHalves(r') == PostHalves(r)
  {
    FieldUntouched(r, r', r.postData, r.postDataBits, r.preDataBits + r.bits);
  }

  lemma PreUntouched(r: Remote, r': Remote)
    requires WholeFields(r) && CutAnew(r, r') && r'.preData == r.preData && r'.preDataBits == r.preDataBits
    ensures PreHalves(r') == PreHalves(r)
  {
    FieldUntouched(r, r', r.preData, r.preDataBits, 0);
  }

  lemma FieldUntouched(r: Remote, r': Remote, data: Word, bits: nat, done: nat)
    requires CutAnew(r, r') && bits <= 64
    ensures DataHalves(r', data, bits, done) == DataHalves(r, data, bits, done)
  {
    hide SentBit, BitTrain, SymbolTrain, NibbleTrain, ToBits;
    if r.protocol.Rcmm? {
      assert [] + ToBits(data, bits) == ToBits(data, bits) && SymbolTrain(r, []) == [] by { NoSymbols(r); }
      SymbolsConcat(r, r', [], ToBits(data, bits));
    } else if r.protocol.Xmp? {
      assert [] + ToBits(data, bits) == ToBits(data, bits) && NibbleTrain(r, []) == [] by { NoSymbols(r); }
      NibblesConcat(r, r', [], ToBits(data, bits));
    } else {
      SameTrain(r, r', SentBits(r, data, bits, done), done);
      var bs, bs' := SentBits(r, data, bits, done), SentBits(r', data, bits, done);
      forall i | 0 <= i < bits ensures bs'[i] == bs[i] {
        SameBit(r, r', data[bits - 1 - i], done + i);
      }
      assert bs' == bs;
    }
  }

  lemma NoSymbols(r: Remote)
    ensures SymbolTrain(r, []) == [] && NibbleTrain(r, []) == []
  {}

  /** remove_post_data does not look at the separator: it keeps what is sent exactly if there is none. */
  lemma PostRemovedSends(d: Recorded, w: Word, repeated: bool)
    requires Tidy(d) && WholeFields(d.r) && FitsIn(w, d.r.bits) && d.r.postDataBits > 0
    ensures WithoutPost(d).r.BitCount() <= 64
    ensures CodeHalves(WithoutPost(d).r, Suffixing(d.r.postDataBits, d.r.postData)(w), repeated) ==
            CodeHalves(d.r, w, repeated)
            <==> !d.r.HasPostGap()
  {
    hide DataHalves, CodeHalves, Meaning, PreHalves, PostHalves, Front, Back, WithoutPost, Suffixing;
    var r := d.r;
    PostPieces(d, w, repeated);
    var data := DataHalves(r, w, r.bits, r.preDataBits);
    var post := DataHalves(r, r.postData, r.postDataBits, r.preDataBits + r.bits);
    if r.HasPostGap() {
      Longer(Front(r, repeated), PreHalves(r), data, [Pulse(r.postP), Space(r.postS)], post, Back(r, repeated));
    } else {
      Regrouped(Front(r, repeated), PreHalves(r), data, post, Back(r, repeated));
    }
  }

  lemma PostField(d: Recorded, w: Word)
    requires Tidy(d) && WholeFields(d.r) && FitsIn(w, d.r.bits) && d.r.postDataBits > 0
    ensures var r, r' := d.r, WithoutPost(d).r;
            && CutAnew(r, r') && r'.bits <= 64 && r'.preDataBits == r.preDataBits
            && DataHalves(r', Suffixing(r.postDataBits, r.postData)(w), r'.bits, r'.preDataBits) ==
               DataHalves(r, w, r.bits, r.preDataBits)
               + DataHalves(r, r.postData, r.postDataBits, r.preDataBits + r.bits)
  {
    hide DataHalves, Meaning, Shl, Or;
    var r, r', w' := d.r, WithoutPost(d).r, Or(Shl(w, d.r.postDataBits), d.r.postData);
    PostInWord(r, w);
    JoinedFields(r, r', w, r.bits, r.postData, r.postDataBits, w', r.preDataBits);
  }

  lemma PostPieces(d: Recorded, w: Word, repeated: bool)
    requires Tidy(d) && WholeFields(d.r) && FitsIn(w, d.r.bits) && d.r.postDataBits > 0
    ensures WithoutPost(d).r.BitCount() <= 64
    ensures var r := d.r;
            var data := DataHalves(r, w, r.bits, r.preDataBits);
            var post := DataHalves(r, r.postData, r.postDataBits, r.preDataBits + r.bits);
            var gap := if r.HasPostGap() then [Pulse(r.postP), Space(r.postS)] else [];
            var a, p, z := Front(r, repeated), PreHalves(r), Back(r, repeated);
            && CodeHalves(r, w, repeated) == a + (p + data) + (gap + post) + z
            && CodeHalves(WithoutPost(d).r, Suffixing(r.postDataBits, r.postData)(w), repeated) ==
               a + (p + (data + post)) + [] + z
  {
    hide DataHalves, CodeHalves, PreHalves, PostHalves, Front, Back, FitsIn, Suffixing, Tidy;
    var r, r', w' := d.r, WithoutPost(d).r, Suffixing(d.r.postDataBits, d.r.postData)(w);
    PostField(d, w);
    PreUntouched(r, r');
    Whole(r, w, repeated);
    Whole(r', w', repeated);
    FrameUntouched(r, r', repeated);
    PostParts(r, r');
  }

  lemma PostParts(r: Remote, r': Remote)
    requires r.BitCount() <= 64 && r.HasPost() && r'.postDataBits == 0
    ensures PostHalves(r') == []
    ensures PostHalves(r) ==
            (if r.HasPostGap() then [Pulse(r.postP), Space(r.postS)] else [])
            + DataHalves(r, r.postData, r.postDataBits, r.preDataBits + r.bits)
  {}

  lemma Longer(a: seq<Half>, p: seq<Half>, data: seq<Half>, gap: seq<Half>, post: seq<Half>, z: seq<Half>)
    requires gap != []
    ensures a + (p + data) + (gap + post) + z != a + (p + (data + post)) + [] + z
  {
    assert |a + (p + data) + (gap + post) + z| > |a + (p + (data + post)) + [] + z|;
  }

  lemma Regrouped(a: seq<Half>, p: seq<Half>, data: seq<Half>, post: seq<Half>, z: seq<Half>)
    ensures a + (p + data) + ([] + post) + z == a + (p + (data + post)) + [] + z
  {}

  // ----- every button

  lemma PreRemovalKeepsSignals(d: Recorded, k: nat, repeated: bool)
    requires Tidy(d) && WholeFields(d.r) && k < |d.codes|
    ensures |WithoutPre(d).codes| == |d.codes| && WithoutPre(d).r.BitCount() <= 64
    ensures Inverting.SameSignals(d.r, d.codes[k], WithoutPre(d).r, WithoutPre(d).codes[k], repeated)
  {
    hide CodeHalves, Shl, Prefixing;
    if d.r.preDataBits > 0 && d.r.preP == 0 && d.r.preS == 0 {
      ButtonFits(d, k);
      PreRemovedSends(d, d.codes[k].code, repeated);
      forall j | 0 <= j < |d.codes[k].next| {
        PreRemovedSends(d, d.codes[k].next[j], repeated);
      }
    }
  }

  lemma PostRemovalKeepsSignals(d: Recorded, k: nat, repeated: bool)
    requires Tidy(d) && WholeFields(d.r) && k < |d.codes|
    ensures |WithoutPost(d).codes| == |d.codes| && WithoutPost(d).r.BitCount() <= 64
    ensures Inverting.SameSignals(d.r, d.codes[k], WithoutPost(d).r, WithoutPost(d).codes[k], repeated) <==>
            !(d.r.HasPost() && d.r.HasPostGap())
  {
    hide CodeHalves, Shl, Suffixing;
    if d.r.postDataBits > 0 {
      ButtonFits(d, k);
      PostRemovedSends(d, d.codes[k].code, repeated);
      forall j | 0 <= j < |d.codes[k].next| {
        PostRemovedSends(d, d.codes[k].next[j], repeated);
      }
    }
  }

  /** remove_pre_data and then remove_post_data keep what every button of every remote read from a file
      sends, exactly if there is no separator in front of post data. */
  lemma RemovalKeepsSignals(d: Recorded, k: nat, repeated: bool)
    requires Tidy(d) && WholeFields(d.r) && k < |d.codes|
    ensures var d' := WithoutPost(WithoutPre(d));
            && |d'.codes| == |d.codes| && d'.r.BitCount() <= 64
            && (Inverting.SameSignals(d.r, d.codes[k], d'.r, d'.codes[k], repeated) <==>
                !(d.r.HasPost() && d.r.HasPostGap()))
  {
    hide Tidy, SameWords, CodeHalves, WithoutPre, WithoutPost;
    PreRemoved(d);
    PreRemovalKeepsSignals(d, k, repeated);
    KeepsPost(d);
    PostRemovalKeepsSignals(WithoutPre(d), k, repeated);
  }

  lemma KeepsPost(d: Recorded)
    requires WholeFields(d.r)
    ensures var r := WithoutPre(d).r;
            r.HasPost() == d.r.HasPost() && r.HasPostGap() == d.r.HasPostGap() && WholeFields(r)
  {}

  // ----- factoring

  lemma PreFits(last: Word, w: Word, bits: nat, n: nat)
    requires n <= bits <= 64 && FitsIn(w, bits)
    ensures var mask := Shl(Low(n), bits - n);
            FitsIn(And(w, Not(mask)), bits - n) && FitsIn(Shr(And(last, mask), bits - n), n)
  {}

  lemma PostFits(last: Word, w: Word, bits: nat, n: nat)
    requires n <= bits <= 64 && FitsIn(w, bits)
    ensures FitsIn(Shr(w, n), bits - n) && FitsIn(And(last, Low(n)), n)
  {}

  lemma WithPreTidy(d: Recorded)
    requires Tidy(d) && NoPre(d.r)
    ensures Tidy(WithPre(d))
  {
    hide And, Not, Shl, Shr, Low, PreCount, LastCompared, FitsIn, AllFit;
    var d', n := WithPre(d), PreCount(d);
    if n > 0 {
      var last := LastCompared(d.codes);
      forall k | 0 <= k < |d.codes|
        ensures FitsIn(d'.codes[k].code, d'.r.bits)
        ensures forall j | 0 <= j < |d'.codes[k].next| :: FitsIn(d'.codes[k].next[j], d'.r.bits)
      {
        ButtonFits(d, k);
        PreFits(last, d.codes[k].code, d.r.bits, n);
        forall j | 0 <= j < |d.codes[k].next| {
          PreFits(last, d.codes[k].next[j], d.r.bits, n);
        }
      }
      FitAll(d'.codes, d'.r.bits);
      ZeroFits(d.r.bits);
      PreFits(last, ZERO, d.r.bits, n);
    }
  }

  lemma ZeroFits(bits: nat)
    ensures FitsIn(ZERO, bits)
  {}

  lemma WithPostTidy(d: Recorded)
    requires Tidy(d) && NoPost(d.r) && PostWithinBits(d)
    ensures Tidy(WithPost(d))
  {
    hide And, Shr, Low, PostCount, LastCompared, FitsIn, AllFit;
    var d', n := WithPost(d), PostCount(d);
    if n > 0 {
      var last := LastCompared(d.codes);
      forall k | 0 <= k < |d.codes|
        ensures FitsIn(d'.codes[k].code, d'.r.bits)
        ensures forall j | 0 <= j < |d'.codes[k].next| :: FitsIn(d'.codes[k].next[j], d'.r.bits)
      {
        ButtonFits(d, k);
        PostFits(last, d.codes[k].code, d.r.bits, n);
        forall j | 0 <= j < |d.codes[k].next| {
          PostFits(last, d.codes[k].next[j], d.r.bits, n);
        }
      }
      FitAll(d'.codes, d'.r.bits);
      ZeroFits(d.r.bits);
      PostFits(last, ZERO, d.r.bits, n);
    }
  }

  lemma FactoredTidy(d: Recorded)
    requires Fresh(d)
    ensures Tidy(d) && PostWithinBits(WithPre(d)) && Tidy(Factored(d))
  {
    hide And, Not, Or, Shl, Shr, Low, PreCount, PostCount, LastCompared, FitsIn, AllFit, MapCodes, PostWithinBits;
    PostWithinBitsAfterPre(d);
    ZeroFits(0);
    WithPreTidy(d);
    WithPostTidy(WithPre(d));
  }

  /** The search takes whole symbols if the codes are made of them. */
  lemma RoundedAligned(r: Remote, count: int, bits: nat)
    requires Aligned(r, bits)
    ensures Aligned(r, Rounded(count, bits)) && Aligned(r, bits - Rounded(count, bits))
  {
    Eights(0, count / 8);
    Eights(bits, count / 8);
    Eights(bits, (bits - count) / 8);
    Eights(0, (bits - count) / 8);
  }

  lemma Eights(x: int, q: int)
    ensures (x - 8 * q) % 2 == x % 2 && (x - 8 * q) % 4 == x % 4
    ensures (8 * q) % 2 == 0 && (8 * q) % 4 == 0
  {}

  lemma CountsAligned(d: Recorded)
    requires d.r.bits <= 64 && Aligned(d.r, d.r.bits)
    ensures Aligned(d.r, PreCount(d)) && Aligned(d.r, d.r.bits - PreCount(d))
    ensures Aligned(d.r, PostCount(d)) && Aligned(d.r, d.r.bits - PostCount(d))
  {
    hide Rounded, LeadingOnes, TrailingOnes, CommonFrom, Compared;
    if d.r.bits > 0 && |d.codes| >= 2 {
      var mask := CommonFrom(ONES, d.codes[0].code, Compared(d.codes[1..]));
      RoundedAligned(d.r, LeadingOnes(mask, 64) - (64 - d.r.bits), d.r.bits);
      RoundedAligned(d.r, TrailingOnes(mask, 0), d.r.bits);
    }
  }

  lemma FactoredWhole(d: Recorded)
    requires Fresh(d) && Aligned(d.r, d.r.bits) && PostWithinBits(WithPre(d))
    ensures var r, m := Factored(d).r, PostCount(WithPre(d));
            WholeFields(r) && r.HasPostGap() == d.r.HasPostGap() && (r.HasPost() <==> m > 0)
  {
    hide PreCount, PostCount, LastCompared, And, Shr, Low, MapCodes, AllFit, PreMask, WithPre, WithPost;
    CountsAligned(d);
    PreFields(d);
    CountsAligned(WithPre(d));
    PostFields(WithPre(d));
  }

  lemma PreFields(d: Recorded)
    requires d.r.bits <= 64 && d.r.preDataBits == 0
    ensures var r, n := WithPre(d).r, PreCount(d);
            && r == d.r.(bits := d.r.bits - n, preDataBits := n, preData := r.preData)
  {
    hide PreCount, LastCompared, And, Shr, Low, MapCodes, PreMask;
  }

  lemma PostFields(d: Recorded)
    requires d.r.bits <= 64 && PostWithinBits(d) && d.r.postDataBits == 0
    ensures var r, n := WithPost(d).r, if PostCount(d) > 0 then PostCount(d) else 0;
            && r == d.r.(bits := d.r.bits - n, postDataBits := n, postData := r.postData)
  {
    hide PostCount, LastCompared, And, Low, MapCodes;
  }

  /** Factoring keeps not only the words but what is sent: if nothing was lost, every button of a remote
      whose codes are whole symbols sends what it sent before, exactly if no post data was made in front
      of which a separator had been waiting. */
  lemma FactoringKeepsSignals(d: Recorded, k: nat, repeated: bool)
    requires Fresh(d) && Aligned(d.r, d.r.bits) && k < |d.codes|
    requires PostWithinBits(WithPre(d)) && NothingLost(d)
    ensures var d', m := Factored(d), PostCount(WithPre(d));
            && |d'.codes| == |d.codes| && d'.r.BitCount() <= 64
            && (Inverting.SameSignals(d'.r, d'.codes[k], d.r, d.codes[k], repeated) <==>
                !(m > 0 && d.r.HasPostGap()))
  {
    hide Tidy, Factored, WithoutPre, WithoutPost, WithPre, WithPost, CodeHalves, NothingLost, PostCount, Fresh;
    FreshIs(d);
    PreKeepsSize(d);
    FactoredTidy(d);
    FactoredWhole(d);
    FactoringUndone(d);
    var d' := Factored(d);
    PostRemovalKeepsSignals(d', k, repeated);
    PostRemoved(d');
    StillWhole(d');
    PreRemovalKeepsSignals(WithoutPost(d'), k, repeated);
  }

  lemma StillWhole(d: Recorded)
    requires WholeFields(d.r)
    ensures WholeFields(WithoutPost(d).r)
  {}

  /** The two removals restore what was factored exactly if nothing was lost. */
  lemma FactoringUndoneExactly(d: Recorded)
    requires Fresh(d) && PostWithinBits(WithPre(d))
    ensures WithoutPre(WithoutPost(Factored(d))) == d <==> NothingLost(d)
  {
    hide Tidy, Factored, WithoutPre, WithoutPost, WithPre, WithPost, NothingLost, PostCount, Fresh, SameMeaning;
    FreshIs(d);
    if NothingLost(d) {
      FactoringUndone(d);
    } else if WithoutPre(WithoutPost(Factored(d))) == d {
      FactoredTidy(d);
      RemovalKeepsWords(Factored(d));
      FactoringKeepsMeaning(d);
      SameWordsTurned(Factored(d), d);
    }
  }

  lemma SameWordsTurned(a: Recorded, b: Recorded)
    requires SameWords(a, b)
    ensures SameWords(b, a)
  {
    forall i | 0 <= i < |b.codes| ensures SameMeaning(b.r, b.codes[i], a.r, a.codes[i]) {
      assert SameMeaning(a.r, a.codes[i], b.r, b.codes[i]);
    }
  }

  // ----- where removal changes what is sent

  /** Eight bits, a separator, and eight bits of post data. */
  const SEPARATED := Remote(
    SpaceEnc, false, false, false, false, 8, 30, 100, 0,
    9000, 4500, 0, 0, 0, 0, 560, 1690, 560, 560, 0, 560, 0, 0, 0, 0,
    0, ZERO, 8, ZERO, 0, 0, 560, 4500, 100000, 0, 0,
    ZERO, ZERO, ZERO, ZERO, ZERO, 0)

  /** Its separator is no longer sent once the post data is removed, whatever the code. */
  lemma SeparatorLost(w: Word, repeated: bool)
    requires FitsIn(w, 8)
    ensures var d := Recorded(SEPARATED, [Ncode(w, [])]);
            && WithoutPost(d).r.BitCount() <= 64
            && CodeHalves(WithoutPost(d).r, WithoutPost(d).codes[0].code, repeated) !=
               CodeHalves(SEPARATED, w, repeated)
  {
    hide CodeHalves, FitsIn;
    var d := Recorded(SEPARATED, [Ncode(w, [])]);
    ZeroFits(0);
    ZeroFits(8);
    FitAll(d.codes, 8);
    PostRemovedSends(d, w, repeated);
  }
}
