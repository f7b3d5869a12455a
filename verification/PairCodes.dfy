/** RC-MM and XMP: two or four bits in the length of one pulse and space together. */
module PairCodes {
  import opened Words
  import opened Waveform
  import opened Remotes
  import opened Transmit
  import opened Decoding
  import opened OnAir

  /** Pulses and spaces as they arrive, of any lengths. */
  datatype Pair = Pair(p: nat, q: nat)

  function PairTrain(pairs: seq<Pair>): seq<Half> {
    if pairs == [] then [] else [Pulse(pairs[0].p), Space(pairs[0].q)] + PairTrain(pairs[1..])
  }

  predicate Lasting(pairs: seq<Pair>) {
    forall i | 0 <= i < |pairs| :: pairs[i].p > 0 && pairs[i].q > 0
  }

  /** What is left to read, as the driver delivers it. */
  ghost predicate Left(inp: seq<Half>, s: Rec, items: seq<Half>) {
    1 <= s.rptr <= |inp| && inp[s.rptr..] == items && s.sum == Total(inp[1..s.rptr])
  }

  lemma OneRead(inp: seq<Half>, s: Rec, h: Half, tail: seq<Half>)
    requires Left(inp, s, [h] + tail) && s.rptr < RBUF_SIZE
    ensures CanGet(inp, s) && inp[s.rptr] == h && Left(inp, Advance(inp, s), tail)
  {
    assert inp[s.rptr] == inp[s.rptr..][0] == h;
    assert inp[s.rptr + 1..] == inp[s.rptr..][1..];
    Advanced(inp, s);
  }

  /** A pulse and a space are read at their lengths; what is pending stays so. */
  lemma PairRead(inp: seq<Half>, s: Rec, pair: Pair, tail: seq<Half>)
    requires Left(inp, s, PairTrain([pair]) + tail) && s.rptr + 2 <= RBUF_SIZE
    ensures var g := GetPulse(inp, s);
            var h := GetSpace(inp, g.s);
            g.dur == pair.p && h.dur == pair.q && Left(inp, h.s, tail)
            && h.s.pendingp == s.pendingp && h.s.pendings == s.pendings && h.s.rptr == s.rptr + 2
  {
    var p, q := Pulse(pair.p), Space(pair.q);
    assert PairTrain([pair]) + tail == [p] + ([q] + tail);
    OneRead(inp, s, p, [q] + tail);
    OneRead(inp, Advance(inp, s), q, tail);
  }

  lemma PairTrainFirst(pairs: seq<Pair>, tail: seq<Half>)
    requires pairs != []
    ensures PairTrain(pairs) + tail == PairTrain([pairs[0]]) + (PairTrain(pairs[1..]) + tail)
  {
    assert [pairs[0]][1..] == [];
  }

  // ----- RC-MM symbols

  function SymbolValue(hi: bool, lo: bool): nat {
    (if hi then 2 else 0) + (if lo then 1 else 0)
  }

  function SymbolPair(r: Remote, hi: bool, lo: bool): Pair {
    if !hi && !lo then Pair(r.pzero, r.szero)
    else if !hi then Pair(r.pone, r.sone)
    else if !lo then Pair(r.ptwo, r.stwo)
    else Pair(r.pthree, r.sthree)
  }

  /** The tolerance accepts the length for the symbol and for no smaller one. */
  predicate SymbolStood(r: Remote, hi: bool, lo: bool, sum: int) {
    && r.Expect(sum, SymbolPair(r, hi, lo).p + SymbolPair(r, hi, lo).q)
    && (SymbolValue(hi, lo) > 0 ==> !r.Expect(sum, r.pzero + r.szero))
    && (SymbolValue(hi, lo) > 1 ==> !r.Expect(sum, r.pone + r.sone))
    && (SymbolValue(hi, lo) > 2 ==> !r.Expect(sum, r.ptwo + r.stwo))
  }

  /** Pair i is of a length that is accepted for symbol i of the bits. */
  predicate SymbolsStood(r: Remote, pairs: seq<Pair>, bs: seq<bool>)
    requires |bs| == 2 * |pairs|
    decreases pairs
  {
    pairs == [] ||
    (SymbolStood(r, bs[0], bs[1], pairs[0].p + pairs[0].q) && SymbolsStood(r, pairs[1..], bs[2..]))
  }

  /** A length is read as a symbol exactly if it is accepted for it and told from the smaller ones. */
  lemma SymbolToldExactly(r: Remote, hi: bool, lo: bool, sum: int)
    ensures SymbolFor(r, sum) == SymbolValue(hi, lo) <==> SymbolStood(r, hi, lo, sum)
  {
    hide Remote.Expect;
  }

  lemma AppendWord(acc: seq<bool>, bs: seq<bool>)
    ensures Or(Shl(FromBits(acc), |bs|), FromBits(bs)) == FromBits(acc + bs)
  {}

  lemma {:induction false} SymbolsExtend(r: Remote, inp: seq<Half>, s: Rec, acc: seq<bool>, n: nat)
    ensures var d := GetSymbols(r, inp, s, FromBits(acc), n);
            d.code == ONES || exists more :: |more| == 2 * n && d.code == FromBits(acc + more)
    decreases n
  {
    hide FromBits, NextSymbol, SymbolBits;
    var y := NextSymbol(r, inp, s);
    if n == 0 {
      assert acc + [] == acc;
    } else if y.v >= 0 {
      var two := SymbolBits(y.v);
      AppendWord(acc, two);
      SymbolsExtend(r, inp, y.s, acc + two, n - 1);
      var d := GetSymbols(r, inp, y.s, FromBits(acc + two), n - 1);
      if d.code != ONES {
        var more :| |more| == 2 * (n - 1) && d.code == FromBits(acc + two + more);
        assert acc + two + more == acc + (two + more);
      }
    }
  }

  lemma WrongPairShows(acc: seq<bool>, u: seq<bool>, v: seq<bool>, a: seq<bool>, b: seq<bool>)
    requires |u| == |v| == 2 && u != v && |a| == |b| && |acc| + 2 + |a| <= 64
    ensures FromBits(acc + u + a) != FromBits(acc + v + b)
  {
    var x, y := FromBits(acc + u + a), FromBits(acc + v + b);
    assert x[|a|] == u[1] && y[|a|] == v[1];
    assert x[|a| + 1] == u[0] && y[|a| + 1] == v[0];
  }

  lemma SymbolsReadWrong(r: Remote, inp: seq<Half>, s: Rec, acc: seq<bool>, bs: seq<bool>)
    requires |bs| >= 2 && |bs| % 2 == 0 && |acc| + |bs| <= 64
    requires NextSymbol(r, inp, s).v != SymbolValue(bs[0], bs[1])
    ensures var d := GetSymbols(r, inp, s, FromBits(acc), |bs| / 2);
            d.code == ONES || d.code != FromBits(acc + bs)
  {
    hide FromBits, NextSymbol;
    var y := NextSymbol(r, inp, s);
    if y.v >= 0 {
      var two := SymbolBits(y.v);
      AppendWord(acc, two);
      SymbolsExtend(r, inp, y.s, acc + two, |bs| / 2 - 1);
      assert acc + bs[..2] + bs[2..] == acc + bs;
      forall more: seq<bool> | |more| == |bs| - 2 ensures FromBits(acc + two + more) != FromBits(acc + bs) {
        WrongPairShows(acc, two, bs[..2], more, bs[2..]);
      }
    }
  }

  /** A run of pairs is decoded to the word if each is of an accepted length, and otherwise to another
      word or not at all. */
  ghost predicate DecodesSymbols(r: Remote, inp: seq<Half>, s: Rec,
                                 acc: seq<bool>, pairs: seq<Pair>, bs: seq<bool>, tail: seq<Half>)
    requires |bs| == 2 * |pairs|
  {
    var d := GetSymbols(r, inp, s, FromBits(acc), |pairs|);
    if SymbolsStood(r, pairs, bs) then
      && d.code == FromBits(acc + bs) && Left(inp, d.s, tail)
      && d.s.pendingp == s.pendingp && d.s.pendings == s.pendings
    else |acc| + |bs| <= 64 ==> d.code == ONES || d.code != FromBits(acc + bs)
  }

  lemma SymbolsFromNext(r: Remote, inp: seq<Half>, s: Rec,
                        acc: seq<bool>, pairs: seq<Pair>, bs: seq<bool>, tail: seq<Half>)
    requires pairs != [] && |bs| == 2 * |pairs|
    requires var y := NextSymbol(r, inp, s);
             && y.v == SymbolFor(r, pairs[0].p + pairs[0].q)
             && y.s.pendingp == s.pendingp && y.s.pendings == s.pendings
             && DecodesSymbols(r, inp, y.s, acc + bs[..2], pairs[1..], bs[2..], tail)
    ensures DecodesSymbols(r, inp, s, acc, pairs, bs, tail)
  {
    hide FromBits, NextSymbol, SymbolStood, SymbolFor, Left;
    SymbolToldExactly(r, bs[0], bs[1], pairs[0].p + pairs[0].q);
    assert acc + bs[..2] + bs[2..] == acc + bs;
    if NextSymbol(r, inp, s).v == SymbolValue(bs[0], bs[1]) {
      assert SymbolBits(SymbolValue(bs[0], bs[1])) == bs[..2];
      AppendWord(acc, bs[..2]);
    } else if |acc| + |bs| <= 64 {
      SymbolsReadWrong(r, inp, s, acc, bs);
    }
  }

  /** Pulses and spaces of any lengths are decoded to the word exactly if each is accepted for its symbol,
      the failure value apart. */
  lemma {:induction false} SymbolsReadBack(r: Remote, inp: seq<Half>, s: Rec,
                                           acc: seq<bool>, pairs: seq<Pair>, bs: seq<bool>, tail: seq<Half>)
    requires |bs| == 2 * |pairs| && Lasting(pairs)
    requires Left(inp, s, PairTrain(pairs) + tail) && s.rptr + 2 * |pairs| <= RBUF_SIZE
    ensures DecodesSymbols(r, inp, s, acc, pairs, bs, tail)
    decreases pairs
  {
    hide GetSymbols, Left, FromBits, DecodesSymbols, SymbolStood, SymbolFor;
    if pairs == [] {
      NoSymbols(r, inp, s, acc, tail);
    } else {
      PairTrainFirst(pairs, tail);
      PairRead(inp, s, pairs[0], PairTrain(pairs[1..]) + tail);
      SymbolsReadBack(r, inp, NextSymbol(r, inp, s).s, acc + bs[..2], pairs[1..], bs[2..], tail);
      SymbolsFromNext(r, inp, s, acc, pairs, bs, tail);
    }
  }

  lemma NoSymbols(r: Remote, inp: seq<Half>, s: Rec, acc: seq<bool>, tail: seq<Half>)
    requires Left(inp, s, PairTrain([]) + tail)
    ensures DecodesSymbols(r, inp, s, acc, [], [], tail)
  {
    assert PairTrain([]) + tail == tail && acc + [] == acc;
  }

  /** What send_data sends for RC-MM. */
  function SymbolPairs(r: Remote, bs: seq<bool>): seq<Pair> {
    if |bs| < 2 then [] else [SymbolPair(r, bs[0], bs[1])] + SymbolPairs(r, bs[2..])
  }

  lemma {:induction false} SymbolPairsTrain(r: Remote, bs: seq<bool>)
    requires |bs| % 2 == 0
    ensures |bs| == 2 * |SymbolPairs(r, bs)| && PairTrain(SymbolPairs(r, bs)) == SymbolTrain(r, bs)
    decreases bs
  {
    if bs != [] {
      assert SymbolPairs(r, bs)[1..] == SymbolPairs(r, bs[2..]);
      SymbolPairsTrain(r, bs[2..]);
    }
  }

  /** The tolerance accepts no symbol's own length for a smaller one. */
  predicate SymbolsTold(r: Remote, bs: seq<bool>) {
    |bs| < 2 ||
    (var v, sum := SymbolValue(bs[0], bs[1]), SymbolPair(r, bs[0], bs[1]).p + SymbolPair(r, bs[0], bs[1]).q;
     && (v > 0 ==> !r.Expect(sum, r.pzero + r.szero))
     && (v > 1 ==> !r.Expect(sum, r.pone + r.sone))
     && (v > 2 ==> !r.Expect(sum, r.ptwo + r.stwo))
     && SymbolsTold(r, bs[2..]))
  }

  lemma {:induction false} ExactSymbols(r: Remote, bs: seq<bool>)
    requires |bs| % 2 == 0
    ensures |bs| == 2 * |SymbolPairs(r, bs)| && (SymbolsStood(r, SymbolPairs(r, bs), bs) <==> SymbolsTold(r, bs))
    decreases bs
  {
    SymbolPairsTrain(r, bs);
    if bs != [] {
      ExpectSelf(r, SymbolPair(r, bs[0], bs[1]).p + SymbolPair(r, bs[0], bs[1]).q);
      assert SymbolPairs(r, bs)[1..] == SymbolPairs(r, bs[2..]);
      ExactSymbols(r, bs[2..]);
    }
  }

  // ----- XMP nibbles

  /** The timing error a nibble stands: half a unit either way, rounded; below nibble 0 the
      division towards zero forgives a whole unit more. */
  predicate ErrorStood(unit: nat, n: nat, e: int) {
    (if n == 0 then 0 - unit - unit / 2 < e else 0 - unit / 2 <= e) && e < unit - unit / 2
  }

  /** XMP's tolerance: a pulse and space off by e in total are read as nibble n exactly for those e. */
  lemma NibbleTolerance(r: Remote, n: nat, e: int)
    requires r.sone > 0 && n < 16
    ensures NibbleFor(r, r.pzero + r.szero + n * r.sone + e) == n <==> ErrorStood(r.sone, n, e)
  {
    var u := r.sone;
    var a := n * u + e + u / 2;
    assert r.pzero + r.szero + n * u + e - (r.pzero + r.szero) + u / 2 == a;
    if a >= 0 {
      QuotientIs(a, u, n);
    } else {
      QuotientIs(-a, u, 0);
      if n > 0 {
        assert n * u >= u by { Monotone(1, n, u); }
        assert TruncDiv(a, u) <= 0;
      }
    }
  }

  lemma Monotone(a: nat, b: nat, u: nat)
    requires a <= b
    ensures a * u <= b * u
  {}

  lemma QuotientIs(a: nat, u: nat, n: nat)
    requires u > 0
    ensures a / u == n <==> n * u <= a < n * u + u
  {
    var q := a / u;
    assert a == q * u + a % u;
    if q < n {
      Monotone(q + 1, n, u);
      assert (q + 1) * u == q * u + u;
    } else if q > n {
      Monotone(n + 1, q, u);
      assert (n + 1) * u == n * u + u;
    }
  }

  lemma NibbleInverse(bs: seq<bool>)
    requires |bs| == 4
    ensures NibbleOf(bs) < 16 && NibbleBits(NibbleOf(bs)) == bs
  {}

  /** How far a pulse and space together are off the length of nibble n. */
  function ErrorOf(r: Remote, sum: int, n: nat): int {
    sum - (r.pzero + r.szero + n * r.sone)
  }

  /** Pair i carries nibble i of the bits, off by an error that is stood. */
  predicate Carries(r: Remote, pairs: seq<Pair>, bs: seq<bool>)
    requires |bs| == 4 * |pairs|
    decreases pairs
  {
    pairs == [] ||
    (var n := NibbleOf(bs[..4]);
     ErrorStood(r.sone, n, ErrorOf(r, pairs[0].p + pairs[0].q, n))
     && Carries(r, pairs[1..], bs[4..]))
  }

  lemma NibblesFromNext(r: Remote, inp: seq<Half>, s: Rec, acc: seq<bool>, bs: seq<bool>, n: nat)
    requires |bs| == 4 * n && n > 0 && r.sone > 0
    requires NextNibble(r, inp, s).v == NibbleOf(bs[..4])
    ensures GetNibbles(r, inp, s, FromBits(acc), n) ==
            GetNibbles(r, inp, NextNibble(r, inp, s).s, FromBits(acc + bs[..4]), n - 1)
    ensures acc + bs[..4] + bs[4..] == acc + bs
  {
    NibbleInverse(bs[..4]);
    AppendWord(acc, bs[..4]);
  }

  lemma {:induction false} NibblesExtend(r: Remote, inp: seq<Half>, s: Rec, acc: seq<bool>, n: nat)
    requires r.sone > 0
    ensures var d := GetNibbles(r, inp, s, FromBits(acc), n);
            d.code == ONES || exists more :: |more| == 4 * n && d.code == FromBits(acc + more)
    decreases n
  {
    hide FromBits, NextNibble, NibbleBits;
    var y := NextNibble(r, inp, s);
    if n == 0 {
      assert acc + [] == acc;
    } else if y.v >= 0 {
      var four := NibbleBits(y.v);
      AppendWord(acc, four);
      NibblesExtend(r, inp, y.s, acc + four, n - 1);
      var d := GetNibbles(r, inp, y.s, FromBits(acc + four), n - 1);
      if d.code != ONES {
        var more :| |more| == 4 * (n - 1) && d.code == FromBits(acc + four + more);
        assert acc + four + more == acc + (four + more);
      }
    }
  }

  lemma WrongFourShow(acc: seq<bool>, u: seq<bool>, v: seq<bool>, a: seq<bool>, b: seq<bool>)
    requires |u| == |v| == 4 && u != v && |a| == |b| && |acc| + 4 + |a| <= 64
    ensures FromBits(acc + u + a) != FromBits(acc + v + b)
  {
    var x, y := FromBits(acc + u + a), FromBits(acc + v + b);
    assert x[|a|] == u[3] && y[|a|] == v[3];
    assert x[|a| + 1] == u[2] && y[|a| + 1] == v[2];
    assert x[|a| + 2] == u[1] && y[|a| + 2] == v[1];
    assert x[|a| + 3] == u[0] && y[|a| + 3] == v[0];
  }

  lemma NibbleOfBits(v: int)
    requires 0 <= v < 16
    ensures NibbleOf(NibbleBits(v)) == v
  {}

  lemma NibblesReadWrong(r: Remote, inp: seq<Half>, s: Rec, acc: seq<bool>, bs: seq<bool>, n: nat)
    requires r.sone > 0 && n > 0 && |bs| == 4 * n && |acc| + |bs| <= 64
    requires NextNibble(r, inp, s).v != NibbleOf(bs[..4])
    ensures var d := GetNibbles(r, inp, s, FromBits(acc), n);
            d.code == ONES || d.code != FromBits(acc + bs)
  {
    hide FromBits, NextNibble, NibbleBits, NibbleOf;
    var y := NextNibble(r, inp, s);
    if y.v >= 0 {
      var four := NibbleBits(y.v);
      NibbleOfBits(y.v);
      AppendWord(acc, four);
      NibblesExtend(r, inp, y.s, acc + four, n - 1);
      assert acc + bs[..4] + bs[4..] == acc + bs;
      forall more: seq<bool> | |more| == |bs| - 4 ensures FromBits(acc + four + more) != FromBits(acc + bs) {
        WrongFourShow(acc, four, bs[..4], more, bs[4..]);
      }
    }
  }

  /** A run of nibbles is decoded to the word if each stands its error, and otherwise to another word
      or not at all. */
  ghost predicate DecodesNibbles(r: Remote, inp: seq<Half>, s: Rec,
                                 acc: seq<bool>, pairs: seq<Pair>, bs: seq<bool>, tail: seq<Half>)
    requires r.sone > 0 && |bs| == 4 * |pairs|
  {
    var d := GetNibbles(r, inp, s, FromBits(acc), |pairs|);
    if Carries(r, pairs, bs) then
      && d.code == FromBits(acc + bs) && Left(inp, d.s, tail)
      && d.s.pendingp == s.pendingp && d.s.pendings == s.pendings
    else |acc| + |bs| <= 64 ==> d.code == ONES || d.code != FromBits(acc + bs)
  }

  lemma NoNibbles(r: Remote, inp: seq<Half>, s: Rec, acc: seq<bool>, tail: seq<Half>)
    requires r.sone > 0 && Left(inp, s, PairTrain([]) + tail)
    ensures DecodesNibbles(r, inp, s, acc, [], [], tail)
  {
    assert PairTrain([]) + tail == tail && acc + [] == acc;
  }

  lemma CarriesUnfolded(r: Remote, pairs: seq<Pair>, bs: seq<bool>)
    requires |bs| == 4 * |pairs| && pairs != []
    ensures Carries(r, pairs, bs) <==>
            && ErrorStood(r.sone, NibbleOf(bs[..4]), ErrorOf(r, pairs[0].p + pairs[0].q, NibbleOf(bs[..4])))
            && Carries(r, pairs[1..], bs[4..])
  {
    hide ErrorStood, NibbleOf, ErrorOf;
  }

  /** The first nibble stands its error exactly if it is read right. */
  lemma CarriesFirst(r: Remote, pairs: seq<Pair>, bs: seq<bool>)
    requires r.sone > 0 && |bs| == 4 * |pairs| && pairs != []
    ensures Carries(r, pairs, bs) <==>
            NibbleFor(r, pairs[0].p + pairs[0].q) == NibbleOf(bs[..4]) && Carries(r, pairs[1..], bs[4..])
  {
    hide NibbleFor, ErrorStood, NibbleOf, ErrorOf, Carries;
    NibbleInverse(bs[..4]);
    CarriesUnfolded(r, pairs, bs);
    NibbleStood(r, NibbleOf(bs[..4]), pairs[0].p + pairs[0].q);
  }

  lemma NibbleStood(r: Remote, n: nat, sum: int)
    requires r.sone > 0 && n < 16
    ensures NibbleFor(r, sum) == n <==> ErrorStood(r.sone, n, ErrorOf(r, sum, n))
  {
    hide NibbleFor, ErrorStood;
    var unit := n * r.sone;
    var e := sum - (r.pzero + r.szero + unit);
    NibbleTolerance(r, n, e);
    assert r.pzero + r.szero + unit + e == sum;
  }

  lemma NibblesNext(r: Remote, inp: seq<Half>, s: Rec, acc: seq<bool>, pairs: seq<Pair>, bs: seq<bool>, tail: seq<Half>)
    requires r.sone > 0 && |bs| == 4 * |pairs| && pairs != []
    requires var y := NextNibble(r, inp, s);
             && y.v == NibbleFor(r, pairs[0].p + pairs[0].q)
             && y.s.pendingp == s.pendingp && y.s.pendings == s.pendings
             && DecodesNibbles(r, inp, y.s, acc + bs[..4], pairs[1..], bs[4..], tail)
    ensures DecodesNibbles(r, inp, s, acc, pairs, bs, tail)
  {
    hide NibbleFor, ErrorStood, NextNibble, GetNibbles, NibbleOf, Carries, Left, FromBits;
    CarriesFirst(r, pairs, bs);
    if NextNibble(r, inp, s).v == NibbleOf(bs[..4]) {
      NibblesFromNext(r, inp, s, acc, bs, |pairs|);
    } else if |acc| + |bs| <= 64 {
      NibblesReadWrong(r, inp, s, acc, bs, |pairs|);
    }
  }

  /** Pulses and spaces of any lengths are decoded to the word exactly if each nibble stands its
      error, the failure value apart. */
  lemma {:induction false} NibblesReadBack(r: Remote, inp: seq<Half>, s: Rec,
                                           acc: seq<bool>, pairs: seq<Pair>, bs: seq<bool>, tail: seq<Half>)
    requires r.sone > 0 && |bs| == 4 * |pairs| && Lasting(pairs)
    requires Left(inp, s, PairTrain(pairs) + tail) && s.rptr + 2 * |pairs| <= RBUF_SIZE
    ensures DecodesNibbles(r, inp, s, acc, pairs, bs, tail)
    decreases pairs
  {
    hide Left, FromBits, ErrorStood, NibbleFor, NibbleOf, DecodesNibbles;
    if pairs == [] {
      NoNibbles(r, inp, s, acc, tail);
    } else {
      PairTrainFirst(pairs, tail);
      PairRead(inp, s, pairs[0], PairTrain(pairs[1..]) + tail);
      NibblesReadBack(r, inp, NextNibble(r, inp, s).s, acc + bs[..4], pairs[1..], bs[4..], tail);
      NibblesNext(r, inp, s, acc, pairs, bs, tail);
    }
  }

  /** What send_data sends for XMP, as pairs without error. */
  function ExactPairs(r: Remote, bs: seq<bool>): seq<Pair> {
    if |bs| < 4 then [] else [Pair(r.pzero, r.szero + NibbleOf(bs[..4]) * r.sone)] + ExactPairs(r, bs[4..])
  }

  lemma {:induction false} ExactPairsCarry(r: Remote, bs: seq<bool>)
    requires |bs| % 4 == 0 && r.sone > 0
    ensures |bs| == 4 * |ExactPairs(r, bs)| && (r.pzero > 0 && r.szero > 0 ==> Lasting(ExactPairs(r, bs)))
    ensures Carries(r, ExactPairs(r, bs), bs)
    ensures PairTrain(ExactPairs(r, bs)) == NibbleTrain(r, bs)
    decreases bs
  {
    if bs != [] {
      var pairs := ExactPairs(r, bs);
      assert pairs[1..] == ExactPairs(r, bs[4..]);
      Monotone(0, NibbleOf(bs[..4]), r.sone);
      ExactPairsCarry(r, bs[4..]);
    }
  }
}
