/** Encoding and decoding undo each other: for biphase and for pulse-then-space remotes, exactly
    when a signal made by send_code is decoded to the word that was sent. */
module RoundTrip {
  import opened Words
  import opened Waveform
  import opened Remotes
  import opened Transmit
  import opened Decoding
  import opened OnAir
  import opened BitReading

  // ----- a run of bits

  /** The half pending after a run of bits. */
  function PendAfterBits(r: Remote, bs: seq<bool>, at: nat, pend: seq<Half>): (p: seq<Half>)
    requires |pend| <= 1
    ensures |p| <= 1
    decreases bs
  {
    if bs == [] then pend else PendAfterBits(r, bs[1..], at + 1, PendAfter(r, bs[0], at))
  }

  /** Every 0 of the run is told from a 1. */
  predicate ZerosTold(r: Remote, bs: seq<bool>, at: nat, pend: seq<Half>)
    requires |pend| <= 1
    decreases bs
  {
    bs == [] ||
    ((bs[0] || ZeroTold(r, at, pend)) && ZerosTold(r, bs[1..], at + 1, PendAfter(r, bs[0], at)))
  }

  /** Bits already decoded stay where they are: whatever follows, they lead the result. */
  lemma {:induction false} BitsExtend(r: Remote, inp: seq<Half>, s: Rec, acc: seq<bool>, n: nat, at: nat)
    ensures var d := GetBits(r, inp, s, FromBits(acc), n, at);
            d.code == ONES || exists more :: |more| == n && d.code == FromBits(acc + more)
    decreases n
  {
    if n == 0 {
      assert acc + [] == acc;
    } else {
      match ReadBit(r, inp, s, at)
      case NoBit(_) =>
      case BitRead(bit, s') =>
        AppendBit(acc, bit);
        BitsExtend(r, inp, s', acc + [bit], n - 1, at + 1);
        var d := GetBits(r, inp, s', FromBits(acc + [bit]), n - 1, at + 1);
        if d.code != ONES {
          var more :| |more| == n - 1 && d.code == FromBits(acc + [bit] + more);
          assert acc + [bit] + more == acc + ([bit] + more);
        }
    }
  }

  lemma WrongBitShows(acc: seq<bool>, v: bool, a: seq<bool>, b: seq<bool>)
    requires |a| == |b| && |acc| + 1 + |a| <= 64
    ensures FromBits(acc + [v] + a) != FromBits(acc + [!v] + b)
  {
    assert FromBits(acc + [v] + a)[|a|] == v;
    assert FromBits(acc + [!v] + b)[|a|] == !v;
  }

  lemma BitTrainFollows(r: Remote, bs: seq<bool>, at: nat, rest: seq<Half>)
    requires BitCoded(r) && Follows(r, rest)
    ensures Follows(r, BitTrain(r, bs, at) + rest)
  {
    if bs != [] {
      assert (BitTrain(r, bs, at) + rest)[0] == BitHalves(r, bs[0], at)[0];
    } else {
      assert BitTrain(r, bs, at) + rest == rest;
    }
  }

  /** Once a bit is not read as it was sent, the run is not decoded as it was sent. */
  lemma BitsReadWrong(r: Remote, inp: seq<Half>, s: Rec, acc: seq<bool>, bs: seq<bool>, at: nat)
    requires bs != [] && |acc| + |bs| <= 64 && !ReadsValue(r, inp, s, bs[0], at)
    ensures var d := GetBits(r, inp, s, FromBits(acc), |bs|, at);
            d.code == ONES || d.code != FromBits(acc + bs)
  {
    var b := ReadBit(r, inp, s, at);
    if b.BitRead? {
      var tail := bs[1..];
      assert acc + [bs[0]] + tail == acc + bs;
      AppendBit(acc, b.bit);
      BitsExtend(r, inp, b.s, acc + [b.bit], |tail|, at + 1);
      forall more: seq<bool> | |more| == |tail| ensures FromBits(acc + [b.bit] + more) != FromBits(acc + bs) {
        WrongBitShows(acc, bs[0], tail, more);
      }
    }
  }

  lemma NextBit(r: Remote, inp: seq<Half>, s: Rec, acc: seq<bool>, bs: seq<bool>, at: nat)
    requires bs != [] && ReadsValue(r, inp, s, bs[0], at)
    ensures GetBits(r, inp, s, FromBits(acc), |bs|, at) ==
            GetBits(r, inp, ReadBit(r, inp, s, at).s, FromBits(acc + [bs[0]]), |bs[1..]|, at + 1)
  {
    hide FromBits, ReadBit;
    AppendBit(acc, bs[0]);
  }

  lemma NextTrain(r: Remote, bs: seq<bool>, at: nat, rest: seq<Half>)
    requires bs != []
    ensures BitTrain(r, bs, at) + rest == BitHalves(r, bs[0], at) + (BitTrain(r, bs[1..], at + 1) + rest)
  {}

  /** The run is decoded to itself if every 0 is told from a 1, and otherwise to something else. */
  ghost predicate DecodesRun(r: Remote, inp: seq<Half>, gap: Silence, s: Rec,
                             acc: seq<bool>, bs: seq<bool>, at: nat, rest: seq<Half>)
  {
    var d := GetBits(r, inp, s, FromBits(acc), |bs|, at);
    if ZerosTold(r, bs, at, PendingHalf(s)) then
      && d.code == FromBits(acc + bs)
      && At(inp, gap, d.s, rest)
      && PendingHalf(d.s) == PendAfterBits(r, bs, at, PendingHalf(s))
    else d.code == ONES || d.code != FromBits(acc + bs)
  }

  lemma RunFromNext(r: Remote, inp: seq<Half>, gap: Silence, s: Rec,
                    acc: seq<bool>, bs: seq<bool>, at: nat, rest: seq<Half>)
    requires bs != [] && ReadsValue(r, inp, s, bs[0], at) && (bs[0] || ZeroTold(r, at, PendingHalf(s)))
    requires var b := ReadBit(r, inp, s, at);
             && PendingHalf(b.s) == PendAfter(r, bs[0], at)
             && DecodesRun(r, inp, gap, b.s, acc + [bs[0]], bs[1..], at + 1, rest)
    ensures DecodesRun(r, inp, gap, s, acc, bs, at, rest)
  {
    NextBit(r, inp, s, acc, bs, at);
    assert acc + [bs[0]] + bs[1..] == acc + bs;
  }

  lemma {:induction false} BitsReadBack(r: Remote, inp: seq<Half>, gap: Silence, s: Rec,
                                        acc: seq<bool>, bs: seq<bool>, at: nat, rest: seq<Half>)
    requires BitCoded(r) && Follows(r, rest) && |acc| + |bs| <= 64
    requires At(inp, gap, s, BitTrain(r, bs, at) + rest)
    ensures DecodesRun(r, inp, gap, s, acc, bs, at, rest)
    decreases bs
  {
    if bs == [] {
      assert BitTrain(r, bs, at) + rest == rest;
      assert acc + bs == acc;
    } else {
      var tail := bs[1..];
      NextTrain(r, bs, at, rest);
      BitTrainFollows(r, tail, at + 1, rest);
      BitReadBack(r, inp, gap, s, bs[0], at, BitTrain(r, tail, at + 1) + rest);
      if bs[0] || ZeroTold(r, at, PendingHalf(s)) {
        BitsReadBack(r, inp, gap, ReadBit(r, inp, s, at).s, acc + [bs[0]], tail, at + 1, rest);
        RunFromNext(r, inp, gap, s, acc, bs, at, rest);
      } else {
        BitsReadWrong(r, inp, s, acc, bs, at);
      }
    }
  }

  // ----- the three fields of a signal

  /** The word actually sent for a field, toggle masks applied. */
  function SentWord(r: Remote, data: Word, bits: nat, done: nat): Word
    requires bits <= 64
  {
    FromBits(SentBits(r, data, bits, done))
  }

  function SentPre(r: Remote): Word
    requires r.BitCount() <= 64
  {
    SentWord(r, r.preData, r.preDataBits, 0)
  }

  function SentCode(r: Remote, code: Word): Word
    requires r.BitCount() <= 64
  {
    SentWord(r, code, r.bits, r.preDataBits)
  }

  function SentPost(r: Remote): Word
    requires r.BitCount() <= 64
  {
    SentWord(r, r.postData, r.postDataBits, r.preDataBits + r.bits)
  }

  /** The half pending before the first bit, the code and the post data. */
  function PendAtStart(r: Remote): (pend: seq<Half>)
    ensures |pend| <= 1
  {
    if r.plead > 0 then [Pulse(r.plead)] else if r.HasHeader() && !r.noHeadRep then [Space(r.shead)] else []
  }

  function PendAtCode(r: Remote, pend: seq<Half>): (p: seq<Half>)
    requires |pend| <= 1 && r.BitCount() <= 64
    ensures |p| <= 1
  {
    if r.HasPre() && r.HasPreGap() then [Space(r.preS)]
    else PendAfterBits(r, SentBits(r, r.preData, r.preDataBits, 0), 0, pend)
  }

  function PendAtPost(r: Remote, code: Word, pend: seq<Half>): (p: seq<Half>)
    requires |pend| <= 1 && r.BitCount() <= 64
    ensures |p| <= 1
  {
    if r.HasPost() && r.HasPostGap() then [Space(r.postS)]
    else PendAfterBits(r, SentBits(r, code, r.bits, r.preDataBits), r.preDataBits, pend)
  }

  predicate PreTold(r: Remote, pend: seq<Half>)
    requires |pend| <= 1 && r.BitCount() <= 64
  {
    ZerosTold(r, SentBits(r, r.preData, r.preDataBits, 0), 0, pend)
  }

  predicate CodeTold(r: Remote, code: Word, pend: seq<Half>)
    requires |pend| <= 1 && r.BitCount() <= 64
  {
    ZerosTold(r, SentBits(r, code, r.bits, r.preDataBits), r.preDataBits, pend)
  }

  predicate PostTold(r: Remote, pend: seq<Half>)
    requires |pend| <= 1 && r.BitCount() <= 64
  {
    ZerosTold(r, SentBits(r, r.postData, r.postDataBits, r.preDataBits + r.bits), r.preDataBits + r.bits, pend)
  }

  /** Every 0 of the whole signal is told from a 1. */
  predicate SignalTold(r: Remote, code: Word, pend: seq<Half>)
    requires |pend| <= 1 && r.BitCount() <= 64
  {
    && PreTold(r, pend)
    && CodeTold(r, code, PendAtCode(r, pend))
    && PostTold(r, PendAtPost(r, code, PendAtCode(r, pend)))
  }

  /** No field is sent as the word that the decoder reserves for failure. */
  predicate NoneReserved(r: Remote, code: Word)
    requires r.BitCount() <= 64
  {
    SentPre(r) != ONES && SentCode(r, code) != ONES && SentPost(r) != ONES
  }

  lemma FieldReadBack(r: Remote, inp: seq<Half>, gap: Silence, s: Rec, data: Word, bits: nat, done: nat,
                      rest: seq<Half>)
    requires BitCoded(r) && Follows(r, rest) && bits <= 64
    requires At(inp, gap, s, DataHalves(r, data, bits, done) + rest)
    ensures var d, bs := GetData(r, inp, s, bits, done), SentBits(r, data, bits, done);
            if ZerosTold(r, bs, done, PendingHalf(s)) then
              && d.code == FromBits(bs)
              && At(inp, gap, d.s, rest)
              && PendingHalf(d.s) == PendAfterBits(r, bs, done, PendingHalf(s))
            else d.code == ONES || d.code != FromBits(bs)
  {
    var bs := SentBits(r, data, bits, done);
    BitsReadBack(r, inp, gap, s, [], bs, done, rest);
    assert FromBits([]) == ZERO;
    assert [] + bs == bs;
  }

  /** A pulse and space between fields: the pulse is found and the space left pending. */
  lemma SeparatorFound(r: Remote, inp: seq<Half>, gap: Silence, s: Rec, p: nat, q: nat, rest: seq<Half>)
    requires p > 0 && q > 0 && At(inp, gap, s, [Pulse(p), Space(q)] + rest)
    ensures var e := ExpectPulse(r, inp, s, p);
            && e.ok
            && At(inp, gap, e.s.(pendings := q), rest)
            && PendingHalf(e.s.(pendings := q)) == [Space(q)]
  {
    assert [Pulse(p), Space(q)] + rest == [Pulse(p)] + ([Space(q)] + rest);
    MatchPulse(r, inp, gap, s, p, [Space(q)] + rest);
    var t := ExpectPulse(r, inp, s, p).s;
    SetPending(inp, gap, t, Space(q), rest, t.(pendings := q));
  }

  lemma PreReadBack(r: Remote, inp: seq<Half>, gap: Silence, s: Rec, rest: seq<Half>)
    requires BitCoded(r) && Follows(r, rest) && r.HasPre() && r.BitCount() <= 64
    requires At(inp, gap, s, PreHalves(r) + rest)
    ensures var d := GetPre(r, inp, s);
            if PreTold(r, PendingHalf(s)) && SentPre(r) != ONES then
              d.code == SentPre(r) && At(inp, gap, d.s, rest) && PendingHalf(d.s) == PendAtCode(r, PendingHalf(s))
            else d.code == ONES || d.code != SentPre(r)
  {
    hide At, GetData, DataHalves, ExpectPulse, ZerosTold, PendAfterBits, FromBits, SentBits;
    var field := DataHalves(r, r.preData, r.preDataBits, 0);
    var d := GetData(r, inp, s, r.preDataBits, 0);
    if r.HasPreGap() {
      var sep := [Pulse(r.preP), Space(r.preS)];
      assert PreHalves(r) + rest == field + (sep + rest);
      FieldReadBack(r, inp, gap, s, r.preData, r.preDataBits, 0, sep + rest);
      if PreTold(r, PendingHalf(s)) && SentPre(r) != ONES {
        SeparatorFound(r, inp, gap, d.s, r.preP, r.preS, rest);
      }
    } else {
      assert PreHalves(r) + rest == field + rest;
      FieldReadBack(r, inp, gap, s, r.preData, r.preDataBits, 0, rest);
    }
  }

  lemma PostReadBack(r: Remote, inp: seq<Half>, gap: Silence, s: Rec, rest: seq<Half>)
    requires BitCoded(r) && Follows(r, rest) && r.HasPost() && r.BitCount() <= 64
    requires At(inp, gap, s, PostHalves(r) + rest)
    ensures var d := GetPost(r, inp, s);
            var pend := if r.HasPostGap() then [Space(r.postS)] else PendingHalf(s);
            if PostTold(r, pend) then d.code == SentPost(r) && At(inp, gap, d.s, rest)
            else d.code == ONES || d.code != SentPost(r)
  {
    hide At, GetData, DataHalves, ExpectPulse, ZerosTold, PendAfterBits, FromBits, SentBits;
    var done := r.preDataBits + r.bits;
    var field := DataHalves(r, r.postData, r.postDataBits, done);
    if r.HasPostGap() {
      assert PostHalves(r) + rest == [Pulse(r.postP), Space(r.postS)] + (field + rest);
      SeparatorFound(r, inp, gap, s, r.postP, r.postS, field + rest);
      FieldReadBack(r, inp, gap, ExpectPulse(r, inp, s, r.postP).s.(pendings := r.postS),
                    r.postData, r.postDataBits, done, rest);
    } else {
      assert PostHalves(r) + rest == field + rest;
      FieldReadBack(r, inp, gap, s, r.postData, r.postDataBits, done, rest);
    }
  }

  lemma PostFollows(r: Remote, rest: seq<Half>)
    requires BitCoded(r) && Follows(r, rest) && r.BitCount() <= 64
    ensures Follows(r, PostHalves(r) + rest)
  {
    var done := r.preDataBits + r.bits;
    if !r.HasPost() {
      assert PostHalves(r) + rest == rest;
    } else if r.HasPostGap() {
      assert (PostHalves(r) + rest)[0] == Pulse(r.postP);
    } else {
      var bs := SentBits(r, r.postData, r.postDataBits, done);
      assert PostHalves(r) == [] + BitTrain(r, bs, done) == BitTrain(r, bs, done);
      BitTrainFollows(r, bs, done, rest);
    }
  }

  /** The fields come back as sent exactly when all 0s are told and no field is reserved. */
  ghost predicate FieldsRight(r: Remote, inp: seq<Half>, gap: Silence, s: Rec, code: Word, rest: seq<Half>)
    requires BitCoded(r) && r.BitCount() <= 64
  {
    var f := DecodeFields(r, inp, s);
    if SignalTold(r, code, PendingHalf(s)) && NoneReserved(r, code) then
      f.Fields? && f == Fields(SentPre(r), SentCode(r, code), SentPost(r), f.s) && At(inp, gap, f.s, rest)
    else f.NoFields? || f.pre != SentPre(r) || f.code != SentCode(r, code) || f.post != SentPost(r)
  }

  /** The code and the post data, once the pre data has come back. */
  lemma NoPostData(r: Remote, pend: seq<Half>)
    requires !r.HasPost() && r.BitCount() <= 64 && |pend| <= 1
    ensures PostTold(r, pend) && SentPost(r) == ZERO != ONES
  {
    assert FromBits([]) == ZERO && !ZERO[0] && ONES[0];
    assert SentBits(r, r.postData, 0, r.preDataBits + r.bits) == [];
  }

  lemma CodeAndPostReadBack(r: Remote, inp: seq<Half>, gap: Silence, s: Rec, code: Word, rest: seq<Half>)
    requires BitCoded(r) && Follows(r, rest) && r.BitCount() <= 64
    requires At(inp, gap, s, DataHalves(r, code, r.bits, r.preDataBits) + (PostHalves(r) + rest))
    ensures var pend := PendingHalf(s);
            var e := GetData(r, inp, s, r.bits, r.preDataBits);
            var p := if r.HasPost() then GetPost(r, inp, e.s) else Data(ZERO, e.s);
            if CodeTold(r, code, pend) && PostTold(r, PendAtPost(r, code, pend)) && SentCode(r, code) != ONES then
              e.code == SentCode(r, code) && p.code == SentPost(r) && At(inp, gap, p.s, rest)
            else || e.code == ONES || e.code != SentCode(r, code) || p.code == ONES || p.code != SentPost(r)
  {
    hide At, GetData, GetPost, ZerosTold, PendAfterBits, FromBits, SentBits, DataHalves;
    PostFollows(r, rest);
    FieldReadBack(r, inp, gap, s, code, r.bits, r.preDataBits, PostHalves(r) + rest);
    var e := GetData(r, inp, s, r.bits, r.preDataBits);
    if CodeTold(r, code, PendingHalf(s)) {
      if r.HasPost() {
        PostReadBack(r, inp, gap, e.s, rest);
      } else {
        assert PostHalves(r) + rest == rest;
        NoPostData(r, PendAtPost(r, code, PendingHalf(s)));
      }
    }
  }

  lemma NoPreData(r: Remote, pend: seq<Half>)
    requires !r.HasPre() && r.BitCount() <= 64 && |pend| <= 1
    ensures PreTold(r, pend) && SentPre(r) == ZERO != ONES && PendAtCode(r, pend) == pend
  {
    assert FromBits([]) == ZERO && !ZERO[0] && ONES[0];
    assert SentBits(r, r.preData, 0, 0) == [];
  }

  lemma FieldsReadBack(r: Remote, inp: seq<Half>, gap: Silence, s: Rec, code: Word, rest: seq<Half>)
    requires BitCoded(r) && Follows(r, rest) && r.BitCount() <= 64
    requires At(inp, gap, s, PreHalves(r) + (DataHalves(r, code, r.bits, r.preDataBits) + (PostHalves(r) + rest)))
    ensures FieldsRight(r, inp, gap, s, code, rest)
  {
    hide At, GetData, GetPre, GetPost, ZerosTold, PendAfterBits, FromBits, SentBits, PostHalves;
    var post := PostHalves(r) + rest;
    var field := DataHalves(r, code, r.bits, r.preDataBits) + post;
    PostFollows(r, rest);
    BitTrainFollows(r, SentBits(r, code, r.bits, r.preDataBits), r.preDataBits, post);
    var d := if r.HasPre() then GetPre(r, inp, s) else Data(ZERO, s);
    if r.HasPre() {
      PreReadBack(r, inp, gap, s, field);
    } else {
      assert PreHalves(r) + field == field;
      NoPreData(r, PendingHalf(s));
    }
    if PreTold(r, PendingHalf(s)) && SentPre(r) != ONES {
      CodeAndPostReadBack(r, inp, gap, d.s, code, rest);
    }
  }
}
