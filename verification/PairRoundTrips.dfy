/** For RC-MM and XMP remotes, exactly when a signal made by send_code is decoded to the word sent. */
module PairRoundTrips {
  import opened Options
  import opened Words
  import opened Waveform
  import opened Remotes
  import opened SendBuffers
  import opened Transmit
  import opened Decoding
  import opened OnAir
  import opened Codec
  import opened Tolerances
  import opened PairCodes
  import opened PairSignals

  // ----- where the lead is

  /** The lead still pending behind the pre data, and behind the separator in front of the post data. */
  function LeadAfterPre(r: Remote): nat { if r.HasPre() && r.HasPreGap() then 0 else r.plead }
  function LeadAfterPostGap(r: Remote): nat { if r.HasPost() && r.HasPostGap() then 0 else LeadAfterPre(r) }

  /** The lead heard as part of the first pulse of the code, of what follows the code, and of the post data. */
  function LeadOnCode(r: Remote): nat { if r.HasPre() then 0 else r.plead }
  function LeadOnPost(r: Remote): nat { if r.bits > 0 then 0 else LeadOnCode(r) }
  function LeadOnPostData(r: Remote): nat { if r.HasPostGap() then 0 else LeadOnPost(r) }

  predicate PreStood(r: Remote)
    requires PairCoded(r)
  {
    r.HasPre() ==>
      && FieldStood(r, r.preData, r.preDataBits, r.plead, None)
      && (r.HasPreGap() ==> Paid(r, r.plead, 0, r.preP))
  }

  predicate CodeStood(r: Remote, code: Word, gap: Silence)
    requires PairCoded(r)
  {
    FieldStood(r, code, r.bits, LeadOnCode(r),
               if r.ptrail > 0 || r.HasPost() then None else Some(LastSpace(r, code, r.bits, gap)))
  }

  predicate PostStood(r: Remote, gap: Silence)
    requires PairCoded(r)
  {
    r.HasPost() ==>
      && (r.HasPostGap() ==> Paid(r, LeadAfterPre(r), LeadOnPost(r), r.postP))
      && FieldStood(r, r.postData, r.postDataBits, LeadOnPostData(r),
                    if r.ptrail > 0 then None else Some(LastSpace(r, r.postData, r.postDataBits, gap)))
  }

  predicate FieldsStood(r: Remote, code: Word, gap: Silence)
    requires PairCoded(r)
  {
    && PreStood(r) && CodeStood(r, code, gap) && PostStood(r, gap)
    && Plain(r, code).pre != ONES && Plain(r, code).code != ONES && Plain(r, code).post != ONES
  }

  /** The exact condition: every pulse and space together are of a length that is read as their bits, the
      first with the lead and the last with the silence or the foot; no field is the failure value; and the
      lead is taken off the first pulse expected alone, the separator's or the trailing one. Without a
      trailing pulse there must be no foot, no lead left over and nothing behind the silence. */
  predicate PairFaithful(r: Remote, code: Word, gap: Silence)
    requires PairCoded(r)
  {
    && FieldsStood(r, code, gap)
    && if r.ptrail > 0 then Paid(r, LeadAfterPostGap(r), 0, r.ptrail)
       else !r.HasFoot() && LeadAfterPostGap(r) == 0 && |gap| == 1
  }

  // ----- the three fields

  lemma FieldsAligned(r: Remote)
    requires PairCoded(r)
    ensures Aligned(r, 0) && Aligned(r, r.preDataBits + r.bits)
  {
    AlignedSum(r, r.preDataBits, r.bits);
  }

  lemma EmptyFieldIsZero(w: Word)
    ensures And(w, Low(0)) == ZERO && ZERO != ONES
  {
    assert !ZERO[0] && ONES[0];
  }

  lemma EmptyEnds(a: seq<Half>)
    ensures [] + a == a && a + [] == a
  {}

  lemma PreGapped(r: Remote, rest: seq<Half>)
    requires PairCoded(r) && r.HasPre()
    ensures PreHalves(r) + rest ==
            DataHalves(r, r.preData, r.preDataBits, 0)
            + if r.HasPreGap() then [Pulse(r.preP), Space(r.preS)] + rest else rest
  {
    hide DataHalves;
    EmptyEnds(DataHalves(r, r.preData, r.preDataBits, 0));
  }

  lemma PostGapped(r: Remote, rest: seq<Half>)
    requires PairCoded(r) && r.HasPost()
    ensures var field := DataHalves(r, r.postData, r.postDataBits, r.preDataBits + r.bits) + rest;
            PostHalves(r) + rest == if r.HasPostGap() then [Pulse(r.postP), Space(r.postS)] + field else field
  {
    hide DataHalves;
    EmptyEnds(DataHalves(r, r.postData, r.postDataBits, r.preDataBits + r.bits));
  }

  lemma PreStep(r: Remote, inp: seq<Half>, gap: Silence, s: Rec, rest: seq<Half>)
    requires PairCoded(r) && rest != [] && rest[0].Pulse?
    requires Awaits(inp, gap, s, r.plead, Stretch(PreHalves(r) + rest, r.plead))
    ensures FieldOutcome(inp, gap, if r.HasPre() then GetPre(r, inp, s) else Data(ZERO, s), PreStood(r),
                         And(r.preData, Low(r.preDataBits)), LeadAfterPre(r), Stretch(rest, LeadOnCode(r)))
  {
    hide Awaits, GetData, DataHalves, PreHalves, FieldStood, And, Low, ExpectPulse, Paid;
    if !r.HasPre() {
      EmptyFieldIsZero(r.preData);
      NoPre(r, rest);
    } else {
      FieldsAligned(r);
      PreGapped(r, rest);
      StretchNone(rest);
      if r.HasPreGap() {
        var sep := [Pulse(r.preP), Space(r.preS)];
        StretchNone(sep + rest);
        FieldStep(r, inp, gap, s, r.plead, r.plead, r.preData, r.preDataBits, 0, sep + rest);
        if FieldStood(r, r.preData, r.preDataBits, r.plead, None) && And(r.preData, Low(r.preDataBits)) != ONES {
          SeparatorStep(r, inp, gap, GetData(r, inp, s, r.preDataBits, 0).s, r.plead, 0, r.preP, r.preS, rest);
        }
      } else {
        FieldStep(r, inp, gap, s, r.plead, r.plead, r.preData, r.preDataBits, 0, rest);
      }
    }
  }

  lemma NoPre(r: Remote, rest: seq<Half>)
    requires r.BitCount() <= 64 && !r.HasPre()
    ensures PreHalves(r) + rest == rest
  {}

  lemma NoPost(r: Remote, rest: seq<Half>)
    requires r.BitCount() <= 64 && !r.HasPost()
    ensures PostHalves(r) + rest == rest
  {}

  lemma NothingRead(inp: seq<Half>, gap: Silence, s: Rec, lead: nat, rest: seq<Half>)
    requires Awaits(inp, gap, s, lead, rest)
    ensures FieldOutcome(inp, gap, Data(ZERO, s), true, ZERO, lead, rest)
  {}

  lemma NoPostLead(r: Remote)
    requires PairCoded(r) && !r.HasPost()
    ensures LeadOnPost(r) == 0
  {}

  lemma PostIs(r: Remote, inp: seq<Half>, s: Rec)
    requires PairCoded(r)
    ensures var done, e := r.preDataBits + r.bits, ExpectPulse(r, inp, s, r.postP);
            GetPost(r, inp, s) ==
            if !r.HasPostGap() then GetData(r, inp, s, r.postDataBits, done)
            else if !e.ok then Data(ONES, e.s)
            else GetData(r, inp, e.s.(pendings := r.postS), r.postDataBits, done)
  {
    hide GetData, ExpectPulse;
  }

  lemma PostStep(r: Remote, inp: seq<Half>, gap: Silence, s: Rec, rest: seq<Half>)
    requires PairCoded(r) && r.ptrail > 0 && rest != [] && rest[0].Pulse?
    requires Awaits(inp, gap, s, LeadAfterPre(r), Stretch(PostHalves(r) + rest, LeadOnPost(r)))
    ensures FieldOutcome(inp, gap, if r.HasPost() then GetPost(r, inp, s) else Data(ZERO, s), PostStood(r, gap),
                         And(r.postData, Low(r.postDataBits)), LeadAfterPostGap(r), rest)
  {
    hide Awaits, GetData, GetPost, DataHalves, PostHalves, FieldStood, And, Low, Paid, LastSpace, LeadAfterPre;
    hide LeadOnPost, Aligned, Stretch, ExpectPulse, PostStood, FieldOutcome;
    StretchNone(rest);
    if !r.HasPost() {
      EmptyFieldIsZero(r.postData);
      NoPost(r, rest);
      NoPostLead(r);
      NoPostStood(r, gap);
      NothingRead(inp, gap, s, LeadAfterPre(r), rest);
    } else if r.HasPostGap() {
      PostGapStep(r, inp, gap, s, rest);
    } else {
      PostPlainStep(r, inp, gap, s, rest);
    }
  }

  lemma PostPlainStep(r: Remote, inp: seq<Half>, gap: Silence, s: Rec, rest: seq<Half>)
    requires PairCoded(r) && r.ptrail > 0 && rest != [] && rest[0].Pulse? && r.HasPost() && !r.HasPostGap()
    requires Awaits(inp, gap, s, LeadAfterPre(r), Stretch(PostHalves(r) + rest, LeadOnPost(r)))
    ensures FieldOutcome(inp, gap, GetPost(r, inp, s), PostStood(r, gap), And(r.postData, Low(r.postDataBits)),
                         LeadAfterPre(r), rest)
  {
    hide Awaits, GetData, GetPost, DataHalves, PostHalves, FieldStood, And, Low, ExpectPulse, Paid, LastSpace;
    hide LeadAfterPre, LeadOnPost, Aligned, Stretch;
    FieldsAligned(r);
    PostGapped(r, rest);
    PostIs(r, inp, s);
    StretchNone(rest);
    FieldStep(r, inp, gap, s, LeadAfterPre(r), LeadOnPost(r), r.postData, r.postDataBits, r.preDataBits + r.bits,
              rest);
  }

  lemma PostGapStep(r: Remote, inp: seq<Half>, gap: Silence, s: Rec, rest: seq<Half>)
    requires PairCoded(r) && r.ptrail > 0 && rest != [] && rest[0].Pulse? && r.HasPost() && r.HasPostGap()
    requires Awaits(inp, gap, s, LeadAfterPre(r), Stretch(PostHalves(r) + rest, LeadOnPost(r)))
    ensures FieldOutcome(inp, gap, GetPost(r, inp, s), PostStood(r, gap), And(r.postData, Low(r.postDataBits)), 0, rest)
  {
    hide Awaits, GetData, GetPost, DataHalves, PostHalves, FieldStood, And, Low, ExpectPulse, Paid, LastSpace;
    hide LeadAfterPre, LeadOnPost, Aligned, Stretch;
    var done := r.preDataBits + r.bits;
    var field := DataHalves(r, r.postData, r.postDataBits, done) + rest;
    FieldsAligned(r);
    PostGapped(r, rest);
    PostIs(r, inp, s);
    FieldStarts(r, r.postData, r.postDataBits, done, rest);
    StretchNone(field);
    StretchNone(rest);
    SeparatorStep(r, inp, gap, s, LeadAfterPre(r), LeadOnPost(r), r.postP, r.postS, field);
    if Paid(r, LeadAfterPre(r), LeadOnPost(r), r.postP) {
      FieldStep(r, inp, gap, ExpectPulse(r, inp, s, r.postP).s.(pendings := r.postS), 0, 0,
                r.postData, r.postDataBits, done, rest);
    }
  }

  lemma FieldStarts(r: Remote, data: Word, bits: nat, done: nat, rest: seq<Half>)
    requires PairCoded(r) && bits <= 64 && Aligned(r, bits) && Aligned(r, done)
    requires bits > 0 || (rest != [] && rest[0].Pulse?)
    ensures var all := DataHalves(r, data, bits, done) + rest; all != [] && all[0].Pulse?
  {
    hide DataHalves, FieldPairs;
    FieldIsPairs(r, data, bits, done);
    if bits > 0 {
      TrainStarts(FieldPairs(r, data, bits), rest);
    } else {
      EmptyTrain(rest);
    }
  }

  lemma PostLast(r: Remote, inp: seq<Half>, gap: Silence, s: Rec)
    requires PairCoded(r) && r.ptrail == 0 && r.HasPost()
    requires Awaits(inp, gap, s, LeadAfterPre(r), Stretch(PostHalves(r) + FootHalves(r), LeadOnPost(r)))
    ensures LastOutcome(r, inp, gap, GetPost(r, inp, s), PostStood(r, gap), And(r.postData, Low(r.postDataBits)),
                        LeadAfterPostGap(r))
  {
    hide Awaits, GetData, GetPost, DataHalves, PostHalves, FootHalves, FieldStood, And, Low, ExpectPulse, Paid;
    hide LastSpace, Left;
    FieldsAligned(r);
    PostGapped(r, FootHalves(r));
    PostIs(r, inp, s);
    var done := r.preDataBits + r.bits;
    if r.HasPostGap() {
      var field := DataHalves(r, r.postData, r.postDataBits, done) + FootHalves(r);
      FieldStarts(r, r.postData, r.postDataBits, done, FootHalves(r));
      StretchNone(field);
      SeparatorStep(r, inp, gap, s, LeadAfterPre(r), LeadOnPost(r), r.postP, r.postS, field);
      if Paid(r, LeadAfterPre(r), LeadOnPost(r), r.postP) {
        FieldLast(r, inp, gap, ExpectPulse(r, inp, s, r.postP).s.(pendings := r.postS), 0, 0,
                  r.postData, r.postDataBits, done);
      }
    } else {
      FieldLast(r, inp, gap, s, LeadAfterPre(r), LeadOnPost(r), r.postData, r.postDataBits, done);
    }
  }

  lemma PostStarts(r: Remote, rest: seq<Half>)
    requires PairCoded(r) && (r.HasPost() || (rest != [] && rest[0].Pulse?))
    ensures PostHalves(r) + rest != [] && (PostHalves(r) + rest)[0].Pulse?
  {
    hide DataHalves, PostHalves;
    FieldsAligned(r);
    if r.HasPost() {
      PostGapped(r, rest);
      FieldStarts(r, r.postData, r.postDataBits, r.preDataBits + r.bits, rest);
    } else {
      NoPost(r, rest);
    }
  }

  /** What the decoder makes of the fields, told or not. */
  ghost predicate FieldsRight(f: Fields, told: bool, sent: Decoded)
    requires sent.Decoded?
  {
    if told then f.Fields? && f.pre == sent.pre && f.code == sent.code && f.post == sent.post
    else f.NoFields? || f.pre != sent.pre || f.code != sent.code || f.post != sent.post
  }

  /** The decoder is behind the space that the silence was read as. */
  ghost predicate SilenceLeft(r: Remote, inp: seq<Half>, gap: Silence, s: Rec) {
    s.pendingp == LeadAfterPostGap(r) && s.pendings == 0 && Left(inp, s, Behind(r, gap))
  }

  /** The fields, and where the decoder is behind them. */
  ghost predicate FieldsHeard(r: Remote, inp: seq<Half>, gap: Silence, s: Rec, code: Word)
    requires PairCoded(r)
  {
    var f, told := DecodeFields(r, inp, s), FieldsStood(r, code, gap);
    && FieldsRight(f, told, Plain(r, code))
    && (told ==>
          if r.ptrail > 0 then Awaits(inp, gap, f.s, LeadAfterPostGap(r), TrailHalves(r) + FootHalves(r))
          else SilenceLeft(r, inp, gap, f.s))
  }

  lemma FieldsWithTrail(r: Remote, inp: seq<Half>, gap: Silence, s: Rec, code: Word)
    requires PairCoded(r) && r.ptrail > 0 && Awaits(inp, gap, s, r.plead, Stretch(Body(r, code), r.plead))
    ensures FieldsHeard(r, inp, gap, s, code)
  {
    hide Awaits, GetPre, GetData, GetPost, DataHalves, PreHalves, PostHalves, FootHalves, And, Low;
    hide PreStood, FieldStood, PostStood, LeadAfterPre, LeadAfterPostGap, LastSpace;
    FieldsAligned(r);
    var rest := TrailHalves(r) + FootHalves(r);
    var post := PostHalves(r) + rest;
    var field := DataHalves(r, code, r.bits, r.preDataBits) + post;
    PostStarts(r, rest);
    FieldStarts(r, code, r.bits, r.preDataBits, post);
    PreStep(r, inp, gap, s, field);
    var d := if r.HasPre() then GetPre(r, inp, s) else Data(ZERO, s);
    if PreStood(r) && Plain(r, code).pre != ONES {
      FieldStep(r, inp, gap, d.s, LeadAfterPre(r), LeadOnCode(r), code, r.bits, r.preDataBits, post);
      if CodeStood(r, code, gap) && Plain(r, code).code != ONES {
        PostStep(r, inp, gap, GetData(r, inp, d.s, r.bits, r.preDataBits).s, rest);
      }
    }
  }

  lemma FieldsWithoutTrail(r: Remote, inp: seq<Half>, gap: Silence, s: Rec, code: Word)
    requires PairCoded(r) && r.ptrail == 0 && Awaits(inp, gap, s, r.plead, Stretch(Body(r, code), r.plead))
    ensures FieldsHeard(r, inp, gap, s, code)
  {
    hide Awaits, GetPre, GetData, GetPost, DataHalves, PreHalves, PostHalves, FootHalves, And, Low;
    hide PreStood, FieldStood, PostStood, LeadAfterPre, LastSpace, Left, Behind;
    FieldsAligned(r);
    var rest := FootHalves(r);
    EmptyEnds(rest);
    var post := PostHalves(r) + rest;
    var field := DataHalves(r, code, r.bits, r.preDataBits) + post;
    if r.HasPost() { PostStarts(r, rest); }
    FieldStarts(r, code, r.bits, r.preDataBits, post);
    PreStep(r, inp, gap, s, field);
    var d := if r.HasPre() then GetPre(r, inp, s) else Data(ZERO, s);
    if PreStood(r) && Plain(r, code).pre != ONES {
      if r.HasPost() {
        FieldStep(r, inp, gap, d.s, LeadAfterPre(r), LeadOnCode(r), code, r.bits, r.preDataBits, post);
        if CodeStood(r, code, gap) && Plain(r, code).code != ONES {
          PostLast(r, inp, gap, GetData(r, inp, d.s, r.bits, r.preDataBits).s);
        }
      } else {
        NoPost(r, rest);
        EmptyFieldIsZero(r.postData);
        NoPostStood(r, gap);
        FieldLast(r, inp, gap, d.s, LeadAfterPre(r), LeadOnCode(r), code, r.bits, r.preDataBits);
      }
    }
  }

  lemma NoPostStood(r: Remote, gap: Silence)
    requires PairCoded(r) && !r.HasPost()
    ensures PostStood(r, gap) && LeadAfterPostGap(r) == LeadAfterPre(r)
  {}

  // ----- the signal fits the send buffer

  lemma {:induction false} SymbolTrainShape(r: Remote, bs: seq<bool>)
    requires PairCoded(r) && r.protocol.Rcmm?
    ensures Positive(SymbolTrain(r, bs)) && |SymbolTrain(r, bs)| <= |bs|
    decreases bs
  {
    if |bs| >= 2 {
      SymbolTrainShape(r, bs[2..]);
      PositiveConcat(SymbolHalves(r, bs[0], bs[1]), SymbolTrain(r, bs[2..]));
    }
  }

  lemma {:induction false} NibbleTrainShape(r: Remote, bs: seq<bool>)
    requires PairCoded(r)
    ensures Positive(NibbleTrain(r, bs)) && |NibbleTrain(r, bs)| <= |bs|
    decreases bs
  {
    if |bs| >= 4 {
      NibbleTrainShape(r, bs[4..]);
      Monotone(0, NibbleOf(bs[..4]), r.sone);
      PositiveConcat([Pulse(r.pzero), Space(r.szero + NibbleOf(bs[..4]) * r.sone)], NibbleTrain(r, bs[4..]));
    }
  }

  lemma PairFieldShape(r: Remote, data: Word, bits: nat, done: nat)
    requires PairCoded(r) && bits <= 64
    ensures Positive(DataHalves(r, data, bits, done)) && |DataHalves(r, data, bits, done)| <= bits
  {
    if r.protocol.Rcmm? {
      SymbolTrainShape(r, ToBits(data, bits));
    } else {
      NibbleTrainShape(r, ToBits(data, bits));
    }
  }

  lemma PairPreShape(r: Remote)
    requires PairCoded(r)
    ensures Positive(PreHalves(r)) && |PreHalves(r)| <= r.preDataBits + 2
  {
    PairFieldShape(r, r.preData, r.preDataBits, 0);
  }

  lemma PairPostShape(r: Remote)
    requires PairCoded(r)
    ensures Positive(PostHalves(r)) && |PostHalves(r)| <= r.postDataBits + 2
  {
    PairFieldShape(r, r.postData, r.postDataBits, r.preDataBits + r.bits);
  }

  lemma PairCodeShape(r: Remote, code: Word)
    requires PairCoded(r)
    ensures Positive(CodeHalves(r, code, false)) && |CodeHalves(r, code, false)| <= r.BitCount() + 10
  {
    PairPreShape(r);
    PairFieldShape(r, code, r.bits, r.preDataBits);
    PairPostShape(r);
    var h, l, e, c, p, t, f := HeaderHalves(r), LeadHalves(r), PreHalves(r),
      DataHalves(r, code, r.bits, r.preDataBits), PostHalves(r), TrailHalves(r), FootHalves(r);
    SevenParts(h, l, e, c, p, t, f);
    assert CodeHalves(r, code, false) == h + (l + (e + (c + (p + (t + f)))));
  }

  lemma PairOnAir(r: Remote, code: Word, before: nat, gap: Silence)
    requires PairCoded(r)
    requires var cs := CodeHalves(r, code, false); cs != [] && cs[0].Pulse?
    ensures var inp := Received(r, code, before, gap);
            && At(inp, gap, START, CodeHalves(r, code, false))
            && |inp| > |gap| && inp[1..|inp| - |gap|] == Signal(r, code) && |inp| - |gap| + 3 < RBUF_SIZE
  {
    hide CodeHalves, DropSpaces, Merge, Trim, At, Signal;
    var cs := CodeHalves(r, code, false);
    PairCodeShape(r, code);
    PairSignal(r, code);
    NothingDropped(cs);
    MergeShape(cs);
    HeardWhole(cs, Signal(r, code), before, gap);
  }

  lemma PairSignal(r: Remote, code: Word)
    requires PairCoded(r)
    ensures Signal(r, code) == Trim(Merge(DropSpaces(CodeHalves(r, code, false))))
    ensures |Signal(r, code)| <= r.BitCount() + 10
  {
    hide CodeHalves, Merge, DropSpaces, Synced, Run;
    var cs := CodeHalves(r, code, false);
    PairCodeShape(r, code);
    SyncedTrain(cs);
    SumIrrelevant(Run(EMPTY, cs), AfterCode(EMPTY, r, code, false).sum);
    DropSpacesShape(cs);
    MergeShape(DropSpaces(cs));
  }

  // ----- header, lead and end

  lemma PairHeaderFound(r: Remote, inp: seq<Half>, gap: Silence, rest: seq<Half>)
    requires PairCoded(r) && rest != [] && rest[0].Pulse? && r.HasHeader()
    requires At(inp, gap, START, HeaderHalves(r) + rest)
    ensures var h := GetHeader(r, inp, START);
            h.ok && h.s.pendingp == 0 && At(inp, gap, h.s, rest)
  {
    hide At, Air;
    if r.protocol.Rcmm? {
      HeaderPair(r, inp, gap, rest);
    } else if r.noHeadRep {
      OptionalHeaderFound(r, inp, gap, START, rest);
    } else {
      HeaderFound(r, inp, gap, START, rest);
    }
  }

  lemma HeaderPair(r: Remote, inp: seq<Half>, gap: Silence, rest: seq<Half>)
    requires r.protocol.Rcmm? && rest != [] && rest[0].Pulse? && r.HasHeader()
    requires At(inp, gap, START, HeaderHalves(r) + rest)
    ensures var h := GetHeader(r, inp, START);
            h.ok && h.s.pendingp == 0 && At(inp, gap, h.s, rest)
  {
    hide At, Air, Left, Remote.Expect;
    var pair := Pair(r.phead, r.shead);
    assert PairTrain([pair]) == HeaderHalves(r) by { assert [pair][1..] == []; }
    StartAwaits(inp, gap, HeaderHalves(r) + rest);
    AwaitsLeft(inp, gap, START, 0, HeaderHalves(r) + rest);
    AirPairs([pair], rest, gap);
    PairRead(inp, START, pair, Air(rest, gap));
    ExpectSelf(r, r.phead + r.shead);
    PositiveEnd(HeaderHalves(r), rest);
    var h := GetHeader(r, inp, START).s;
    LeftAwaits(inp, gap, h, 0, rest);
    assert h.(pendingp := 0) == h;
  }

  lemma StartAwaits(inp: seq<Half>, gap: Silence, cs: seq<Half>)
    requires At(inp, gap, START, cs)
    ensures Awaits(inp, gap, START, 0, cs)
  {
    assert START.(pendingp := 0) == START;
  }

  /** The lead stays pending and is heard with the first pulse. */
  lemma PairLead(r: Remote, inp: seq<Half>, gap: Silence, s: Rec, body: seq<Half>)
    requires body != [] && body[0].Pulse? && s.pendingp == 0 && At(inp, gap, s, LeadHalves(r) + body)
    ensures var l := GetLead(r, inp, s);
            l.ok && Awaits(inp, gap, l.s, r.plead, Stretch(body, r.plead))
  {
    hide Air;
    LeadFound(r, inp, gap, s, body);
    var t := GetLead(r, inp, s).s;
    StretchNone(body);
    if r.plead > 0 {
      AirLead(r.plead, body, gap);
      StretchPositive(body, r.plead);
      assert t.pendingp == r.plead && t.pendings == 0;
      assert [] + Stretch(body, r.plead) == Stretch(body, r.plead);
    } else {
      assert t.(pendingp := 0) == t;
    }
  }

  lemma StretchPositive(cs: seq<Half>, l: nat)
    requires Positive(cs)
    ensures Positive(Stretch(cs, l))
  {}

  lemma TrailEnd(r: Remote, inp: seq<Half>, gap: Silence, s: Rec, lead: nat)
    requires r.ptrail > 0 && Awaits(inp, gap, s, lead, TrailHalves(r) + FootHalves(r)) && |inp| > |gap|
    ensures DecodeEnd(r, inp, s, r.HasHeader()).ok <==>
            Paid(r, lead, 0, r.ptrail) && GapSuffices(r, gap, Total(inp[1..|inp| - |gap|]))
  {
    hide Awaits, At, GetFoot, GetGap, Paid, Remote.Expect, GapSuffices;
    PulseStep(r, inp, gap, s, lead, 0, r.ptrail, FootHalves(r));
    if Paid(r, lead, 0, r.ptrail) {
      EndBehindTrail(r, inp, gap, s, r.HasHeader());
    }
  }

  lemma FootMissed(r: Remote, inp: seq<Half>, gap: Silence, s: Rec)
    requires s.pendingp == 0 && s.pendings == 0 && s.rptr + 1 < RBUF_SIZE
    requires Left(inp, s, [Pulse(r.pfoot)] + gap) || (|gap| == 1 && Left(inp, s, gap))
    ensures !GetFoot(r, inp, s).ok
  {
    hide Remote.Expect, Total;
    if Left(inp, s, [Pulse(r.pfoot)] + gap) {
      OneRead(inp, s, Pulse(r.pfoot), gap);
    } else {
      assert gap == [gap[0]] + [];
      OneRead(inp, s, gap[0], []);
    }
  }

  /** Without a trailing pulse the signal ends well exactly without foot and pending lead, and if nothing
      comes behind the silence. */
  lemma NoTrailEnd(r: Remote, inp: seq<Half>, gap: Silence, s: Rec)
    requires r.ptrail == 0 && s.pendingp >= 0 && s.pendings == 0 && Left(inp, s, Behind(r, gap))
    requires (s.pendingp == 0 || |gap| == 1) && s.rptr + 2 < RBUF_SIZE
    ensures DecodeEnd(r, inp, s, r.HasHeader()).ok <==> !r.HasFoot() && s.pendingp == 0 && |gap| == 1
  {
    hide Remote.Expect, Total, GetFoot;
    if r.HasFoot() {
      if s.pendingp > 0 {
        OneRead(inp, s, Pulse(r.pfoot), gap);
        FootMissed(r, inp, gap, Advance(inp, s).(pendingp := 0));
      } else {
        FootMissed(r, inp, gap, s);
      }
    } else if |gap| == 1 {
      assert s.rptr == |inp|;
    } else {
      assert gap[1..] == [gap[1]] + gap[2..];
      assert !Alike(gap[0], gap[1]);
      OneRead(inp, s, gap[1], gap[2..]);
    }
  }

  // ----- the theorem

  lemma BodyStarts(r: Remote, code: Word)
    requires PairCoded(r)
    ensures Body(r, code) != [] && Body(r, code)[0].Pulse?
  {
    hide DataHalves, PreHalves, PostHalves;
    FieldsAligned(r);
    var rest := TrailHalves(r) + FootHalves(r);
    var post := PostHalves(r) + rest;
    if r.ptrail > 0 || r.HasPost() { PostStarts(r, rest); }
    FieldStarts(r, code, r.bits, r.preDataBits, post);
    var field := DataHalves(r, code, r.bits, r.preDataBits) + post;
    if r.HasPre() {
      PreGapped(r, field);
      FieldStarts(r, r.preData, r.preDataBits, 0,
                  if r.HasPreGap() then [Pulse(r.preP), Space(r.preS)] + field else field);
    } else {
      NoPre(r, field);
    }
  }

  lemma CodeStarts(r: Remote, code: Word)
    requires PairCoded(r)
    ensures CodeHalves(r, code, false) != [] && CodeHalves(r, code, false)[0].Pulse?
  {
    hide Body;
    BodyStarts(r, code);
    CodeIsBody(r, code);
  }

  /** Header and lead found, the decoder stands before the fields. */
  lemma PairStart(r: Remote, code: Word, before: nat, gap: Silence)
    requires PairCoded(r)
    ensures var inp := Received(r, code, before, gap);
            var h := if r.HasHeader() then GetHeader(r, inp, START) else Step(false, START);
            var l := GetLead(r, inp, h.s);
            && (r.HasHeader() ==> h.ok)
            && l.ok && Awaits(inp, gap, l.s, r.plead, Stretch(Body(r, code), r.plead))
            && |inp| > |gap| && inp[1..|inp| - |gap|] == Signal(r, code) && |inp| - |gap| + 3 < RBUF_SIZE
  {
    hide At, Awaits, Body, GetHeader, GetLead, Signal, Received, CodeHalves;
    var inp, body := Received(r, code, before, gap), Body(r, code);
    CodeStarts(r, code);
    BodyStarts(r, code);
    PairOnAir(r, code, before, gap);
    CodeIsBody(r, code);
    var e := LeadHalves(r) + body;
    FirstOf(LeadHalves(r), body);
    if r.HasHeader() {
      PairHeaderFound(r, inp, gap, e);
      PairLead(r, inp, gap, GetHeader(r, inp, START).s, body);
    } else {
      EmptyEnds(e);
      PairLead(r, inp, gap, START, body);
    }
  }

  /** For every RC-MM or XMP remote and every code: the signal is decoded to the pre data, code and post data
      sent exactly under this condition, and if a trailing pulse shows where the silence begins, only if
      that is long enough; if all but this holds, nothing is decoded. */
  lemma PairRoundTrip(r: Remote, code: Word, before: nat, gap: Silence)
    requires PairCoded(r) && before > 0
    requires r.ptrail > 0 || LeadAfterPostGap(r) == 0 || |gap| == 1
    ensures var d := ReceiveDecode(r, Received(r, code, before, gap));
            && (d == Plain(r, code) <==>
                  && PairFaithful(r, code, gap)
                  && (r.ptrail > 0 ==> GapSuffices(r, gap, Total(Signal(r, code)))))
            && (FieldsStood(r, code, gap) && d != Plain(r, code) ==> d == Failed)
  {
    hide Awaits, Body, GetHeader, GetLead, DecodeFields, DecodeEnd, Signal, FieldsStood, Received, GapSuffices, Behind;
    hide Left, Paid;
    var inp := Received(r, code, before, gap);
    PairModelled(r);
    PairStart(r, code, before, gap);
    ReceivedStart(r, code, before, gap);
    SyncFound(inp, before);
    var h := if r.HasHeader() then GetHeader(r, inp, START) else Step(false, START);
    var l := GetLead(r, inp, h.s);
    var f := DecodeFields(r, inp, l.s);
    if r.ptrail > 0 {
      FieldsWithTrail(r, inp, gap, l.s, code);
      if FieldsStood(r, code, gap) {
        TrailEnd(r, inp, gap, f.s, LeadAfterPostGap(r));
      }
    } else {
      FieldsWithoutTrail(r, inp, gap, l.s, code);
      if FieldsStood(r, code, gap) {
        BehindNear(r, inp, gap, f.s);
        NoTrailEnd(r, inp, gap, f.s);
      }
    }
  }

  lemma BehindNear(r: Remote, inp: seq<Half>, gap: Silence, s: Rec)
    requires Left(inp, s, Behind(r, gap)) && |inp| - |gap| + 3 < RBUF_SIZE
    ensures s.rptr + 2 < RBUF_SIZE
  {
    assert |inp[s.rptr..]| == |Behind(r, gap)|;
  }

  // ----- what it comes to

  lemma PlainField(r: Remote, data: Word, bits: nat)
    requires PairCoded(r) && bits <= 64 && Aligned(r, bits)
    ensures FieldStood(r, data, bits, 0, None) <==> (r.protocol.Rcmm? ==> SymbolsTold(r, ToBits(data, bits)))
  {
    hide ExactPairs, SymbolPairs, Carries, SymbolsStood, SymbolsTold, ToBits;
    var pairs := FieldPairs(r, data, bits);
    assert Stretched(pairs, 0) == pairs;
    if r.protocol.Xmp? {
      ExactPairsCarry(r, ToBits(data, bits));
    } else {
      ExactSymbols(r, ToBits(data, bits));
    }
  }

  /** With a trailing pulse and no lead every code of an XMP remote comes back, if no field is the failure
      value; and every code of an RC-MM remote whose symbols are told from the smaller ones. */
  lemma PlainlyFaithful(r: Remote, code: Word, gap: Silence)
    requires PairCoded(r) && r.plead == 0 && r.ptrail > 0
    ensures PairFaithful(r, code, gap) <==>
            && Plain(r, code).pre != ONES && Plain(r, code).code != ONES && Plain(r, code).post != ONES
            && (r.protocol.Rcmm? ==>
                  && (r.HasPre() ==> SymbolsTold(r, ToBits(r.preData, r.preDataBits)))
                  && SymbolsTold(r, ToBits(code, r.bits))
                  && (r.HasPost() ==> SymbolsTold(r, ToBits(r.postData, r.postDataBits))))
  {
    hide FieldStood, Paid, Plain, SymbolsTold, ToBits;
    PaidInFull(r, 0, r.preP);
    PaidInFull(r, 0, r.postP);
    PaidInFull(r, 0, r.ptrail);
    PlainField(r, r.preData, r.preDataBits);
    PlainField(r, code, r.bits);
    PlainField(r, r.postData, r.postDataBits);
  }

  lemma {:induction false} CarriesLast(r: Remote, pairs: seq<Pair>, bs: seq<bool>)
    requires |bs| == 4 * |pairs| && pairs != [] && Carries(r, pairs, bs)
    ensures var last, n := pairs[|pairs| - 1], NibbleOf(bs[|bs| - 4..]);
            ErrorStood(r.sone, n, ErrorOf(r, last.p + last.q, n))
    decreases pairs
  {
    hide ErrorStood, NibbleOf, ErrorOf;
    if |pairs| == 1 {
      assert bs[..4] == bs[|bs| - 4..] == bs;
    } else {
      assert bs[4..][|bs[4..]| - 4..] == bs[|bs| - 4..];
      CarriesLast(r, pairs[1..], bs[4..]);
    }
  }

  /** A silence of sixteen units is no nibble. */
  lemma TooLongForNibble(r: Remote, p: nat, gap: nat, n: nat)
    requires r.sone > 0 && n < 16 && p >= r.pzero && gap >= r.szero + 16 * r.sone
    ensures !ErrorStood(r.sone, n, ErrorOf(r, p + gap, n))
  {
    Monotone(n, 15, r.sone);
  }

  /** Of an XMP remote without a trailing pulse no code comes back, once the silence is longer than every
      space: it is read as the last one. */
  lemma SilenceSpoilsXmp(r: Remote, code: Word, before: nat, gap: Silence)
    requires PairCoded(r) && r.protocol.Xmp? && r.ptrail == 0 && before > 0
    requires gap[0].dur >= r.szero + 16 * r.sone && (LeadAfterPostGap(r) == 0 || |gap| == 1)
    ensures ReceiveDecode(r, Received(r, code, before, gap)) != Plain(r, code)
  {
    hide ReceiveDecode, Received, Plain, Signal, FieldStood;
    PairRoundTrip(r, code, before, gap);
    if PairFaithful(r, code, gap) {
      if r.HasPost() {
        SilentField(r, r.postData, r.postDataBits, LeadOnPostData(r), gap);
      } else {
        SilentField(r, code, r.bits, LeadOnCode(r), gap);
      }
    }
  }

  lemma SilentField(r: Remote, data: Word, bits: nat, l: nat, gap: Silence)
    requires PairCoded(r) && r.protocol.Xmp? && 0 < bits <= 64 && Aligned(r, bits) && !r.HasFoot()
    requires gap[0].dur >= r.szero + 16 * r.sone
    ensures !FieldStood(r, data, bits, l, Some(LastSpace(r, data, bits, gap)))
  {
    hide ErrorStood, ErrorOf, NibbleOf, Carries, ExactPairs;
    var bs, pairs := ToBits(data, bits), FieldPairs(r, data, bits);
    ExactPulses(r, bs);
    var heard := WithLast(Stretched(pairs, l), gap[0].dur);
    if Carries(r, heard, bs) {
      CarriesLast(r, heard, bs);
      NibbleInverse(bs[|bs| - 4..]);
      TooLongForNibble(r, heard[|heard| - 1].p, gap[0].dur, NibbleOf(bs[|bs| - 4..]));
    }
  }

  lemma {:induction false} ExactPulses(r: Remote, bs: seq<bool>)
    ensures forall i | 0 <= i < |ExactPairs(r, bs)| :: ExactPairs(r, bs)[i].p == r.pzero
    decreases bs
  {
    if |bs| >= 4 {
      ExactPulses(r, bs[4..]);
    }
  }

  /** An XMP remote with a lead pulse as long as its trailing one. */
  const LED_XMP := Remote(
    Xmp, false, false, false, false, 16, 30, 100, 0,
    0, 0, 0, 0, 0, 0, 210, 136, 210, 760, 210, 210, 0, 0, 0, 0,
    0, ZERO, 0, ZERO, 0, 0, 0, 0, 80000, 0, 0,
    ZERO, ZERO, ZERO, ZERO, ZERO, 0)

  /** No code of it comes back: the lead is taken off the trailing pulse, and nothing is left of that. */
  lemma LeadSpoilsXmp(code: Word, before: nat, gap: Silence)
    requires before > 0
    ensures ReceiveDecode(LED_XMP, Received(LED_XMP, code, before, gap)) != Plain(LED_XMP, code)
  {
    hide ReceiveDecode, Received, Plain, Signal, FieldStood, GapSuffices;
    PairRoundTrip(LED_XMP, code, before, gap);
    assert !Paid(LED_XMP, 210, 0, 210);
  }
}
