/** For space-encoded remotes with a trailing pulse and no lead, what the decoder makes of anything the driver
    delivers: it matches one item after the other, without ever going back. */
module Matching {
  import opened Options
  import opened Words
  import opened Waveform
  import opened Remotes
  import opened Decoding
  import opened BitReading
  import opened RoundTrip
  import opened Codec

  /** The remotes of this comparison. */
  predicate Stepwise(r: Remote) {
    PulseLed(r) && 0 < r.BitCount() <= 64 && r.plead == 0 && r.ptrail > 0
  }

  /** Spaces and pulses in turn, a space first. */
  ghost predicate Delivered(inp: seq<Half>) {
    && inp != [] && Positive(inp)
    && forall i | 0 <= i < |inp| :: inp[i].Space? <==> i % 2 == 0
  }

  // ----- the matcher

  /** Item i is there and of the expected length. */
  predicate Meets(r: Remote, inp: seq<Half>, i: nat, dur: nat) {
    i < Limit(inp) && r.Expect(inp[i].dur, dur)
  }

  /** A pulse and a space from item i on. */
  predicate MeetsPair(r: Remote, inp: seq<Half>, i: nat, p: nat, q: nat) {
    Meets(r, inp, i, p) && Meets(r, inp, i + 1, q)
  }

  /** n bits from item i on. */
  function MatchBits(r: Remote, inp: seq<Half>, i: nat, n: nat): (bs: Option<seq<bool>>)
    ensures bs.Some? ==> |bs.value| == n
    decreases n
  {
    if n == 0 then Some([])
    else
      var later := MatchBits(r, inp, i + 2, n - 1);
      if later.None? then None
      else if MeetsPair(r, inp, i, r.pone, r.sone) then Some([true] + later.value)
      else if MeetsPair(r, inp, i, r.pzero, r.szero) then Some([false] + later.value)
      else None
  }

  /** Where the item behind the pre data stands, if that and the separator match; likewise for the others. */
  function PreEnd(r: Remote, i: nat): nat {
    i + 2 * r.preDataBits + if r.HasPre() && r.HasPreGap() then 2 else 0
  }

  function PostStart(r: Remote, i: nat): nat {
    i + 2 * r.bits + if r.HasPost() && r.HasPostGap() then 2 else 0
  }

  predicate PreGapMet(r: Remote, inp: seq<Half>, i: nat) {
    r.HasPre() && r.HasPreGap() ==> MeetsPair(r, inp, i + 2 * r.preDataBits, r.preP, r.preS)
  }

  predicate PostGapMet(r: Remote, inp: seq<Half>, i: nat) {
    r.HasPost() && r.HasPostGap() ==> MeetsPair(r, inp, i + 2 * r.bits, r.postP, r.postS)
  }

  /** Trailing pulse, foot and silence from item i on, when the first `skipped` microseconds do not count. */
  predicate EndMet(r: Remote, inp: seq<Half>, i: nat, skipped: nat) {
    var k := if r.HasFoot() then i + 3 else i + 1;
    && Meets(r, inp, i, r.ptrail)
    && (r.HasFoot() ==> Meets(r, inp, i + 1, r.sfoot) && Meets(r, inp, i + 2, r.pfoot))
    && (k < Limit(inp) ==> LongEnough(r, inp[k].dur, Total(inp[1..k]) - skipped))
  }

  /** The signal from item i on. */
  function MatchFrom(r: Remote, inp: seq<Half>, i: nat, skipped: nat): Decoded {
    var pre := MatchBits(r, inp, i, r.preDataBits);
    var code := MatchBits(r, inp, PreEnd(r, i), r.bits);
    var post := MatchBits(r, inp, PostStart(r, PreEnd(r, i)), r.postDataBits);
    if || pre.None? || code.None? || post.None?
       || FromBits(pre.value) == ONES || FromBits(code.value) == ONES || FromBits(post.value) == ONES
       || !PreGapMet(r, inp, i) || !PostGapMet(r, inp, PreEnd(r, i))
       || !EndMet(r, inp, PostStart(r, PreEnd(r, i)) + 2 * r.postDataBits, skipped) then Failed
    else Decoded(FromBits(pre.value), FromBits(code.value), FromBits(post.value))
  }

  /** The whole: a header must match, unless it is optional and the silence in front no longer than the
      longest gap. An optional header is measured by the space that is there. */
  function Matched(r: Remote, inp: seq<Half>): Decoded
    requires inp != []
  {
    if !r.HasHeader() then MatchFrom(r, inp, 1, 0)
    else if !r.noHeadRep then
      if MeetsPair(r, inp, 1, r.phead, r.shead) then MatchFrom(r, inp, 3, 0) else Failed
    else if Meets(r, inp, 1, r.phead) && 2 < Limit(inp) && r.Expect(r.shead, inp[2].dur) then
      MatchFrom(r, inp, 3, if r.constLength then r.phead + r.shead else 0)
    else
      var longest := if r.gap2 > r.gap then r.gap2 else r.gap;
      if inp[0].dur <= longest + Larger(longest * r.eps / 100, Larger(r.aeps, r.resolution)) then
        MatchFrom(r, inp, 1, 0)
      else Failed
  }

  function Larger(a: int, b: int): int { if a > b then a else b }

  // ----- the decoder's state

  /** The decoder stands before item i, everything before it matched; perhaps the space just before it is
      still to be looked at. */
  ghost predicate Ready(r: Remote, inp: seq<Half>, s: Rec, i: nat) {
    && i % 2 == 1 && i <= |inp| && s.pendingp == 0 && s.pendings >= 0
    && (if s.pendings == 0 then s.rptr == i else s.rptr == i - 1 && i - 1 > 0 && Meets(r, inp, i - 1, s.pendings))
    && s.sum == Total(inp[1..s.rptr])
  }

  /** The space that is pending will not be found, whatever is tried. */
  ghost predicate Doomed(r: Remote, inp: seq<Half>, s: Rec) {
    && s.pendingp == 0 && s.pendings > 0 && 2 <= s.rptr <= |inp| && s.rptr % 2 == 0
    && !Meets(r, inp, s.rptr, s.pendings)
  }

  lemma SumNext(inp: seq<Half>, i: nat)
    requires 1 <= i < |inp|
    ensures Total(inp[1..i + 1]) == Total(inp[1..i]) + inp[i].dur
  {
    assert inp[1..i + 1] == inp[1..i] + [inp[i]];
    TotalConcat(inp[1..i], [inp[i]]);
    assert Total([inp[i]]) == inp[i].dur + Total([inp[i]][1..]);
  }

  /** The state before item i with nothing pending. */
  function Before(inp: seq<Half>, i: nat): Rec
    requires 1 <= i <= |inp|
  {
    Rec(i, Total(inp[1..i]), 0, 0)
  }

  lemma ReadySynced(r: Remote, inp: seq<Half>, s: Rec, i: nat)
    requires Delivered(inp) && Ready(r, inp, s, i)
    ensures SyncPendingSpace(r, inp, s) == Step(true, Before(inp, i))
  {
    if s.pendings > 0 {
      SumNext(inp, i - 1);
    }
  }

  /** An expected pulse is one item. */
  lemma PulseMatched(r: Remote, inp: seq<Half>, s: Rec, i: nat, dur: nat)
    requires Delivered(inp) && Ready(r, inp, s, i)
    ensures var p := ExpectPulse(r, inp, s, dur);
            && p.ok == Meets(r, inp, i, dur)
            && (if i < Limit(inp) then p.s == Before(inp, i + 1) else p.s == Before(inp, i))
  {
    ReadySynced(r, inp, s, i);
    if i < Limit(inp) {
      SumNext(inp, i);
    }
  }

  lemma SpaceMatched(r: Remote, inp: seq<Half>, i: nat, dur: nat)
    requires Delivered(inp) && i % 2 == 0 && 1 <= i <= |inp|
    ensures var q := ExpectSpace(r, inp, Before(inp, i), dur);
            && q.ok == Meets(r, inp, i, dur)
            && (if i < Limit(inp) then q.s == Before(inp, i + 1) else q.s == Before(inp, i))
  {
    if i < Limit(inp) {
      SumNext(inp, i);
    }
  }

  /** The state in front of an earlier pulse is given back. */
  lemma Back(inp: seq<Half>, i: nat)
    requires 1 <= i < |inp|
    ensures Unget1(inp, Before(inp, i + 1)) == Before(inp, i)
    ensures i + 1 < |inp| ==> Unget2(inp, Before(inp, i + 2)) == Before(inp, i)
  {
    SumNext(inp, i);
    if i + 1 < |inp| { SumNext(inp, i + 1); }
  }

  // ----- bits

  lemma BeforeReady(r: Remote, inp: seq<Half>, i: nat)
    requires Delivered(inp) && i % 2 == 1 && i <= |inp|
    ensures Ready(r, inp, Before(inp, i), i)
  {}

  /** A 1 is tried, and on failure the decoder stands in front of the pulse again. */
  lemma OneTried(r: Remote, inp: seq<Half>, s: Rec, i: nat, at: nat)
    requires Stepwise(r) && Delivered(inp) && Ready(r, inp, s, i) && i + 1 < Limit(inp)
    ensures ExpectOne(r, inp, s, at) ==
            if MeetsPair(r, inp, i, r.pone, r.sone) then Step(true, Before(inp, i + 2)) else Step(false, Before(inp, i))
  {
    PulseMatched(r, inp, s, i, r.pone);
    SpaceMatched(r, inp, i + 1, r.sone);
    Back(inp, i);
  }

  lemma ZeroTried(r: Remote, inp: seq<Half>, i: nat, at: nat)
    requires Stepwise(r) && Delivered(inp) && i % 2 == 1 && i + 1 < Limit(inp)
    ensures ExpectZero(r, inp, Before(inp, i), at) ==
            if MeetsPair(r, inp, i, r.pzero, r.szero) then
              Step(true, Before(inp, i + 2))
            else
              Step(false, Before(inp, i))
  {
    BeforeReady(r, inp, i);
    PulseMatched(r, inp, Before(inp, i), i, r.pzero);
    SpaceMatched(r, inp, i + 1, r.szero);
    Back(inp, i);
  }

  /** A pulse is looked for at a space, or behind the end. */
  lemma NoPulseHere(r: Remote, inp: seq<Half>, s: Rec, dur: nat)
    requires Delivered(inp) && s.pendingp == 0 && s.pendings == 0 && s.rptr >= 0
    requires s.rptr % 2 == 0 || s.rptr >= Limit(inp)
    ensures !ExpectPulse(r, inp, s, dur).ok
  {}

  /** At the end of what is delivered no bit is found. */
  lemma BitAtEnd(r: Remote, inp: seq<Half>, s: Rec, i: nat, at: nat)
    requires Stepwise(r) && Delivered(inp) && Ready(r, inp, s, i) && i + 1 >= Limit(inp)
    ensures ReadBit(r, inp, s, at).NoBit?
  {
    PulseMatched(r, inp, s, i, r.pone);
    var one := ExpectOne(r, inp, s, at);
    if i < Limit(inp) {
      assert i + 1 <= |inp|;
      if Meets(r, inp, i, r.pone) {
        SpaceMatched(r, inp, i + 1, r.sone);
        assert one == Step(false, Unget2(inp, Before(inp, i + 1)));
        NoPulseHere(r, inp, one.s, r.pzero);
      } else {
        Back(inp, i);
        assert one == Step(false, Before(inp, i));
        ZeroAtEnd(r, inp, i, at);
      }
    } else {
      assert one == Step(false, Unget1(inp, Before(inp, i)));
      NoPulseHere(r, inp, one.s, r.pzero);
    }
  }

  lemma ZeroAtEnd(r: Remote, inp: seq<Half>, i: nat, at: nat)
    requires Stepwise(r) && Delivered(inp) && i % 2 == 1 && i < Limit(inp) <= i + 1
    ensures !ExpectZero(r, inp, Before(inp, i), at).ok
  {
    BeforeReady(r, inp, i);
    PulseMatched(r, inp, Before(inp, i), i, r.pzero);
    SpaceMatched(r, inp, i + 1, r.szero);
  }

  lemma DoomedBit(r: Remote, inp: seq<Half>, s: Rec, at: nat)
    requires Stepwise(r) && Delivered(inp) && Doomed(r, inp, s)
    ensures ReadBit(r, inp, s, at).NoBit?
  {
    assert !SyncPendingSpace(r, inp, s).ok;
    var one := ExpectOne(r, inp, s, at);
    if CanGet(inp, s) {
      assert one == Step(false, s);
    } else {
      assert one.s.rptr == s.rptr - 1 && one.s.pendings == s.pendings;
      assert !SyncPendingSpace(r, inp, one.s).ok;
    }
  }

  /** n bits, when the decoder is ready for them. */
  ghost predicate BitsMatched(r: Remote, inp: seq<Half>, s: Rec, i: nat, acc: seq<bool>, n: nat, at: nat) {
    var d, bs := GetBits(r, inp, s, FromBits(acc), n, at), MatchBits(r, inp, i, n);
    if bs.None? then d.code == ONES else d.code == FromBits(acc + bs.value) && Ready(r, inp, d.s, i + 2 * n)
  }

  lemma {:induction false} NoneLater(r: Remote, inp: seq<Half>, i: nat, n: nat)
    requires n > 0 && !MeetsPair(r, inp, i, r.pone, r.sone) && !MeetsPair(r, inp, i, r.pzero, r.szero)
    ensures MatchBits(r, inp, i, n).None?
  {}

  lemma NextMatched(r: Remote, inp: seq<Half>, s: Rec, i: nat, acc: seq<bool>, n: nat, at: nat, bit: bool)
    requires n > 0 && i + 2 <= |inp| && ReadBit(r, inp, s, at) == BitRead(bit, Before(inp, i + 2))
    requires bit == MeetsPair(r, inp, i, r.pone, r.sone)
    requires bit || MeetsPair(r, inp, i, r.pzero, r.szero)
    requires BitsMatched(r, inp, Before(inp, i + 2), i + 2, acc + [bit], n - 1, at + 1)
    ensures BitsMatched(r, inp, s, i, acc, n, at)
  {
    hide ReadBit, MeetsPair, FromBits, Ready;
    AppendBit(acc, bit);
    var later := MatchBits(r, inp, i + 2, n - 1);
    if later.Some? {
      assert (acc + [bit]) + later.value == acc + ([bit] + later.value);
    }
  }

  lemma {:induction false} BitsAreMatched(r: Remote, inp: seq<Half>, s: Rec, i: nat, acc: seq<bool>, n: nat, at: nat)
    requires Stepwise(r) && Delivered(inp) && Ready(r, inp, s, i)
    ensures BitsMatched(r, inp, s, i, acc, n, at)
    decreases n
  {
    hide ReadBit, MeetsPair, FromBits, Remote.Expect;
    if n == 0 {
      assert acc + [] == acc;
    } else if i + 1 >= Limit(inp) {
      BitAtEnd(r, inp, s, i, at);
      TooShort(r, inp, i, n);
    } else {
      BitIs(r, inp, s, i, at);
      var one, zero := MeetsPair(r, inp, i, r.pone, r.sone), MeetsPair(r, inp, i, r.pzero, r.szero);
      if one || zero {
        BeforeReady(r, inp, i + 2);
        BitsAreMatched(r, inp, Before(inp, i + 2), i + 2, acc + [one], n - 1, at + 1);
        NextMatched(r, inp, s, i, acc, n, at, one);
      } else {
        NoneLater(r, inp, i, n);
      }
    }
  }

  lemma TooShort(r: Remote, inp: seq<Half>, i: nat, n: nat)
    requires n > 0 && i + 1 >= Limit(inp)
    ensures MatchBits(r, inp, i, n).None?
  {}

  lemma BitIs(r: Remote, inp: seq<Half>, s: Rec, i: nat, at: nat)
    requires Stepwise(r) && Delivered(inp) && Ready(r, inp, s, i) && i + 1 < Limit(inp)
    ensures ReadBit(r, inp, s, at) ==
            if MeetsPair(r, inp, i, r.pone, r.sone) then BitRead(true, Before(inp, i + 2))
            else if MeetsPair(r, inp, i, r.pzero, r.szero) then BitRead(false, Before(inp, i + 2))
            else NoBit(Before(inp, i))
  {
    hide ExpectOne, ExpectZero, MeetsPair;
    OneTried(r, inp, s, i, at);
    ZeroTried(r, inp, i, at);
  }

  // ----- fields and separators

  /** A pulse and space of the description: the pulse is matched now, the space later. */
  lemma SeparatorMatched(r: Remote, inp: seq<Half>, s: Rec, i: nat, p: nat, q: nat)
    requires Delivered(inp) && Ready(r, inp, s, i) && p > 0 && q > 0
    ensures var e := ExpectPulse(r, inp, s, p);
            && e.ok == Meets(r, inp, i, p)
            && (e.ok ==>
                  var t := e.s.(pendings := q);
                  if Meets(r, inp, i + 1, q) then Ready(r, inp, t, i + 2) else Doomed(r, inp, t))
  {
    hide Remote.Expect;
    PulseMatched(r, inp, s, i, p);
  }

  lemma DoomedPulse(r: Remote, inp: seq<Half>, s: Rec, dur: nat)
    requires Delivered(inp) && Doomed(r, inp, s)
    ensures !ExpectPulse(r, inp, s, dur).ok
  {
    hide Remote.Expect;
  }

  /** A part that matches leaves the decoder ready for item i; else it fails, or what follows will. */
  ghost predicate Staged(r: Remote, inp: seq<Half>, d: Data, met: bool, word: Word, i: nat) {
    if met && word != ONES then d.code == word && Ready(r, inp, d.s, i) else d.code == ONES || Doomed(r, inp, d.s)
  }

  function WordOf(bs: Option<seq<bool>>): Word {
    if bs.Some? then FromBits(bs.value) else ONES
  }

  lemma FieldMatched(r: Remote, inp: seq<Half>, s: Rec, i: nat, n: nat, done: nat)
    requires Stepwise(r) && Delivered(inp) && Ready(r, inp, s, i)
    ensures var bs := MatchBits(r, inp, i, n);
            Staged(r, inp, GetData(r, inp, s, n, done), bs.Some?, WordOf(bs), i + 2 * n)
  {
    hide Ready, MatchBits;
    NoBitsYet();
    BitsAreMatched(r, inp, s, i, [], n, done);
    var bs := MatchBits(r, inp, i, n);
    if bs.Some? {
      assert [] + bs.value == bs.value;
    }
  }

  lemma NoBitsYet()
    ensures FromBits([]) == ZERO && ZERO != ONES
  {
    assert !ZERO[0] && ONES[0];
  }

  lemma DoomedField(r: Remote, inp: seq<Half>, s: Rec, n: nat, done: nat)
    requires Stepwise(r) && Delivered(inp) && Doomed(r, inp, s)
    ensures var d := GetData(r, inp, s, n, done); d.code == ONES || Doomed(r, inp, d.s)
  {
    hide ReadBit;
    if n > 0 {
      DoomedBit(r, inp, s, done);
    }
  }

  lemma PreMatched(r: Remote, inp: seq<Half>, s: Rec, i: nat)
    requires Stepwise(r) && Delivered(inp) && Ready(r, inp, s, i)
    ensures var bs := MatchBits(r, inp, i, r.preDataBits);
            Staged(r, inp, if r.HasPre() then GetPre(r, inp, s) else Data(ZERO, s),
                   bs.Some? && PreGapMet(r, inp, i), WordOf(bs), PreEnd(r, i))
  {
    hide Ready, Doomed, GetData, ExpectPulse, Meets;
    NoBitsYet();
    FieldMatched(r, inp, s, i, r.preDataBits, 0);
    var bs := MatchBits(r, inp, i, r.preDataBits);
    if r.HasPre() && r.HasPreGap() && bs.Some? && WordOf(bs) != ONES {
      SeparatorMatched(r, inp, GetData(r, inp, s, r.preDataBits, 0).s, i + 2 * r.preDataBits, r.preP, r.preS);
    } else if r.HasPre() && r.HasPreGap() {
      PreDoomed(r, inp, s);
    }
  }

  lemma PreDoomed(r: Remote, inp: seq<Half>, s: Rec)
    requires Stepwise(r) && Delivered(inp) && r.HasPre() && r.HasPreGap()
    requires var d := GetData(r, inp, s, r.preDataBits, 0); d.code == ONES || Doomed(r, inp, d.s)
    ensures GetPre(r, inp, s).code == ONES
  {
    hide Doomed, GetData, ExpectPulse;
    var d := GetData(r, inp, s, r.preDataBits, 0);
    if d.code != ONES {
      DoomedPulse(r, inp, d.s, r.preP);
    }
  }

  lemma PostMatched(r: Remote, inp: seq<Half>, s: Rec, i: nat)
    requires Stepwise(r) && Delivered(inp) && Ready(r, inp, s, i)
    ensures var k := i + if r.HasPost() && r.HasPostGap() then 2 else 0;
            var bs := MatchBits(r, inp, k, r.postDataBits);
            var gapMet := r.HasPost() && r.HasPostGap() ==> MeetsPair(r, inp, i, r.postP, r.postS);
            Staged(r, inp, if r.HasPost() then GetPost(r, inp, s) else Data(ZERO, s),
                   bs.Some? && gapMet, WordOf(bs), k + 2 * r.postDataBits)
  {
    hide Ready, Doomed, GetData, ExpectPulse, Meets;
    NoBitsYet();
    var done := r.preDataBits + r.bits;
    if r.HasPost() && r.HasPostGap() {
      SeparatorMatched(r, inp, s, i, r.postP, r.postS);
      var t := ExpectPulse(r, inp, s, r.postP).s.(pendings := r.postS);
      if MeetsPair(r, inp, i, r.postP, r.postS) {
        FieldMatched(r, inp, t, i + 2, r.postDataBits, done);
      } else if Meets(r, inp, i, r.postP) {
        DoomedField(r, inp, t, r.postDataBits, done);
      }
    } else {
      FieldMatched(r, inp, s, i, r.postDataBits, done);
    }
  }

  lemma DoomedPost(r: Remote, inp: seq<Half>, s: Rec)
    requires Stepwise(r) && Delivered(inp) && Doomed(r, inp, s)
    ensures var d := if r.HasPost() then GetPost(r, inp, s) else Data(ZERO, s);
            d.code == ONES || Doomed(r, inp, d.s)
  {
    hide Doomed, GetData, ExpectPulse;
    if r.HasPost() && r.HasPostGap() {
      DoomedPulse(r, inp, s, r.postP);
    } else if r.HasPost() {
      DoomedField(r, inp, s, r.postDataBits, r.preDataBits + r.bits);
    }
  }

  /** Everything but the end matches. */
  predicate FieldsMet(r: Remote, inp: seq<Half>, i: nat) {
    var pre := MatchBits(r, inp, i, r.preDataBits);
    var code := MatchBits(r, inp, PreEnd(r, i), r.bits);
    var post := MatchBits(r, inp, PostStart(r, PreEnd(r, i)), r.postDataBits);
    && pre.Some? && code.Some? && post.Some? && PreGapMet(r, inp, i) && PostGapMet(r, inp, PreEnd(r, i))
    && WordOf(pre) != ONES && WordOf(code) != ONES && WordOf(post) != ONES
  }

  lemma FieldsMatched(r: Remote, inp: seq<Half>, s: Rec, i: nat)
    requires Stepwise(r) && Delivered(inp) && Ready(r, inp, s, i)
    ensures var f := DecodeFields(r, inp, s);
            if FieldsMet(r, inp, i) then
              && f.Fields? && f.pre == WordOf(MatchBits(r, inp, i, r.preDataBits))
              && f.code == WordOf(MatchBits(r, inp, PreEnd(r, i), r.bits))
              && f.post == WordOf(MatchBits(r, inp, PostStart(r, PreEnd(r, i)), r.postDataBits))
              && Ready(r, inp, f.s, PostStart(r, PreEnd(r, i)) + 2 * r.postDataBits)
            else f.NoFields? || Doomed(r, inp, f.s)
  {
    hide Ready, Doomed, GetData, GetPre, GetPost, Meets, MatchBits, FromBits;
    PreMatched(r, inp, s, i);
    var pre := if r.HasPre() then GetPre(r, inp, s) else Data(ZERO, s);
    if pre.code != ONES {
      if Doomed(r, inp, pre.s) {
        DoomedField(r, inp, pre.s, r.bits, r.preDataBits);
      } else {
        FieldMatched(r, inp, pre.s, PreEnd(r, i), r.bits, r.preDataBits);
      }
      var code := GetData(r, inp, pre.s, r.bits, r.preDataBits);
      if code.code != ONES {
        if Doomed(r, inp, code.s) {
          DoomedPost(r, inp, code.s);
        } else {
          PostMatched(r, inp, code.s, PreEnd(r, i) + 2 * r.bits);
        }
      }
      NeverBoth(r, inp, pre.s);
      NeverBoth(r, inp, code.s);
    }
  }

  lemma NeverBoth(r: Remote, inp: seq<Half>, s: Rec)
    ensures Doomed(r, inp, s) ==> forall i: nat :: !Ready(r, inp, s, i)
  {}

  // ----- the end

  lemma EndIsMatched(r: Remote, inp: seq<Half>, s: Rec, i: nat, header: bool)
    requires Stepwise(r) && Delivered(inp) && Ready(r, inp, s, i)
    ensures var skipped := if header && r.constLength && r.noHeadRep then r.phead + r.shead else 0;
            DecodeEnd(r, inp, s, header).ok <==> EndMet(r, inp, i, skipped)
  {
    hide ExpectPulse, ExpectSpace, GetGap, GapNeeded, Remote.Expect, Total, LongEnough;
    PulseMatched(r, inp, s, i, r.ptrail);
    if Meets(r, inp, i, r.ptrail) {
      var skipped := if header && r.constLength && r.noHeadRep then r.phead + r.shead else 0;
      if r.HasFoot() {
        SpaceMatched(r, inp, i + 1, r.sfoot);
        if Meets(r, inp, i + 1, r.sfoot) {
          BeforeReady(r, inp, i + 2);
          PulseMatched(r, inp, Before(inp, i + 2), i + 2, r.pfoot);
          if Meets(r, inp, i + 2, r.pfoot) {
            GapMatched(r, inp, i + 3, skipped);
          }
        }
      } else {
        GapMatched(r, inp, i + 1, skipped);
      }
    }
  }

  lemma GapMatched(r: Remote, inp: seq<Half>, k: nat, skipped: nat)
    requires Stepwise(r) && Delivered(inp) && k % 2 == 0 && 1 <= k <= |inp|
    ensures var b := Before(inp, k);
            var s := if skipped == 0 then b else b.(sum := b.sum - skipped);
            GetGap(r, inp, s, GapNeeded(r, s.sum)).ok <==>
            (k < Limit(inp) ==> LongEnough(r, inp[k].dur, Total(inp[1..k]) - skipped))
  {
    hide Total;
  }

  lemma DoomedEnd(r: Remote, inp: seq<Half>, s: Rec, header: bool)
    requires Stepwise(r) && Delivered(inp) && Doomed(r, inp, s)
    ensures !DecodeEnd(r, inp, s, header).ok
  {
    hide ExpectPulse, GetFoot, GetGap, Doomed;
    DoomedPulse(r, inp, s, r.ptrail);
  }

  // ----- the theorem

  /** What receive_decode does behind the header. */
  function DecodeFrom(r: Remote, inp: seq<Half>, s: Rec, header: bool): Decoded
    requires Modelled(r)
  {
    var f := DecodeFields(r, inp, s);
    if f.NoFields? || !DecodeEnd(r, inp, f.s, header).ok then Failed else Decoded(f.pre, f.code, f.post)
  }

  lemma FromIsMatched(r: Remote, inp: seq<Half>, s: Rec, i: nat, header: bool)
    requires Stepwise(r) && Delivered(inp) && Ready(r, inp, s, i)
    ensures DecodeFrom(r, inp, s, header) ==
            MatchFrom(r, inp, i, if header && r.constLength && r.noHeadRep then r.phead + r.shead else 0)
  {
    hide Ready, Doomed, DecodeFields, DecodeEnd, MatchBits, FromBits, EndMet, Meets;
    FieldsMatched(r, inp, s, i);
    var f := DecodeFields(r, inp, s);
    if f.Fields? {
      if Doomed(r, inp, f.s) {
        DoomedEnd(r, inp, f.s, header);
        NeverBoth(r, inp, f.s);
      } else {
        EndIsMatched(r, inp, f.s, PostStart(r, PreEnd(r, i)) + 2 * r.postDataBits, header);
      }
    }
  }

  lemma DoomedFrom(r: Remote, inp: seq<Half>, s: Rec, header: bool)
    requires Stepwise(r) && Delivered(inp) && Doomed(r, inp, s)
    ensures DecodeFrom(r, inp, s, header) == Failed
  {
    hide Doomed, GetData, GetPre, GetPost, DecodeEnd, ExpectPulse;
    var pre := if r.HasPre() then GetPre(r, inp, s) else Data(ZERO, s);
    DoomedPre(r, inp, s);
    if pre.code != ONES {
      DoomedField(r, inp, pre.s, r.bits, r.preDataBits);
      var code := GetData(r, inp, pre.s, r.bits, r.preDataBits);
      if code.code != ONES {
        DoomedPost(r, inp, code.s);
        var post := if r.HasPost() then GetPost(r, inp, code.s) else Data(ZERO, code.s);
        if post.code != ONES {
          DoomedEnd(r, inp, post.s, header);
        }
      }
    }
  }

  lemma DoomedPre(r: Remote, inp: seq<Half>, s: Rec)
    requires Stepwise(r) && Delivered(inp) && Doomed(r, inp, s)
    ensures var d := if r.HasPre() then GetPre(r, inp, s) else Data(ZERO, s);
            d.code == ONES || Doomed(r, inp, d.s)
  {
    hide Doomed, GetData, ExpectPulse;
    DoomedField(r, inp, s, r.preDataBits, 0);
    if r.HasPre() && r.HasPreGap() {
      PreDoomed(r, inp, s);
    }
  }

  lemma StartIsBefore(inp: seq<Half>)
    requires inp != []
    ensures START == Before(inp, 1)
  {
    assert inp[1..1] == [];
  }

  /** What the header leaves. */
  lemma HeaderMatched(r: Remote, inp: seq<Half>)
    requires Stepwise(r) && Delivered(inp) && r.HasHeader()
    ensures var h := GetHeader(r, inp, START);
            if !r.noHeadRep then
              && h.ok == Meets(r, inp, 1, r.phead)
              && (h.ok ==> if Meets(r, inp, 2, r.shead) then Ready(r, inp, h.s, 3) else Doomed(r, inp, h.s))
            else if Meets(r, inp, 1, r.phead) && 2 < Limit(inp) && r.Expect(r.shead, inp[2].dur) then
              h.ok && Ready(r, inp, h.s, 3)
            else if Meets(r, inp, 1, r.phead) && 2 >= Limit(inp) then h.ok && Doomed(r, inp, h.s)
            else if 1 < Limit(inp) then !h.ok && h.s == START
            else !h.ok
  {
    hide Remote.Expect, Total;
    StartIsBefore(inp);
    BeforeReady(r, inp, 1);
    if r.noHeadRep {
      PulseMatched(r, inp, START, 1, r.phead);
      if 1 < Limit(inp) {
        Back(inp, 1);
        if 2 < Limit(inp) { SumNext(inp, 2); }
      }
    } else {
      SeparatorMatched(r, inp, START, 1, r.phead, r.shead);
    }
  }

  /** Nothing is decoded from a silence alone, or from a pulse alone. */
  lemma TooLittle(r: Remote, inp: seq<Half>, s: Rec, header: bool)
    requires Stepwise(r) && Delivered(inp) && Limit(inp) <= 1 && s.pendingp == 0 && s.pendings == 0 && 0 <= s.rptr <= 1
    ensures DecodeFrom(r, inp, s, header) == Failed
  {
    var f := DecodeFields(r, inp, s);
    assert !ExpectPulse(r, inp, s, r.ptrail).ok;
  }

  lemma ShortMatch(r: Remote, inp: seq<Half>, skipped: nat)
    requires Stepwise(r) && Limit(inp) <= 2
    ensures MatchFrom(r, inp, 1, skipped) == Failed
  {
    hide EndMet, FromBits;
    if r.HasPre() {
      TooShort(r, inp, 1, r.preDataBits);
    } else if r.bits > 0 {
      TooShort(r, inp, 1, r.bits);
    } else if !r.HasPostGap() {
      TooShort(r, inp, 1, r.postDataBits);
    }
  }

  lemma DecodeIs(r: Remote, inp: seq<Half>)
    requires Stepwise(r) && Delivered(inp)
    ensures var h := if r.HasHeader() then GetHeader(r, inp, START) else Step(false, START);
            ReceiveDecode(r, inp) ==
            if r.HasHeader() && !h.ok && !(r.noHeadRep && r.ExpectAtMost(inp[0].dur, r.MaxGap())) then Failed
            else DecodeFrom(r, inp, h.s, h.ok)
  {
    hide GetHeader, DecodeFields, DecodeEnd, Remote.ExpectAtMost;
  }

  /** However the driver's items look: receive_decode gives what matching them one after the other gives. */
  lemma DecoderIsMatcher(r: Remote, inp: seq<Half>)
    requires Stepwise(r) && Delivered(inp)
    ensures ReceiveDecode(r, inp) == Matched(r, inp)
  {
    hide ReceiveDecode, GetHeader, DecodeFrom, MatchFrom, Ready, Doomed, Remote.Expect, Before;
    DecodeIs(r, inp);
    if r.HasHeader() {
      HeaderMatched(r, inp);
      var h := GetHeader(r, inp, START);
      if !r.noHeadRep {
        if h.ok {
          if Meets(r, inp, 2, r.shead) {
            FromIsMatched(r, inp, h.s, 3, true);
          } else {
            DoomedFrom(r, inp, h.s, true);
          }
        }
      } else {
        OptionalMatched(r, inp);
      }
    } else {
      StartIsBefore(inp);
      BeforeReady(r, inp, 1);
      FromIsMatched(r, inp, START, 1, false);
    }
  }

  lemma OptionalMatched(r: Remote, inp: seq<Half>)
    requires Stepwise(r) && Delivered(inp) && r.HasHeader() && r.noHeadRep
    ensures ReceiveDecode(r, inp) == Matched(r, inp)
  {
    hide ReceiveDecode, GetHeader, DecodeFrom, MatchFrom, Ready, Doomed, Remote.Expect, Before;
    DecodeIs(r, inp);
    HeaderMatched(r, inp);
    var h := GetHeader(r, inp, START);
    if Limit(inp) <= 2 {
      ShortMatch(r, inp, 0);
    }
    if h.ok {
      if 2 < Limit(inp) {
        FromIsMatched(r, inp, h.s, 3, true);
      } else {
        DoomedFrom(r, inp, h.s, true);
      }
    } else if 1 < Limit(inp) {
      StartIsBefore(inp);
      BeforeReady(r, inp, 1);
      FromIsMatched(r, inp, START, 1, false);
    } else {
      HeaderAtEnd(r, inp);
      TooLittle(r, inp, h.s, false);
    }
  }

  lemma HeaderAtEnd(r: Remote, inp: seq<Half>)
    requires Stepwise(r) && Delivered(inp) && r.HasHeader() && r.noHeadRep && Limit(inp) <= 1
    ensures var s := GetHeader(r, inp, START).s; s.pendingp == 0 && s.pendings == 0 && 0 <= s.rptr <= 1
  {
    hide Remote.Expect, Total;
  }

  // ----- other remotes' headers

  /** Whatever the protocol: a signal whose header does not match is refused, unless headers are optional. */
  lemma OtherHeaderRefused(r: Remote, inp: seq<Half>)
    requires Modelled(r) && r.HasHeader() && !r.noHeadRep && Delivered(inp) && |inp| >= 3
    requires if r.protocol.Rcmm? then !r.Expect(inp[1].dur + inp[2].dur, r.phead + r.shead)
             else !r.Expect(inp[1].dur, r.phead)
    ensures ReceiveDecode(r, inp) == Failed
  {
    hide Remote.Expect, GetData, DecodeEnd;
    assert CanGet(inp, START) && CanGet(inp, Advance(inp, START));
  }
}
