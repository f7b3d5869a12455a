/** How the decoder reads a signal from the air: the facts shared by the round-trip theorems. */
module OnAir {
  import opened Waveform
  import opened Remotes
  import opened Decoding

  /** What follows a signal: a silence, and whatever comes behind it. */
  type Silence = cs: seq<Half> | cs != [] && cs[0].Space? && Positive(cs) && Alternating(cs) witness [Space(1)]

  /** What the receiver sees of a train in front of a silence: the merged train, a space at its very end
      disappearing in the silence. */
  function Air(cs: seq<Half>, gap: Silence): seq<Half> {
    Trim(Merge(cs)) + gap
  }

  /** The decoder's pending half, which it has still to find at the read position. */
  function PendingHalf(s: Rec): seq<Half> {
    if s.pendingp > 0 then [Pulse(s.pendingp)] else if s.pendings > 0 then [Space(s.pendings)] else []
  }

  /** The decoder's state fits the air: what is left to read is its pending half followed by the
      train cs, and `sum` is the length of what has been read since the sync. */
  ghost predicate At(inp: seq<Half>, gap: Silence, s: Rec, cs: seq<Half>) {
    && s.pendingp >= 0 && s.pendings >= 0 && (s.pendingp == 0 || s.pendings == 0)
    && 1 <= s.rptr <= |inp| && |inp| - |gap| + 1 < RBUF_SIZE
    && Positive(cs)
    && inp[s.rptr..] == Air(PendingHalf(s) + cs, gap)
    && s.sum == Total(inp[1..s.rptr])
  }

  // ----- the first item on the air

  lemma AirUnlike(h: Half, cs: seq<Half>, gap: Silence)
    requires if h.Pulse? then cs == [] || cs[0].Space? else cs != [] && cs[0].Pulse?
    ensures Air([h] + cs, gap) == [h] + Air(cs, gap)
  {
    hide Merge;
    MergeUnlike(h, cs);
    MergeShape(cs);
    var m := Merge(cs);
    assert ([h] + m)[..|m|] == if m == [] then [] else [h] + m[..|m| - 1];
  }

  lemma AirLike(a: Half, b: Half, cs: seq<Half>, gap: Silence)
    requires Alike(a, b)
    ensures Air([a, b] + cs, gap) == Air([Join(a, b)] + cs, gap)
  {
    MergeLike(a, b, cs);
  }

  lemma AirMerged(a: Half, b: Half, rest: seq<Half>, gap: Silence)
    requires Alike(a, b)
    requires if a.Pulse? then rest == [] || rest[0].Space? else rest != [] && rest[0].Pulse?
    ensures Air([a] + ([b] + rest), gap) == [Join(a, b)] + Air(rest, gap)
  {
    assert [a] + ([b] + rest) == [a, b] + rest;
    AirLike(a, b, rest, gap);
    AirUnlike(Join(a, b), rest, gap);
  }

  lemma Advanced(inp: seq<Half>, s: Rec)
    requires 1 <= s.rptr < |inp| && s.rptr < RBUF_SIZE && s.sum == Total(inp[1..s.rptr])
    ensures CanGet(inp, s)
    ensures Advance(inp, s).sum == Total(inp[1..s.rptr + 1])
  {
    var i := s.rptr;
    assert inp[1..i + 1] == inp[1..i] + [inp[i]];
    TotalConcat(inp[1..i], [inp[i]]);
    assert Total([inp[i]]) == inp[i].dur + Total([inp[i]][1..]);
  }

  /** Reading the first item h leaves the rest of the air. */
  lemma Reads(inp: seq<Half>, gap: Silence, s: Rec, h: Half, rest: seq<Half>)
    requires 1 <= s.rptr <= |inp| && |inp| - |gap| < RBUF_SIZE && s.sum == Total(inp[1..s.rptr])
    requires inp[s.rptr..] == [h] + Air(rest, gap)
    ensures CanGet(inp, s) && inp[s.rptr] == h
    ensures var t := Advance(inp, s);
            && 1 <= t.rptr <= |inp| && inp[t.rptr..] == Air(rest, gap) && t.sum == Total(inp[1..t.rptr])
            && Unget1(inp, t) == s
  {
    assert |inp[s.rptr..]| >= 1;
    assert inp[s.rptr] == inp[s.rptr..][0] == h;
    assert inp[s.rptr + 1..] == inp[s.rptr..][1..];
    Advanced(inp, s);
  }

  /** No pending half. */
  predicate Clear(s: Rec) {
    s.pendingp == 0 && s.pendings == 0
  }

  lemma PositiveTail(h: Half, rest: seq<Half>)
    requires Positive([h] + rest)
    ensures Positive(rest)
  {
    assert forall i | 0 <= i < |rest| :: rest[i] == ([h] + rest)[i + 1];
  }

  /** A pending half that nothing like it follows is found as it is. */
  lemma SyncSpace(r: Remote, inp: seq<Half>, gap: Silence, s: Rec, rest: seq<Half>)
    requires At(inp, gap, s, rest) && s.pendingp == 0 && rest != [] && rest[0].Pulse?
    ensures var y := SyncPendingSpace(r, inp, s);
            y.ok && Clear(y.s) && At(inp, gap, y.s, rest)
  {
    if s.pendings > 0 {
      ExpectSelf(r, s.pendings);
      AirUnlike(Space(s.pendings), rest, gap);
      assert [] + rest == rest;
      Reads(inp, gap, s, Space(s.pendings), rest);
    }
  }

  lemma SyncPulse(r: Remote, inp: seq<Half>, gap: Silence, s: Rec, rest: seq<Half>)
    requires At(inp, gap, s, rest) && s.pendings == 0 && (rest == [] || rest[0].Space?)
    ensures var y := SyncPendingPulse(r, inp, s);
            y.ok && Clear(y.s) && At(inp, gap, y.s, rest)
  {
    if s.pendingp > 0 {
      ExpectSelf(r, s.pendingp);
      AirUnlike(Pulse(s.pendingp), rest, gap);
      assert [] + rest == rest;
      Reads(inp, gap, s, Pulse(s.pendingp), rest);
    }
  }

  lemma PulseAlone(r: Remote, inp: seq<Half>, gap: Silence, s: Rec, d: nat, rest: seq<Half>)
    requires At(inp, gap, s, [Pulse(d)] + rest) && d > 0 && Clear(s)
    requires rest == [] || rest[0].Space?
    ensures var p := ExpectPulse(r, inp, s, d);
            p.ok && Clear(p.s) && At(inp, gap, p.s, rest)
  {
    PositiveTail(Pulse(d), rest);
    ExpectSelf(r, d);
    AirUnlike(Pulse(d), rest, gap);
    assert [] + ([Pulse(d)] + rest) == [Pulse(d)] + rest && [] + rest == rest;
    Reads(inp, gap, s, Pulse(d), rest);
  }

  lemma PulseMerged(r: Remote, inp: seq<Half>, gap: Silence, s: Rec, d: nat, rest: seq<Half>)
    requires At(inp, gap, s, [Pulse(d)] + rest) && d > 0 && s.pendingp > 0
    requires rest == [] || rest[0].Space?
    ensures var p := ExpectPulse(r, inp, s, d);
            p.ok && Clear(p.s) && At(inp, gap, p.s, rest)
  {
    PositiveTail(Pulse(d), rest);
    AirMerged(Pulse(s.pendingp), Pulse(d), rest, gap);
    Reads(inp, gap, s, Pulse(s.pendingp + d), rest);
    var both := GetPulse(inp, s).dur;
    assert [] + rest == rest;
    ExpectSelf(r, d);
    assert both - s.pendingp == d;
  }

  /** A pulse that is next is found, whether alone, behind a pending space or merged with a pending pulse. */
  lemma MatchPulse(r: Remote, inp: seq<Half>, gap: Silence, s: Rec, d: nat, rest: seq<Half>)
    requires At(inp, gap, s, [Pulse(d)] + rest) && d > 0
    requires rest == [] || rest[0].Space?
    ensures var p := ExpectPulse(r, inp, s, d);
            p.ok && Clear(p.s) && At(inp, gap, p.s, rest)
  {
    if s.pendingp > 0 {
      PulseMerged(r, inp, gap, s, d, rest);
    } else if s.pendings > 0 {
      SyncSpace(r, inp, gap, s, [Pulse(d)] + rest);
      PulseAlone(r, inp, gap, SyncPendingSpace(r, inp, s).s, d, rest);
    } else {
      PulseAlone(r, inp, gap, s, d, rest);
    }
  }

  lemma SpaceAlone(r: Remote, inp: seq<Half>, gap: Silence, s: Rec, d: nat, rest: seq<Half>)
    requires At(inp, gap, s, [Space(d)] + rest) && d > 0 && Clear(s)
    requires rest != [] && rest[0].Pulse?
    ensures var p := ExpectSpace(r, inp, s, d);
            p.ok && Clear(p.s) && At(inp, gap, p.s, rest)
  {
    PositiveTail(Space(d), rest);
    ExpectSelf(r, d);
    AirUnlike(Space(d), rest, gap);
    assert [] + ([Space(d)] + rest) == [Space(d)] + rest && [] + rest == rest;
    Reads(inp, gap, s, Space(d), rest);
  }

  lemma SpaceMerged(r: Remote, inp: seq<Half>, gap: Silence, s: Rec, d: nat, rest: seq<Half>)
    requires At(inp, gap, s, [Space(d)] + rest) && d > 0 && s.pendings > 0
    requires rest != [] && rest[0].Pulse?
    ensures var p := ExpectSpace(r, inp, s, d);
            p.ok && Clear(p.s) && At(inp, gap, p.s, rest)
  {
    hide Merge, Trim;
    PositiveTail(Space(d), rest);
    AirMerged(Space(s.pendings), Space(d), rest, gap);
    Reads(inp, gap, s, Space(s.pendings + d), rest);
    var both := GetSpace(inp, s).dur;
    assert [] + rest == rest;
    ExpectSelf(r, d);
    assert both - s.pendings == d;
  }

  /** Likewise a space, which must have a pulse behind it. */
  lemma MatchSpace(r: Remote, inp: seq<Half>, gap: Silence, s: Rec, d: nat, rest: seq<Half>)
    requires At(inp, gap, s, [Space(d)] + rest) && d > 0
    requires rest != [] && rest[0].Pulse?
    ensures var p := ExpectSpace(r, inp, s, d);
            p.ok && Clear(p.s) && At(inp, gap, p.s, rest)
  {
    if s.pendings > 0 {
      SpaceMerged(r, inp, gap, s, d, rest);
    } else if s.pendingp > 0 {
      SyncPulse(r, inp, gap, s, [Space(d)] + rest);
      SpaceAlone(r, inp, gap, SyncPendingPulse(r, inp, s).s, d, rest);
    } else {
      SpaceAlone(r, inp, gap, s, d, rest);
    }
  }

  /** Taking the first half of the train as the pending one changes nothing on the air. */
  lemma SetPending(inp: seq<Half>, gap: Silence, s: Rec, h: Half, rest: seq<Half>, t: Rec)
    requires At(inp, gap, s, [h] + rest) && Clear(s)
    requires t == if h.Pulse? then s.(pendingp := h.dur) else s.(pendings := h.dur)
    ensures At(inp, gap, t, rest) && PendingHalf(t) == [h]
  {
    var all := [h] + rest;
    assert all[0] == h && h.dur > 0;
    assert Positive(rest) by { assert forall i | 0 <= i < |rest| :: rest[i] == all[i + 1]; }
    assert [] + all == all;
  }
}
