/** Pulse/space trains and the normal form that adjacent like halves merge into. */
module Waveform {

  /** One half: the carrier on (pulse) or off (space) for `dur` microseconds. */
  datatype Half = Pulse(dur: int) | Space(dur: int)

  predicate Alike(a: Half, b: Half) {
    a.Pulse? == b.Pulse?
  }

  function Join(a: Half, b: Half): Half {
    if a.Pulse? then Pulse(a.dur + b.dur) else Space(a.dur + b.dur)
  }

  ghost predicate Positive(cs: seq<Half>) {
    forall i | 0 <= i < |cs| :: cs[i].dur > 0
  }

  /** No two neighbours of the same kind. */
  ghost predicate Alternating(cs: seq<Half>) {
    forall i | 0 <= i < |cs| - 1 :: !Alike(cs[i], cs[i + 1])
  }

  function Total(cs: seq<Half>): int {
    if cs == [] then 0 else cs[0].dur + Total(cs[1..])
  }

  function Durations(cs: seq<Half>): (ds: seq<int>)
    ensures |ds| == |cs|
  {
    seq(|cs|, i requires 0 <= i < |cs| => cs[i].dur)
  }

  /** Puts one half in front of a train, merging it with a like first half. */
  function Prepend(h: Half, m: seq<Half>): seq<Half> {
    if m == [] || !Alike(h, m[0]) then [h] + m else [Join(h, m[0])] + m[1..]
  }

  /** Run-length normal form: every run of like halves becomes one half. */
  function Merge(cs: seq<Half>): seq<Half> {
    if cs == [] then [] else Prepend(cs[0], Merge(cs[1..]))
  }

  /** Puts one half behind a train, merging it with a like last half. */
  function Append(m: seq<Half>, h: Half): seq<Half> {
    if m == [] || !Alike(m[|m| - 1], h) then m + [h] else m[..|m| - 1] + [Join(m[|m| - 1], h)]
  }

  function DropSpaces(cs: seq<Half>): seq<Half> {
    if cs != [] && cs[0].Space? then DropSpaces(cs[1..]) else cs
  }

  /** The train without a space at its end. */
  function Trim(m: seq<Half>): seq<Half> {
    if m != [] && m[|m| - 1].Space? then m[..|m| - 1] else m
  }

  // ----- the waveform itself, microsecond by microsecond

  /** The carrier level over time: the meaning a train of halves has on the air. */
  ghost function Levels(cs: seq<Half>): seq<bool>
    requires Positive(cs)
  {
    if cs == [] then [] else seq(cs[0].dur, _ => cs[0].Pulse?) + Levels(cs[1..])
  }

  // ----- properties of Merge

  lemma NothingMerged()
    ensures Merge([]) == []
  {}

  lemma {:induction false} MergeShape(cs: seq<Half>)
    ensures cs == [] <==> Merge(cs) == []
    ensures cs != [] ==> Alike(Merge(cs)[0], cs[0])
    ensures |Merge(cs)| <= |cs|
    ensures Alternating(Merge(cs))
    ensures Positive(cs) ==> Positive(Merge(cs))
    ensures Total(Merge(cs)) == Total(cs)
  {
    if cs != [] {
      MergeShape(cs[1..]);
      var m := Merge(cs[1..]);
      if m != [] && Alike(cs[0], m[0]) {
        assert Merge(cs)[1..] == m[1..];
      } else {
        assert Merge(cs)[1..] == m;
      }
    }
  }

  lemma PrependPrepend(a: Half, b: Half, m: seq<Half>)
    requires Alike(a, b)
    ensures Prepend(a, Prepend(b, m)) == Prepend(Join(a, b), m)
  {}

  /** The first half of a train merges with a like half in front of it ... */
  lemma MergeLike(a: Half, b: Half, cs: seq<Half>)
    requires Alike(a, b)
    ensures Merge([a, b] + cs) == Merge([Join(a, b)] + cs)
  {
    assert ([a, b] + cs)[1..] == [b] + cs;
    assert ([b] + cs)[1..] == cs;
    assert ([Join(a, b)] + cs)[1..] == cs;
    PrependPrepend(a, b, Merge(cs));
  }

  /** ... and stays on its own when the next one is of the other kind. */
  lemma MergeUnlike(h: Half, cs: seq<Half>)
    requires cs == [] || !Alike(h, cs[0])
    ensures Merge([h] + cs) == [h] + Merge(cs)
  {
    assert ([h] + cs)[1..] == cs;
    MergeShape(cs);
  }

  /** Merging can equally be done at the end, which is what the send buffer does. */
  lemma {:induction false} MergeAppend(cs: seq<Half>, h: Half)
    ensures Merge(cs + [h]) == Append(Merge(cs), h)
  {
    if cs == [] {
      assert cs + [h] == [h];
      assert Merge([h]) == Prepend(h, Merge([h][1..]));
    } else {
      MergeAppend(cs[1..], h);
      assert (cs + [h])[1..] == cs[1..] + [h];
      PrependAppend(cs[0], Merge(cs[1..]), h);
    }
  }

  lemma PrependSplit(a: Half, x: Half, t: seq<Half>)
    ensures Prepend(a, [x] + t) == Prepend(a, [x]) + t
  {
    assert ([x] + t)[1..] == t;
  }

  lemma AppendSplit(t: seq<Half>, y: Half, h: Half)
    ensures Append(t + [y], h) == t + Append([y], h)
  {
    assert (t + [y])[..|t|] == t;
  }

  lemma PrependAppend(a: Half, m: seq<Half>, h: Half)
    ensures Prepend(a, Append(m, h)) == Append(Prepend(a, m), h)
  {
    if |m| >= 2 {
      assert m == [m[0]] + (m[1..|m| - 1] + [m[|m| - 1]]);
      PrependAppendMany(a, m[0], m[1..|m| - 1], m[|m| - 1], h);
    } else if |m| == 1 {
      PrependAppendOne(a, m[0], h);
      assert m == [m[0]];
    }
  }

  lemma PrependAppendMany(a: Half, x: Half, mid: seq<Half>, y: Half, h: Half)
    ensures var m := [x] + (mid + [y]); Prepend(a, Append(m, h)) == Append(Prepend(a, m), h)
  {
    hide Prepend, Append;
    var p, q := Prepend(a, [x]), Append([y], h);
    assert [x] + (mid + [y]) == ([x] + mid) + [y];
    AppendSplit([x] + mid, y, h);
    assert ([x] + mid) + q == [x] + (mid + q);
    PrependSplit(a, x, mid + q);
    PrependSplit(a, x, mid + [y]);
    assert p + (mid + [y]) == (p + mid) + [y];
    AppendSplit(p + mid, y, h);
    assert p + (mid + q) == (p + mid) + q;
  }

  lemma PrependAppendOne(a: Half, x: Half, h: Half)
    ensures Prepend(a, Append([x], h)) == Append(Prepend(a, [x]), h)
  {}

  // ----- Merge is the normal form of a waveform

  lemma {:induction false} LevelsPrepend(h: Half, m: seq<Half>)
    requires h.dur > 0 && Positive(m)
    ensures Positive(Prepend(h, m))
    ensures Levels(Prepend(h, m)) == seq(h.dur, _ => h.Pulse?) + Levels(m)
  {
    var p := Prepend(h, m);
    if m == [] || !Alike(h, m[0]) {
      assert p[1..] == m;
    } else {
      assert p[1..] == m[1..];
      assert Levels(m) == seq(m[0].dur, _ => m[0].Pulse?) + Levels(m[1..]);
      assert seq(h.dur + m[0].dur, _ => h.Pulse?) == seq(h.dur, _ => h.Pulse?) + seq(m[0].dur, _ => m[0].Pulse?);
    }
  }

  /** Merging does not change what is on the air. */
  lemma {:induction false} MergeKeepsLevels(cs: seq<Half>)
    requires Positive(cs)
    ensures Positive(Merge(cs)) && Levels(Merge(cs)) == Levels(cs)
  {
    MergeShape(cs);
    if cs != [] {
      MergeKeepsLevels(cs[1..]);
      LevelsPrepend(cs[0], Merge(cs[1..]));
    }
  }

  lemma LevelsHead(cs: seq<Half>)
    requires Positive(cs) && Alternating(cs) && cs != []
    ensures |Levels(cs)| >= cs[0].dur
    ensures forall t | 0 <= t < cs[0].dur :: Levels(cs)[t] == cs[0].Pulse?
    ensures |Levels(cs)| > cs[0].dur ==> Levels(cs)[cs[0].dur] != cs[0].Pulse?
    ensures Levels(cs)[cs[0].dur..] == Levels(cs[1..])
  {
    if |cs| > 1 {
      assert !Alike(cs[0], cs[0 + 1]);
    }
  }

  /** Alternating trains with the same waveform are the same train, so the normal form is unique. */
  lemma {:induction false} NormalFormUnique(a: seq<Half>, b: seq<Half>)
    requires Positive(a) && Positive(b) && Alternating(a) && Alternating(b)
    requires Levels(a) == Levels(b)
    ensures a == b
  {
    if a == [] {
      if b != [] { LevelsHead(b); }
    } else if b == [] {
      LevelsHead(a);
    } else {
      LevelsHead(a);
      LevelsHead(b);
      assert Levels(a)[0] == a[0].Pulse? && Levels(b)[0] == b[0].Pulse?;
      assert a[0].dur == b[0].dur;
      assert Alternating(a[1..]) && Alternating(b[1..]) by {
        forall i | 0 <= i < |a[1..]| - 1 ensures !Alike(a[1..][i], a[1..][i + 1]) {
          assert !Alike(a[i + 1], a[i + 1 + 1]);
        }
        forall i | 0 <= i < |b[1..]| - 1 ensures !Alike(b[1..][i], b[1..][i + 1]) {
          assert !Alike(b[i + 1], b[i + 1 + 1]);
        }
      }
      NormalFormUnique(a[1..], b[1..]);
      assert a == [a[0]] + a[1..] && b == [b[0]] + b[1..];
    }
  }

  // ----- totals

  lemma {:induction false} TotalConcat(a: seq<Half>, b: seq<Half>)
    ensures Total(a + b) == Total(a) + Total(b)
  {
    if a == [] {
      assert a + b == b;
    } else {
      assert (a + b)[1..] == a[1..] + b;
      TotalConcat(a[1..], b);
    }
  }

  function SumOf(ds: seq<int>): int {
    if ds == [] then 0 else SumOf(ds[..|ds| - 1]) + ds[|ds| - 1]
  }

  lemma {:induction false} SumOfDurations(cs: seq<Half>)
    ensures SumOf(Durations(cs)) == Total(cs)
  {
    if cs != [] {
      var n := |cs| - 1;
      SumOfDurations(cs[..n]);
      assert Durations(cs)[..n] == Durations(cs[..n]);
      TotalConcat(cs[..n], cs[n..]);
      assert cs == cs[..n] + cs[n..];
      assert cs[n..] == [cs[n]];
      assert Total([cs[n]]) == cs[n].dur + Total([cs[n]][1..]);
    }
  }
}
