/** Which repeats of a key that is held down count for an entry of one button: delay, repeat and
    ignore_first_events. */
module HeldKeys {
  import opened Options
  import opened Lircrc
  import opened Numbers

  /** A key held down: the press and its repeats, numbered on. */
  function Held(remote: string, button: string, n: nat): (evs: seq<Event>)
    ensures |evs| == n
  {
    seq(n, j requires 0 <= j < n => Event(remote, button, j))
  }

  /** An entry of one button, the key's, or of none, which stands for any key. */
  predicate ForKey(e: Entry, remote: string, button: string) {
    e.Valid() && |e.code| <= 1 && (e.code != [] ==> Matches(e.code[0], remote, button))
  }

  /** The level that counts as an event: an entry without button never comes to 2. */
  function Full(e: Entry): nat { if e.code == [] then 1 else 2 }

  /** The first repeat that can count behind the press. */
  function First(e: Entry): nat { if e.ignFirst > 0 then e.ignFirst else e.repDelay + 1 }

  /** The key being held changes nothing of the entry. */
  lemma {:induction false} HeldChangesNothing(e: Entry, remote: string, button: string, n: nat)
    requires ForKey(e, remote, button)
    ensures RunEntry(e, Held(remote, button, n)) == e
  {
    hide Matches, RepFilter, Rebase;
    if n > 0 {
      var evs := Held(remote, button, n);
      assert evs[..n - 1] == Held(remote, button, n - 1);
      HeldChangesNothing(e, remote, button, n - 1);
    }
  }

  lemma FirstEvent(e: Entry, remote: string, button: string, n: nat)
    requires ForKey(e, remote, button)
    ensures LastLevel(e, Held(remote, button, n + 1)) == IsCodeOf(e, remote, button, n).level
  {
    hide Matches, RepFilter, Rebase, IsCodeOf;
    var evs := Held(remote, button, n + 1);
    assert evs[..n] == Held(remote, button, n);
    HeldChangesNothing(e, remote, button, n);
  }

  /** Repeat n of a held key counts: the press itself, unless the first events are ignored; then, with
      `repeat` k, the first repeat behind the delay and every k-th behind that; without `repeat` only that
      first one, and only if there is a delay or events are ignored. */
  lemma RepeatCounts(e: Entry, remote: string, button: string, n: nat)
    requires ForKey(e, remote, button)
    ensures var level := LastLevel(e, Held(remote, button, n + 1));
            && (level == Full(e) || level == 0)
            && (level == Full(e) <==>
                  || (n == 0 && e.ignFirst == 0)
                  || (e.rep == 0 && (e.ignFirst > 0 || e.repDelay > 0) && n == First(e))
                  || (e.rep > 0 && exists i: nat :: n == First(e) + i * e.rep))
  {
    hide Matches, LastLevel;
    FirstEvent(e, remote, button, n);
    LevelIs(e, remote, button, n);
    if e.rep > 0 {
      Progression(n, First(e), e.rep);
    }
  }

  lemma LevelIs(e: Entry, remote: string, button: string, n: nat)
    requires ForKey(e, remote, button)
    ensures var level := IsCodeOf(e, remote, button, n).level;
            && (level == Full(e) || level == 0)
            && (level == Full(e) <==>
                  || (n == 0 && e.ignFirst == 0)
                  || (e.rep == 0 && (e.ignFirst > 0 || e.repDelay > 0) && n == First(e))
                  || (e.rep > 0 && n >= First(e) && (n - First(e)) % e.rep == 0))
  {
    hide Matches, Rebase;
  }

  /** The events a key gives while it is held for n numbers. */
  function Count(e: Entry, remote: string, button: string, n: nat): nat
    requires e.Valid()
  {
    if n == 0 then 0
    else
      Count(e, remote, button, n - 1)
      + if LastLevel(e, Held(remote, button, n)) == Full(e) then 1 else 0
  }

  /** Any k repeats in a row from the first on give exactly one event. */
  lemma {:induction false} OneInEvery(e: Entry, remote: string, button: string, from: nat, j: nat)
    requires ForKey(e, remote, button) && e.rep > 0 && from >= First(e) && from > 0 && j <= e.rep
    ensures var phase := (from - First(e)) % e.rep;
            var due := if phase == 0 then 0 else e.rep - phase;
            Count(e, remote, button, from + j) == Count(e, remote, button, from) + if j > due then 1 else 0
  {
    hide LastLevel, First, Full;
    if j > 0 {
      OneInEvery(e, remote, button, from, j - 1);
      RepeatPhase(e, remote, button, from + (j - 1));
      PhaseOn(from - First(e), j - 1, e.rep);
      assert from + j - 1 == from + (j - 1);
    }
  }

  lemma RepeatPhase(e: Entry, remote: string, button: string, n: nat)
    requires ForKey(e, remote, button) && e.rep > 0 && n >= First(e) && n > 0
    ensures LastLevel(e, Held(remote, button, n + 1)) == Full(e) <==> (n - First(e)) % e.rep == 0
  {
    hide LastLevel;
    FirstEvent(e, remote, button, n);
    LevelIs(e, remote, button, n);
  }

  lemma PhaseOn(x: nat, j: nat, k: nat)
    requires j < k
    ensures var phase := x % k;
            (x + j) % k == 0 <==> j == if phase == 0 then 0 else k - phase
  {
    Division(x, k);
    var q, phase := x / k, x % k;
    if phase + j < k {
      Quotient(x + j, k, q, phase + j);
    } else {
      assert k * (q + 1) == k * q + k;
      Quotient(x + j, k, q + 1, phase + j - k);
    }
  }

  /** repeat = 5 without delay: of the first six repeats the second does not count, the first and the sixth do. */
  lemma EveryFifth(e: Entry, remote: string, button: string)
    requires ForKey(e, remote, button) && e.code != [] && e.rep == 5 && e.repDelay == 0 && e.ignFirst == 0
    ensures LastLevel(e, Held(remote, button, 1)) == 2 && LastLevel(e, Held(remote, button, 2)) == 2
    ensures LastLevel(e, Held(remote, button, 3)) == 0 && LastLevel(e, Held(remote, button, 7)) == 2
  {
    hide LastLevel;
    RepeatCounts(e, remote, button, 0);
    RepeatPhase(e, remote, button, 1);
    RepeatPhase(e, remote, button, 2);
    RepeatCounts(e, remote, button, 2);
    RepeatPhase(e, remote, button, 6);
  }

  /** Another key never counts for an entry of one button, and only starts its strings again, if that is asked for. */
  lemma OtherKey(e: Entry, remote: string, button: string, rep: nat)
    requires e.Valid() && |e.code| == 1 && !Matches(e.code[0], remote, button)
    ensures IsCodeOf(e, remote, button, rep) == Checked(if rep == 0 && e.toggleReset then e.(nextConfig := 0) else e, 0)
  {
    hide Matches;
  }
}
