/** Button sequences of lib/lirc_client.c: lirc_iscode, an automaton over the codes of one
    configuration entry, and the proof that it is Knuth-Morris-Pratt string matching. */
module Lircrc {
  import opened Options

  // ----- names compared without case

  function Lower(c: char): char {
    if 'A' <= c <= 'Z' then c - 'A' + 'a' else c
  }

  function Fold(s: string): string {
    seq(|s|, i requires 0 <= i < |s| => Lower(s[i]))
  }

  /** strcasecmp(a, b) == 0 */
  predicate SameText(a: string, b: string) {
    Fold(a) == Fold(b)
  }

  /** Two texts are the same exactly if they are equal letter by letter, capital or small. */
  lemma SameLetters(a: string, b: string)
    ensures SameText(a, b) <==>
            && |a| == |b|
            && forall i | 0 <= i < |a| ::
                 || a[i] == b[i]
                 || ('A' <= a[i] <= 'Z' && b[i] as int == a[i] as int + 32)
                 || ('A' <= b[i] <= 'Z' && a[i] as int == b[i] as int + 32)
  {
    if SameText(a, b) {
      assert |Fold(a)| == |a| && |Fold(b)| == |b|;
      forall i | 0 <= i < |a|
        ensures || a[i] == b[i]
                || ('A' <= a[i] <= 'Z' && b[i] as int == a[i] as int + 32)
                || ('A' <= b[i] <= 'Z' && a[i] as int == b[i] as int + 32)
      {
        assert Fold(a)[i] == Lower(a[i]) && Fold(b)[i] == Lower(b[i]);
      }
    }
  }

  // ----- configuration entries

  /** A remote or button name, or LIRC_ALL. */
  datatype Name = All | Named(text: string)

  datatype Code = Code(remote: Name, button: Name)

  /** One entry of a lircrc file. `nextCode` and `nextConfig` are places in `code` and `config`;
      with an empty `config` the latter stands for NULL. */
  datatype Entry = Entry(
    prog: Option<string>, code: seq<Code>, repDelay: nat, ignFirst: nat, rep: nat,
    config: seq<string>, changeMode: Option<string>, mode: Option<string>,
    once: bool, quit: bool, setsMode: bool, ecno: bool, toggleReset: bool,
    nextConfig: nat, nextCode: nat)
  {
    predicate Valid() {
      && (code == [] ==> nextCode == 0) && (code != [] ==> nextCode < |code|)
      && (config == [] ==> nextConfig == 0) && (config != [] ==> nextConfig < |config|)
    }
  }

  predicate NameMatches(n: Name, text: string) {
    n.All? || SameText(n.text, text)
  }

  predicate Matches(c: Code, remote: string, button: string) {
    NameMatches(c.remote, remote) && NameMatches(c.button, button)
  }

  /** How two codes of one sequence are compared. The source compares the second one's text even
      if that is LIRC_ALL, which has no text; such a comparison is taken to fail. */
  predicate NameCovers(a: Name, b: Name) {
    a.All? || (b.Named? && SameText(a.text, b.text))
  }

  predicate Covers(a: Code, b: Code) {
    NameCovers(a.remote, b.remote) && NameCovers(a.button, b.button)
  }

  /** rep_filter: is an event to be generated for the rep-th repeat? */
  predicate RepFilter(e: Entry, rep: nat) {
    var repDelay := if e.ignFirst > 0 then e.ignFirst else e.repDelay;
    var delayStart := if e.ignFirst > 0 then 0 else 1;
    || rep < delayStart
    || (e.rep == 0 && repDelay > 0 && rep == repDelay + delayStart)
    || (e.rep > 0 && rep >= repDelay + delayStart && (rep - (repDelay + delayStart)) % e.rep == 0)
  }

  /** The first k codes, moved j places, cover themselves. */
  predicate Overlaps(code: seq<Code>, k: nat, j: nat)
    requires j <= k <= |code|
  {
    forall i | 0 <= i < k - j :: Covers(code[i], code[j + i])
  }

  /** The place to go on from when the code after the first k did not come, trying the overlaps
      from the j-th on. */
  function Rebase(code: seq<Code>, k: nat, j: nat, remote: string, button: string): (next: nat)
    requires k < |code|
    ensures next < |code|
    decreases k + 1 - j
  {
    if j > k || j == 0 then 0
    else if Overlaps(code, k, j) && Matches(code[k - j], remote, button) then k - j + 1
    else Rebase(code, k, j + 1, remote, button)
  }

  /** The entry after an event and the level returned: 0 no match, 1 part of a sequence, 2 complete. */
  datatype Checked = Checked(e: Entry, level: nat)

  function IsCodeOf(e: Entry, remote: string, button: string, rep: nat): (r: Checked)
    requires e.Valid()
    ensures r.e.Valid() && r.level <= 2
    ensures r.e == e.(nextCode := r.e.nextCode, nextConfig := r.e.nextConfig)
  {
    if e.code == [] then Checked(e, if RepFilter(e, rep) then 1 else 0)
    else if Matches(e.code[e.nextCode], remote, button) then
      var long := |e.code| > 1;
      var moved := if !long || rep == 0 then e.nextCode + 1 else e.nextCode;
      if moved == |e.code| then Checked(e.(nextCode := 0), if long || RepFilter(e, rep) then 2 else 0)
      else Checked(e.(nextCode := moved), if long && rep == 0 then 1 else 0)
    else if rep != 0 then Checked(e, 0)
    else
      var e1 := if e.toggleReset then e.(nextConfig := 0) else e;
      if e.nextCode == 0 then Checked(e1, 0)
      else Checked(e1.(nextCode := Rebase(e.code, e.nextCode, 1, remote, button)), 0)
  }

  /** The comparison loop of the rebase step. */
  method Overlap(code: seq<Code>, k: nat, j: nat) returns (flag: bool)
    requires j <= k <= |code|
    ensures flag == Overlaps(code, k, j)
  {
    var prev, next := 0, j;
    flag := true;
    while next != k
      invariant j <= next <= k && prev == next - j
      invariant forall i | 0 <= i < prev :: Covers(code[i], code[j + i])
      decreases k - next
    {
      if Covers(code[prev], code[next]) {
        prev, next := prev + 1, next + 1;
      } else {
        assert !Covers(code[prev], code[j + prev]);
        return false;
      }
    }
  }

  /** The rebase loop: overlaps are tried from the longest on. */
  method RebaseSequence(code: seq<Code>, k: nat, remote: string, button: string) returns (next: nat)
    requires k < |code|
    ensures next == Rebase(code, k, 1, remote, button)
  {
    var codes := 1;
    while codes != k + 1
      invariant 1 <= codes <= k + 1
      invariant Rebase(code, k, 1, remote, button) == Rebase(code, k, codes, remote, button)
      decreases k + 1 - codes
    {
      var flag := Overlap(code, k, codes);
      if flag && Matches(code[k - codes], remote, button) {
        return k - codes + 1;
      }
      codes := codes + 1;
    }
    next := 0;
  }

  /** lirc_iscode */
  method IsCode(e: Entry, remote: string, button: string, rep: nat) returns (e': Entry, level: nat)
    requires e.Valid()
    ensures Checked(e', level) == IsCodeOf(e, remote, button, rep)
  {
    hide Matches, RepFilter, Rebase;
    e' := e;
    if e.code == [] {
      return e', if RepFilter(e, rep) then 1 else 0;
    }
    if Matches(e.code[e.nextCode], remote, button) {
      level := 0;
      var nextCode := e.nextCode;
      if |e.code| == 1 || rep == 0 {
        nextCode := nextCode + 1;
        if |e.code| > 1 { level := 1; }
      }
      if nextCode == |e.code| {
        nextCode := 0;
        if |e.code| > 1 || RepFilter(e, rep) { level := 2; }
      }
      return e.(nextCode := nextCode), level;
    }
    if rep != 0 { return e', 0; }
    if e.toggleReset { e' := e'.(nextConfig := 0); }
    if e.nextCode == 0 { return e', 0; }
    var next := RebaseSequence(e.code, e.nextCode, remote, button);
    return e'.(nextCode := next), 0;
  }

  // ----- string matching

  /** A press, without case. */
  datatype Key = Key(remote: string, button: string)

  function KeyOf(remote: string, button: string): Key {
    Key(Fold(remote), Fold(button))
  }

  predicate WildcardFree(code: seq<Code>) {
    forall i | 0 <= i < |code| :: code[i].remote.Named? && code[i].button.Named?
  }

  /** The sequence an entry waits for, as a string of presses. */
  function Pattern(code: seq<Code>): (p: seq<Key>)
    requires WildcardFree(code)
    ensures |p| == |code|
  {
    seq(|code|, i requires 0 <= i < |code| => KeyOf(code[i].remote.text, code[i].button.text))
  }

  predicate EndsWith<T(==)>(h: seq<T>, p: seq<T>) {
    |p| <= |h| && h[|h| - |p|..] == p
  }

  /** The first k presses of the pattern, not all of it, are the last ones of the history. */
  predicate Border(p: seq<Key>, h: seq<Key>, k: nat) {
    k < |p| && EndsWith(h, p[..k])
  }

  ghost predicate LongestBorder(p: seq<Key>, h: seq<Key>, k: nat) {
    Border(p, h, k) && forall l: nat | Border(p, h, l) :: l <= k
  }

  /** A press extends a border, and every border of the longer history arises in this way. */
  lemma BorderGrows(p: seq<Key>, h: seq<Key>, c: Key, l: nat)
    requires l < |p|
    ensures EndsWith(h + [c], p[..l + 1]) <==> EndsWith(h, p[..l]) && p[l] == c
  {
    var x, y := p[..l], p[..l + 1];
    assert y == x + [p[l]];
    if EndsWith(h, x) && p[l] == c {
      assert (h + [c])[|h| + 1 - |y|..] == h[|h| - l..] + [c];
    }
    if EndsWith(h + [c], y) {
      var t := (h + [c])[|h| + 1 - |y|..];
      assert t == h[|h| - l..] + [c];
      assert t[l] == c && t[..l] == h[|h| - l..];
      assert y[..l] == x && y[l] == p[l];
    }
  }

  /** Two borders of one history overlap in the pattern. */
  lemma BordersOverlap(p: seq<Key>, h: seq<Key>, k: nat, t: nat)
    requires t <= k <= |p| && EndsWith(h, p[..k])
    ensures EndsWith(h, p[..t]) <==> p[..t] == p[k - t..k]
  {
    var x := h[|h| - k..];
    assert x == p[..k];
    if t <= |h| {
      assert h[|h| - t..] == x[k - t..];
      assert x[k - t..] == p[k - t..k];
    }
  }

  lemma FoldedMatch(c: Code, remote: string, button: string)
    requires c.remote.Named? && c.button.Named?
    ensures Matches(c, remote, button) <==> KeyOf(c.remote.text, c.button.text) == KeyOf(remote, button)
  {}

  lemma OverlapIsBorder(code: seq<Code>, k: nat, j: nat)
    requires WildcardFree(code) && j <= k <= |code|
    ensures var p := Pattern(code);
            Overlaps(code, k, j) <==> p[..k - j] == p[j..k]
  {
    var p := Pattern(code);
    assert forall i | 0 <= i < k - j :: Covers(code[i], code[j + i]) <==> p[i] == p[j + i];
    assert forall i | 0 <= i < k - j :: p[..k - j][i] == p[i] && p[j..k][i] == p[j + i];
  }

  /** Overlap j of the first k codes, followed by the press, is the border of k - j + 1 presses. */
  lemma OverlapStep(code: seq<Code>, k: nat, j: nat, h: seq<Key>, remote: string, button: string)
    requires WildcardFree(code) && k < |code| && 1 <= j <= k && EndsWith(h, Pattern(code)[..k])
    ensures Overlaps(code, k, j) && Matches(code[k - j], remote, button) <==>
            Border(Pattern(code), h + [KeyOf(remote, button)], k - j + 1)
  {
    var p, c, t := Pattern(code), KeyOf(remote, button), k - j;
    OverlapIsBorder(code, k, j);
    BordersOverlap(p, h, k, t);
    FoldedMatch(code[t], remote, button);
    BorderGrows(p, h, c, t);
  }

  lemma NoBorder(p: seq<Key>, h: seq<Key>)
    requires p != []
    ensures Border(p, h, 0)
  {
    assert p[..0] == [] && h[|h|..] == [];
  }

  /** The rebase step finds the longest border among those shorter than the overlap it starts from. */
  lemma {:induction false} RebaseFinds(code: seq<Code>, k: nat, j: nat, h: seq<Key>, remote: string, button: string)
    requires WildcardFree(code) && k < |code| && 1 <= j && EndsWith(h, Pattern(code)[..k])
    ensures var p, c := Pattern(code), KeyOf(remote, button);
            var next := Rebase(code, k, j, remote, button);
            && Border(p, h + [c], next)
            && forall l: nat | Border(p, h + [c], l) && l + j <= k + 1 :: l <= next
    decreases k + 1 - j
  {
    hide Border, Overlaps, Matches, Pattern, KeyOf, EndsWith;
    if j <= k {
      OverlapStep(code, k, j, h, remote, button);
      if !(Overlaps(code, k, j) && Matches(code[k - j], remote, button)) {
        RebaseFinds(code, k, j + 1, h, remote, button);
      }
    } else {
      NoBorder(Pattern(code), h + [KeyOf(remote, button)]);
    }
  }

  /** How borders grow with a press: all but the empty one come from a border that the press extends. */
  lemma BorderFromShorter(p: seq<Key>, h: seq<Key>, c: Key, k: nat, l: nat)
    requires LongestBorder(p, h, k) && Border(p, h + [c], l) && l > 0
    ensures l <= k + 1 && (l == k + 1 ==> p[k] == c)
  {
    BorderGrows(p, h, c, l - 1);
    assert Border(p, h, l - 1);
  }

  lemma WholeFromShorter(p: seq<Key>, h: seq<Key>, c: Key, k: nat)
    requires LongestBorder(p, h, k)
    ensures EndsWith(h + [c], p) <==> k + 1 == |p| && p[k] == c
  {
    var n := |p| - 1;
    assert p[..|p|] == p;
    BorderGrows(p, h, c, n);
    if EndsWith(h + [c], p) {
      assert Border(p, h, n);
    }
  }

  lemma PressMatches(code: seq<Code>, h: seq<Key>, k: nat, remote: string, button: string)
    requires WildcardFree(code) && LongestBorder(Pattern(code), h, k) && Matches(code[k], remote, button)
    ensures var p, h' := Pattern(code), h + [KeyOf(remote, button)];
            && (EndsWith(h', p) <==> k + 1 == |p|)
            && (k + 1 < |p| ==> LongestBorder(p, h', k + 1))
  {
    var p, c := Pattern(code), KeyOf(remote, button);
    FoldedMatch(code[k], remote, button);
    WholeFromShorter(p, h, c, k);
    BorderGrows(p, h, c, k);
    forall l: nat | Border(p, h + [c], l) ensures l <= k + 1 {
      if l > 0 { BorderFromShorter(p, h, c, k, l); }
    }
  }

  lemma PressMisses(code: seq<Code>, h: seq<Key>, k: nat, remote: string, button: string)
    requires WildcardFree(code) && LongestBorder(Pattern(code), h, k) && !Matches(code[k], remote, button)
    ensures var p, h' := Pattern(code), h + [KeyOf(remote, button)];
            && !EndsWith(h', p)
            && LongestBorder(p, h', if k == 0 then 0 else Rebase(code, k, 1, remote, button))
  {
    var p, c := Pattern(code), KeyOf(remote, button);
    FoldedMatch(code[k], remote, button);
    WholeFromShorter(p, h, c, k);
    forall l: nat | Border(p, h + [c], l) ensures l <= k {
      if l > 0 { BorderFromShorter(p, h, c, k, l); }
    }
    NoBorder(p, h + [c]);
    RebaseFinds(code, k, 1, h, remote, button);
  }

  /** One fresh press on a sequence of two or more codes: the entry completes exactly when the
      presses end with the whole sequence, and otherwise stands at the longest border again. */
  lemma FreshPress(e: Entry, h: seq<Key>, remote: string, button: string)
    requires e.Valid() && |e.code| >= 2 && WildcardFree(e.code)
    requires LongestBorder(Pattern(e.code), h, e.nextCode)
    ensures var p, h' := Pattern(e.code), h + [KeyOf(remote, button)];
            var r := IsCodeOf(e, remote, button, 0);
            && (r.level == 2 <==> EndsWith(h', p))
            && LongestBorder(p, if r.level == 2 then [] else h', r.e.nextCode)
  {
    hide LongestBorder, Matches, Pattern, KeyOf, EndsWith, Rebase, RepFilter;
    EmptyHistory(Pattern(e.code));
    if Matches(e.code[e.nextCode], remote, button) {
      PressMatches(e.code, h, e.nextCode, remote, button);
    } else {
      PressMisses(e.code, h, e.nextCode, remote, button);
    }
  }

  lemma EmptyHistory(p: seq<Key>)
    requires p != []
    ensures LongestBorder(p, [], 0)
  {}

  // ----- runs of events

  datatype Event = Event(remote: string, button: string, rep: nat)

  /** The entry after a run of events. */
  function RunEntry(e: Entry, evs: seq<Event>): (r: Entry)
    requires e.Valid()
    ensures r.Valid() && r.code == e.code
  {
    if evs == [] then e
    else
      var before := RunEntry(e, evs[..|evs| - 1]);
      var ev := evs[|evs| - 1];
      IsCodeOf(before, ev.remote, ev.button, ev.rep).e
  }

  /** The level returned for the last event of a run. */
  function LastLevel(e: Entry, evs: seq<Event>): nat
    requires e.Valid() && evs != []
  {
    var ev := evs[|evs| - 1];
    IsCodeOf(RunEntry(e, evs[..|evs| - 1]), ev.remote, ev.button, ev.rep).level
  }

  /** The fresh presses of a run since the pattern was last complete. */
  function Presses(p: seq<Key>, evs: seq<Event>): seq<Key> {
    if evs == [] then []
    else
      var before := Presses(p, evs[..|evs| - 1]);
      var ev := evs[|evs| - 1];
      if ev.rep != 0 then before
      else
        var h := before + [KeyOf(ev.remote, ev.button)];
        if EndsWith(h, p) then [] else h
  }

  /** lirc_iscode is Knuth-Morris-Pratt: after any run of events from the start, an entry with a
      wildcard-free sequence of two or more codes stands at the longest proper prefix of the
      sequence that the fresh presses since the last completion end with. */
  lemma {:induction false} SequenceMatchingIsKmp(e: Entry, evs: seq<Event>)
    requires e.Valid() && |e.code| >= 2 && WildcardFree(e.code) && e.nextCode == 0
    ensures var p := Pattern(e.code);
            LongestBorder(p, Presses(p, evs), RunEntry(e, evs).nextCode)
  {
    var p := Pattern(e.code);
    if evs == [] {
      EmptyHistory(p);
    } else {
      var init, ev := evs[..|evs| - 1], evs[|evs| - 1];
      SequenceMatchingIsKmp(e, init);
      if ev.rep == 0 {
        FreshPress(RunEntry(e, init), Presses(p, init), ev.remote, ev.button);
      }
    }
  }

  /** After any run, an event completes the sequence (level 2) exactly when it is fresh and the
      presses then end with the whole sequence; a repeat never moves the entry. */
  lemma CompletesExactly(e: Entry, evs: seq<Event>)
    requires e.Valid() && |e.code| >= 2 && WildcardFree(e.code) && e.nextCode == 0 && evs != []
    ensures var p, ev := Pattern(e.code), evs[|evs| - 1];
            var before := Presses(p, evs[..|evs| - 1]);
            LastLevel(e, evs) == 2 <==> ev.rep == 0 && EndsWith(before + [KeyOf(ev.remote, ev.button)], p)
    ensures evs[|evs| - 1].rep != 0 ==> RunEntry(e, evs) == RunEntry(e, evs[..|evs| - 1]) && LastLevel(e, evs) == 0
  {
    var init, ev := evs[..|evs| - 1], evs[|evs| - 1];
    SequenceMatchingIsKmp(e, init);
    if ev.rep == 0 {
      FreshPress(RunEntry(e, init), Presses(Pattern(e.code), init), ev.remote, ev.button);
    }
  }

  /** Level 1, part of a sequence, is returned exactly for a fresh press that brings the entry one code on. */
  lemma PartExactly(e: Entry, remote: string, button: string, rep: nat)
    requires e.Valid() && |e.code| >= 2
    ensures var r := IsCodeOf(e, remote, button, rep);
            r.level == 1 <==> rep == 0 && r.e.nextCode == e.nextCode + 1
  {
    hide Matches, RepFilter;
    if rep == 0 && !Matches(e.code[e.nextCode], remote, button) {
      RebaseBack(e.code, e.nextCode, 1, remote, button);
    }
  }

  /** Going back to an overlap never gets further than where the entry stood. */
  lemma {:induction false} RebaseBack(code: seq<Code>, k: nat, j: nat, remote: string, button: string)
    requires k < |code| && j > 0
    ensures Rebase(code, k, j, remote, button) <= k
    decreases k + 1 - j
  {
    hide Overlaps, Matches;
    if j <= k {
      RebaseBack(code, k, j + 1, remote, button);
    }
  }

  /** What a code of the configuration stands for: any name where it says so, else that name in either case. */
  lemma MatchesWhom(c: Code, remote: string, button: string)
    ensures Matches(c, remote, button) <==>
            && (c.remote != All ==> SameText(c.remote.text, remote))
            && (c.button != All ==> SameText(c.button.text, button))
  {
    hide SameText;
  }
}
