/** Which entries of a configuration give strings, and which ones, over any run of events: modes, `once`,
    programs and the turn of each entry's own strings. */
module Executions {
  import opened Options
  import opened Lircrc
  import opened Draining
  import opened Numbers

  /** An entry asked about an event, perhaps after another one has quit it. */
  datatype Turn = Turn(i: nat, ev: Press, quitHappened: bool)

  predicate InRange(c: Conf, turns: seq<Turn>) {
    forall j | 0 <= j < |turns| :: turns[j].i < |c.entries|
  }

  function Visited(c: Conf, t: Turn, prog: Option<string>): Visit
    requires ValidConf(c) && t.i < |c.entries|
  {
    VisitOf(c, t.i, t.ev, prog, t.quitHappened)
  }

  /** The configuration after a run. */
  function After(c: Conf, turns: seq<Turn>, prog: Option<string>): (r: Conf)
    requires ValidConf(c) && InRange(c, turns)
    ensures ValidConf(r) && |r.entries| == |c.entries|
  {
    if turns == [] then c
    else Visited(After(c, turns[..|turns| - 1], prog), turns[|turns| - 1], prog).c
  }

  // ----- one turn

  /** The entry's code is complete, it belongs to the current mode or to none, and no other entry has quit. */
  predicate Acts(c: Conf, t: Turn)
    requires ValidConf(c) && t.i < |c.entries|
  {
    var e := c.entries[t.i];
    && !t.quitHappened && IsCodeOf(e, t.ev.remote, t.ev.button, t.ev.rep).level == 2
    && (e.mode.Some? ==> c.mode.Some? && SameText(e.mode.value, c.mode.value))
  }

  /** The turn leaves the mode that entry k leads to. */
  predicate Leaves(c: Conf, t: Turn, k: nat)
    requires ValidConf(c) && t.i < |c.entries| && k < |c.entries|
  {
    && Acts(c, t) && c.entries[t.i].setsMode
    && c.mode.Some? && c.entries[k].changeMode.Some? && SameText(c.entries[k].changeMode.value, c.mode.value)
  }

  /** Its strings are for this program. */
  predicate ForProgram(e: Entry, prog: Option<string>) {
    e.prog.Some? && (prog.Some? ==> SameText(e.prog.value, prog.value))
  }

  /** A fresh press that the entry does not wait for. */
  predicate Resets(e: Entry, ev: Press)
    requires e.Valid()
  {
    e.toggleReset && e.code != [] && ev.rep == 0 && !Matches(e.code[e.nextCode], ev.remote, ev.button)
  }

  lemma CodeLaw(e: Entry, ev: Press)
    requires e.Valid()
    ensures var r := IsCodeOf(e, ev.remote, ev.button, ev.rep);
            && r.e == e.(nextCode := r.e.nextCode, nextConfig := if Resets(e, ev) then 0 else e.nextConfig)
            && (Resets(e, ev) ==> r.level == 0)
  {
    hide Matches, RepFilter, Rebase;
  }

  lemma ClearedLaw(c: Conf, k: nat)
    requires k < |c.entries|
    ensures Cleared(c).mode == None
    ensures var left := c.mode.Some? && c.entries[k].changeMode.Some?
                        && SameText(c.entries[k].changeMode.value, c.mode.value);
            Cleared(c).entries[k] == if left then c.entries[k].(ecno := false) else c.entries[k]
  {
    hide SameText;
  }

  lemma EnterLaw(c: Conf, i: nat, k: nat)
    requires ValidConf(c) && i < |c.entries| && k < |c.entries|
    ensures var e, m := c.entries[i], EnterMode(c, i);
            var left := e.setsMode && c.mode.Some? && c.entries[k].changeMode.Some?
                        && SameText(c.entries[k].changeMode.value, c.mode.value);
            var spent := c.entries[k].ecno && !left;
            var marks := e.changeMode.Some? && e.once;
            && m.c.mode == (if e.changeMode.Some? then e.changeMode else if e.setsMode then None else c.mode)
            && m.c.entries[k] == c.entries[k].(ecno := spent || (marks && k == i))
            && (k == i ==> (m.doOnce <==> !(marks && spent)))
  {
    hide SameText, Cleared;
    if c.entries[i].setsMode {
      ClearedLaw(c, k);
      ClearedLaw(c, i);
    }
  }

  lemma TurnAround(i: nat, n: nat)
    requires i < n
    ensures (i + 1) % n == if i + 1 == n then 0 else i + 1
  {}

  /** lirc_execute, for the entry it is called for and for another one. */
  lemma ExecuteLaw(c: Conf, i: nat, prog: Option<string>, k: nat)
    requires ValidConf(c) && i < |c.entries| && k < |c.entries|
    ensures var e, x := c.entries[i], ExecuteOf(c, i, prog);
            var left := e.setsMode && c.mode.Some? && c.entries[k].changeMode.Some?
                        && SameText(c.entries[k].changeMode.value, c.mode.value);
            var spent := c.entries[k].ecno && !left;
            var marks := e.changeMode.Some? && e.once;
            && x.c.mode == (if e.changeMode.Some? then e.changeMode else if e.setsMode then None else c.mode)
            && x.c.entries[k] ==
               c.entries[k].(ecno := spent || (marks && k == i),
                             nextConfig := if k == i && x.s.Some? then (e.nextConfig + 1) % |e.config|
                                           else c.entries[k].nextConfig)
            && (k == i ==>
                  && (x.s.Some? <==> e.config != [] && ForProgram(e, prog) && !(marks && spent))
                  && (x.s.Some? ==> x.s.value == e.config[e.nextConfig]))
  {
    hide SameText, EnterMode;
    EnterLaw(c, i, k);
    EnterLaw(c, i, i);
    if c.entries[i].config != [] {
      TurnAround(c.entries[i].nextConfig, |c.entries[i].config|);
    }
  }

  /** What one turn does to the mode, to every entry and to the string that comes out. */
  lemma TurnLaw(c: Conf, t: Turn, prog: Option<string>, k: nat)
    requires ValidConf(c) && t.i < |c.entries| && k < |c.entries|
    ensures var e, v := c.entries[t.i], Visited(c, t, prog);
            var spent := c.entries[k].ecno && !Leaves(c, t, k);
            var marks := Acts(c, t) && k == t.i && e.changeMode.Some? && e.once;
            && v.c.mode == (if !Acts(c, t) then c.mode else if e.changeMode.Some? then e.changeMode
                            else if e.setsMode then None else c.mode)
            && v.c.entries[k].ecno == (spent || marks)
            && (k == t.i ==>
                  && (v.s.Some? <==> Acts(c, t) && e.config != [] && ForProgram(e, prog) && !(marks && spent))
                  && (v.s.Some? ==> v.s.value == e.config[e.nextConfig])
                  && (v.quits ==> e.quit))
            && v.c.entries[k] ==
               c.entries[k].(ecno := v.c.entries[k].ecno, nextCode := v.c.entries[k].nextCode,
                             nextConfig := if k != t.i then c.entries[k].nextConfig
                                           else if v.s.Some? then (e.nextConfig + 1) % |e.config|
                                           else if Resets(e, t.ev) then 0 else e.nextConfig)
  {
    hide SameText, ExecuteOf, IsCodeOf, Resets;
    var e := c.entries[t.i];
    CodeLaw(e, t.ev);
    var r := IsCodeOf(e, t.ev.remote, t.ev.button, t.ev.rep);
    var c1 := c.(entries := c.entries[t.i := r.e]);
    if Acts(c, t) {
      ExecuteLaw(c1, t.i, prog, k);
    }
  }

  // ----- the strings of one entry

  /** The strings entry k has given since it was last set back to its first one. */
  function Since(c: Conf, turns: seq<Turn>, prog: Option<string>, k: nat): seq<string>
    requires ValidConf(c) && InRange(c, turns) && k < |c.entries|
  {
    if turns == [] then []
    else
      var init, last := turns[..|turns| - 1], turns[|turns| - 1];
      var before := After(c, init, prog);
      if last.i != k then Since(c, init, prog, k)
      else if Resets(before.entries[k], last.ev) then []
      else Since(c, init, prog, k) + Strings(Visited(before, last, prog).s)
  }

  /** The string it began with: the first one, once it has been set back. */
  function Began(c: Conf, turns: seq<Turn>, prog: Option<string>, k: nat): nat
    requires ValidConf(c) && InRange(c, turns) && k < |c.entries|
  {
    if turns == [] then c.entries[k].nextConfig
    else
      var init, last := turns[..|turns| - 1], turns[|turns| - 1];
      if last.i == k && Resets(After(c, init, prog).entries[k], last.ev) then 0 else Began(c, init, prog, k)
  }

  /** What a run never changes of an entry. */
  lemma {:induction false} Unchanged(c: Conf, turns: seq<Turn>, prog: Option<string>, k: nat)
    requires ValidConf(c) && InRange(c, turns) && k < |c.entries|
    ensures var e, e' := c.entries[k], After(c, turns, prog).entries[k];
            e' == e.(ecno := e'.ecno, nextCode := e'.nextCode, nextConfig := e'.nextConfig)
  {
    hide Visited, Acts, Leaves, ForProgram, Resets;
    if turns != [] {
      var init, last := turns[..|turns| - 1], turns[|turns| - 1];
      Unchanged(c, init, prog, k);
      TurnLaw(After(c, init, prog), last, prog, k);
    }
  }

  lemma Turned(base: nat, given: nat, n: nat)
    requires n > 0
    ensures ((base + given) % n + 1) % n == (base + (given + 1)) % n
  {
    Division(base + given, n);
    var q, m := (base + given) / n, (base + given) % n;
    if m + 1 == n {
      assert n * (q + 1) == n * q + n;
      Quotient(base + (given + 1), n, q + 1, 0);
      Quotient(n, n, 1, 0);
    } else {
      Quotient(base + (given + 1), n, q, m + 1);
      Quotient(m + 1, n, 0, m + 1);
    }
  }

  /** The strings given are those of the configuration in turn, from the one that it began with. */
  ghost predicate InTurn(config: seq<string>, began: nat, given: seq<string>) {
    config != [] && forall i | 0 <= i < |given| :: given[i] == config[(began + i) % |config|]
  }

  lemma NextInTurn(config: seq<string>, began: nat, given: seq<string>, s: string)
    requires InTurn(config, began, given) && s == config[(began + |given|) % |config|]
    ensures InTurn(config, began, given + [s])
  {}

  /** Entry k stands where the strings it has given lead to. */
  ghost predicate Rounds(config: seq<string>, began: nat, given: seq<string>, next: nat) {
    InTurn(config, began, given) && next == (began + |given|) % |config|
  }

  lemma RoundsOn(config: seq<string>, began: nat, given: seq<string>, next: nat)
    requires Rounds(config, began, given, next) && next < |config|
    ensures Rounds(config, began, given + [config[next]], (next + 1) % |config|)
  {
    hide InTurn;
    NextInTurn(config, began, given, config[next]);
    Turned(began, |given|, |config|);
    assert |given + [config[next]]| == |given| + 1;
  }

  lemma RoundsFrom(config: seq<string>, next: nat)
    requires next < |config|
    ensures Rounds(config, next, [], next)
  {
    Quotient(next, |config|, 0, next);
  }

  /** The turn of another entry, or of this one: the string given and where it then stands. */
  lemma StringLaw(c: Conf, t: Turn, prog: Option<string>, k: nat)
    requires ValidConf(c) && t.i < |c.entries| && k < |c.entries|
    ensures var e, v := c.entries[k], Visited(c, t, prog);
            var next := v.c.entries[k].nextConfig;
            if t.i != k then next == e.nextConfig
            else if Resets(e, t.ev) then next == 0 && v.s.None?
            else if v.s.Some? then
              && e.nextConfig < |e.config| && v.s.value == e.config[e.nextConfig]
              && next == (e.nextConfig + 1) % |e.config|
            else next == e.nextConfig
  {
    hide Visited, Leaves, ForProgram, Resets, SameText;
    TurnLaw(c, t, prog, k);
    CodeLaw(c.entries[k], t.ev);
  }

  /** Over any run an entry gives its strings in turn, round and round: the i-th since it was set back, or
      since the beginning, is the i-th behind the one it began with. */
  lemma {:induction false} StringsInTurn(c: Conf, turns: seq<Turn>, prog: Option<string>, k: nat)
    requires ValidConf(c) && InRange(c, turns) && k < |c.entries| && c.entries[k].config != []
    ensures Rounds(c.entries[k].config, Began(c, turns, prog, k), Since(c, turns, prog, k),
                   After(c, turns, prog).entries[k].nextConfig)
  {
    hide Visited, Acts, Leaves, ForProgram, Resets, Rounds;
    var config := c.entries[k].config;
    if turns == [] {
      RoundsFrom(config, c.entries[k].nextConfig);
    } else {
      var init, last := turns[..|turns| - 1], turns[|turns| - 1];
      var before, given := After(c, init, prog), Since(c, init, prog, k);
      StringsInTurn(c, init, prog, k);
      Unchanged(c, init, prog, k);
      StringLaw(before, last, prog, k);
      RoundsFrom(config, 0);
      assert given + [] == given;
      if last.i == k && !Resets(before.entries[k], last.ev) && Visited(before, last, prog).s.Some? {
        RoundsOn(config, Began(c, init, prog, k), given, before.entries[k].nextConfig);
      }
    }
  }

  /** All strings that entry k gives. */
  function Given(c: Conf, turns: seq<Turn>, prog: Option<string>, k: nat): seq<string>
    requires ValidConf(c) && InRange(c, turns) && k < |c.entries|
  {
    if turns == [] then []
    else
      var init, last := turns[..|turns| - 1], turns[|turns| - 1];
      Given(c, init, prog, k) + if last.i == k then Strings(Visited(After(c, init, prog), last, prog).s) else []
  }

  /** Without toggle_reset nothing ever sets it back. */
  lemma {:induction false} NeverSetBack(c: Conf, turns: seq<Turn>, prog: Option<string>, k: nat)
    requires ValidConf(c) && InRange(c, turns) && k < |c.entries| && !c.entries[k].toggleReset
    ensures Since(c, turns, prog, k) == Given(c, turns, prog, k) && Began(c, turns, prog, k) == c.entries[k].nextConfig
  {
    hide Visited;
    if turns != [] {
      var init := turns[..|turns| - 1];
      NeverSetBack(c, init, prog, k);
      Unchanged(c, init, prog, k);
    }
  }

  /** Two strings: played, then paused. */
  lemma PlayThenPause(c: Conf, turns: seq<Turn>, prog: Option<string>, k: nat)
    requires ValidConf(c) && InRange(c, turns) && k < |c.entries| && !c.entries[k].toggleReset
    requires c.entries[k].config == ["PLAY", "PAUSE"] && c.entries[k].nextConfig == 0
    ensures forall i | 0 <= i < |Given(c, turns, prog, k)| ::
              Given(c, turns, prog, k)[i] == if i % 2 == 0 then "PLAY" else "PAUSE"
  {
    hide After, Since, Began, Given, Visited, InTurn;
    StringsInTurn(c, turns, prog, k);
    NeverSetBack(c, turns, prog, k);
    TwoInTurn("PLAY", "PAUSE", Given(c, turns, prog, k));
  }

  lemma TwoInTurn(a: string, b: string, given: seq<string>)
    requires InTurn([a, b], 0, given)
    ensures forall i | 0 <= i < |given| :: given[i] == if i % 2 == 0 then a else b
  {
    forall i | 0 <= i < |given| ensures given[i] == if i % 2 == 0 then a else b {
      assert |[a, b]| == 2 && (0 + i) % 2 == i % 2;
    }
  }

  // ----- which entries act

  /** The current mode, told from what acted: an entry that leads to a mode enters it, one that only
      leaves the mode leaves it. */
  function ModeAfter(c: Conf, turns: seq<Turn>, prog: Option<string>): Option<string>
    requires ValidConf(c) && InRange(c, turns)
  {
    if turns == [] then c.mode
    else
      var init, last := turns[..|turns| - 1], turns[|turns| - 1];
      var e := c.entries[last.i];
      if Acts(After(c, init, prog), last) && (e.changeMode.Some? || e.setsMode) then e.changeMode
      else ModeAfter(c, init, prog)
  }

  /** A `once` entry has acted since the mode it leads to was last left. */
  function Spent(c: Conf, turns: seq<Turn>, prog: Option<string>, k: nat): bool
    requires ValidConf(c) && InRange(c, turns) && k < |c.entries|
  {
    if turns == [] then c.entries[k].ecno
    else
      var init, last := turns[..|turns| - 1], turns[|turns| - 1];
      var before := After(c, init, prog);
      || (Spent(c, init, prog, k) && !Leaves(before, last, k))
      || (last.i == k && Acts(before, last) && c.entries[k].changeMode.Some? && c.entries[k].once)
  }

  lemma {:induction false} ModeAndSpent(c: Conf, turns: seq<Turn>, prog: Option<string>, k: nat)
    requires ValidConf(c) && InRange(c, turns) && k < |c.entries|
    ensures After(c, turns, prog).mode == ModeAfter(c, turns, prog)
    ensures After(c, turns, prog).entries[k].ecno == Spent(c, turns, prog, k)
  {
    hide Visited, Acts, Leaves, ForProgram, Resets;
    if turns != [] {
      var init, last := turns[..|turns| - 1], turns[|turns| - 1];
      ModeAndSpent(c, init, prog, k);
      Unchanged(c, init, prog, k);
      Unchanged(c, init, prog, last.i);
      TurnLaw(After(c, init, prog), last, prog, k);
    }
  }

  /** After any run, an entry gives a string exactly if it acts, in its mode or having none, has strings, is
      for this program, and, being `once`, has not acted since the mode it leads to was left. */
  lemma GivesExactly(c: Conf, turns: seq<Turn>, t: Turn, prog: Option<string>)
    requires ValidConf(c) && InRange(c, turns) && t.i < |c.entries|
    ensures var before, e := After(c, turns, prog), c.entries[t.i];
            && before.mode == ModeAfter(c, turns, prog)
            && (Visited(before, t, prog).s.Some? <==>
                  && Acts(before, t) && e.config != [] && ForProgram(e, prog)
                  && !(e.changeMode.Some? && e.once && Spent(c, turns, prog, t.i) && !Leaves(before, t, t.i)))
  {
    hide Visited, Acts, Leaves, SameText, Resets;
    ModeAndSpent(c, turns, prog, t.i);
    Unchanged(c, turns, prog, t.i);
    TurnLaw(After(c, turns, prog), t, prog, t.i);
  }

  /** Entry k gives a string in turn j of a run. */
  predicate GivesIn(c: Conf, turns: seq<Turn>, prog: Option<string>, k: nat, j: nat)
    requires ValidConf(c) && InRange(c, turns) && j < |turns|
  {
    turns[j].i == k && Visited(After(c, turns[..j], prog), turns[j], prog).s.Some?
  }

  lemma {:induction false} StaysSpent(c: Conf, turns: seq<Turn>, prog: Option<string>, k: nat, p: nat, n: nat)
    requires ValidConf(c) && InRange(c, turns) && k < |c.entries| && p < n <= |turns|
    requires c.entries[k].changeMode.Some? && c.entries[k].once && GivesIn(c, turns, prog, k, p)
    requires forall j | p < j < n :: !Leaves(After(c, turns[..j], prog), turns[j], k)
    ensures Spent(c, turns[..n], prog, k)
  {
    hide Visited, Leaves;
    var init := turns[..n - 1];
    assert turns[..n][..n - 1] == init;
    if n == p + 1 {
      hide Acts;
      GivesExactly(c, init, turns[p], prog);
    } else {
      StaysSpent(c, turns, prog, k, p, n - 1);
    }
  }

  /** A `once` entry that leads to a mode gives a second string only if the mode was left in between. */
  lemma OnceUntilLeft(c: Conf, turns: seq<Turn>, prog: Option<string>, k: nat, p: nat, q: nat)
    requires ValidConf(c) && InRange(c, turns) && k < |c.entries| && p < q < |turns|
    requires c.entries[k].changeMode.Some? && c.entries[k].once
    requires GivesIn(c, turns, prog, k, p) && GivesIn(c, turns, prog, k, q)
    ensures exists j | p < j <= q :: Leaves(After(c, turns[..j], prog), turns[j], k)
  {
    hide Visited, Leaves, Acts, ForProgram;
    if forall j | p < j < q :: !Leaves(After(c, turns[..j], prog), turns[j], k) {
      StaysSpent(c, turns, prog, k, p, q);
      GivesExactly(c, turns[..q], turns[q], prog);
    }
  }

  // ----- a pass is a run

  /** The turns of one pass over the entries from i on. */
  function PassTurns(c: Conf, i: nat, ev: Press, prog: Option<string>, quitHappened: bool): (turns: seq<Turn>)
    requires ValidConf(c) && i <= |c.entries|
    ensures |turns| == |c.entries| - i && forall j | 0 <= j < |turns| :: turns[j].i == i + j && turns[j].ev == ev
    decreases |c.entries| - i
  {
    if i == |c.entries| then []
    else
      var v := VisitOf(c, i, ev, prog, quitHappened);
      [Turn(i, ev, quitHappened)] + PassTurns(v.c, i + 1, ev, prog, quitHappened || v.quits)
  }

  /** The strings of all entries in the order of the turns. */
  function AllStrings(c: Conf, turns: seq<Turn>, prog: Option<string>): seq<string>
    requires ValidConf(c) && InRange(c, turns)
  {
    if turns == [] then []
    else
      var init, last := turns[..|turns| - 1], turns[|turns| - 1];
      AllStrings(c, init, prog) + Strings(Visited(After(c, init, prog), last, prog).s)
  }

  lemma {:induction false} FirstTurn(c: Conf, t: Turn, later: seq<Turn>, prog: Option<string>)
    requires ValidConf(c) && InRange(c, [t] + later)
    ensures InRange(c, later) && t.i < |c.entries|
    ensures var v := Visited(c, t, prog);
            && After(c, [t] + later, prog) == After(v.c, later, prog)
            && AllStrings(c, [t] + later, prog) == Strings(v.s) + AllStrings(v.c, later, prog)
    decreases |later|
  {
    hide Visited;
    var all := [t] + later;
    assert all[0] == t;
    forall j | 0 <= j < |later| ensures later[j].i < |c.entries| {
      assert all[j + 1] == later[j];
    }
    if later == [] {
      assert all[..0] == [];
    } else {
      var init := later[..|later| - 1];
      assert all[..|all| - 1] == [t] + init;
      FirstTurn(c, t, init, prog);
    }
  }

  lemma {:induction false} PassUnfolds(c: Conf, i: nat, ev: Press, prog: Option<string>, quitHappened: bool)
    requires ValidConf(c) && i <= |c.entries|
    ensures var turns, pass := PassTurns(c, i, ev, prog, quitHappened), OnePass(c, i, ev, prog, quitHappened);
            if i == |c.entries| then
              && InRange(c, turns) && After(c, turns, prog) == c == pass.c
              && AllStrings(c, turns, prog) == [] == pass.strings
            else
              var v := VisitOf(c, i, ev, prog, quitHappened);
              var later := OnePass(v.c, i + 1, ev, prog, quitHappened || v.quits);
              && turns == [Turn(i, ev, quitHappened)]
                          + PassTurns(v.c, i + 1, ev, prog, quitHappened || v.quits)
              && InRange(c, turns) && pass.c == later.c && pass.strings == Strings(v.s) + later.strings
  {
    hide VisitOf;
  }

  /** One pass over the entries is such a run, and gives its strings. */
  lemma {:induction false} PassIsRun(c: Conf, i: nat, ev: Press, prog: Option<string>, quitHappened: bool)
    requires ValidConf(c) && i <= |c.entries|
    ensures var turns, pass := PassTurns(c, i, ev, prog, quitHappened), OnePass(c, i, ev, prog, quitHappened);
            && InRange(c, turns) && After(c, turns, prog) == pass.c && AllStrings(c, turns, prog) == pass.strings
    decreases |c.entries| - i
  {
    hide VisitOf, PassTurns, OnePass, After, AllStrings;
    PassUnfolds(c, i, ev, prog, quitHappened);
    if i < |c.entries| {
      var v := VisitOf(c, i, ev, prog, quitHappened);
      PassIsRun(v.c, i + 1, ev, prog, quitHappened || v.quits);
      FirstTurn(c, Turn(i, ev, quitHappened), PassTurns(v.c, i + 1, ev, prog, quitHappened || v.quits), prog);
    }
  }

  /** An entry with `quit` ends the event for all behind it exactly if it took part: its code was at least begun,
      in its mode, before any other had quit. */
  lemma QuitLaw(c: Conf, t: Turn, prog: Option<string>)
    requires ValidConf(c) && t.i < |c.entries|
    ensures var e := c.entries[t.i];
            Visited(c, t, prog).quits <==>
            && e.quit && !t.quitHappened && IsCodeOf(e, t.ev.remote, t.ev.button, t.ev.rep).level > 0
            && (e.mode.Some? ==> c.mode.Some? && SameText(e.mode.value, c.mode.value))
  {
    hide SameText, ExecuteOf, IsCodeOf, Resets, ForProgram;
    var e := c.entries[t.i];
    CodeLaw(e, t.ev);
    var r := IsCodeOf(e, t.ev.remote, t.ev.button, t.ev.rep);
    ExecuteLaw(c.(entries := c.entries[t.i := r.e]), t.i, prog, t.i);
  }
}
