/** Turning an event into strings: lirc_execute and lirc_code2char_internal of lib/lirc_client.c,
    and what calling the latter until it yields nothing amounts to. */
module Draining {
  import opened Lircrc
  import opened Options

  /** The configuration's entries and its mode. */
  datatype Conf = Conf(entries: seq<Entry>, mode: Option<string>)

  predicate ValidConf(c: Conf) {
    forall i | 0 <= i < |c.entries| :: c.entries[i].Valid()
  }

  predicate SameOption(a: Option<string>, b: Option<string>) {
    a.Some? && b.Some? && SameText(a.value, b.value)
  }

  /** lirc_clearmode: leaving a mode allows its `once` entries again. */
  function Cleared(c: Conf): (r: Conf)
    ensures |r.entries| == |c.entries|
    ensures ValidConf(c) ==> ValidConf(r)
  {
    if c.mode.None? then c
    else
      Conf(seq(|c.entries|, i requires 0 <= i < |c.entries| =>
             if SameOption(c.entries[i].changeMode, c.mode) then c.entries[i].(ecno := false) else c.entries[i]),
           None)
  }

  datatype Executed = Executed(c: Conf, s: Option<string>)

  /** The mode part of lirc_execute; false when the entry was executed before and is to be once. */
  datatype Entered = Entered(c: Conf, doOnce: bool)

  function EnterMode(c: Conf, i: nat): (r: Entered)
    requires ValidConf(c) && i < |c.entries|
    ensures ValidConf(r.c) && |r.c.entries| == |c.entries|
  {
    var c1 := if c.entries[i].setsMode then Cleared(c) else c;
    var e := c1.entries[i];
    if e.changeMode.None? then Entered(c1, true)
    else
      var c2 := c1.(mode := e.changeMode);
      if e.once then
        if e.ecno then Entered(c2, false) else Entered(c2.(entries := c2.entries[i := e.(ecno := true)]), true)
      else Entered(c2, true)
  }

  /** lirc_execute: `prog` is lirc_prog, None if it is NULL. */
  function ExecuteOf(c: Conf, i: nat, prog: Option<string>): (r: Executed)
    requires ValidConf(c) && i < |c.entries|
    ensures ValidConf(r.c) && |r.c.entries| == |c.entries|
  {
    var m := EnterMode(c, i);
    var e := m.c.entries[i];
    if e.config != [] && e.prog.Some? && (prog.None? || SameOption(e.prog, prog)) && m.doOnce then
      var next := if e.nextConfig + 1 == |e.config| then 0 else e.nextConfig + 1;
      Executed(m.c.(entries := m.c.entries[i := e.(nextConfig := next)]), Some(e.config[e.nextConfig]))
    else Executed(m.c, None)
  }

  datatype Press = Press(remote: string, button: string, rep: nat)

  predicate ModeAllows(c: Conf, e: Entry) {
    e.mode.None? || SameOption(e.mode, c.mode)
  }

  /** What asking one entry leads to: whether its action counted, the string it gave, and whether it
      ends the event for all later entries. */
  datatype Visit = Visit(c: Conf, s: Option<string>, quits: bool)

  function VisitOf(c: Conf, i: nat, ev: Press, prog: Option<string>, quitHappened: bool): (v: Visit)
    requires ValidConf(c) && i < |c.entries|
    ensures ValidConf(v.c) && |v.c.entries| == |c.entries|
  {
    var r := IsCodeOf(c.entries[i], ev.remote, ev.button, ev.rep);
    var c1 := c.(entries := c.entries[i := r.e]);
    if r.level > 0 && ModeAllows(c1, r.e) && !quitHappened then
      var x := if r.level > 1 then ExecuteOf(c1, i, prog) else Executed(c1, None);
      Visit(x.c, x.s, x.c.entries[i].quit)
    else Visit(c1, None, false)
  }

  /** The result of one call: the string, where the next call starts (the number of entries stands
      for NULL) and which entries were asked. */
  datatype Call = Call(c: Conf, s: Option<string>, next: nat, asked: seq<nat>)

  /** The entries from i on, once an entry has quit the event: asked, but not executed. */
  function Rest(c: Conf, i: nat, ev: Press, prog: Option<string>): (r: (Conf, seq<nat>))
    requires ValidConf(c) && i <= |c.entries|
    ensures ValidConf(r.0) && |r.0.entries| == |c.entries|
    decreases |c.entries| - i
  {
    if i == |c.entries| then (c, [])
    else
      var v := VisitOf(c, i, ev, prog, true);
      var rest := Rest(v.c, i + 1, ev, prog);
      (rest.0, [i] + rest.1)
  }

  function CallOf(c: Conf, i: nat, ev: Press, prog: Option<string>): (r: Call)
    requires ValidConf(c) && i <= |c.entries|
    ensures ValidConf(r.c) && |r.c.entries| == |c.entries| && r.next <= |c.entries|
    ensures r.s.Some? ==> r.next > i
    ensures r.s.None? ==> r.next == 0
    decreases |c.entries| - i
  {
    if i == |c.entries| then Call(c, None, 0, [])
    else
      var v := VisitOf(c, i, ev, prog, false);
      if v.quits then
        var rest := Rest(v.c, i + 1, ev, prog);
        Call(rest.0, v.s, if v.s.Some? then |c.entries| else 0, [i] + rest.1)
      else if v.s.Some? then Call(v.c, v.s, i + 1, [i])
      else
        var later := CallOf(v.c, i + 1, ev, prog);
        later.(asked := [i] + later.asked)
  }

  // ----- the code

  class Config {
    var entries: seq<Entry>
    var currentMode: Option<string>
    /** Where the next call starts; the number of entries stands for NULL. */
    var next: nat
    const prog: Option<string>

    ghost predicate Valid()
      reads this
    {
      ValidConf(State()) && next <= |entries|
    }

    ghost function State(): Conf
      reads this
    {
      Conf(entries, currentMode)
    }

    constructor (entries: seq<Entry>, prog: Option<string>)
      requires ValidConf(Conf(entries, None))
      ensures Valid() && State() == Conf(entries, None) && next == 0 && this.prog == prog
    {
      this.entries, this.prog := entries, prog;
      currentMode, next := None, 0;
    }

    method ClearMode()
      requires Valid()
      modifies this`entries, this`currentMode
      ensures Valid() && State() == Cleared(old(State()))
    {
      if currentMode.None? { return; }
      ghost var before := entries;
      var scan := 0;
      while scan < |entries|
        invariant scan <= |entries| == |before|
        invariant forall i | 0 <= i < |entries| ::
            entries[i] ==
            if i < scan && SameOption(before[i].changeMode, currentMode) then before[i].(ecno := false) else before[i]
        invariant forall i | 0 <= i < |entries| :: entries[i].Valid()
        invariant currentMode == old(currentMode)
      {
        if SameOption(entries[scan].changeMode, currentMode) {
          entries := entries[scan := entries[scan].(ecno := false)];
        }
        scan := scan + 1;
      }
      currentMode := None;
      assert entries == Cleared(old(State())).entries;
    }

    method Execute(scan: nat) returns (s: Option<string>)
      requires Valid() && scan < |entries|
      modifies this`entries, this`currentMode
      ensures Valid() && Executed(State(), s) == ExecuteOf(old(State()), scan, prog)
    {
      hide Cleared, SameOption;
      var doOnce := true;
      if entries[scan].setsMode {
        ClearMode();
      }
      if entries[scan].changeMode.Some? {
        currentMode := entries[scan].changeMode;
        if entries[scan].once {
          if entries[scan].ecno {
            doOnce := false;
          } else {
            entries := entries[scan := entries[scan].(ecno := true)];
          }
        }
      }
      ghost var m := EnterMode(old(State()), scan);
      assert m == Entered(State(), doOnce);
      var e := entries[scan];
      if e.config != [] && e.prog.Some? && (prog.None? || SameOption(e.prog, prog)) && doOnce {
        s := Some(e.config[e.nextConfig]);
        var nextConfig := e.nextConfig + 1;
        if nextConfig == |e.config| {
          nextConfig := 0;
        }
        entries := entries[scan := e.(nextConfig := nextConfig)];
      } else {
        s := None;
      }
    }

    /** One turn of the loop of lirc_code2char_internal. */
    method Ask(scan: nat, ev: Press, quitHappened: bool) returns (s: Option<string>, quits: bool)
      requires Valid() && scan < |entries|
      modifies this`entries, this`currentMode
      ensures Valid() && |entries| == old(|entries|)
      ensures Visit(State(), s, quits) == VisitOf(old(State()), scan, ev, prog, quitHappened)
    {
      s, quits := None, false;
      var e, level := IsCode(entries[scan], ev.remote, ev.button, ev.rep);
      entries := entries[scan := e];
      if level > 0 && (e.mode.None? || SameOption(e.mode, currentMode)) && !quitHappened {
        if level > 1 {
          s := Execute(scan);
        }
        quits := entries[scan].quit;
      }
    }

    /** lirc_code2char_internal for a well-formed code. */
    method Code2Char(ev: Press) returns (s: Option<string>, ghost asked: seq<nat>)
      requires Valid()
      modifies this
      ensures Valid() && |entries| == old(|entries|)
      ensures Call(State(), s, next, asked) == CallOf(old(State()), old(next), ev, prog)
    {
      hide VisitOf, CallOf, Rest, ValidConf;
      s, asked := None, [];
      CallAtEnd(State(), ev, prog);
      ExtendedEmpty(CallOf(State(), next, ev, prog));
      ghost var goal := CallOf(State(), next, ev, prog);
      var scan := next;
      var quitHappened := false;
      while scan < |entries|
        invariant Valid() && scan <= |entries| == old(|entries|)
        invariant !quitHappened ==> s == None && Extended(asked, CallOf(State(), scan, ev, prog)) == goal
        invariant quitHappened ==>
            var rest := Rest(State(), scan, ev, prog);
            goal == Call(rest.0, s, if s.Some? then |entries| else 0, asked + rest.1)
      {
        if quitHappened {
          RestStep(State(), scan, ev, prog, asked);
          var _, _ := Ask(scan, ev, true);
          asked := asked + [scan];
          scan := scan + 1;
        } else {
          CallStep(State(), scan, ev, prog, asked);
          var t, quits := Ask(scan, ev, false);
          s := t;
          asked := asked + [scan];
          scan := scan + 1;
          if quits {
            quitHappened := true;
          } else if s.Some? {
            next := scan;
            return;
          }
        }
      }
      CallAtEnd(State(), ev, prog);
      assert asked + [] == asked;
      next := if s.Some? then |entries| else 0;
    }
  }

  function Extended(asked: seq<nat>, r: Call): Call {
    r.(asked := asked + r.asked)
  }

  lemma ExtendedEmpty(r: Call)
    ensures Extended([], r) == r
  {
    assert [] + r.asked == r.asked;
  }

  lemma CallAtEnd(c: Conf, ev: Press, prog: Option<string>)
    requires ValidConf(c)
    ensures CallOf(c, |c.entries|, ev, prog) == Call(c, None, 0, [])
    ensures Rest(c, |c.entries|, ev, prog) == (c, [])
  {}

  lemma RestStep(c: Conf, i: nat, ev: Press, prog: Option<string>, asked: seq<nat>)
    requires ValidConf(c) && i < |c.entries|
    ensures var v := VisitOf(c, i, ev, prog, true);
            && Rest(v.c, i + 1, ev, prog).0 == Rest(c, i, ev, prog).0
            && (asked + [i]) + Rest(v.c, i + 1, ev, prog).1 == asked + Rest(c, i, ev, prog).1
  {}

  lemma CallStep(c: Conf, i: nat, ev: Press, prog: Option<string>, asked: seq<nat>)
    requires ValidConf(c) && i < |c.entries|
    ensures var v := VisitOf(c, i, ev, prog, false);
            Extended(asked, CallOf(c, i, ev, prog)) ==
            if v.quits then
              var rest := Rest(v.c, i + 1, ev, prog);
              Call(rest.0, v.s, if v.s.Some? then |c.entries| else 0, (asked + [i]) + rest.1)
            else if v.s.Some? then Call(v.c, v.s, i + 1, asked + [i])
            else Extended(asked + [i], CallOf(v.c, i + 1, ev, prog))
  {
    hide VisitOf;
    var v := VisitOf(c, i, ev, prog, false);
    if !v.quits && v.s.None? {
      var later := CallOf(v.c, i + 1, ev, prog);
      assert asked + ([i] + later.asked) == (asked + [i]) + later.asked;
    } else if v.quits {
      assert asked + ([i] + Rest(v.c, i + 1, ev, prog).1) == (asked + [i]) + Rest(v.c, i + 1, ev, prog).1;
    }
  }

  // ----- draining an event

  /** One pass over the entries from i on: every entry is asked once, in order, and the strings of
      the executed ones are collected up to and including the first that quits. */
  datatype Pass = Pass(c: Conf, strings: seq<string>, asked: seq<nat>)

  function Strings(s: Option<string>): seq<string> {
    if s.Some? then [s.value] else []
  }

  function OnePass(c: Conf, i: nat, ev: Press, prog: Option<string>, quitHappened: bool): (r: Pass)
    requires ValidConf(c) && i <= |c.entries|
    ensures ValidConf(r.c) && |r.c.entries| == |c.entries|
    decreases |c.entries| - i
  {
    if i == |c.entries| then Pass(c, [], [])
    else
      var v := VisitOf(c, i, ev, prog, quitHappened);
      var later := OnePass(v.c, i + 1, ev, prog, quitHappened || v.quits);
      Pass(later.c, Strings(v.s) + later.strings, [i] + later.asked)
  }

  /** Calling until nothing is returned: the strings in order, the entries asked, and the calls made. */
  datatype Drained = Drained(c: Conf, strings: seq<string>, asked: seq<nat>, next: nat, calls: nat)

  function Drain(c: Conf, i: nat, ev: Press, prog: Option<string>): (r: Drained)
    requires ValidConf(c) && i <= |c.entries|
    decreases |c.entries| - i
  {
    var call := CallOf(c, i, ev, prog);
    if call.s.None? then Drained(call.c, [], call.asked, call.next, 1)
    else
      var later := Drain(call.c, call.next, ev, prog);
      Drained(later.c, [call.s.value] + later.strings, call.asked + later.asked, later.next, later.calls + 1)
  }

  lemma QuittersAreSilent(c: Conf, i: nat, ev: Press, prog: Option<string>)
    requires ValidConf(c) && i < |c.entries|
    ensures VisitOf(c, i, ev, prog, true).s == None && !VisitOf(c, i, ev, prog, true).quits
  {}

  lemma {:induction false} RestIsPass(c: Conf, i: nat, ev: Press, prog: Option<string>)
    requires ValidConf(c) && i <= |c.entries|
    ensures var rest := Rest(c, i, ev, prog);
            OnePass(c, i, ev, prog, true) == Pass(rest.0, [], rest.1)
    decreases |c.entries| - i
  {
    hide VisitOf;
    if i < |c.entries| {
      QuittersAreSilent(c, i, ev, prog);
      RestIsPass(VisitOf(c, i, ev, prog, true).c, i + 1, ev, prog);
    }
  }

  /** A pass from i on, cut after the entry that gives the first string. */
  lemma {:induction false} CallIsPass(c: Conf, i: nat, ev: Press, prog: Option<string>)
    requires ValidConf(c) && i <= |c.entries|
    ensures var call := CallOf(c, i, ev, prog);
            var pass := OnePass(c, i, ev, prog, false);
            if call.s.None? then pass == Pass(call.c, [], call.asked)
            else
              var later := OnePass(call.c, call.next, ev, prog, false);
              pass == Pass(later.c, [call.s.value] + later.strings, call.asked + later.asked)
    decreases |c.entries| - i
  {
    hide VisitOf, Rest, ValidConf;
    if i < |c.entries| {
      var v := VisitOf(c, i, ev, prog, false);
      if v.quits {
        RestIsPass(v.c, i + 1, ev, prog);
        QuitStrings(i, Strings(v.s), Rest(v.c, i + 1, ev, prog).1);
      } else if v.s.None? {
        CallIsPass(v.c, i + 1, ev, prog);
        var call := CallOf(v.c, i + 1, ev, prog);
        Regroup(i, call.asked, if call.s.None? then [] else OnePass(call.c, call.next, ev, prog, false).asked);
      }
    }
  }

  lemma QuitStrings(i: nat, strings: seq<string>, asked: seq<nat>)
    ensures ([i] + asked) + [] == [i] + asked && strings + [] == strings
  {}

  lemma Regroup(i: nat, a: seq<nat>, b: seq<nat>)
    ensures [i] + (a + b) == ([i] + a) + b
  {}

  /** Draining is one pass: however the work is spread over the calls, the strings, the final
      state of all entries and the order in which they were asked are those of a single pass over
      the list; it takes one call more than there are strings, and ends back at the first entry. */
  lemma {:induction false} DrainIsOnePass(c: Conf, i: nat, ev: Press, prog: Option<string>)
    requires ValidConf(c) && i <= |c.entries|
    ensures var d, pass := Drain(c, i, ev, prog), OnePass(c, i, ev, prog, false);
            && d.c == pass.c && d.strings == pass.strings && d.asked == pass.asked
            && d.next == 0 && d.calls == |d.strings| + 1
    decreases |c.entries| - i
  {
    CallIsPass(c, i, ev, prog);
    var call := CallOf(c, i, ev, prog);
    if call.s.Some? {
      DrainIsOnePass(call.c, call.next, ev, prog);
    }
  }

  /** A pass asks every entry from i on exactly once, in list order. */
  lemma {:induction false} PassAsksAll(c: Conf, i: nat, ev: Press, prog: Option<string>, quitHappened: bool)
    requires ValidConf(c) && i <= |c.entries|
    ensures var pass := OnePass(c, i, ev, prog, quitHappened);
            && |pass.asked| == |c.entries| - i && |pass.strings| <= |c.entries| - i
            && forall k | 0 <= k < |pass.asked| :: pass.asked[k] == i + k
    ensures quitHappened ==> OnePass(c, i, ev, prog, quitHappened).strings == []
    decreases |c.entries| - i
  {
    hide VisitOf;
    if i < |c.entries| {
      QuittersAreSilent(c, i, ev, prog);
      var v := VisitOf(c, i, ev, prog, quitHappened);
      PassAsksAll(v.c, i + 1, ev, prog, quitHappened || v.quits);
    }
  }

  /** Nothing is executed behind the first entry that quits. */
  lemma QuitEndsPass(c: Conf, i: nat, ev: Press, prog: Option<string>)
    requires ValidConf(c) && i < |c.entries| && VisitOf(c, i, ev, prog, false).quits
    ensures OnePass(c, i, ev, prog, false).strings == Strings(VisitOf(c, i, ev, prog, false).s)
  {
    hide VisitOf, ValidConf;
    var v := VisitOf(c, i, ev, prog, false);
    PassAsksAll(v.c, i + 1, ev, prog, true);
    assert Strings(v.s) + [] == Strings(v.s);
  }

  /** The client's loop: lirc_code2char until it gives no string. */
  method DrainEvent(config: Config, ev: Press) returns (strings: seq<string>, ghost asked: seq<nat>)
    requires config.Valid() && config.next == 0
    modifies config
    ensures config.Valid() && config.next == 0
    ensures Pass(config.State(), strings, asked) == OnePass(old(config.State()), 0, ev, config.prog, false)
  {
    hide OnePass, CallOf, ValidConf;
    strings, asked := [], [];
    ghost var goal := OnePass(config.State(), 0, ev, config.prog, false);
    var more := true;
    assert [] + goal.strings == goal.strings && [] + goal.asked == goal.asked;
    while more
      invariant config.Valid() && |config.entries| == old(|config.entries|)
      invariant if more then
                  var later := OnePass(config.State(), config.next, ev, config.prog, false);
                  goal == Pass(later.c, strings + later.strings, asked + later.asked)
                else config.next == 0 && goal == Pass(config.State(), strings, asked)
      decreases more, |config.entries| - config.next
    {
      CallIsPass(config.State(), config.next, ev, config.prog);
      ghost var s0, a0 := strings, asked;
      var s, a := config.Code2Char(ev);
      asked := asked + a;
      more := s.Some?;
      if more {
        strings := strings + [s.value];
        ghost var later := OnePass(config.State(), config.next, ev, config.prog, false);
        assert s0 + ([s.value] + later.strings) == (s0 + [s.value]) + later.strings;
        assert a0 + (a + later.asked) == (a0 + a) + later.asked;
      } else {
        assert s0 + [] == s0;
      }
    }
  }
}
