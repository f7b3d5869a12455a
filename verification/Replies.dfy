/** The replies lircd prints (daemons/lircd.cpp) and the packet automaton of lirc_command_run
    (lib/lirc_client.c) that reads them, at the level of whole lines. */
module Replies {
  import opened Lircrc
  import opened Options

  const EIO: int := 5
  const EPROTO: int := 71
  const PACKET_SIZE: nat := 256

  // ----- numbers as text

  function Digit(d: nat): char
    requires d < 10
  {
    '0' + d as char
  }

  /** printf "%d" */
  function Decimal(n: nat): (s: string)
    ensures s != [] && (n > 0 ==> '1' <= s[0] <= '9')
    ensures forall i | 0 <= i < |s| :: '0' <= s[i] <= '9'
    decreases n
  {
    if n < 10 then [Digit(n)] else Decimal(n / 10) + [Digit(n % 10)]
  }

  function DigitValue(c: char): nat {
    if '0' <= c <= '9' then c as int - '0' as int
    else if 'a' <= c <= 'z' then c as int - 'a' as int + 10
    else if 'A' <= c <= 'Z' then c as int - 'A' as int + 10
    else 36
  }

  /** The value of a string that consists of digits of the base and nothing else. */
  function Digits(s: string, base: nat): Option<nat> {
    if s == [] || DigitValue(s[|s| - 1]) >= base then None
    else if |s| == 1 then Some(DigitValue(s[0]))
    else
      var high := Digits(s[..|s| - 1], base);
      if high.None? then None else Some(high.value * base + DigitValue(s[|s| - 1]))
  }

  /** strtoul with base 0 on a string without leading blanks or sign, cut to 32 bits; None when
      it does not read the whole string. */
  function ParseCount(s: string): Option<nat> {
    var v :=
      if |s| >= 2 && s[0] == '0' && (s[1] == 'x' || s[1] == 'X') then Digits(s[2..], 16)
      else if s != [] && s[0] == '0' then Digits(s, 8)
      else Digits(s, 10);
    if v.None? then None
    else if v.value >= 0x1_0000_0000_0000_0000 then Some(0xFFFF_FFFF)
    else Some(v.value % 0x1_0000_0000)
  }

  lemma {:induction false} DigitsOfDecimal(n: nat)
    ensures Digits(Decimal(n), 10) == Some(n)
    decreases n
  {
    var s := Decimal(n);
    if n >= 10 {
      DigitsOfDecimal(n / 10);
      assert s[..|s| - 1] == Decimal(n / 10);
      assert DigitValue(Digit(n % 10)) == n % 10;
      assert n / 10 * 10 + n % 10 == n;
    }
  }

  /** A count that lircd prints is read back, if it fits 32 bits. */
  lemma CountReadBack(n: nat)
    requires 0 < n < 0x1_0000_0000
    ensures ParseCount(Decimal(n)) == Some(n)
  {
    DigitsOfDecimal(n);
    hide Digits, Decimal;
    var s := Decimal(n);
    assert s[0] != '0';
    assert ParseCount(s) == Some(n % 0x1_0000_0000);
  }

  // ----- the client

  datatype PacketState = PBegin | PMessage | PStatus | PData | PN | PDataN | PEnd

  datatype Client = Client(state: PacketState, status: int, n: nat, dataN: nat)

  datatype Progress = Goes(c: Client) | Returns(code: int)

  const FRESH := Client(PBegin, 0, 0, 0)

  /** One line of input for a command without its newline. */
  function OneLine(c: Client, cmd: string, line: string): Progress {
    if line == "" then Returns(EPROTO)
    else
      match c.state
      case PBegin => Goes(if SameText(line, "BEGIN") then c.(state := PMessage) else c)
      case PMessage => Goes(c.(state := if SameText(line, cmd) then PStatus else PBegin))
      case PStatus =>
        if SameText(line, "SUCCESS") then Goes(c.(status := 0, state := PData))
        else if SameText(line, "END") then Returns(0)
        else if SameText(line, "ERROR") then Goes(c.(status := EIO, state := PData))
        else Returns(EPROTO)
      case PData =>
        if SameText(line, "END") then Returns(c.status)
        else if SameText(line, "DATA") then Goes(c.(state := PN))
        else Returns(EPROTO)
      case PN =>
        var count := ParseCount(line);
        if count.None? then Returns(EPROTO)
        else Goes(c.(dataN := count.value, state := if count.value == 0 then PEnd else PDataN))
      case PDataN => Goes(c.(n := c.n + 1, state := if c.n + 1 == c.dataN then PEnd else PDataN))
      case PEnd => if SameText(line, "END") then Returns(c.status) else Returns(EPROTO)
  }

  /** Reading lines: still waiting for more, or returned with the lines not read. */
  datatype Run = Waiting(c: Client) | Finished(code: int, rest: seq<string>)

  function RunClient(c: Client, cmd: string, lines: seq<string>): Run
    decreases lines
  {
    if lines == [] then Waiting(c)
    else
      match OneLine(c, cmd, lines[0])
      case Goes(c') => RunClient(c', cmd, lines[1..])
      case Returns(code) => Finished(code, lines[1..])
  }

  /** The response loop of lirc_command_run. */
  method CommandRun(cmd: string, lines: seq<string>) returns (result: Run)
    ensures result == RunClient(FRESH, cmd, lines)
  {
    var state, status := PBegin, 0;
    var n: nat, dataN: nat := 0, 0;
    var i := 0;
    assert lines[0..] == lines;
    while i < |lines|
      invariant i <= |lines|
      invariant RunClient(Client(state, status, n, dataN), cmd, lines[i..]) == RunClient(FRESH, cmd, lines)
    {
      var text := lines[i];
      assert lines[i..][1..] == lines[i + 1..];
      i := i + 1;
      if text == "" { return Finished(EPROTO, lines[i..]); }
      match state {
        case PBegin =>
          if SameText(text, "BEGIN") { state := PMessage; }
        case PMessage =>
          if SameText(text, cmd) { state := PStatus; } else { state := PBegin; }
        case PStatus =>
          if SameText(text, "SUCCESS") {
            status := 0;
          } else if SameText(text, "END") {
            return Finished(0, lines[i..]);
          } else if SameText(text, "ERROR") {
            status := EIO;
          } else {
            return Finished(EPROTO, lines[i..]);
          }
          state := PData;
        case PData =>
          if SameText(text, "END") { return Finished(status, lines[i..]); }
          if !SameText(text, "DATA") { return Finished(EPROTO, lines[i..]); }
          state := PN;
        case PN =>
          var count := ParseCount(text);
          if count.None? { return Finished(EPROTO, lines[i..]); }
          dataN := count.value;
          state := if dataN == 0 then PEnd else PDataN;
        case PDataN =>
          n := n + 1;
          if n == dataN { state := PEnd; }
        case PEnd =>
          if SameText(text, "END") { return Finished(status, lines[i..]); }
          return Finished(EPROTO, lines[i..]);
      }
    }
    result := Waiting(Client(state, status, n, dataN));
  }

  // ----- the server

  /** The lines of a text in which every line is ended by a newline. */
  function Lines(text: string): seq<string> {
    if text == [] then []
    else
      var rest := Lines(text[1..]);
      if text[0] == '\n' then [""] + rest
      else if rest == [] then [[text[0]]]
      else [[text[0]] + rest[0]] + rest[1..]
  }

  predicate OneLiner(s: string) {
    '\n' !in s
  }

  function Newlines(text: string): nat {
    if text == [] then 0 else Newlines(text[..|text| - 1]) + (if text[|text| - 1] == '\n' then 1 else 0)
  }

  /** Lines, each ended by a newline. */
  function Joined(lines: seq<string>): string {
    if lines == [] then "" else lines[0] + "\n" + Joined(lines[1..])
  }

  /** The lines of a reply: data lines are announced by their number, and left out if there are none. */
  function ReplyLines(cmd: string, ok: bool, data: seq<string>): seq<string> {
    ["BEGIN", cmd, if ok then "SUCCESS" else "ERROR"]
    + (if data == [] then [] else ["DATA", Decimal(|data|)] + data) + ["END"]
  }

  lemma {:induction false} LinesOfOne(s: string, rest: string)
    requires OneLiner(s)
    ensures Lines(s + "\n" + rest) == [s] + Lines(rest)
  {
    if s == [] {
      assert s + "\n" + rest == "\n" + rest;
      assert ("\n" + rest)[1..] == rest;
    } else {
      assert (s + "\n" + rest)[1..] == s[1..] + "\n" + rest;
      LinesOfOne(s[1..], rest);
      assert [s[0]] + s[1..] == s;
    }
  }

  /** What is printed line by line is read as those lines. */
  lemma {:induction false} LinesOfJoined(lines: seq<string>)
    requires forall i | 0 <= i < |lines| :: OneLiner(lines[i])
    ensures Lines(Joined(lines)) == lines
  {
    if lines != [] {
      LinesOfOne(lines[0], Joined(lines[1..]));
      LinesOfJoined(lines[1..]);
    }
  }

  lemma {:induction false} JoinedConcat(a: seq<string>, b: seq<string>)
    ensures Joined(a + b) == Joined(a) + Joined(b)
  {
    if a == [] {
      assert a + b == b;
    } else {
      assert (a + b)[1..] == a[1..] + b;
      JoinedConcat(a[1..], b);
    }
  }

  lemma {:induction false} NewlinesConcat(a: string, b: string)
    ensures Newlines(a + b) == Newlines(a) + Newlines(b)
  {
    if b == [] {
      assert a + b == a;
    } else {
      assert (a + b)[..|a + b| - 1] == a + b[..|b| - 1];
      NewlinesConcat(a, b[..|b| - 1]);
    }
  }

  lemma {:induction false} NoNewlines(s: string)
    requires OneLiner(s)
    ensures Newlines(s) == 0
  {
    if s != [] {
      NoNewlines(s[..|s| - 1]);
    }
  }

  lemma {:induction false} NewlinesOfJoined(lines: seq<string>)
    requires forall i | 0 <= i < |lines| :: OneLiner(lines[i])
    ensures Newlines(Joined(lines)) == |lines|
  {
    if lines != [] {
      NewlinesOfJoined(lines[1..]);
      NoNewlines(lines[0]);
      assert Newlines("\n") == Newlines("\n"[..0]) + 1;
      NewlinesConcat(lines[0], "\n");
      NewlinesConcat(lines[0] + "\n", Joined(lines[1..]));
    }
  }

  lemma {:induction false} JoinedOne(s: string)
    ensures Joined([s]) == s + "\n"
  {
    assert [s][1..] == [];
    assert s + "\n" + "" == s + "\n";
  }

  /** The reply's text in the pieces the printers write. */
  lemma ReplyText(cmd: string, ok: bool, data: seq<string>)
    ensures Joined(ReplyLines(cmd, ok, data)) ==
            "BEGIN\n" + (cmd + "\n") + (if ok then "SUCCESS\n" else "ERROR\n")
            + (if data == [] then "" else "DATA\n" + (Decimal(|data|) + "\n") + Joined(data)) + "END\n"
  {
    hide Joined, Decimal;
    var status := if ok then "SUCCESS" else "ERROR";
    var body := if data == [] then [] else ["DATA", Decimal(|data|)] + data;
    JoinedConcat(["BEGIN", cmd, status] + body, ["END"]);
    JoinedConcat(["BEGIN", cmd, status], body);
    JoinedThree("BEGIN", cmd, status);
    JoinedOne("END");
    if data == [] {
      JoinedNone();
    } else {
      JoinedConcat(["DATA", Decimal(|data|)], data);
      JoinedTwo("DATA", Decimal(|data|));
      assert "DATA" + "\n" == "DATA\n";
    }
    assert "BEGIN" + "\n" == "BEGIN\n" && "END" + "\n" == "END\n";
    assert status + "\n" == if ok then "SUCCESS\n" else "ERROR\n";
  }

  lemma JoinedNone()
    ensures Joined([]) == ""
  {}

  lemma JoinedTwo(a: string, b: string)
    ensures Joined([a, b]) == (a + "\n") + (b + "\n")
  {
    assert [a, b] == [a] + [b];
    JoinedConcat([a], [b]);
    JoinedOne(a);
    JoinedOne(b);
  }

  lemma JoinedThree(a: string, b: string, c: string)
    ensures Joined([a, b, c]) == (a + "\n") + (b + "\n") + (c + "\n")
  {
    assert [a, b, c] == [a, b] + [c];
    JoinedConcat([a, b], [c]);
    JoinedTwo(a, b);
    JoinedOne(c);
  }

  /** send_success */
  method SendSuccess(cmd: string) returns (text: string)
    ensures text == Joined(ReplyLines(cmd, true, []))
  {
    text := "BEGIN\n";
    text := text + (cmd + "\n");
    text := text + "SUCCESS\n";
    text := text + "END\n";
    ReplyText(cmd, true, []);
  }

  /** The text up to its last newline, or all of it. */
  function UpToLastNewline(text: string): string {
    if '\n' !in text then text
    else if text[|text| - 1] == '\n' then text[..|text| - 1]
    else UpToLastNewline(text[..|text| - 1])
  }

  /** The data lines of an error reply. */
  function MessageLines(message: string): seq<string> {
    Lines(UpToLastNewline(message) + "\n")
  }

  lemma {:induction false} LastNewline(head: string, tail: string)
    requires OneLiner(tail)
    ensures UpToLastNewline(head + "\n" + tail) == head && UpToLastNewline(tail) == tail
  {
    var text := head + "\n" + tail;
    assert text[|head|] == '\n';
    if tail == [] {
      assert text[..|text| - 1] == head;
    } else {
      assert text[..|text| - 1] == head + "\n" + tail[..|tail| - 1];
      LastNewline(head, tail[..|tail| - 1]);
    }
  }

  /** The data of an error reply is the message up to and including its last newline; one is added if there is none. */
  lemma MessageText(head: string, tail: string)
    requires OneLiner(tail)
    ensures Joined(MessageLines(head + "\n" + tail)) == head + "\n" && Joined(MessageLines(tail)) == tail + "\n"
  {
    LastNewline(head, tail);
    JoinedLines(head);
    JoinedLines(tail);
  }

  /** A text that ends with a newline is its lines, each ended by one. */
  lemma {:induction false} JoinedLines(text: string)
    ensures Joined(Lines(text + "\n")) == text + "\n" && |Lines(text + "\n")| == Newlines(text + "\n")
    ensures Lines(text + "\n") != []
    ensures forall i | 0 <= i < |Lines(text + "\n")| :: OneLiner(Lines(text + "\n")[i])
  {
    hide Lines, Joined, Newlines;
    NewlineAlone();
    if text == [] {
      assert text + "\n" == "\n";
    } else {
      var c, rest := text[0], text[1..] + "\n";
      assert text + "\n" == [c] + rest;
      JoinedLines(text[1..]);
      var ls := Lines(rest);
      LinesCons(c, rest);
      NewlinesCons(c, rest);
      assert ls == [ls[0]] + ls[1..];
      if c == '\n' {
        JoinedCons("", ls);
        assert "" + "\n" + Joined(ls) == [c] + Joined(ls);
      } else {
        JoinedCons([c] + ls[0], ls[1..]);
        JoinedCons(ls[0], ls[1..]);
        assert [c] + ls[0] + "\n" + Joined(ls[1..]) == [c] + (ls[0] + "\n" + Joined(ls[1..]));
      }
    }
  }

  lemma NewlineAlone()
    ensures Lines("\n") == [""] && Joined([""]) == "\n" && Newlines("\n") == 1
  {
    assert "\n"[1..] == "" && Lines("") == [];
    JoinedOne("");
    assert Newlines("\n") == Newlines("\n"[..0]) + 1;
  }

  lemma LinesCons(c: char, rest: string)
    ensures Lines([c] + rest) ==
            if c == '\n' then [""] + Lines(rest)
            else if Lines(rest) == [] then [[c]] else [[c] + Lines(rest)[0]] + Lines(rest)[1..]
  {
    assert ([c] + rest)[1..] == rest;
  }

  lemma NewlinesCons(c: char, rest: string)
    ensures Newlines([c] + rest) == Newlines(rest) + if c == '\n' then 1 else 0
  {
    NewlinesConcat([c], rest);
    assert Newlines([c]) == Newlines([c][..0]) + (if c == '\n' then 1 else 0);
  }

  lemma JoinedCons(line: string, ls: seq<string>)
    ensures Joined([line] + ls) == line + "\n" + Joined(ls)
  {
    assert ([line] + ls)[1..] == ls;
  }

  /** send_error for a formatted message: what is behind its last newline is dropped, and the newlines
      are counted to announce the lines. */
  method SendError(cmd: string, message: string) returns (text: string)
    ensures text == Joined(ReplyLines(cmd, false, MessageLines(message)))
  {
    hide Joined, Lines, Decimal;
    var end := |message|;
    ghost var cut := UpToLastNewline(message);
    assert message[..end] == message;
    while end > 0 && message[end - 1] != '\n'
      invariant end <= |message| && UpToLastNewline(message[..end]) == (if '\n' in message then cut else message[..end])
      invariant '\n' in message <==> '\n' in message[..end]
    {
      assert message[..end] == message[..end - 1] + [message[end - 1]];
      end := end - 1;
    }
    var kept := if end > 0 then message[..end - 1] else message;
    assert kept == cut;
    var buffer := kept + "\n";
    var n := 0;
    for i := 0 to |buffer|
      invariant n == Newlines(buffer[..i])
    {
      assert buffer[..i + 1][..i] == buffer[..i];
      if buffer[i] == '\n' { n := n + 1; }
    }
    assert buffer[..|buffer|] == buffer;
    JoinedLines(kept);
    text := "BEGIN\n";
    text := text + (cmd + "\n");
    text := text + "ERROR\n";
    text := text + ("DATA\n" + (Decimal(n) + "\n") + buffer);
    text := text + "END\n";
    ReplyText(cmd, false, MessageLines(message));
  }

  /** A line as snprintf cuts it: too long a name is replaced. */
  function NameLine(name: string): string {
    if |name| + 1 >= PACKET_SIZE + 1 then "name_too_long" else name
  }

  function NameLines(names: seq<string>): (ls: seq<string>)
    ensures |ls| == |names|
  {
    seq(|names|, i requires 0 <= i < |names| => NameLine(names[i]))
  }

  lemma NameLinesSnoc(names: seq<string>, i: nat)
    requires i < |names|
    ensures NameLines(names[..i + 1]) == NameLines(names[..i]) + [NameLine(names[i])]
  {}

  /** send_remote_list for the names of the remotes. */
  method SendRemoteList(cmd: string, names: seq<string>) returns (text: string)
    ensures text == Joined(ReplyLines(cmd, true, NameLines(names)))
  {
    var n := |names|;
    ReplyText(cmd, true, NameLines(names));
    text := "BEGIN\n" + (cmd + "\n") + "SUCCESS\n";
    if n == 0 {
      return text + "" + "END\n";
    }
    ghost var head := text;
    var data := "";
    for i := 0 to n
      invariant data == Joined(NameLines(names[..i]))
    {
      NameLinesSnoc(names, i);
      JoinedConcat(NameLines(names[..i]), [NameLine(names[i])]);
      JoinedOne(NameLine(names[i]));
      data := data + (NameLine(names[i]) + "\n");
    }
    assert names[..n] == names;
    text := text + ("DATA\n" + (Decimal(n) + "\n") + data);
    text := text + "END\n";
  }

  /** A reply with one data line, in the pieces version writes. */
  lemma OneLineText(cmd: string, line: string)
    ensures "BEGIN\n" + (cmd + "\n") + "SUCCESS\n" + ("DATA\n" + ("1\n" + (line + "\n"))) + "END\n" ==
            Joined(ReplyLines(cmd, true, [line]))
  {
    ReplyText(cmd, true, [line]);
    JoinedOne(line);
    assert Decimal(1) == "1" && "1" + "\n" == "1\n";
    assert "DATA\n" + "1\n" + (line + "\n") == "DATA\n" + ("1\n" + (line + "\n"));
  }

  /** version */
  method SendVersion(cmd: string, version: string) returns (text: string)
    ensures text == Joined(ReplyLines(cmd, true, [version]))
  {
    OneLineText(cmd, version);
    text := "BEGIN\n" + (cmd + "\n") + "SUCCESS\n" + ("DATA\n" + ("1\n" + (version + "\n"))) + "END\n";
  }

  /** The text of a reply whose command and data are lines is read as the reply's lines. */
  lemma ReplyIsItsLines(cmd: string, ok: bool, data: seq<string>)
    requires OneLiner(cmd) && forall i | 0 <= i < |data| :: OneLiner(data[i])
    ensures Lines(Joined(ReplyLines(cmd, ok, data))) == ReplyLines(cmd, ok, data)
  {
    var all := ReplyLines(cmd, ok, data);
    assert OneLiner(Decimal(|data|));
    forall i | 0 <= i < |all| ensures OneLiner(all[i]) {
      if 5 <= i < |all| - 1 {
        assert all[i] == data[i - 5];
      }
    }
    LinesOfJoined(all);
  }

  /** A name of at most 255 characters stands in the list as itself, any other as the replacement. */
  lemma NamesListed(cmd: string, names: seq<string>, i: nat)
    requires OneLiner(cmd) && i < |names| && forall k | 0 <= k < |names| :: OneLiner(names[k])
    ensures var ls := Lines(Joined(ReplyLines(cmd, true, NameLines(names))));
            && |ls| == |names| + 6
            && ls[i + 5] == if |names[i]| <= 255 then names[i] else "name_too_long"
  {
    hide Lines, Joined, Decimal;
    forall k | 0 <= k < |names| ensures OneLiner(NameLines(names)[k]) {}
    ReplyIsItsLines(cmd, true, NameLines(names));
    assert ReplyLines(cmd, true, NameLines(names))[i + 5] == NameLines(names)[i];
  }

  // ----- replies read back

  /** What may come before the reply: event lines, and packets that lircd sends on its own. */
  datatype Noise = EventLine(line: string) | Packet(message: string, body: seq<string>)

  predicate Harmless(line: string) {
    line != "" && !SameText(line, "BEGIN")
  }

  predicate Ignorable(x: Noise, cmd: string) {
    match x
    case EventLine(line) => Harmless(line)
    case Packet(m, body) => m != "" && !SameText(m, cmd) && forall i | 0 <= i < |body| :: Harmless(body[i])
  }

  function NoiseLines(x: Noise): seq<string> {
    match x
    case EventLine(line) => [line]
    case Packet(m, body) => ["BEGIN", m] + body
  }

  function AllNoise(xs: seq<Noise>): seq<string> {
    if xs == [] then [] else NoiseLines(xs[0]) + AllNoise(xs[1..])
  }

  lemma {:induction false} HarmlessSkipped(cmd: string, body: seq<string>, rest: seq<string>)
    requires forall i | 0 <= i < |body| :: Harmless(body[i])
    ensures RunClient(FRESH, cmd, body + rest) == RunClient(FRESH, cmd, rest)
  {
    if body == [] {
      assert body + rest == rest;
    } else {
      assert (body + rest)[1..] == body[1..] + rest;
      HarmlessSkipped(cmd, body[1..], rest);
    }
  }

  lemma RunNext(c: Client, cmd: string, line: string, rest: seq<string>)
    ensures var p := OneLine(c, cmd, line);
            RunClient(c, cmd, [line] + rest) ==
            if p.Goes? then RunClient(p.c, cmd, rest) else Finished(p.code, rest)
  {
    assert ([line] + rest)[1..] == rest;
  }

  /** Where the reply is under way, any line but those of the protocol ends it with an error. */
  lemma OtherLinesRefused(c: Client, cmd: string, line: string)
    requires match c.state
             case PStatus => !SameText(line, "SUCCESS") && !SameText(line, "ERROR") && !SameText(line, "END")
             case PData => !SameText(line, "DATA") && !SameText(line, "END")
             case PN => ParseCount(line).None?
             case PEnd => !SameText(line, "END")
             case _ => line == ""
    ensures OneLine(c, cmd, line) == Returns(EPROTO)
  {
    hide SameText, ParseCount;
  }

  /** A reply that ends behind the command is a success; one that announces no data needs none. */
  lemma ShortReplies(cmd: string, rest: seq<string>)
    requires cmd != ""
    ensures RunClient(FRESH, cmd, ["BEGIN", cmd, "END"] + rest) == Finished(0, rest)
    ensures RunClient(FRESH, cmd, ["BEGIN", cmd, "ERROR", "DATA", "0", "END"] + rest) == Finished(EIO, rest)
  {
    hide SameText, ParseCount, RunClient;
    SameTexts(cmd);
    Keywords();
    ZeroRead();
    assert ["BEGIN", cmd, "END"] + rest == ["BEGIN"] + ([cmd] + (["END"] + rest));
    RunNext(FRESH, cmd, "BEGIN", [cmd] + (["END"] + rest));
    RunNext(FRESH.(state := PMessage), cmd, cmd, ["END"] + rest);
    RunNext(FRESH.(state := PStatus), cmd, "END", rest);
    var l1, l2, l3, l4 := ["END"] + rest, ["0"] + (["END"] + rest), ["DATA"] + (["0"] + (["END"] + rest)),
      ["ERROR"] + (["DATA"] + (["0"] + (["END"] + rest)));
    assert ["BEGIN", cmd, "ERROR", "DATA", "0", "END"] + rest == ["BEGIN"] + ([cmd] + l4);
    RunNext(FRESH, cmd, "BEGIN", [cmd] + l4);
    RunNext(FRESH.(state := PMessage), cmd, cmd, l4);
    RunNext(FRESH.(state := PStatus), cmd, "ERROR", l3);
    RunNext(FRESH.(state := PData, status := EIO), cmd, "DATA", l2);
    RunNext(FRESH.(state := PN, status := EIO), cmd, "0", l1);
    RunNext(FRESH.(state := PEnd, status := EIO), cmd, "END", rest);
  }

  lemma ZeroRead()
    ensures ParseCount("0") == Some(0)
    ensures SameText("END", "END") && !SameText("END", "SUCCESS") && SameText("ERROR", "ERROR")
    ensures !SameText("ERROR", "SUCCESS") && !SameText("ERROR", "END")
  {
    assert |Fold("END")| == 3 && |Fold("SUCCESS")| == 7 && |Fold("ERROR")| == 5;
  }

  lemma PacketSkipped(cmd: string, m: string, body: seq<string>, rest: seq<string>)
    requires Ignorable(Packet(m, body), cmd)
    ensures RunClient(FRESH, cmd, ["BEGIN", m] + body + rest) == RunClient(FRESH, cmd, rest)
  {
    SameTexts(cmd);
    HarmlessSkipped(cmd, body, rest);
    hide SameText, RunClient, Harmless;
    assert ["BEGIN", m] + body + rest == ["BEGIN"] + ([m] + (body + rest));
    RunNext(FRESH, cmd, "BEGIN", [m] + (body + rest));
    RunNext(FRESH.(state := PMessage), cmd, m, body + rest);
  }

  lemma {:induction false} NoiseSkipped(cmd: string, xs: seq<Noise>, rest: seq<string>)
    requires forall i | 0 <= i < |xs| :: Ignorable(xs[i], cmd)
    ensures RunClient(FRESH, cmd, AllNoise(xs) + rest) == RunClient(FRESH, cmd, rest)
  {
    if xs == [] {
      assert AllNoise(xs) + rest == rest;
    } else {
      var after := AllNoise(xs[1..]) + rest;
      assert AllNoise(xs) + rest == NoiseLines(xs[0]) + after;
      NoiseSkipped(cmd, xs[1..], rest);
      match xs[0] {
        case EventLine(line) => RunNext(FRESH, cmd, line, after);
        case Packet(m, body) => PacketSkipped(cmd, m, body, after);
      }
    }
  }

  /** The data lines: counted, and refused as soon as one is empty. */
  lemma {:induction false} DataRead(c: Client, cmd: string, data: seq<string>, rest: seq<string>)
    requires c.state.PDataN? && data != [] && c.n + |data| == c.dataN
    ensures var r := RunClient(c, cmd, data + rest);
            if "" in data then r.Finished? && r.code == EPROTO
            else r == RunClient(c.(state := PEnd, n := c.dataN), cmd, rest)
    decreases data
  {
    assert (data + rest)[1..] == data[1..] + rest;
    assert data == [data[0]] + data[1..];
    if data[0] != "" {
      if |data| == 1 {
        assert data[1..] + rest == rest;
      } else {
        DataRead(c.(n := c.n + 1), cmd, data[1..], rest);
      }
    }
  }

  lemma Keywords()
    ensures !SameText("SUCCESS", "ERROR") && !SameText("ERROR", "SUCCESS") && !SameText("ERROR", "END")
    ensures !SameText("DATA", "END") && !SameText("SUCCESS", "END")
  {
    assert |Fold("SUCCESS")| == 7 && |Fold("ERROR")| == 5 && |Fold("END")| == 3 && |Fold("DATA")| == 4;
  }

  /** The reply behind its status line. */
  lemma DataPartRead(cmd: string, status: int, data: seq<string>, rest: seq<string>)
    requires 0 < |data| < 0x1_0000_0000
    ensures var r := RunClient(Client(PData, status, 0, 0), cmd, ["DATA", Decimal(|data|)] + data + (["END"] + rest));
            if "" in data then r.Finished? && r.code == EPROTO else r == Finished(status, rest)
  {
    hide SameText, ParseCount, RunClient, Decimal;
    var n, tail := |data|, ["END"] + rest;
    var c := Client(PData, status, 0, 0);
    var d := Client(PDataN, status, 0, n);
    SameTexts(cmd);
    Keywords();
    CountReadBack(n);
    DataRead(d, cmd, data, tail);
    assert ["DATA", Decimal(n)] + data + tail == ["DATA"] + ([Decimal(n)] + (data + tail));
    RunNext(c, cmd, "DATA", [Decimal(n)] + (data + tail));
    RunNext(c.(state := PN), cmd, Decimal(n), data + tail);
    RunNext(d.(state := PEnd, n := n), cmd, "END", rest);
  }

  /** The reply alone, read from the start. */
  lemma ReplyRead(cmd: string, ok: bool, data: seq<string>, rest: seq<string>)
    requires cmd != "" && |data| < 0x1_0000_0000
    ensures var r := RunClient(FRESH, cmd, ReplyLines(cmd, ok, data) + rest);
            if "" in data then r.Finished? && r.code == EPROTO
            else r == Finished(if ok then 0 else EIO, rest)
  {
    hide SameText, ParseCount, RunClient, Decimal;
    var status := if ok then "SUCCESS" else "ERROR";
    var code := if ok then 0 else EIO;
    var tail := ["END"] + rest;
    var body := if data == [] then [] else ["DATA", Decimal(|data|)] + data;
    SameTexts(cmd);
    Keywords();
    if data != [] {
      DataPartRead(cmd, code, data, rest);
    }
    assert ReplyLines(cmd, ok, data) + rest == ["BEGIN"] + ([cmd] + ([status] + (body + tail)));
    RunNext(FRESH, cmd, "BEGIN", [cmd] + ([status] + (body + tail)));
    RunNext(FRESH.(state := PMessage), cmd, cmd, [status] + (body + tail));
    RunNext(FRESH.(state := PStatus), cmd, status, body + tail);
    if data == [] {
      assert body + tail == tail;
      RunNext(Client(PData, code, 0, 0), cmd, "END", rest);
    }
  }

  lemma SameTexts(cmd: string)
    ensures SameText(cmd, cmd) && SameText("BEGIN", "BEGIN") && SameText("SUCCESS", "SUCCESS")
    ensures SameText("ERROR", "ERROR") && SameText("DATA", "DATA") && SameText("END", "END")
  {}

  /** Replies parse back: after any number of event lines and packets for others, the client
      consumes exactly the one reply to its command and returns 0 for SUCCESS and EIO for ERROR,
      if and only if no data line is empty. */
  lemma ReplyParsesBack(cmd: string, noise: seq<Noise>, ok: bool, data: seq<string>, rest: seq<string>)
    requires cmd != "" && |data| < 0x1_0000_0000
    requires forall i | 0 <= i < |noise| :: Ignorable(noise[i], cmd)
    ensures var r := RunClient(FRESH, cmd, AllNoise(noise) + (ReplyLines(cmd, ok, data) + rest));
            r == Finished(if ok then 0 else EIO, rest) <==> "" !in data
    ensures "" in data ==>
              var r := RunClient(FRESH, cmd, AllNoise(noise) + (ReplyLines(cmd, ok, data) + rest));
              r.Finished? && r.code == EPROTO
  {
    NoiseSkipped(cmd, noise, ReplyLines(cmd, ok, data) + rest);
    ReplyRead(cmd, ok, data, rest);
  }
}
