/** The replies that show codes: send_remote and send_name of daemons/lircd.cpp, and what the client
    reads of them. */
module CodeLists {
  import Lircrc
  import opened LineReading
  import opened Replies

  /** Sixteen hexadecimal digits, given as text, and the button's name. */
  datatype Shown = Shown(digits: string, name: string)

  predicate Proper(c: Shown) {
    && |c.digits| == 16 && (forall i | 0 <= i < 16 :: c.digits[i] in "0123456789abcdef")
    && '\n' !in c.name && '\0' !in c.name
  }

  /** A code, a blank and the name, written by snprintf into `size` characters: at exactly that
      length the newline is cut off and the terminator sent in its place. */
  function CodeText(size: nat, c: Shown): string {
    var full := c.digits + " " + c.name + "\n";
    if |full| >= size + 1 then "code_too_long\n"
    else if |full| == size then c.digits + " " + c.name + ['\0']
    else full
  }

  /** The name that just fills the buffer. */
  predicate Fills(size: nat, c: Shown) { |c.name| + 18 == size }

  predicate NoneFills(size: nat, cs: seq<Shown>) {
    forall i | 0 <= i < |cs| :: !Fills(size, cs[i])
  }

  /** The line meant. */
  function CodeLine(size: nat, c: Shown): string {
    if |c.name| + 18 > size then "code_too_long" else c.digits + " " + c.name
  }

  function CodeLines(size: nat, cs: seq<Shown>): (ls: seq<string>)
    ensures |ls| == |cs|
  {
    seq(|cs|, i requires 0 <= i < |cs| => CodeLine(size, cs[i]))
  }

  function CodeTexts(size: nat, cs: seq<Shown>): string {
    if cs == [] then "" else CodeText(size, cs[0]) + CodeTexts(size, cs[1..])
  }

  /** The whole reply. */
  function ListText(size: nat, cmd: string, cs: seq<Shown>): string {
    "BEGIN\n" + (cmd + "\n") + "SUCCESS\n"
    + (if cs == [] then "" else "DATA\n" + (Decimal(|cs|) + "\n") + CodeTexts(size, cs)) + "END\n"
  }

  // ----- the code

  lemma {:induction false} TextsSnoc(size: nat, cs: seq<Shown>, c: Shown)
    ensures CodeTexts(size, cs + [c]) == CodeTexts(size, cs) + CodeText(size, c)
  {
    if cs == [] {
      assert [c][1..] == [] && cs + [c] == [c];
      assert CodeTexts(size, [c]) == CodeText(size, c) + "";
    } else {
      assert (cs + [c])[1..] == cs[1..] + [c];
      TextsSnoc(size, cs[1..], c);
    }
  }

  /** send_remote, for the codes of the remote */
  method SendRemote(cmd: string, codes: seq<Shown>) returns (text: string)
    requires forall i | 0 <= i < |codes| :: |codes[i].digits| == 16
    ensures text == ListText(PACKET_SIZE, cmd, codes)
  {
    text := "BEGIN\n" + (cmd + "\n") + "SUCCESS\n";
    if codes == [] {
      return text + "" + "END\n";
    }
    var data := "";
    for i := 0 to |codes|
      invariant data == CodeTexts(PACKET_SIZE, codes[..i])
    {
      var buffer := codes[i].digits + " " + codes[i].name + "\n";
      if |buffer| >= PACKET_SIZE + 1 {
        buffer := "code_too_long\n";
      } else if |buffer| == PACKET_SIZE {
        buffer := buffer[..PACKET_SIZE - 1] + ['\0'];
      }
      assert codes[..i + 1] == codes[..i] + [codes[i]];
      TextsSnoc(PACKET_SIZE, codes[..i], codes[i]);
      data := data + buffer;
    }
    assert codes[..|codes|] == codes;
    text := text + ("DATA\n" + (Decimal(|codes|) + "\n") + data) + "END\n";
  }

  /** send_name: the count takes two characters of the same buffer. */
  method SendName(cmd: string, code: Shown) returns (text: string)
    requires |code.digits| == 16
    ensures text == ListText(PACKET_SIZE - 2, cmd, [code])
  {
    text := "BEGIN\n" + (cmd + "\n") + "SUCCESS\n";
    var buffer := "1\n" + (code.digits + " " + code.name + "\n");
    if |buffer| >= PACKET_SIZE + 1 {
      buffer := "1\n" + "code_too_long\n";
    } else if |buffer| == PACKET_SIZE {
      buffer := buffer[..PACKET_SIZE - 1] + ['\0'];
    }
    assert Decimal(1) == "1" && "1" + "\n" == "1\n";
    assert [code][1..] == [] && CodeTexts(PACKET_SIZE - 2, [code]) == CodeText(PACKET_SIZE - 2, code) + "";
    assert buffer == (Decimal(1) + "\n") + CodeTexts(PACKET_SIZE - 2, [code]);
    assert "DATA\n" + buffer == "DATA\n" + (Decimal(1) + "\n") + CodeTexts(PACKET_SIZE - 2, [code]);
    text := text + ("DATA\n" + buffer) + "END\n";
  }

  // ----- lines and stubs

  lemma TextIsLine(size: nat, c: Shown)
    requires Proper(c) && !Fills(size, c) && size <= PACKET_SIZE
    ensures CodeText(size, c) == CodeLine(size, c) + "\n" && PlainLine(CodeLine(size, c)) && CodeLine(size, c) != ""
  {
    DigitsPlain(c);
  }

  lemma DigitsPlain(c: Shown)
    requires Proper(c)
    ensures '\n' !in c.digits && '\0' !in c.digits
  {}

  /** A code is printed as a line of its own exactly if it does not just fill the buffer. */
  lemma CodeIsLine(size: nat, c: Shown)
    requires Proper(c) && size <= PACKET_SIZE
    ensures CodeText(size, c) == CodeLine(size, c) + "\n" <==> !Fills(size, c)
    ensures Newlines(CodeText(size, c)) == if Fills(size, c) then 0 else 1
  {
    DigitsPlain(c);
    if Fills(size, c) {
      NoNewlines(c.digits + " " + c.name + ['\0']);
      assert CodeText(size, c)[|CodeText(size, c)| - 1] == '\0';
    } else {
      TextIsLine(size, c);
      NoNewlines(CodeLine(size, c));
      NewlineAlone();
      NewlinesConcat(CodeLine(size, c), "\n");
    }
  }

  lemma {:induction false} DecimalShort(n: nat, k: nat, bound: nat)
    requires n < bound && k > 0 && bound == Power10(k)
    ensures |Decimal(n)| <= k
  {
    if n >= 10 {
      DecimalShort(n / 10, k - 1, Power10(k - 1));
    }
  }

  function Power10(k: nat): nat {
    if k == 0 then 1 else 10 * Power10(k - 1)
  }

  lemma CountIsPlain(n: nat)
    requires n < 0x1_0000_0000
    ensures PlainLine(Decimal(n))
  {
    assert Power10(3) == 1000 && Power10(6) == 1000000 && Power10(10) == 10000000000;
    DecimalShort(n, 10, 10000000000);
  }

  lemma {:induction false} TextsAreLines(size: nat, cs: seq<Shown>)
    requires size <= PACKET_SIZE && NoneFills(size, cs) && forall i | 0 <= i < |cs| :: Proper(cs[i])
    ensures CodeTexts(size, cs) == Joined(CodeLines(size, cs))
    ensures forall i | 0 <= i < |cs| :: PlainLine(CodeLines(size, cs)[i]) && CodeLines(size, cs)[i] != ""
  {
    hide CodeText, CodeLine, PlainLine;
    if cs != [] {
      TextIsLine(size, cs[0]);
      TextsAreLines(size, cs[1..]);
      assert CodeLines(size, cs) == [CodeLine(size, cs[0])] + CodeLines(size, cs[1..]);
      JoinedCons(CodeLine(size, cs[0]), CodeLines(size, cs[1..]));
    }
  }

  lemma {:induction false} TextsConcat(size: nat, a: seq<Shown>, b: seq<Shown>)
    ensures CodeTexts(size, a + b) == CodeTexts(size, a) + CodeTexts(size, b)
  {
    if a == [] {
      assert a + b == b;
    } else {
      assert (a + b)[1..] == a[1..] + b;
      TextsConcat(size, a[1..], b);
    }
  }

  // ----- the client

  /** While data lines are missing, every line that comes is taken for one. */
  lemma {:induction false} TakenAsData(c: Client, cmd: string, lines: seq<string>)
    requires c.state.PDataN? && c.n + |lines| < c.dataN && "" !in lines
    ensures RunClient(c, cmd, lines) == Waiting(c.(n := c.n + |lines|))
    decreases lines
  {
    if lines != [] {
      assert lines[0] in lines;
      assert forall x | x in lines[1..] :: x in lines;
      TakenAsData(c.(n := c.n + 1), cmd, lines[1..]);
    }
  }

  /** The lines of a reply up to the data. */
  function Opening(cmd: string, n: nat): (ls: seq<string>)
    ensures |ls| == 5
  {
    ["BEGIN", cmd, "SUCCESS", "DATA", Decimal(n)]
  }

  lemma UpToData(cmd: string, n: nat, rest: seq<string>)
    requires cmd != "" && 0 < n < 0x1_0000_0000
    ensures RunClient(FRESH, cmd, Opening(cmd, n) + rest) == RunClient(Client(PDataN, 0, 0, n), cmd, rest)
  {
    hide Lircrc.SameText, ParseCount, RunClient, Decimal;
    SameTexts(cmd);
    Keywords();
    CountReadBack(n);
    var l1, l2, l3, l4 := [Decimal(n)] + rest, ["DATA", Decimal(n)] + rest,
      ["SUCCESS", "DATA", Decimal(n)] + rest, [cmd, "SUCCESS", "DATA", Decimal(n)] + rest;
    assert Opening(cmd, n) + rest == ["BEGIN"] + l4;
    RunNext(FRESH, cmd, "BEGIN", l4);
    assert l4 == [cmd] + l3;
    RunNext(FRESH.(state := PMessage), cmd, cmd, l3);
    assert l3 == ["SUCCESS"] + l2;
    RunNext(FRESH.(state := PStatus), cmd, "SUCCESS", l2);
    assert l2 == ["DATA"] + l1;
    RunNext(FRESH.(state := PData), cmd, "DATA", l1);
    RunNext(FRESH.(state := PN), cmd, Decimal(n), rest);
  }

  lemma OpeningText(cmd: string, n: nat)
    ensures Joined(Opening(cmd, n)) == "BEGIN\n" + (cmd + "\n") + "SUCCESS\n" + ("DATA\n" + (Decimal(n) + "\n"))
  {
    hide Joined, Decimal;
    assert Opening(cmd, n) == ["BEGIN", cmd, "SUCCESS"] + ["DATA", Decimal(n)];
    JoinedConcat(["BEGIN", cmd, "SUCCESS"], ["DATA", Decimal(n)]);
    JoinedThree("BEGIN", cmd, "SUCCESS");
    JoinedTwo("DATA", Decimal(n));
    assert "BEGIN" + "\n" == "BEGIN\n" && "SUCCESS" + "\n" == "SUCCESS\n" && "DATA" + "\n" == "DATA\n";
  }

  /** The noise in front of a reply, and the command and codes in it, as the buffer holds them. For a
      code the two functions have the whole of it, or all but the two characters of the count. */
  ghost predicate Fitting(size: nat, cmd: string, noise: seq<Noise>, cs: seq<Shown>) {
    && PACKET_SIZE - 4 <= size <= PACKET_SIZE && cmd != "" && PlainLine(cmd) && |cs| < 0x1_0000_0000
    && (forall i | 0 <= i < |cs| :: Proper(cs[i]))
    && (forall i | 0 <= i < |noise| :: Ignorable(noise[i], cmd))
    && (forall i | 0 <= i < |AllNoise(noise)| :: PlainLine(AllNoise(noise)[i]))
  }

  lemma ListIsReply(size: nat, cmd: string, cs: seq<Shown>)
    requires size <= PACKET_SIZE && NoneFills(size, cs) && forall i | 0 <= i < |cs| :: Proper(cs[i])
    ensures ListText(size, cmd, cs) == Joined(ReplyLines(cmd, true, CodeLines(size, cs)))
  {
    hide Joined, Decimal, CodeTexts;
    ReplyText(cmd, true, CodeLines(size, cs));
    TextsAreLines(size, cs);
    assert CodeLines(size, cs) == [] <==> cs == [];
  }

  lemma ReplyPlain(cmd: string, data: seq<string>)
    requires PlainLine(cmd) && |data| < 0x1_0000_0000 && forall i | 0 <= i < |data| :: PlainLine(data[i])
    ensures forall line | line in ReplyLines(cmd, true, data) :: PlainLine(line)
  {
    hide PlainLine, Decimal;
    CountIsPlain(|data|);
    KeywordsPlain();
  }

  lemma ReplyReads(cmd: string, noise: seq<Noise>, data: seq<string>, after: string, k: nat)
    requires cmd != "" && |data| < 0x1_0000_0000 && "" !in data && k >= |AllNoise(noise)| + |data| + 6
    requires forall i | 0 <= i < |noise| :: Ignorable(noise[i], cmd)
    requires forall i | 0 <= i < |AllNoise(noise)| :: PlainLine(AllNoise(noise)[i])
    requires forall line | line in ReplyLines(cmd, true, data) :: PlainLine(line)
    ensures RunText(FRESH, cmd, Joined(AllNoise(noise)) + (Joined(ReplyLines(cmd, true, data)) + after), k) ==
            Ended(0, after)
  {
    hide RunText, Joined, PlainLine, ReplyLines, AllNoise, Ignorable;
    var reply := ReplyLines(cmd, true, data);
    ReplySize(cmd, data);
    JoinedConcat(AllNoise(noise), reply);
    ReplyTextParsesBack(cmd, noise, true, data, after, k - |AllNoise(noise) + reply|);
    Associate(Joined(AllNoise(noise)), Joined(reply), after);
  }

  lemma WholeListRead(size: nat, cmd: string, noise: seq<Noise>, cs: seq<Shown>, after: string, k: nat)
    requires Fitting(size, cmd, noise, cs) && NoneFills(size, cs) && k >= |AllNoise(noise)| + |cs| + 6
    ensures RunText(FRESH, cmd, Joined(AllNoise(noise)) + (ListText(size, cmd, cs) + after), k) == Ended(0, after)
  {
    hide RunText, Joined, PlainLine, ListText, ReplyLines, AllNoise, CodeLine, Ignorable, Proper;
    TextsAreLines(size, cs);
    ListIsReply(size, cmd, cs);
    ReplyPlain(cmd, CodeLines(size, cs));
    ReplyReads(cmd, noise, CodeLines(size, cs), after, k);
  }

  lemma ReplySize(cmd: string, data: seq<string>)
    ensures |ReplyLines(cmd, true, data)| <= |data| + 6
  {}

  lemma KeywordsPlain()
    ensures PlainLine("BEGIN") && PlainLine("SUCCESS") && PlainLine("ERROR") && PlainLine("DATA") && PlainLine("END")
  {}

  /** Where the first name is that fills the buffer. */
  lemma {:induction false} FirstFilling(size: nat, cs: seq<Shown>) returns (j: nat)
    requires !NoneFills(size, cs)
    ensures j < |cs| && Fills(size, cs[j]) && NoneFills(size, cs[..j])
  {
    if Fills(size, cs[0]) {
      j := 0;
    } else {
      assert cs == [cs[0]] + cs[1..];
      j := FirstFilling(size, cs[1..]);
      assert cs[..j + 1] == [cs[0]] + cs[1..][..j];
      j := j + 1;
    }
  }

  function Stub(c: Shown): string { c.digits + " " + c.name }

  lemma StubIsPlain(size: nat, c: Shown)
    requires Proper(c) && Fills(size, c) && size <= PACKET_SIZE
    ensures PlainLine(Stub(c)) && Stub(c) != "" && !Lircrc.SameText(Stub(c), "END")
    ensures CodeText(size, c) == Stub(c) + ['\0']
    ensures |Stub(c)| + 1 == size
  {
    DigitsPlain(c);
    assert |Lircrc.Fold(Stub(c))| > 3 && |Lircrc.Fold("END")| == 3;
  }

  /** The text up to the first code that has lost its newline, that code, and the rest. */
  lemma ListAtStub(size: nat, cmd: string, cs: seq<Shown>, j: nat, after: string)
    requires size <= PACKET_SIZE && j < |cs| && Fills(size, cs[j]) && NoneFills(size, cs[..j])
    requires forall i | 0 <= i < |cs| :: Proper(cs[i])
    ensures var rest := CodeTexts(size, cs[j + 1..]) + ("END\n" + after);
            ListText(size, cmd, cs) + after ==
            Joined(Opening(cmd, |cs|) + CodeLines(size, cs[..j])) + (Stub(cs[j]) + ['\0'] + rest)
  {
    hide Joined, Decimal, CodeText, CodeLine, Opening;
    var front, stub, back := CodeTexts(size, cs[..j]), Stub(cs[j]) + ['\0'], CodeTexts(size, cs[j + 1..]);
    StubIsPlain(size, cs[j]);
    TextsAreLines(size, cs[..j]);
    JoinedConcat(Opening(cmd, |cs|), CodeLines(size, cs[..j]));
    OpeningText(cmd, |cs|);
    assert cs == cs[..j] + ([cs[j]] + cs[j + 1..]);
    TextsConcat(size, cs[..j], [cs[j]] + cs[j + 1..]);
    TextsConcat(size, [cs[j]], cs[j + 1..]);
    OneText(size, cs[j]);
    assert CodeTexts(size, cs) == front + (stub + back);
    Regrouped("BEGIN\n" + (cmd + "\n") + "SUCCESS\n", "DATA\n" + (Decimal(|cs|) + "\n"), front, stub, back,
              "END\n", after);
  }

  lemma OneText(size: nat, c: Shown)
    ensures CodeTexts(size, [c]) == CodeText(size, c)
  {
    assert [c][1..] == [];
  }

  lemma Regrouped(a: string, b: string, front: string, stub: string, back: string, end: string, after: string)
    ensures a + (b + (front + (stub + back))) + end + after == ((a + b) + front) + (stub + (back + (end + after)))
  {}

  /** The client in front of that code: fewer data lines have come than were announced. */
  lemma ClientAtStub(cmd: string, noise: seq<Noise>, n: nat, data: seq<string>)
    requires cmd != "" && |data| < n < 0x1_0000_0000 && "" !in data
    requires forall i | 0 <= i < |noise| :: Ignorable(noise[i], cmd)
    ensures RunClient(FRESH, cmd, AllNoise(noise) + (Opening(cmd, n) + data)) == Waiting(Client(PDataN, 0, |data|, n))
  {
    hide RunClient, Opening, AllNoise;
    NoiseSkipped(cmd, noise, Opening(cmd, n) + data);
    UpToData(cmd, n, data);
    TakenAsData(Client(PDataN, 0, 0, n), cmd, data);
  }

  lemma AllPlain(cmd: string, noise: seq<Noise>, n: nat, data: seq<string>)
    requires PlainLine(cmd) && n < 0x1_0000_0000
    requires forall i | 0 <= i < |AllNoise(noise)| :: PlainLine(AllNoise(noise)[i])
    requires forall i | 0 <= i < |data| :: PlainLine(data[i])
    ensures forall line | line in AllNoise(noise) + (Opening(cmd, n) + data) :: PlainLine(line)
  {
    hide PlainLine, AllNoise, Opening;
    OpeningPlain(cmd, n);
    forall line | line in AllNoise(noise) + (Opening(cmd, n) + data)
      ensures PlainLine(line)
    {
      assert line in AllNoise(noise) || line in Opening(cmd, n) || line in data;
    }
  }

  lemma StuckListRead(size: nat, cmd: string, noise: seq<Noise>, cs: seq<Shown>, after: string, k: nat)
    requires Fitting(size, cmd, noise, cs) && !NoneFills(size, cs) && k >= |AllNoise(noise)| + |cs| + 6
    ensures exists front ::
              RunText(FRESH, cmd, Joined(AllNoise(noise)) + (ListText(size, cmd, cs) + after), k) ==
              Ended(EPROTO, front + ("END\n" + after))
  {
    hide RunText, RunClient, Joined, PlainLine, Decimal, ListText, CodeTexts, CodeLine, AllNoise, Opening, Stub, Stop;
    var j := FirstFilling(size, cs);
    var n, head, data := |cs|, AllNoise(noise), CodeLines(size, cs[..j]);
    var lines := head + (Opening(cmd, n) + data);
    var back := CodeTexts(size, cs[j + 1..]);
    var stub, rest := Stub(cs[j]), back + ("END\n" + after);
    ListAtStub(size, cmd, cs, j, after);
    StubIsPlain(size, cs[j]);
    TextsAreLines(size, cs[..j]);
    AllPlain(cmd, noise, n, data);
    ClientAtStub(cmd, noise, n, data);
    JoinedConcat(head, Opening(cmd, n) + data);
    Associate(Joined(head), Joined(Opening(cmd, n) + data), stub + ['\0'] + rest);
    TextIsLines(FRESH, cmd, lines, stub + ['\0'] + rest, k - |lines|);
    assert |stub| + 1 == size && |rest| >= 4;
    StuckText(Client(PDataN, 0, j, n), cmd, stub, rest, k - |lines|);
    Associate(stub + ['\0'], back, "END\n" + after);
  }

  lemma Associate(a: string, b: string, c: string)
    ensures a + (b + c) == (a + b) + c
  {}

  lemma OpeningPlain(cmd: string, n: nat)
    requires PlainLine(cmd) && n < 0x1_0000_0000
    ensures forall line | line in Opening(cmd, n) :: PlainLine(line)
  {
    CountIsPlain(n);
    KeywordsPlain();
  }

  /** What send_remote and send_name print is read back as the reply it is meant to be, behind any
      event lines and packets for others, if and only if no name just fills the buffer. If one does,
      the client returns an error, and END and all that follows stay unread. */
  lemma CodesReadBack(size: nat, cmd: string, noise: seq<Noise>, cs: seq<Shown>, after: string, k: nat)
    requires Fitting(size, cmd, noise, cs) && k >= |AllNoise(noise)| + |cs| + 6
    ensures var r := RunText(FRESH, cmd, Joined(AllNoise(noise)) + (ListText(size, cmd, cs) + after), k);
            && r.Ended?
            && (r == Ended(0, after) <==> NoneFills(size, cs))
            && (r.code == EPROTO <==> !NoneFills(size, cs))
            && (!NoneFills(size, cs) ==> exists front :: r.unread == front + ("END\n" + after))
  {
    hide RunText, Joined, ListText, Fitting;
    if NoneFills(size, cs) {
      WholeListRead(size, cmd, noise, cs, after, k);
    } else {
      StuckListRead(size, cmd, noise, cs, after, k);
    }
  }

  /** A button whose name has 238 characters, all the same. */
  const LONG_NAMED := Shown("0000000000000001", seq(238, _ => 'a'))

  /** Its remote cannot be listed: the client returns an error, whatever comes behind the reply. */
  lemma LongNameStops(after: string)
    ensures var u := ListText(PACKET_SIZE, "LIST tv", [LONG_NAMED]) + after;
            RunText(FRESH, "LIST tv", u, 7).Ended? && RunText(FRESH, "LIST tv", u, 7).code == EPROTO
  {
    hide RunText, ListText, Joined;
    LongNamedProper();
    assert !NoneFills(PACKET_SIZE, [LONG_NAMED]) by { assert Fills(PACKET_SIZE, [LONG_NAMED][0]); }
    var text := ListText(PACKET_SIZE, "LIST tv", [LONG_NAMED]);
    CodesReadBack(PACKET_SIZE, "LIST tv", [], [LONG_NAMED], after, 7);
    NothingInFront(text + after);
  }

  lemma LongNamedProper()
    ensures Proper(LONG_NAMED) && PlainLine("LIST tv")
  {}

  lemma NothingInFront(u: string)
    ensures AllNoise([]) == [] && Joined(AllNoise([])) + u == u
  {}
}
