/** How the client takes lines from its buffer: read_string and fill_string of lib/lirc_client.c, when a
    read delivers all that has arrived, as far as there is room. */
module LineReading {
  import opened Options
  import opened Replies
  import Lircrc

  // ----- lines taken from what has arrived

  /** Where a C string that is searched for a newline ends. */
  function Stop(u: string): (p: nat)
    ensures p <= |u| && (p < |u| ==> u[p] == '\n' || u[p] == '\0')
    ensures forall i | 0 <= i < p :: u[i] != '\n' && u[i] != '\0'
  {
    if u == [] || u[0] == '\n' || u[0] == '\0' then 0 else 1 + Stop(u[1..])
  }

  /** A line, or what a terminator cuts off, has arrived and fits the buffer. In the second case
      more is read until the buffer is full, so that must not wait for anything either. */
  predicate Complete(u: string) {
    && Stop(u) < |u| && Stop(u) < PACKET_SIZE
    && (u[Stop(u)] == '\0' ==> |u| >= PACKET_SIZE)
  }

  datatype Taken = Taken(line: string, unread: string)

  /** One line is taken off, unless a terminator comes first: then the text in front of it is handed
      out, and stays where it is. */
  function Take(u: string): Taken
    requires Complete(u)
  {
    var p := Stop(u);
    Taken(u[..p], if u[p] == '\n' then u[p + 1..] else u)
  }

  // ----- the buffer

  class Reader {
    const buffer: array<char>
    var head: nat
    var next: Option<nat>
    var incoming: string

    ghost predicate Valid()
      reads this, buffer
    {
      && buffer.Length == PACKET_SIZE + 1 && head <= PACKET_SIZE && buffer[PACKET_SIZE] == '\0'
      && (if next.Some? then next.value <= head else head == 0 || head == PACKET_SIZE)
    }

    /** What has arrived and was not handed out. */
    ghost function Unread(): string
      requires Valid()
      reads this, buffer
    {
      buffer[if next.Some? then next.value else 0..head] + incoming
    }

    constructor (incoming: string)
      ensures Valid() && Unread() == incoming && fresh(buffer)
    {
      buffer := new char[PACKET_SIZE + 1](_ => '\0');
      head, next := 0, None;
      this.incoming := incoming;
    }

    /** fill_string, when it need not wait, and the reset of `next` behind it */
    method FillString()
      requires Valid() && (next == None || next == Some(0)) && (head < PACKET_SIZE ==> incoming != [])
      modifies this, buffer
      ensures Valid() && next == Some(0) && Unread() == old(Unread())
      ensures head == if |old(Unread())| < PACKET_SIZE then |old(Unread())| else PACKET_SIZE
    {
      var n := if |incoming| < PACKET_SIZE - head then |incoming| else PACKET_SIZE - head;
      Moved(buffer[..head], incoming, n);
      CopyIn(n);
      incoming := incoming[n..];
      head := head + n;
      next := Some(0);
    }

    /** The bytes that read puts behind the data. */
    method CopyIn(n: nat)
      requires buffer.Length == PACKET_SIZE + 1 && head + n <= PACKET_SIZE && n <= |incoming|
      modifies buffer
      ensures buffer[..head + n] == old(buffer[..head]) + incoming[..n]
      ensures buffer[PACKET_SIZE] == old(buffer[PACKET_SIZE])
      ensures |old(buffer[..head]) + incoming[..n]| == head + n
    {
      for i := 0 to n
        invariant buffer[..head + i] == old(buffer[..head]) + incoming[..i]
        invariant buffer[PACKET_SIZE] == old(buffer[PACKET_SIZE])
      {
        buffer[head + i] := incoming[i];
        assert buffer[..head + (i + 1)] == buffer[..head + i] + [incoming[i]];
      }
    }

    /** The data behind `skip` moved to the start. */
    method MoveDown(skip: nat)
      requires Valid() && next == Some(skip)
      modifies this, buffer
      ensures Valid() && next == Some(0) && incoming == old(incoming) && Unread() == old(Unread())
      ensures head == old(head) - skip && buffer[head] == '\0'
    {
      ghost var data := buffer[skip..head];
      for i := 0 to head - skip
        invariant head == old(head) && next == old(next) && incoming == old(incoming)
        invariant forall j | 0 <= j < i :: buffer[j] == data[j]
        invariant forall j | i <= j < head - skip :: buffer[j + skip] == data[j]
        invariant buffer[PACKET_SIZE] == '\0'
      {
        buffer[i] := buffer[i + skip];
      }
      head := head - skip;
      next := Some(0);
      buffer[head] := '\0';
      assert buffer[..head] == data;
    }

    /** strchr from the start of the buffer. */
    method FindNewline() returns (found: bool, p: nat)
      requires Valid()
      ensures p <= PACKET_SIZE && (buffer[p] == '\n' || buffer[p] == '\0') && found == (buffer[p] == '\n')
      ensures p <= head || buffer[head] != '\0'
      ensures forall i | 0 <= i < p :: buffer[i] != '\n' && buffer[i] != '\0'
    {
      p := 0;
      while buffer[p] != '\n' && buffer[p] != '\0'
        invariant p <= PACKET_SIZE && forall i | 0 <= i < p :: buffer[i] != '\n' && buffer[i] != '\0'
        decreases PACKET_SIZE - p
      {
        p := p + 1;
      }
      found := buffer[p] == '\n';
    }

    /** The first half of read_string: a complete line at the start of the buffer. */
    method Refill()
      requires Valid() && Complete(Unread())
      modifies this, buffer
      ensures Valid() && next == Some(0) && Unread() == old(Unread()) && Stop(Unread()) < head
      ensures Unread()[Stop(Unread())] == '\0' ==> head == PACKET_SIZE
    {
      ghost var u := Unread();
      if next.Some? {
        MoveDown(next.value);
        var found, p := FindNewline();
        if found {
          LineThere(u, buffer[..head], incoming, p);
          return;
        }
        NothingThere(u, buffer[..head], incoming, p);
      }
      FillString();
    }

    /** read_string, when a line is there to be had. */
    method ReadString() returns (text: string)
      requires Valid() && Complete(Unread())
      modifies this, buffer
      ensures Valid() && Taken(text, Unread()) == Take(old(Unread()))
    {
      hide Stop, Complete;
      Refill();
      ghost var u, data := Unread(), buffer[..head];
      var found, p := FindNewline();
      StopInBuffer(data, incoming, p);
      assert u[p] == data[p];
      text := buffer[..p];
      assert text == data[..p] == u[..p];
      if found {
        buffer[p] := '\0';
        next := Some(p + 1);
        assert buffer[p + 1..head] == data[p + 1..];
        assert u[p + 1..] == data[p + 1..] + incoming;
      } else {
        next := None;
      }
    }
  }

  lemma Moved(data: string, incoming: string, n: nat)
    requires n <= |incoming|
    ensures data + incoming == (data + incoming[..n]) + incoming[n..]
  {}

  /** A newline found in the buffer ends the line. */
  lemma LineThere(u: string, data: string, incoming: string, p: nat)
    requires u == data + incoming && p < |data| && data[p] == '\n'
    requires forall i | 0 <= i < p :: data[i] != '\n' && data[i] != '\0'
    ensures Stop(u) == p && u[p] == '\n'
  {
    assert u[p] == '\n';
    StopInBuffer(data, incoming, p);
  }

  /** Without one there is more to be read, or the buffer is full. */
  lemma NothingThere(u: string, data: string, incoming: string, p: nat)
    requires u == data + incoming && Complete(u) && (p < |data| ==> data[p] == '\0')
    requires forall i | 0 <= i < p && i < |data| :: data[i] != '\n' && data[i] != '\0'
    ensures |data| < PACKET_SIZE ==> incoming != []
  {
    if incoming == [] {
      assert u == data;
      StopInBuffer(data, incoming, p);
    }
  }

  lemma StopInBuffer(data: string, incoming: string, p: nat)
    requires forall i | 0 <= i < p && i < |data| :: data[i] != '\n' && data[i] != '\0'
    requires p < |data| ==> data[p] == '\n' || data[p] == '\0'
    requires Stop(data + incoming) < |data|
    ensures p == Stop(data + incoming)
  {
    var u := data + incoming;
    assert forall i | 0 <= i < |data| :: u[i] == data[i];
  }

  // ----- the client on it

  datatype Reading = Reading(c: Client) | Ended(code: int, unread: string)

  /** At most k lines taken from what has arrived. */
  function RunText(c: Client, cmd: string, u: string, k: nat): Reading
    decreases k
  {
    if k == 0 || !Complete(u) then Reading(c)
    else
      var t := Take(u);
      match OneLine(c, cmd, t.line)
      case Goes(c') => RunText(c', cmd, t.unread, k - 1)
      case Returns(code) => Ended(code, t.unread)
  }

  /** lirc_command_run on the buffer, when it returns with what has arrived. */
  method RunReader(reader: Reader, cmd: string, ghost k: nat) returns (code: int)
    requires reader.Valid() && RunText(FRESH, cmd, reader.Unread(), k).Ended?
    modifies reader, reader.buffer
    ensures reader.Valid() && RunText(FRESH, cmd, old(reader.Unread()), k) == Ended(code, reader.Unread())
  {
    ghost var goal := RunText(FRESH, cmd, reader.Unread(), k);
    ghost var left := k;
    var c := FRESH;
    while true
      invariant reader.Valid() && RunText(c, cmd, reader.Unread(), left) == goal
      decreases left
    {
      var text := reader.ReadString();
      match OneLine(c, cmd, text) {
        case Goes(c') => c := c';
        case Returns(r) => return r;
      }
      left := left - 1;
    }
  }

  /** A line that the buffer holds as a whole. */
  predicate PlainLine(line: string) {
    '\n' !in line && '\0' !in line && |line| < PACKET_SIZE
  }

  lemma {:induction false} StopAt(line: string, stop: char, u: string)
    requires '\n' !in line && '\0' !in line && (stop == '\n' || stop == '\0')
    ensures Stop(line + [stop] + u) == |line|
  {
    if line != [] {
      assert (line + [stop] + u)[1..] == line[1..] + [stop] + u;
      StopAt(line[1..], stop, u);
    }
  }

  lemma TakePlain(line: string, u: string)
    requires PlainLine(line)
    ensures Complete(line + "\n" + u) && Take(line + "\n" + u) == Taken(line, u)
  {
    StopAt(line, '\n', u);
    assert (line + "\n" + u)[|line| + 1..] == u;
  }

  /** On lines of its size the buffer changes nothing: reading the text is reading the lines. */
  lemma {:induction false} TextIsLines(c: Client, cmd: string, ls: seq<string>, u: string, k: nat)
    requires forall i | 0 <= i < |ls| :: PlainLine(ls[i])
    ensures RunText(c, cmd, Joined(ls) + u, |ls| + k) ==
            match RunClient(c, cmd, ls)
            case Waiting(c') => RunText(c', cmd, u, k)
            case Finished(code, rest) => Ended(code, Joined(rest) + u)
    decreases ls
  {
    hide OneLine, Complete, Take, PlainLine;
    if ls == [] {
      assert Joined(ls) + u == u;
    } else {
      assert PlainLine(ls[0]);
      assert Joined(ls) + u == ls[0] + "\n" + (Joined(ls[1..]) + u);
      TakePlain(ls[0], Joined(ls[1..]) + u);
      match OneLine(c, cmd, ls[0])
      case Goes(c') => TextIsLines(c', cmd, ls[1..], u, k);
      case Returns(_) =>
    }
  }

  /** Text that a terminator cuts off is handed out again and again: it is taken for all the data lines
      still missing, and then, not being END, for an error; what is behind it stays unread. */
  lemma {:induction false} StuckText(c: Client, cmd: string, text: string, u: string, k: nat)
    requires PlainLine(text) && text != "" && !Lircrc.SameText(text, "END") && |text| + 1 + |u| >= PACKET_SIZE
    requires c.state.PEnd? || (c.state.PDataN? && c.n < c.dataN)
    requires k > if c.state.PEnd? then 0 else c.dataN - c.n
    ensures RunText(c, cmd, text + ['\0'] + u, k) == Ended(EPROTO, text + ['\0'] + u)
    decreases k
  {
    var all := text + ['\0'] + u;
    StopAt(text, '\0', u);
    assert Complete(all) && Take(all) == Taken(text, all);
    if c.state.PDataN? {
      StuckText(c.(n := c.n + 1, state := if c.n + 1 == c.dataN then PEnd else PDataN), cmd, text, u, k - 1);
    }
  }

  /** A whole reply, read through the buffer. */
  lemma ReplyTextParsesBack(cmd: string, noise: seq<Noise>, ok: bool, data: seq<string>, after: string, k: nat)
    requires cmd != "" && |data| < 0x1_0000_0000 && forall i | 0 <= i < |noise| :: Ignorable(noise[i], cmd)
    requires forall i | 0 <= i < |AllNoise(noise)| :: PlainLine(AllNoise(noise)[i])
    requires forall i | 0 <= i < |ReplyLines(cmd, ok, data)| :: PlainLine(ReplyLines(cmd, ok, data)[i])
    ensures var lines := AllNoise(noise) + ReplyLines(cmd, ok, data);
            RunText(FRESH, cmd, Joined(lines) + after, |lines| + k) == Ended(if ok then 0 else EIO, after) <==>
            "" !in data
  {
    hide RunText, RunClient, ReplyLines, PlainLine;
    var lines := AllNoise(noise) + ReplyLines(cmd, ok, data);
    ReplyParsesBack(cmd, noise, ok, data, []);
    assert AllNoise(noise) + (ReplyLines(cmd, ok, data) + []) == lines;
    TextIsLines(FRESH, cmd, lines, after, k);
    assert Joined([]) + after == after;
  }
}
