/**
 The control channel: the buffered line reader of src/ftp_session.c and the command parser
 of src/ftp_protocol.c (commands as in section 5.3 of RFC 959).
 */
module Control {
  import opened Common

  const BUFFER_SIZE: nat := 512      // FTP_CMD_BUFFER_SIZE
  const COMMAND_SIZE: nat := 64      // command[] in ftp_session_process_command

  /** One return of the reader. A zero-length line and a closed connection both return 0. */
  datatype Read = Got(text: string) | Closed | Protocol

  // ---- what a byte stream says ------------------------------------------------------------

  /** The first '\n' from `i` on, or the end. */
  function NewlineFrom(s: string, i: nat): (k: nat)
    requires i <= |s|
    ensures i <= k <= |s| && (forall j :: i <= j < k ==> s[j] != '\n') && (k < |s| ==> s[k] == '\n')
    decreases |s| - i
  {
    if i == |s| || s[i] == '\n' then i else NewlineFrom(s, i + 1)
  }

  /** The length of the first line without its '\n'; the whole length if there is none. */
  function LineLength(s: string): (k: nat)
    ensures k <= |s|
  {
    NewlineFrom(s, 0)
  }

  function StripCr(line: string): string {
    if line != "" && line[|line| - 1] == '\r' then line[..|line| - 1] else line
  }

  /** What the reader makes of one line (without its '\n'). */
  function ReadLine(line: string): Read {
    if |line| + 1 > BUFFER_SIZE - 1 then Protocol
    else if StripCr(line) == "" then Closed
    else Got(StripCr(line))
  }

  /** Everything a session reads from a stream: it ends at the first zero return. */
  function ReadAllFrom(s: string): seq<Read>
    decreases |s|
  {
    var k := LineLength(s);
    if k == |s| then [Closed]
    else
      var r := ReadLine(s[..k]);
      if r.Closed? then [Closed] else [r] + ReadAllFrom(s[k + 1..])
  }

  lemma LineLengthIs(a: string, b: string)
    requires '\n' !in a && (b == "" || b[0] == '\n')
    ensures LineLength(a + b) == |a|
  {
    var s := a + b;
    assert forall j :: 0 <= j < |a| ==> s[j] == a[j];
    assert b != "" ==> s[|a|] == b[0];
  }

  // ---- the reader ---------------------------------------------------------------------------

  class Channel {
    const rxbuf: array<char>
    var off: nat
    var len: nat
    var inbox: seq<string>           // what successive recv() calls will deliver, then the end of the stream

    ghost predicate Valid()
      reads this, rxbuf
    {
      && rxbuf.Length == BUFFER_SIZE && off <= len <= BUFFER_SIZE
      && forall i :: 0 <= i < |inbox| ==> 0 < |inbox[i]| <= BUFFER_SIZE
    }

    /** The bytes still to be interpreted. */
    ghost function Stream(): string
      requires Valid()
      reads this, rxbuf
    {
      rxbuf[off..len] + Concat(inbox)
    }

    constructor (chunks: seq<string>)
      requires forall i :: 0 <= i < |chunks| ==> 0 < |chunks[i]| <= BUFFER_SIZE
      ensures Valid() && fresh(rxbuf) && Stream() == Concat(chunks)
    {
      rxbuf := new char[BUFFER_SIZE];
      off, len := 0, 0;
      inbox := chunks;
      new;
      assert rxbuf[0..0] == [];
    }

    /** `PAL_RECV` into rxbuf; n == 0 when the peer closed. */
    method Receive() returns (n: nat)
      requires Valid()
      modifies this`off, this`len, this`inbox, rxbuf
      ensures Valid()
      ensures old(inbox) == [] ==> n == 0 && inbox == []
      ensures old(inbox) != [] ==>
        n > 0 && inbox == old(inbox)[1..] && off == 0 && len == n && rxbuf[..len] == old(inbox)[0]
    {
      if inbox == [] {
        return 0;
      }
      var data := inbox[0];
      n := |data|;
      forall i | 0 <= i < n {
        rxbuf[i] := data[i];
      }
      off, len := 0, n;
      inbox := inbox[1..];
    }

    /** The inner loop: copies characters up to and including the next '\n', or to the end of rxbuf. */
    method Scan(buffer: array<char>, outLen0: nat, tooLong0: bool, ghost p: string)
      returns (found: bool, end: nat, outLen: nat, tooLong: bool)
      requires Valid() && buffer.Length == BUFFER_SIZE && buffer != rxbuf
      requires Partial(buffer[..], outLen0, tooLong0, p)
      modifies buffer
      ensures off <= end <= len && Partial(buffer[..], outLen, tooLong, p + rxbuf[off..end])
      ensures found ==> off < end && rxbuf[end - 1] == '\n' && '\n' !in rxbuf[off..end - 1]
      ensures !found ==> end == len && '\n' !in rxbuf[off..end]
    {
      outLen, tooLong, end := outLen0, tooLong0, off;
      assert p + rxbuf[off..off] == p;
      while end < len
        invariant off <= end <= len && '\n' !in rxbuf[off..end]
        invariant Partial(buffer[..], outLen, tooLong, p + rxbuf[off..end])
      {
        var c := rxbuf[end];
        ghost var q := p + rxbuf[off..end];
        assert p + rxbuf[off..end + 1] == q + [c];
        assert rxbuf[off..end + 1] == rxbuf[off..end] + [c];
        if !tooLong {
          if outLen < BUFFER_SIZE - 1 {
            ghost var b := buffer[..];
            buffer[outLen] := c;
            assert buffer[..outLen] == b[..outLen];
            assert buffer[..outLen + 1] == q + [c];
            outLen := outLen + 1;
          } else {
            tooLong := true;
          }
        }
        end := end + 1;
        if c == '\n' {
          return true, end, outLen, tooLong;
        }
      }
      found := false;
    }

    /** A '\n' was found at end - 1: the line is consumed and judged. */
    method TakeLine(buffer: array<char>, end: nat, outLen: nat, tooLong: bool, ghost p: string) returns (r: Read)
      requires Valid() && buffer.Length == BUFFER_SIZE && buffer != rxbuf
      requires off < end <= len && rxbuf[end - 1] == '\n' && '\n' !in rxbuf[off..end - 1] && '\n' !in p
      requires Partial(buffer[..], outLen, tooLong, p + rxbuf[off..end])
      modifies this`off, this`len, buffer
      ensures Valid()
      ensures var s := p + old(Stream()); var k := LineLength(s);
              k < |s| && r == ReadLine(s[..k]) && Stream() == s[k + 1..]
      ensures r.Got? ==> |r.text| < buffer.Length && buffer[..|r.text|] == r.text && buffer[|r.text|] == '\0'
    {
      ghost var piece, tail := rxbuf[off..end - 1], rxbuf[end..len];
      assert rxbuf[off..end] == piece + "\n";
      LineTaken(p, piece, tail, Concat(inbox));
      Consume(end);
      r := Finish(buffer, outLen, tooLong, p + piece);
    }

    /** The bytes before `end` are used up. */
    method Consume(end: nat)
      requires Valid() && off < end <= len && rxbuf[end - 1] == '\n'
      modifies this`off, this`len
      ensures Valid() && Stream() == old(rxbuf[end..len]) + Concat(inbox)
      ensures old(Stream()) == old(rxbuf[off..end - 1]) + "\n" + old(rxbuf[end..len]) + Concat(inbox)
    {
      assert rxbuf[off..len] == rxbuf[off..end - 1] + "\n" + rxbuf[end..len];
      off := end;
      if off >= len {
        off, len := 0, 0;
      }
    }

    /** `ftp_session_read_command` into a caller's buffer. */
    method ReadCommand(buffer: array<char>) returns (r: Read)
      requires Valid() && buffer.Length == BUFFER_SIZE && buffer != rxbuf
      modifies this`off, this`len, this`inbox, rxbuf, buffer
      ensures Valid()
      ensures var s := old(Stream()); var k := LineLength(s);
              if k == |s| then r == Closed else r == ReadLine(s[..k]) && Stream() == s[k + 1..]
      ensures r.Protocol? <==> 511 <= LineLength(old(Stream())) < |old(Stream())|
      ensures r.Got? ==> |r.text| < buffer.Length && buffer[..|r.text|] == r.text && buffer[|r.text|] == '\0'
    {
      ghost var s := Stream();
      ghost var p := "";             // the part of the line read so far
      var outLen, tooLong, done := 0, false, false;
      r := Closed;
      while !done
        invariant Valid() && (done ==> Delivered(s, r, buffer[..]))
        invariant !done ==> s == p + Stream() && '\n' !in p && Partial(buffer[..], outLen, tooLong, p)
        decreases !done, |inbox|
      {
        done, r, outLen, tooLong, p := ReadMore(buffer, outLen, tooLong, s, p);
      }
    }

    /**
     The answer `r` is the next line of `s`, which is also in the caller's buffer, and the rest of `s` is still to
     come.
     */
    ghost predicate Delivered(s: string, r: Read, buffer: seq<char>)
      reads this, rxbuf
      requires Valid()
    {
      var k := LineLength(s);
      && (if k == |s| then r == Closed else r == ReadLine(s[..k]) && Stream() == s[k + 1..])
      && (r.Got? ==> |r.text| < |buffer| && buffer[..|r.text|] == r.text && buffer[|r.text|] == '\0')
    }

    /** One pass of the reading loop: what is in rxbuf is scanned, and more is fetched if the line goes on. */
    method ReadMore(buffer: array<char>, outLen: nat, tooLong: bool, ghost s: string, ghost p: string)
      returns (done: bool, r: Read, outLen': nat, tooLong': bool, ghost p': string)
      requires Valid() && buffer.Length == BUFFER_SIZE && buffer != rxbuf
      requires s == p + Stream() && '\n' !in p && Partial(buffer[..], outLen, tooLong, p)
      modifies this`off, this`len, this`inbox, rxbuf, buffer
      ensures Valid()
      ensures done ==> Delivered(s, r, buffer[..])
      ensures !done ==> |inbox| < |old(inbox)|
      ensures !done ==> s == p' + Stream() && '\n' !in p' && Partial(buffer[..], outLen', tooLong', p')
    {
      ghost var seen := rxbuf[off..len];
      var found, end;
      found, end, outLen', tooLong' := Scan(buffer, outLen, tooLong, p);
      p' := p + seen;
      if found {
        r := TakeLine(buffer, end, outLen', tooLong', p);
        return true, r, outLen', tooLong', p';
      }
      if tooLong' {
        outLen' := 0;
      }
      var n := Refill(s, p, seen);
      done, r := n == 0, Closed;
    }

    /** Everything in rxbuf belongs to the line: fetch more, unless the peer has closed. */
    method Refill(ghost s: string, ghost p: string, ghost seen: string) returns (n: nat)
      requires Valid() && s == p + (seen + Concat(inbox)) && '\n' !in p && '\n' !in seen
      modifies this`off, this`len, this`inbox, rxbuf
      ensures Valid()
      ensures n == 0 ==> LineLength(s) == |s|
      ensures n > 0 ==> |inbox| < |old(inbox)| && s == p + seen + Stream()
    {
      ghost var was := inbox;
      assert s == p + seen + Concat(was);
      n := Receive();
      if n == 0 {
        assert s == p + seen + "";
        LineLengthIs(p + seen, "");
      } else {
        assert rxbuf[off..len] == was[0];
        assert Concat(was) == was[0] + Concat(inbox);
      }
    }
  }

  lemma LineTaken(p: string, piece: string, tail: string, more: string)
    requires '\n' !in p && '\n' !in piece
    ensures var s, line := p + (piece + "\n" + tail + more), p + piece;
            && LineLength(s) == |line| < |s| && s[..|line|] == line && s[|line| + 1..] == tail + more
            && p + (piece + "\n") == line + "\n"
  {
    var line := p + piece;
    assert p + (piece + "\n" + tail + more) == line + ("\n" + (tail + more));
    LineLengthIs(line, "\n" + (tail + more));
  }

  /** The caller's buffer holds the partial line `p`, unless `p` has become too long for it. */
  ghost predicate Partial(b: seq<char>, outLen: nat, tooLong: bool, p: string) {
    && |b| == BUFFER_SIZE
    && (!tooLong ==> outLen == |p| <= BUFFER_SIZE - 1 && b[..outLen] == p)
    && (tooLong ==> |p| > BUFFER_SIZE - 1)
  }

  /** What the reader does with a complete line: drop it, or cut its ending off. */
  method Finish(buffer: array<char>, outLen: nat, tooLong: bool, ghost line: string) returns (r: Read)
    requires buffer.Length == BUFFER_SIZE && Partial(buffer[..], outLen, tooLong, line + "\n")
    modifies buffer
    ensures r == ReadLine(line)
    ensures r.Got? ==> |r.text| < buffer.Length && buffer[..|r.text|] == r.text && buffer[|r.text|] == '\0'
  {
    if tooLong {
      return Protocol;
    }
    assert buffer[..outLen] == line + "\n";
    assert buffer[outLen - 1] == '\n';
    var n := outLen - 1;
    if outLen >= 2 && buffer[outLen - 2] == '\r' {
      assert (line + "\n")[outLen - 2] == line[|line| - 1];
      n := outLen - 2;
    }
    assert buffer[..n] == StripCr(line);
    buffer[n] := '\0';
    assert buffer[..n] == StripCr(line);
    return if n == 0 then Closed else Got(buffer[..n]);
  }

  /** A line that ends the session: QUIT without arguments, in any case. */
  predicate Quits(r: Read) {
    r.Got? && Parse(r.text) == Command("QUIT", "")
  }

  /** The reads that the session loop gets to: it stops after a QUIT and when `idle` says the client was too quiet. */
  function Served(all: seq<Read>, idle: nat -> bool, k: nat): seq<Read>
    decreases |all|
  {
    if all == [] || idle(k) then []
    else [all[0]] + if Quits(all[0]) then [] else Served(all[1..], idle, k + 1)
  }

  /** The reads are cut short by nothing else. */
  lemma {:induction false} ServedIs(all: seq<Read>, idle: nat -> bool, k: nat)
    ensures CutShort(all, Served(all, idle, k), idle, k)
    decreases |all|
  {
    if all != [] && !idle(k) && !Quits(all[0]) {
      ServedIs(all[1..], idle, k + 1);
      CutShortOne(all, Served(all[1..], idle, k + 1), idle, k);
    }
  }

  /** `log` is the start of `all` up to a QUIT or an idle moment. */
  ghost predicate CutShort(all: seq<Read>, log: seq<Read>, idle: nat -> bool, k: nat) {
    && log <= all && (forall i :: 0 <= i < |log| - 1 ==> !Quits(log[i]))
    && (|log| < |all| ==> idle(k + |log|) || (|log| > 0 && Quits(log[|log| - 1])))
  }

  lemma CutShortOne(all: seq<Read>, rest: seq<Read>, idle: nat -> bool, k: nat)
    requires all != [] && !Quits(all[0]) && CutShort(all[1..], rest, idle, k + 1)
    ensures CutShort(all, [all[0]] + rest, idle, k)
  {
    var log := [all[0]] + rest;
    assert log <= all by { assert all == [all[0]] + all[1..]; }
    forall i | 0 <= i < |log| - 1 ensures !Quits(log[i]) {
      assert i > 0 ==> log[i] == rest[i - 1];
    }
    assert |rest| > 0 ==> log[|log| - 1] == rest[|rest| - 1];
  }

  /**
   The reading side of the session loop, whatever it does with the commands: `idle(k)` is the
   outcome of the inactivity test before the k-th read.
   */
  method ReadSession(ch: Channel, idle: nat -> bool) returns (log: seq<Read>)
    requires ch.Valid()
    modifies ch, ch.rxbuf
    ensures log == Served(ReadAllFrom(old(ch.Stream())), idle, 0)
  {
    var buffer := new char[BUFFER_SIZE];
    log := [];
    ghost var s := ch.Stream();
    ghost var goal := Served(ReadAllFrom(s), idle, 0);
    while !idle(|log|)
      invariant ch.Valid() && s == ch.Stream() && fresh(buffer) && SoFar(goal, log, s, idle)
      decreases |s|
    {
      var r := ch.ReadCommand(buffer);
      ghost var rest := if r.Closed? then "" else ch.Stream();
      SoFarStep(goal, log, s, r, rest, idle);
      log := log + [r];
      if r.Closed? || Quits(r) {
        return;
      }
      s := rest;
    }
  }

  /** `log` has been read and the stream stands at `s`. */
  ghost predicate SoFar(goal: seq<Read>, log: seq<Read>, s: string, idle: nat -> bool) {
    goal == log + Served(ReadAllFrom(s), idle, |log|)
  }

  lemma SoFarStep(goal: seq<Read>, log: seq<Read>, s: string, r: Read, rest: string, idle: nat -> bool)
    requires SoFar(goal, log, s, idle) && !idle(|log|)
    requires var k := LineLength(s);
             if k == |s| then r == Closed else r == ReadLine(s[..k]) && (r.Closed? || rest == s[k + 1..])
    ensures if r.Closed? || Quits(r) then goal == log + [r] else SoFar(goal, log + [r], rest, idle)
    ensures !r.Closed? ==> |rest| < |s|
  {
    ReadAllStep(s, LineLength(s), r, rest);
    ServedStep(ReadAllFrom(s), r, ReadAllFrom(rest), idle, |log|);
    var served := Served(ReadAllFrom(s), idle, |log|);
    OneMore(goal, log, served, r, served[1..]);
  }

  lemma OneMore(goal: seq<Read>, log: seq<Read>, served: seq<Read>, r: Read, next: seq<Read>)
    requires goal == log + served && served == [r] + next
    ensures goal == log + [r] + next && |log + [r]| == |log| + 1 && (next == [] ==> goal == log + [r])
  {
  }

  lemma ServedStep(all: seq<Read>, r: Read, rest: seq<Read>, idle: nat -> bool, k: nat)
    requires all == if r.Closed? then [r] else [r] + rest
    requires !idle(k)
    ensures Served(all, idle, k) == [r] + if r.Closed? || Quits(r) then [] else Served(rest, idle, k + 1)
  {
    assert !r.Closed? ==> all[1..] == rest;
  }

  /** One read, and the rest of the stream after it. */
  lemma ReadAllStep(s: string, k: nat, r: Read, rest: string)
    requires k == LineLength(s)
    requires if k == |s| then r == Closed else r == ReadLine(s[..k]) && (r.Closed? || rest == s[k + 1..])
    ensures ReadAllFrom(s) == if r.Closed? then [r] else [r] + ReadAllFrom(rest)
    ensures !r.Closed? ==> |rest| < |s|
  {
    if r.Closed? {
      ReadAllEnds(s, k);
    } else {
      ReadAllGoesOn(s, k);
    }
  }

  lemma ReadAllEnds(s: string, k: nat)
    requires k == LineLength(s) && (k < |s| ==> ReadLine(s[..k]).Closed?)
    ensures ReadAllFrom(s) == [Closed]
  {
  }

  lemma ReadAllGoesOn(s: string, k: nat)
    requires k == LineLength(s) < |s| && !ReadLine(s[..k]).Closed?
    ensures ReadAllFrom(s) == [ReadLine(s[..k])] + ReadAllFrom(s[k + 1..])
  {
  }

  // ---- the parser -----------------------------------------------------------------------------

  datatype Parsed = Command(name: string, args: string) | BadLine

  function ToUpper(c: char): char {
    if 'a' <= c <= 'z' then (c as int - 32) as char else c
  }

  /** The 26 letters, and nothing else, change their case. */
  lemma ToUpperIs(c: char, k: nat)
    requires k < 26
    ensures ToUpper(('a' as int + k) as char) == ('A' as int + k) as char
    ensures !('a' <= c <= 'z') ==> ToUpper(c) == c
  {
  }

  function Upper(s: string): (r: string)
    ensures |r| == |s| && forall i :: 0 <= i < |s| ==> r[i] == ToUpper(s[i])
  {
    if s == "" then "" else [ToUpper(s[0])] + Upper(s[1..])
  }

  function FirstSpace(s: string): (k: nat)
    ensures k <= |s| && ' ' !in s[..k] && (k < |s| ==> s[k] == ' ')
  {
    if s == "" || s[0] == ' ' then 0
    else
      assert s[..1 + FirstSpace(s[1..])] == [s[0]] + s[1..][..FirstSpace(s[1..])];
      1 + FirstSpace(s[1..])
  }

  function TrimLeft(s: string): string {
    if s != "" && IsSpace(s[0]) then TrimLeft(s[1..]) else s
  }

  function TrimRight(s: string): string {
    if s != "" && IsSpace(s[|s| - 1]) then TrimRight(s[..|s| - 1]) else s
  }

  /** What a command line means: an uppercased name and trimmed arguments. A NUL ends the line. */
  function Parse(line: string): Parsed {
    ParseText(CString(line, 0))
  }

  function ParseText(line: string): Parsed {
    var k := FirstSpace(line);
    if k == 0 || k >= COMMAND_SIZE then BadLine
    else if k == |line| then Command(Upper(line), "")
    else
      var args := TrimRight(TrimLeft(line[k + 1..]));
      if |args| >= BUFFER_SIZE then BadLine else Command(Upper(line[..k]), args)
  }

  lemma {:induction false} FirstSpaceIs(a: string, b: string)
    requires ' ' !in a && (b == "" || b[0] == ' ')
    ensures FirstSpace(a + b) == |a|
  {
    if a == "" {
      assert a + b == b;
    } else {
      assert a[0] in a;
      assert (a + b)[1..] == a[1..] + b;
      FirstSpaceIs(a[1..], b);
    }
  }

  /** `strchr(line, ' ')` */
  method FindSpace(line: string) returns (space: nat)
    ensures space == FirstSpace(line)
  {
    space := 0;
    while space < |line| && line[space] != ' '
      invariant 0 <= space <= |line| && ' ' !in line[..space]
    {
      assert line[..space + 1] == line[..space] + [line[space]];
      space := space + 1;
    }
    FirstSpaceIs(line[..space], line[space..]);
    assert line == line[..space] + line[space..];
  }

  /** The copy into `command`, converted to upper case. */
  method CopyUpper(name: string) returns (r: string)
    requires |name| < COMMAND_SIZE
    ensures r == Upper(name)
  {
    var command := new char[COMMAND_SIZE];
    var i := 0;
    while i < |name|
      invariant 0 <= i <= |name| && forall j :: 0 <= j < i ==> command[j] == ToUpper(name[j])
    {
      command[i] := ToUpper(name[i]);
      i := i + 1;
    }
    r := command[..|name|];
  }

  /** The two loops that skip leading and trailing white space. */
  method TrimArgs(text: string) returns (args: string)
    ensures args == TrimRight(TrimLeft(text))
  {
    var start := 0;
    while start < |text| && IsSpace(text[start])
      invariant 0 <= start <= |text| && TrimLeft(text[start..]) == TrimLeft(text)
    {
      assert text[start..][1..] == text[start + 1..];
      start := start + 1;
    }
    ghost var a := text[start..];
    assert TrimLeft(text) == a;
    var argLen := |text| - start;
    assert a[..argLen] == a;
    while argLen > 0 && IsSpace(text[start + argLen - 1])
      invariant 0 <= argLen <= |a| && TrimRight(a[..argLen]) == TrimRight(a)
    {
      assert a[argLen - 1] == text[start + argLen - 1];
      assert a[..argLen][..argLen - 1] == a[..argLen - 1];
      argLen := argLen - 1;
    }
    assert argLen > 0 ==> a[argLen - 1] == text[start + argLen - 1];
    args := text[start..start + argLen];
    assert args == a[..argLen];
  }

  /** `ftp_parse_command_line` */
  method ParseCommandLine(line: string) returns (r: Parsed)
    ensures r == Parse(line)
  {
    var end := Strlen(line);
    var text := line[..end];
    var space := FindSpace(text);
    if space == 0 || space >= COMMAND_SIZE {
      return BadLine;
    }
    var command := CopyUpper(text[..space]);
    if space == |text| {
      assert text[..space] == text;
      return Command(command, "");
    }
    var args := TrimArgs(text[space + 1..]);
    return if |args| >= BUFFER_SIZE then BadLine else Command(command, args);
  }

  // ---- lines on the wire ---------------------------------------------------------------------------

  /** A line a client sends: its text and whether it ends in CRLF or a bare LF. */
  datatype Sent = Sent(text: string, crlf: bool)

  /** The line without its '\n', and what the reader leaves of it. */
  function Raw(l: Sent): string {
    l.text + if l.crlf then "\r" else ""
  }

  function ReadBack(l: Sent): string {
    StripCr(Raw(l))
  }

  /** The text comes back as it was sent, unless it ends in a '\r' of its own in front of a bare LF. */
  lemma ReadBackIs(l: Sent)
    ensures ReadBack(l) == l.text <==> l.crlf || l.text == "" || l.text[|l.text| - 1] != '\r'
  {
    if l.crlf {
      assert Raw(l)[..|Raw(l)| - 1] == l.text;
    } else {
      assert Raw(l) == l.text;
    }
  }

  /** A line that is empty once its ending is cut off. */
  predicate Blank(l: Sent) {
    ReadBack(l) == ""
  }

  predicate Fits(l: Sent) {
    |Raw(l)| + 1 <= BUFFER_SIZE - 1
  }

  function ReadOf(l: Sent): Read {
    if Fits(l) then Got(ReadBack(l)) else Protocol
  }

  predicate OneLineEach(lines: seq<Sent>) {
    forall i :: 0 <= i < |lines| ==> '\n' !in lines[i].text
  }

  function Wire(lines: seq<Sent>): string {
    if lines == [] then "" else Raw(lines[0]) + ("\n" + Wire(lines[1..]))
  }

  /** Every line, and then the end of the stream. */
  function Expected(lines: seq<Sent>): seq<Read> {
    if lines == [] then [Closed] else [ReadOf(lines[0])] + Expected(lines[1..])
  }

  /** The lines before the first blank one. */
  function BeforeBlank(lines: seq<Sent>): seq<Sent> {
    if lines == [] || Blank(lines[0]) then [] else [lines[0]] + BeforeBlank(lines[1..])
  }

  /**
   The reads are those of the lines before the first blank one: it is taken for the end of the
   stream. An over-long line is dropped whole and affects no other.
   */
  lemma {:induction false} WireReads(lines: seq<Sent>)
    requires OneLineEach(lines)
    ensures ReadAllFrom(Wire(lines)) == Expected(BeforeBlank(lines))
  {
    if lines != [] {
      var l, rest := lines[0], Wire(lines[1..]);
      WireReads(lines[1..]);
      OneLine(l, rest, Wire(lines));
      assert !Blank(l) ==> BeforeBlank(lines)[1..] == BeforeBlank(lines[1..]);
    }
  }

  /** One line sent in front of a stream. */
  lemma OneLine(l: Sent, rest: string, s: string)
    requires '\n' !in l.text && s == Raw(l) + ("\n" + rest)
    ensures ReadAllFrom(s) == if Blank(l) then [Closed] else [ReadOf(l)] + ReadAllFrom(rest)
  {
    var line := Raw(l);
    LineLengthIs(line, "\n" + rest);
    assert s[..|line|] == line && s[|line| + 1..] == rest;
    BlankFits(l);
    ReadAllStep(s, |line|, ReadLine(line), rest);
  }

  lemma BlankFits(l: Sent)
    ensures Blank(l) ==> Fits(l)
    ensures ReadLine(Raw(l)) == if Blank(l) then Closed else ReadOf(l)
  {
    assert Blank(l) ==> |Raw(l)| <= 1;
  }

  lemma {:induction false} ExpectedAt(lines: seq<Sent>, i: nat)
    requires i <= |lines|
    ensures |Expected(lines)| == |lines| + 1
    ensures Expected(lines)[i] == if i == |lines| then Closed else ReadOf(lines[i])
  {
    if lines != [] {
      ExpectedAt(lines[1..], if i == 0 then 0 else i - 1);
    }
  }

  lemma {:induction false} BeforeBlankIs(lines: seq<Sent>)
    ensures BeforeBlank(lines) <= lines
    ensures BeforeBlank(lines) == lines <==> forall i :: 0 <= i < |lines| ==> !Blank(lines[i])
  {
    if lines != [] && !Blank(lines[0]) {
      BeforeBlankIs(lines[1..]);
      assert lines == [lines[0]] + lines[1..];
      if forall i :: 0 <= i < |lines| ==> !Blank(lines[i]) {
        forall i | 0 <= i < |lines[1..]| ensures !Blank(lines[1..][i]) {
          assert lines[1..][i] == lines[i + 1];
        }
      } else {
        var i :| 0 <= i < |lines| && Blank(lines[i]);
        assert lines[1..][i - 1] == lines[i];
      }
    }
  }

  /** Every line is read if and only if none is blank. */
  lemma AllReadIff(lines: seq<Sent>)
    requires OneLineEach(lines)
    ensures ReadAllFrom(Wire(lines)) == Expected(lines) <==> forall i :: 0 <= i < |lines| ==> !Blank(lines[i])
  {
    WireReads(lines);
    BeforeBlankIs(lines);
    ExpectedAt(lines, 0);
    ExpectedAt(BeforeBlank(lines), 0);
  }

  /** An empty line ends the session: the command behind it is never read. */
  lemma EmptyLineExample(a: Sent, quit: Sent)
    requires '\n' !in a.text && !Blank(a) && '\n' !in quit.text
    ensures ReadAllFrom(Wire([a, Sent("", true), quit])) == [ReadOf(a), Closed]
  {
    var empty := Sent("", true);
    var lines := [a, empty, quit];
    WireReads(lines);
    assert lines[1..] == [empty, quit] && Blank(empty);
    assert BeforeBlank([empty, quit]) == [];
    ExpectedOne(a);
  }

  lemma ExpectedOne(a: Sent)
    ensures Expected([a]) == [ReadOf(a), Closed]
  {
    assert [a][1..] == [];
  }

  // ---- commands on the wire -----------------------------------------------------------------------

  predicate AllSpaces(s: string) {
    forall i :: 0 <= i < |s| ==> IsSpace(s[i])
  }

  /** Text that neither starts nor ends with white space. */
  predicate Tight(s: string) {
    s == "" || (!IsSpace(s[0]) && !IsSpace(s[|s| - 1]))
  }

  lemma {:induction false} TrimLeftSkips(a: string, s: string)
    requires AllSpaces(a) && (s == "" || !IsSpace(s[0]))
    ensures TrimLeft(a + s) == s
  {
    if a == "" {
      assert a + s == s;
    } else {
      assert (a + s)[1..] == a[1..] + s;
      TrimLeftSkips(a[1..], s);
    }
  }

  lemma {:induction false} TrimRightSkips(s: string, b: string)
    requires AllSpaces(b) && (s == "" || !IsSpace(s[|s| - 1]))
    ensures TrimRight(s + b) == s
  {
    if b == "" {
      assert s + b == s;
    } else {
      assert (s + b)[..|s + b| - 1] == s + b[..|b| - 1];
      TrimRightSkips(s, b[..|b| - 1]);
    }
  }

  lemma {:induction false} TrimRightShorter(s: string)
    ensures |TrimRight(s)| <= |s|
  {
    if s != "" && IsSpace(s[|s| - 1]) {
      TrimRightShorter(s[..|s| - 1]);
    }
  }

  /** Trimming takes the padding and nothing else. */
  lemma TrimPadded(pad: string, args: string, tail: string)
    requires AllSpaces(pad) && AllSpaces(tail) && Tight(args)
    ensures TrimRight(TrimLeft(pad + (args + tail))) == args
  {
    if args == "" {
      assert args + tail == tail && pad + tail + "" == pad + tail;
      TrimLeftSkips(pad + tail, "");
    } else {
      assert (args + tail)[0] == args[0];
      TrimLeftSkips(pad, args + tail);
      TrimRightSkips(args, tail);
    }
  }

  lemma TrimTight(args: string)
    requires Tight(args)
    ensures TrimRight(TrimLeft(args)) == args
  {
  }

  lemma SplitAtSpace(name: string, text: string)
    requires ' ' !in name
    ensures var line := name + (" " + text);
            FirstSpace(line) == |name| && line[..|name|] == name && line[|name| + 1..] == text
  {
    FirstSpaceIs(name, " " + text);
  }

  lemma ParseWords(name: string, text: string)
    requires 0 < |name| < COMMAND_SIZE && ' ' !in name
    ensures var args := TrimRight(TrimLeft(text));
            ParseText(name + (" " + text)) == if |args| >= BUFFER_SIZE then BadLine else Command(Upper(name), args)
  {
    SplitAtSpace(name, text);
  }

  lemma ParseName(name: string)
    requires ' ' !in name
    ensures ParseText(name) == if 0 < |name| < COMMAND_SIZE then Command(Upper(name), "") else BadLine
  {
    FirstSpaceIs(name, "");
    assert name + "" == name;
  }

  /**
   A command with padded arguments is parsed back, its name in upper case and the padding gone,
   if and only if neither holds a NUL.
   */
  lemma ParseRoundTrip(name: string, pad: string, args: string, tail: string)
    requires 0 < |name| < COMMAND_SIZE && ' ' !in name
    requires AllSpaces(pad) && AllSpaces(tail) && Tight(args) && |args| < BUFFER_SIZE
    ensures Parse(name + (" " + (pad + (args + tail)))) == Command(Upper(name), args) <==>
      '\0' !in name && '\0' !in args
  {
    if '\0' in name {
      CutInName(name, " " + (pad + (args + tail)), args);
    } else if '\0' in args {
      CutInArgs(name, pad, args, tail);
    } else {
      ParsedWhole(name, pad, args, tail);
    }
  }

  lemma ParsedWhole(name: string, pad: string, args: string, tail: string)
    requires 0 < |name| < COMMAND_SIZE && ' ' !in name && '\0' !in name && '\0' !in args
    requires AllSpaces(pad) && AllSpaces(tail) && Tight(args) && |args| < BUFFER_SIZE
    ensures Parse(name + (" " + (pad + (args + tail)))) == Command(Upper(name), args)
  {
    var text := pad + (args + tail);
    var line := name + (" " + text);
    NoNul(name, pad, args, tail);
    CStringIs(line, 0, line);
    TrimPadded(pad, args, tail);
    ParseWords(name, text);
  }

  /** A NUL in the name leaves too little of it. */
  lemma CutInName(name: string, more: string, args: string)
    requires 0 < |name| < COMMAND_SIZE && ' ' !in name && '\0' in name
    ensures Parse(name + more) != Command(Upper(name), args)
  {
    var k := FirstNul(name);
    var line := name + more;
    assert line[..k] == name[..k] && line[k] == '\0';
    CStringIs(line, 0, name[..k]);
    ParseName(name[..k]);
  }

  lemma FirstNul(s: string) returns (k: nat)
    requires '\0' in s
    ensures k < |s| && s[k] == '\0' && '\0' !in s[..k]
  {
    k := 0;
    while s[k] != '\0'
      invariant 0 <= k < |s| && '\0' !in s[..k] && '\0' in s[k..]
      decreases |s| - k
    {
      assert s[..k + 1] == s[..k] + [s[k]] && s[k..] == [s[k]] + s[k + 1..];
      k := k + 1;
    }
  }

  lemma NoNul(name: string, pad: string, args: string, tail: string)
    requires AllSpaces(pad) && AllSpaces(tail) && '\0' !in name && '\0' !in args
    ensures '\0' !in name + (" " + (pad + (args + tail)))
  {
  }

  lemma CutInArgs(name: string, pad: string, args: string, tail: string)
    requires 0 < |name| < COMMAND_SIZE && ' ' !in name && '\0' !in name
    requires AllSpaces(pad) && AllSpaces(tail) && Tight(args) && '\0' in args
    ensures Parse(name + (" " + (pad + (args + tail)))) != Command(Upper(name), args)
  {
    var k := FirstNul(args);
    var line := name + (" " + (pad + (args + tail)));
    var seen := name + (" " + (pad + args[..k]));
    NoNul(name, pad, args[..k], "");
    assert args[..k] + "" == args[..k];
    assert line[..|seen|] == seen && line[|seen|] == args[k];
    CStringIs(line, 0, seen);
    ParseWords(name, pad + args[..k]);
    TrimLeftSkips(pad, args[..k]);
    TrimRightShorter(args[..k]);
  }

  /** A bare command is parsed back if and only if it holds no NUL. */
  lemma ParseBare(name: string)
    requires 0 < |name| < COMMAND_SIZE && ' ' !in name
    ensures Parse(name) == Command(Upper(name), "") <==> '\0' !in name
  {
    if '\0' in name {
      var k := FirstNul(name);
      CStringIs(name, 0, name[..k]);
      ParseName(name[..k]);
    } else {
      CStringIs(name, 0, name);
      ParseName(name);
    }
  }

  /** A NUL cuts the arguments: what follows it is lost. */
  lemma NulExample(name: string, args: string, lost: string)
    requires 0 < |name| < COMMAND_SIZE && ' ' !in name && '\0' !in name
    requires Tight(args) && '\0' !in args && |args| < BUFFER_SIZE
    ensures Parse(name + (" " + (args + ("\0" + lost)))) == Command(Upper(name), args)
  {
    var seen := name + (" " + args);
    assert seen + ("\0" + lost) == name + (" " + (args + ("\0" + lost)));
    CStringCut(seen, lost);
    TrimTight(args);
    ParseWords(name, args);
  }

  // ---- sessions of commands -----------------------------------------------------------------------

  /** A command as a client types it: bare, or with padded arguments. */
  datatype Typed =
    | Bare(name: string, crlf: bool)
    | Full(name: string, pad: string, args: string, tail: string, crlf: bool)

  function LineOf(t: Typed): Sent {
    match t
    case Bare(name, crlf) => Sent(name, crlf)
    case Full(name, pad, args, tail, crlf) => Sent(name + (" " + (pad + (args + tail))), crlf)
  }

  function ArgsOf(t: Typed): string {
    if t.Full? then t.args else ""
  }

  /** What a client may send: one line, a name of a sensible length, no NUL. */
  predicate Sendable(t: Typed) {
    && 0 < |t.name| < COMMAND_SIZE && ' ' !in t.name && '\0' !in t.name && '\n' !in LineOf(t).text
    && (t.Bare? ==> t.crlf || t.name[|t.name| - 1] != '\r')
    && (t.Full? ==> AllSpaces(t.pad) && AllSpaces(t.tail) && Tight(t.args) && '\0' !in t.args)
  }

  function LinesOf(ts: seq<Typed>): seq<Sent> {
    seq(|ts|, i requires 0 <= i < |ts| => LineOf(ts[i]))
  }

  /** The command came through, or its line was too long and was dropped. */
  predicate CameAs(r: Read, t: Typed) {
    if Fits(LineOf(t)) then r.Got? && Parse(r.text) == Command(Upper(t.name), ArgsOf(t)) else r == Protocol
  }

  lemma CommandRead(t: Typed)
    requires Sendable(t)
    ensures !Blank(LineOf(t)) && CameAs(ReadOf(LineOf(t)), t)
  {
    var l := LineOf(t);
    if t.Bare? {
      ReadBackIs(l);
      ParseBare(t.name);
    } else if l.crlf || l.text[|l.text| - 1] != '\r' {
      ReadBackIs(l);
      if Fits(l) {
        ParseRoundTrip(t.name, t.pad, t.args, t.tail);
      }
    } else {
      CrInPadding(t);
    }
  }

  /** Padding and tail of such a line without the '\r'. */
  lemma WithoutCr(t: Typed) returns (pad: string, tail: string)
    requires t.Full? && LineOf(t).text[|LineOf(t).text| - 1] == '\r'
    requires Sendable(t)
    ensures pad <= t.pad && tail <= t.tail
    ensures LineOf(t).text[..|LineOf(t).text| - 1] == t.name + (" " + (pad + (t.args + tail)))
  {
    var text := LineOf(t).text;
    pad, tail := t.pad, t.tail;
    if tail != "" {
      tail := tail[..|tail| - 1];
      assert t.tail == tail + "\r";
    } else {
      assert t.args + t.tail == t.args;
      assert text == t.name + (" " + (t.pad + t.args));
      assert t.args == "";
      assert text == t.name + (" " + t.pad);
      assert t.pad != "";
      pad := pad[..|pad| - 1];
      assert t.pad == pad + "\r";
    }
  }

  /** A '\r' that ends the padding in front of a bare LF is cut off with it. */
  lemma CrInPadding(t: Typed)
    requires Sendable(t) && t.Full? && !t.crlf && LineOf(t).text[|LineOf(t).text| - 1] == '\r'
    ensures !Blank(LineOf(t)) && CameAs(ReadOf(LineOf(t)), t)
  {
    assert Raw(LineOf(t)) == LineOf(t).text;
    var pad, tail := WithoutCr(t);
    if Fits(LineOf(t)) {
      ParseRoundTrip(t.name, pad, t.args, tail);
    }
  }

  /** Every command sent is read and parsed back, in order. */
  lemma CommandsRead(ts: seq<Typed>, i: nat)
    requires (forall j :: 0 <= j < |ts| ==> Sendable(ts[j])) && i <= |ts|
    ensures var all := ReadAllFrom(Wire(LinesOf(ts)));
            |all| == |ts| + 1 && if i < |ts| then CameAs(all[i], ts[i]) else all[i] == Closed
  {
    var lines := LinesOf(ts);
    forall j | 0 <= j < |lines| ensures '\n' !in lines[j].text && !Blank(lines[j]) {
      CommandRead(ts[j]);
    }
    AllReadIff(lines);
    ExpectedAt(lines, i);
    if i < |ts| {
      CommandRead(ts[i]);
    }
  }

  /**
   End to end: commands sent as lines, cut into recv() chunks in any way, are read from the
   channel and parsed back in order, names in upper case and arguments trimmed. Only a QUIT or an
   idle client ends the session before the end of the stream.
   */
  method SessionRoundTrip(chunks: seq<string>, idle: nat -> bool, ghost ts: seq<Typed>) returns (log: seq<Read>)
    requires forall i :: 0 <= i < |chunks| ==> 0 < |chunks[i]| <= BUFFER_SIZE
    requires (forall j :: 0 <= j < |ts| ==> Sendable(ts[j])) && Concat(chunks) == Wire(LinesOf(ts))
    ensures |log| <= |ts| + 1 && (|log| == |ts| + 1 ==> log[|ts|] == Closed)
    ensures forall i :: 0 <= i < |log| && i < |ts| ==> CameAs(log[i], ts[i])
    ensures |log| <= |ts| ==> idle(|log|) || (|log| > 0 && Quits(log[|log| - 1]))
  {
    var ch := new Channel(chunks);
    log := ReadSession(ch, idle);
    ghost var all := ReadAllFrom(Wire(LinesOf(ts)));
    ServedIs(all, idle, 0);
    CommandsRead(ts, |ts|);
    forall i | 0 <= i < |log| && i < |ts| ensures CameAs(log[i], ts[i]) {
      CommandsRead(ts, i);
      assert log[i] == all[i];
    }
  }
}
