/**
 Messages on a byte stream: `send_message`, `read_message` and the reading
 loop of `peer_handler` in `src/net.c`. A newline ends a message.
 */
module Framing {
  import opened Machine
  import opened LibC
  import opened Records

  // What is sent and read

  /** The messages on the wire, each with its newline. */
  function Stream(bodies: seq<string>): string {
    if bodies == [] then "" else bodies[0] + "\n" + Stream(bodies[1..])
  }

  /** What one turn of the reading loop takes while the buffer has `room`, and
      what is left; no newline before the end of the stream is no message. */
  function ReadLine(s: string, room: nat): (r: Option<(string, string)>)
    ensures r.Some? ==> |r.value.0| <= room
    ensures r.Some? ==> |r.value.1| <= |s| && (room > 0 ==> |r.value.1| < |s|)
  {
    if room == 0 then Some(("", s))
    else if s == "" then None
    else if s[0] == '\n' then Some(("", s[1..]))
    else
      match ReadLine(s[1..], room - 1)
      case None => None
      case Some(line) => Some(([s[0]] + line.0, line.1))
  }

  const ROOM_FOR_LINE: nat := MAX_MSG_SIZE - 1

  /** The messages handled before the stream ends, as C strings. */
  function Frames(s: string): seq<CString>
    decreases |s|
  {
    match ReadLine(s, ROOM_FOR_LINE)
    case None => []
    case Some(line) => [TextOf(line.0)] + Frames(line.1)
  }

  /** What is lost when the stream ends in the middle of a message. */
  function Leftover(s: string): string
    decreases |s|
  {
    match ReadLine(s, ROOM_FOR_LINE)
    case None => s
    case Some(line) => Leftover(line.1)
  }

  // Sockets

  /**
   One end of a connection. How many bytes the kernel takes at a time, and
   when it fails, is decided by `pace`, of which nothing is known.
   */
  class Socket {
    var sent: seq<char>
    var incoming: seq<char>
    var calls: nat
    const pace: nat -> int

    constructor (incoming: seq<char>, pace: nat -> int)
      ensures sent == [] && this.incoming == incoming && this.pace == pace
    {
      sent, this.incoming, calls := [], incoming, 0;
      this.pace := pace;
    }

    /** `send` */
    method Send(data: seq<char>) returns (n: int)
      requires data != []
      modifies this`sent, this`calls
      ensures n <= |data|
      ensures sent == old(sent) + if n > 0 then data[..n] else []
      ensures calls == old(calls) + 1
      ensures n <= 0 <==> pace(old(calls)) <= 0
    {
      n := pace(calls);
      calls := calls + 1;
      if n > |data| {
        n := |data|;
      }
      if n > 0 {
        sent := sent + data[..n];
      } else {
        assert sent + [] == sent;
      }
    }

    /** `recv` of one byte; no byte stands for a closed connection. */
    method Recv() returns (byte: Option<char>)
      modifies this`incoming
      ensures byte == if old(incoming) == [] then None else Some(old(incoming)[0])
      ensures incoming == if old(incoming) == [] then [] else old(incoming)[1..]
    {
      if incoming == [] {
        return None;
      }
      byte := Some(incoming[0]);
      incoming := incoming[1..];
    }
  }

  /** `send_message`: whatever the kernel takes at a time, all of it or a
      prefix goes out, in order. */
  method SendMessage(fd: Socket, msg: CString) returns (ret: int, ghost done: nat)
    modifies fd`sent, fd`calls
    ensures done <= |msg| && fd.sent == old(fd.sent) + msg[..done]
    ensures ret == (if done == |msg| then 0 else -1)
    ensures (forall i: nat :: fd.pace(i) > 0) ==> ret == 0
  {
    var sent := 0;
    assert fd.sent == old(fd.sent) + msg[..0];
    while sent < |msg|
      invariant sent <= |msg| && fd.sent == old(fd.sent) + msg[..sent]
    {
      var n := fd.Send(msg[sent..]);
      if n <= 0 {
        return -1, sent;
      }
      assert msg[..sent] + msg[sent..][..n] == msg[..sent + n];
      Assoc(old(fd.sent), msg[..sent], msg[sent..][..n]);
      sent := sent + n;
    }
    return 0, sent;
  }

  /** The line is what was `got` and what is still read from the stream. */
  ghost predicate LineRemaining(s: string, room: nat, got: string, whole: Option<(string, string)>) {
    match ReadLine(s, room)
    case None => whole == None
    case Some(line) => whole == Some((got + line.0, line.1))
  }

  /** `read_message` */
  method ReadMessage(fd: Socket) returns (msg: Option<CString>)
    modifies fd`incoming
    ensures match ReadLine(old(fd.incoming), ROOM_FOR_LINE)
            case None => msg == None && fd.incoming == []
            case Some(line) => msg == Some(TextOf(line.0)) && fd.incoming == line.1
  {
    var buf := new char[MAX_MSG_SIZE];
    ghost var whole := ReadLine(fd.incoming, ROOM_FOR_LINE);
    ghost var got := "";
    assert LineRemaining(fd.incoming, ROOM_FOR_LINE, got, whole) by {
      if whole.Some? { assert got + whole.value.0 == whole.value.0; }
    }
    var total := 0;
    while total < MAX_MSG_SIZE - 1
      invariant total == |got| <= ROOM_FOR_LINE && buf[..total] == got
      invariant LineRemaining(fd.incoming, ROOM_FOR_LINE - total, got, whole)
    {
      LineStep(fd.incoming, ROOM_FOR_LINE - total, got, whole);
      var byte := fd.Recv();
      if byte.None? {
        return None;
      }
      buf[total] := byte.value;
      if buf[total] == '\n' {
        buf[total] := '\0';
        assert whole == Some((got, fd.incoming));
        TextBeforeNul(buf, total, got);
        return Some(TextOf(buf[..]));
      }
      got := got + [byte.value];
      total := total + 1;
    }
    buf[total] := '\0';
    assert got + "" == got;
    TextBeforeNul(buf, total, got);
    return Some(TextOf(buf[..]));
  }

  lemma LineStep(s: string, room: nat, got: string, whole: Option<(string, string)>)
    requires room > 0 && LineRemaining(s, room, got, whole)
    ensures s == "" ==> whole == None
    ensures s != "" && s[0] == '\n' ==> whole == Some((got, s[1..]))
    ensures s != "" && s[0] != '\n' ==> LineRemaining(s[1..], room - 1, got + [s[0]], whole)
  {
    assert got + "" == got;
    if s != "" && s[0] != '\n' {
      var rest := ReadLine(s[1..], room - 1);
      if rest.Some? { Assoc(got, [s[0]], rest.value.0); }
    }
  }

  /** A C string ends at its first NUL, be it received or written. */
  lemma TextBeforeNul(buf: array<char>, total: nat, got: string)
    requires total == |got| < buf.Length && buf[..total] == got && buf[total] == '\0'
    ensures TextOf(buf[..]) == TextOf(got)
  {
    TextStops(got, buf[total..]);
    assert buf[..] == got + buf[total..];
  }

  lemma {:induction false} TextStops(s: string, rest: string)
    requires rest != "" && rest[0] == '\0'
    ensures TextOf(s + rest) == TextOf(s)
  {
    if s == "" {
      assert s + rest == rest;
    } else {
      assert (s + rest)[1..] == s[1..] + rest;
      TextStops(s[1..], rest);
    }
  }

  /** The loop of `peer_handler`, with the messages it hands on. */
  method HandleAll(fd: Socket) returns (msgs: seq<CString>)
    modifies fd`incoming
    ensures msgs == Frames(old(fd.incoming))
  {
    msgs := [];
    ghost var all := Frames(fd.incoming);
    while true
      invariant all == msgs + Frames(fd.incoming)
      decreases |fd.incoming|
    {
      var msg := ReadMessage(fd);
      if msg.None? {
        return;
      }
      assert forall more: seq<CString> :: msgs + ([msg.value] + more) == msgs + [msg.value] + more;
      msgs := msgs + [msg.value];
    }
  }

  // Framing is exact

  predicate FitsLine(body: string) { '\n' !in body && |body| <= 1048574 }

  lemma {:induction false} ReadsWhole(body: string, rest: string, room: nat)
    requires '\n' !in body && |body| < room
    ensures ReadLine(body + "\n" + rest, room) == Some((body, rest))
  {
    var s := body + "\n" + rest;
    if body == "" {
      assert s[1..] == rest;
    } else {
      assert s[0] == body[0] && s[0] in body;
      assert s[1..] == body[1..] + "\n" + rest;
      ReadsWhole(body[1..], rest, room - 1);
      assert [body[0]] + body[1..] == body;
    }
  }

  lemma {:induction false} TextOfText(s: CString)
    ensures TextOf(s) == s
  {
    if s != "" {
      assert s[0] in s;
      TextOfText(s[1..]);
    }
  }

  function Newlines(s: string): nat {
    if s == "" then 0 else (if s[0] == '\n' then 1 else 0) + Newlines(s[1..])
  }

  lemma {:induction false} NewlinesConcat(s: string, t: string)
    ensures Newlines(s + t) == Newlines(s) + Newlines(t)
  {
    if s == "" {
      assert s + t == t;
    } else {
      assert (s + t)[1..] == s[1..] + t;
      NewlinesConcat(s[1..], t);
    }
  }

  /** A read takes at most one newline off the stream. */
  lemma {:induction false} OneNewlineEach(s: string, room: nat)
    ensures match ReadLine(s, room)
            case None => Newlines(s) == 0
            case Some(line) => Newlines(line.1) + 1 >= Newlines(s)
  {
    if room > 0 && s != "" && s[0] != '\n' { OneNewlineEach(s[1..], room - 1); }
  }

  lemma {:induction false} AsManyFrames(s: string)
    ensures |Frames(s)| >= Newlines(s)
    decreases |s|
  {
    OneNewlineEach(s, ROOM_FOR_LINE);
    var line := ReadLine(s, ROOM_FOR_LINE);
    if line.Some? { AsManyFrames(line.value.1); }
  }

  lemma {:induction false} StreamNewlines(bodies: seq<string>)
    ensures Newlines(Stream(bodies)) >= |bodies|
  {
    if bodies != [] {
      StreamNewlines(bodies[1..]);
      NewlinesConcat(bodies[0] + "\n", Stream(bodies[1..]));
      NewlinesConcat(bodies[0], "\n");
      assert "\n"[1..] == "";
    }
  }

  /** A body that does not fit a line is not read back as the first message, or
      leaves its newline behind as one more message. */
  lemma {:induction false} ReadsShort(body: string, rest: string, room: nat)
    requires room > 0 && ('\n' in body || |body| >= room)
    ensures var line := ReadLine(body + "\n" + rest, room);
            line.Some? && (|line.value.0| < |body| || (|body| == room && line.value.1 == "\n" + rest))
  {
    var s := body + "\n" + rest;
    assert s[0] == body[0] && s[1..] == body[1..] + "\n" + rest;
    if body[0] != '\n' {
      if room == 1 {
        if |body| == 1 { assert s[1..] == "\n" + rest; }
      } else {
        assert '\n' in body ==> '\n' in body[1..];
        ReadsShort(body[1..], rest, room - 1);
      }
    }
  }

  /**
   Reading gives back the list of messages that was sent, with nothing left
   over, if and only if no message holds a newline and each fits the buffer
   with its newline.
   */
  lemma {:induction false} FramingExact(bodies: seq<CString>)
    ensures Frames(Stream(bodies)) == bodies <==> forall i | 0 <= i < |bodies| :: FitsLine(bodies[i])
    ensures (forall i | 0 <= i < |bodies| :: FitsLine(bodies[i])) ==> Leftover(Stream(bodies)) == ""
  {
    if bodies != [] {
      var body, rest := bodies[0], Stream(bodies[1..]);
      if FitsLine(body) {
        ReadsWhole(body, rest, ROOM_FOR_LINE);
        TextOfText(body);
        FramingExact(bodies[1..]);
        assert bodies == [body] + bodies[1..];
      } else {
        ReadsShort(body, rest, ROOM_FOR_LINE);
        var line := ReadLine(Stream(bodies), ROOM_FOR_LINE).value;
        TextIsNoLonger(line.0);
        if |line.0| >= |body| {
          StreamNewlines(bodies[1..]);
          NewlinesConcat("\n", rest);
          assert "\n"[1..] == "";
          AsManyFrames(line.1);
        }
      }
    }
  }

  lemma TextIsNoLonger(s: string)
    ensures |TextOf(s)| <= |s|
  {
  }

  // Lines that do not fit

  predicate EndsInNewline(s: string) { s != "" && s[|s| - 1] == '\n' }

  /** A turn of the reading loop does not look past the end of a line. */
  lemma {:induction false} ReadsWithin(line: string, rest: string, room: nat)
    requires EndsInNewline(line) && room > 0
    ensures var r := ReadLine(line, room);
            && r.Some? && (r.value.1 == "" || EndsInNewline(r.value.1))
            && ReadLine(line + rest, room) == Some((r.value.0, r.value.1 + rest))
  {
    assert (line + rest)[1..] == line[1..] + rest;
    if line[0] != '\n' && room > 1 { ReadsWithin(line[1..], rest, room - 1); }
  }

  /** So what is read of a line does not depend on what is sent behind it. */
  lemma {:induction false} FramesSplit(line: string, rest: string)
    requires line == "" || EndsInNewline(line)
    ensures Frames(line + rest) == Frames(line) + Frames(rest)
    decreases |line|
  {
    if line == "" {
      assert line + rest == rest;
    } else {
      ReadsWithin(line, rest, ROOM_FOR_LINE);
      var r := ReadLine(line, ROOM_FOR_LINE).value;
      FramesSplit(r.1, rest);
    }
  }

  /** What is read of each message. */
  function FramesOfEach(bodies: seq<string>): seq<CString> {
    if bodies == [] then [] else Frames(bodies[0] + "\n") + FramesOfEach(bodies[1..])
  }

  /** Whatever the messages hold, each is read by itself. */
  lemma {:induction false} StreamIsReadLineByLine(bodies: seq<string>)
    ensures Frames(Stream(bodies)) == FramesOfEach(bodies)
  {
    if bodies != [] {
      FramesSplit(bodies[0] + "\n", Stream(bodies[1..]));
      StreamIsReadLineByLine(bodies[1..]);
    }
  }

  /** What fits the buffer. */
  function FirstPiece(body: CString): CString { if |body| < ROOM_FOR_LINE then body else body[..ROOM_FOR_LINE] }

  /** A long line as full buffers, and what is left of it. */
  function Pieces(body: CString): (r: seq<CString>)
    ensures |r| == 1 + |body| / ROOM_FOR_LINE && r[0] == FirstPiece(body)
    decreases |body|
  {
    if |body| < ROOM_FOR_LINE then [body] else [body[..ROOM_FOR_LINE]] + Pieces(body[ROOM_FOR_LINE..])
  }

  lemma {:induction false} ReadsFull(body: string, rest: string, room: nat)
    requires '\n' !in body && |body| >= room
    ensures ReadLine(body + rest, room) == Some((body[..room], body[room..] + rest))
  {
    if room > 0 {
      assert body[0] in body && (body + rest)[1..] == body[1..] + rest;
      ReadsFull(body[1..], rest, room - 1);
      assert [body[0]] + body[1..][..room - 1] == body[..room];
    } else {
      assert body[..0] == "" && body[0..] == body;
    }
  }

  lemma {:induction false} LongLineInPieces(body: CString)
    requires '\n' !in body
    ensures Frames(body + "\n") == Pieces(body)
    decreases |body|
  {
    if |body| < ROOM_FOR_LINE {
      assert body + "\n" + "" == body + "\n";
      ReadsWhole(body, "", ROOM_FOR_LINE);
      TextOfText(body);
      assert Frames("") == [];
    } else {
      ReadsFull(body, "\n", ROOM_FOR_LINE);
      TextOfText(body[..ROOM_FOR_LINE]);
      LongLineInPieces(body[ROOM_FOR_LINE..]);
    }
  }

  /** Every piece but the first stands somewhere behind the start of the line. */
  lemma {:induction false} PieceStands(body: CString, q: nat) returns (at: nat)
    requires 0 < q < |Pieces(body)|
    ensures ROOM_FOR_LINE <= at && at + |Pieces(body)[q]| <= |body|
    ensures Pieces(body)[q] == body[at..at + |Pieces(body)[q]|]
    decreases |body|
  {
    var behind := body[ROOM_FOR_LINE..];
    if q == 1 {
      at := ROOM_FOR_LINE;
    } else {
      at := PieceStands(behind, q - 1);
      at := at + ROOM_FOR_LINE;
    }
  }
}
