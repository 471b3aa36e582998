/** Reading newline-delimited messages of bounded length from a socket
    (src/network/session.rs).

    The read is one arm of a `select!`: it sees the stream in chunks of any size and
    can be dropped at every wait, leaving what it has consumed in a buffer the caller
    owns. Both are nondeterministic choices here. */
module LineReader {
  import opened Bytes

  const NL: byte := 10
  const CR: byte := 13

  datatype Outcome = Line(length: nat) | Eof | TooLong | Cancelled

  // ----- What the stream says -----

  /** Index of the first newline, or the length. */
  function Position(s: seq<byte>): (p: nat)
    ensures p <= |s| && (p < |s| ==> s[p] == NL)
    ensures forall i :: 0 <= i < p ==> s[i] != NL
  {
    if s == [] || s[0] == NL then 0 else 1 + Position(s[1..])
  }

  predicate Terminated(s: seq<byte>) { Position(s) < |s| }

  function Raw(s: seq<byte>): seq<byte> { s[..Position(s)] }

  function Rest(s: seq<byte>): (r: seq<byte>)
    ensures s != [] ==> |r| < |s|
  {
    if Terminated(s) then s[Position(s) + 1..] else []
  }

  function Strip(raw: seq<byte>): seq<byte> {
    if raw != [] && raw[|raw| - 1] == CR then raw[..|raw| - 1] else raw
  }

  /** The first message: one carriage return goes with the newline. What the peer
      left unterminated when it hung up is taken as it is. */
  function First(s: seq<byte>): seq<byte> { if Terminated(s) then Strip(Raw(s)) else Raw(s) }

  function Lines(s: seq<byte>): seq<seq<byte>>
    decreases |s|
  {
    if s == [] then [] else [First(s)] + Lines(Rest(s))
  }

  function RawLines(s: seq<byte>): seq<seq<byte>>
    decreases |s|
  {
    if s == [] then [] else [Raw(s)] + RawLines(Rest(s))
  }

  ghost predicate NoNewline(s: seq<byte>) { forall i :: 0 <= i < |s| ==> s[i] != NL }

  lemma PositionIs(s: seq<byte>, p: nat)
    requires p < |s| && s[p] == NL && forall i :: 0 <= i < p ==> s[i] != NL
    ensures Position(s) == p
  {
  }

  lemma PositionNone(s: seq<byte>)
    requires NoNewline(s)
    ensures Position(s) == |s|
  {
  }

  // ----- What a peer meant to send -----

  /** One message on the wire: its text and whether a carriage return precedes the newline. */
  datatype Message = Message(text: seq<byte>, cr: bool)

  /** A text has no newline in it, and one sent without a carriage return ends in none. */
  ghost predicate Sendable(m: Message) {
    NoNewline(m.text) && (m.cr || m.text == [] || m.text[|m.text| - 1] != 13)
  }

  function Framed(ms: seq<Message>): seq<byte> {
    if ms == [] then [] else ms[0].text + (if ms[0].cr then [13, 10] else [10]) + Framed(ms[1..])
  }

  function Texts(ms: seq<Message>): seq<seq<byte>> {
    if ms == [] then [] else [ms[0].text] + Texts(ms[1..])
  }

  /** One framed message in front of anything is the first line, text intact. */
  lemma FirstOfFramed(m: Message, rest: seq<byte>)
    requires Sendable(m)
    ensures var s := m.text + (if m.cr then [13, 10] else [10]) + rest;
            Terminated(s) && First(s) == m.text && Rest(s) == rest
  {
    var s := m.text + (if m.cr then [13, 10] else [10]) + rest;
    var p := if m.cr then |m.text| + 1 else |m.text|;
    PositionIs(s, p);
    if m.cr {
      assert s[..p] == m.text + [CR];
    } else {
      assert s[..p] == m.text;
    }
    assert s[p + 1..] == rest;
  }

  /** The reader's lines undo the framing: any messages, each ended by a newline or by a
      carriage return and a newline, with an unterminated one at the end or none. */
  lemma {:induction false} LinesOfFramed(ms: seq<Message>, tail: seq<byte>)
    requires (forall i :: 0 <= i < |ms| ==> Sendable(ms[i])) && NoNewline(tail)
    ensures Lines(Framed(ms) + tail) == Texts(ms) + if tail == [] then [] else [tail]
  {
    if ms == [] {
      assert Framed(ms) + tail == tail;
      LastLine(tail);
    } else {
      LinesOfFramed(ms[1..], tail);
      var lines := if tail == [] then [] else [tail];
      FramedHead(ms, tail);
      assert [ms[0].text] + (Texts(ms[1..]) + lines) == [ms[0].text] + Texts(ms[1..]) + lines;
    }
  }

  lemma FramedHead(ms: seq<Message>, tail: seq<byte>)
    requires ms != [] && Sendable(ms[0])
    ensures Lines(Framed(ms) + tail) == [ms[0].text] + Lines(Framed(ms[1..]) + tail)
  {
    var rest := Framed(ms[1..]) + tail;
    var end := if ms[0].cr then [13, 10] else [10];
    RegroupTail(ms[0].text, end, Framed(ms[1..]), tail);
    FirstOfFramed(ms[0], rest);
    LinesStep(ms[0].text + end + rest);
  }

  lemma LinesStep(s: seq<byte>)
    requires Terminated(s)
    ensures Lines(s) == [First(s)] + Lines(Rest(s))
  {
  }

  lemma RegroupTail(a: seq<byte>, b: seq<byte>, c: seq<byte>, d: seq<byte>)
    ensures a + b + c + d == a + b + (c + d)
  {
  }

  /** What is left without a newline is a line as it is. */
  lemma LastLine(tail: seq<byte>)
    requires NoNewline(tail)
    ensures Lines(tail) == if tail == [] then [] else [tail]
  {
    PositionNone(tail);
    if tail != [] {
      assert First(tail) == tail && Rest(tail) == [];
      assert Lines(tail) == [tail] + Lines([]);
    }
  }

  /** The message is within the bound before anything is stripped ... */
  predicate Fits(s: seq<byte>, max: nat) { |Raw(s)| <= max }

  /** ... or over it after. */
  predicate Oversize(s: seq<byte>, max: nat) { |First(s)| > max }

  predicate Borderline(s: seq<byte>, max: nat) {
    Terminated(s) && |Raw(s)| == max + 1 && Raw(s)[max] == CR
  }

  /** Every message is exactly one of the three. */
  lemma ThreeCases(s: seq<byte>, max: nat)
    ensures Borderline(s, max) <==> !Fits(s, max) && !Oversize(s, max)
    ensures !(Fits(s, max) && Oversize(s, max))
  {
  }

  // ----- One chunk -----

  /** What one turn of the read loop makes of the next `n` bytes. */
  datatype Turn = More(buf: seq<byte>, rest: seq<byte>) | Took(line: seq<byte>, rest: seq<byte>) | Refused

  function Chunk(buf: seq<byte>, rest: seq<byte>, n: nat, max: nat): Turn
    requires 1 <= n <= |rest|
  {
    var pos := Position(rest[..n]);
    if pos < n then
      var line := Strip(buf + rest[..pos]);
      if |line| > max then Refused else Took(line, rest[pos + 1..])
    else if |buf + rest[..n]| > max then Refused
    else More(buf + rest[..n], rest[n..])
  }

  /** A turn keeps to the stream: it carries bytes over, hands out the first message,
      or refuses one whose raw form is too long. */
  lemma ChunkFollows(buf: seq<byte>, rest: seq<byte>, n: nat, max: nat)
    requires 1 <= n <= |rest| && NoNewline(buf)
    ensures match Chunk(buf, rest, n, max)
      case More(buf', rest') => buf' + rest' == buf + rest && NoNewline(buf') && |buf'| <= max && |rest'| < |rest|
      case Took(line, rest') =>
        && Terminated(buf + rest) && line == First(buf + rest) && rest' == Rest(buf + rest) && |line| <= max
      case Refused => !Fits(buf + rest, max)
  {
    var s := buf + rest;
    var pos := Position(rest[..n]);
    var p := |buf| + pos;
    assert s[..p] == buf + rest[..pos];
    if pos < n {
      assert s[p] == NL;
      PositionIs(s, p);
      assert s[p + 1..] == rest[pos + 1..];
    } else {
      assert buf + rest[..n] + rest[n..] == s;
      RawCovers(s, p);
    }
  }

  lemma RawCovers(s: seq<byte>, p: nat)
    requires p <= |s| && forall i :: 0 <= i < p ==> s[i] != NL
    ensures p <= Position(s)
  {
  }

  lemma WholeLineTaken(s: seq<byte>, p: nat, max: nat)
    requires p < |s| && Position(s) == p && |Strip(s[..p])| <= max
    ensures Chunk([], s, p + 1, max) == Took(Strip(s[..p]), s[p + 1..])
  {
    var head := s[..p + 1];
    assert head[..p] == s[..p] && [] + s[..p] == s[..p];
    PositionIs(head, p);
  }

  lemma LongStartRefused(s: seq<byte>, n: nat, max: nat)
    requires max < n <= Position(s)
    ensures Chunk([], s, n, max) == Refused
  {
    PositionNone(s[..n]);
  }

  /** For every borderline message it depends on where the chunk ends. */
  lemma BorderlineDependsOnChunks(s: seq<byte>, max: nat)
    requires Borderline(s, max)
    ensures Chunk([], s, max + 2, max) == Took(First(s), Rest(s))
    ensures Chunk([], s, max + 1, max) == Refused
  {
    WholeLineTaken(s, max + 1, max);
    LongStartRefused(s, max + 1, max);
  }

  // ----- A connection -----

  /** The messages handed out so far, with what is pending, are the stream's. */
  ghost predicate Progress(done: seq<seq<byte>>, pending: seq<byte>, whole: seq<byte>) {
    && done + Lines(pending) == Lines(whole)
    && |done| <= |RawLines(whole)| && RawLines(whole)[|done|..] == RawLines(pending)
  }

  lemma SplitHead<T>(all: seq<T>, k: nat, x: T, tail: seq<T>)
    requires k <= |all| && all[k..] == [x] + tail
    ensures k < |all| && all[k] == x && all[k + 1..] == tail
  {
    assert all[k..][0] == x;
    assert all[k + 1..] == all[k..][1..];
  }

  lemma MoveHead<T>(a: seq<T>, x: T, b: seq<T>)
    ensures a + ([x] + b) == a + [x] + b
  {
  }

  lemma ProgressStep(done: seq<seq<byte>>, s: seq<byte>, whole: seq<byte>)
    requires Progress(done, s, whole) && s != []
    ensures |done| < |RawLines(whole)| && RawLines(whole)[|done|] == Raw(s)
    ensures Progress(done + [First(s)], Rest(s), whole)
  {
    SplitHead(RawLines(whole), |done|, Raw(s), RawLines(Rest(s)));
    MoveHead(done, First(s), Lines(Rest(s)));
  }

  datatype End = HungUp | Banned | Interrupted

  ghost predicate AllWithin(lines: seq<seq<byte>>, max: nat) {
    forall i :: 0 <= i < |lines| ==> |lines[i]| <= max
  }

  /** What a session may have made of a stream: a part of its lines, all of them when the
      peer hung up, none over the bound, and a ban only for a raw line over it. */
  ghost predicate Served(lines: seq<seq<byte>>, end: End, stream: seq<byte>, max: nat) {
    && lines <= Lines(stream) && AllWithin(lines, max)
    && (end == HungUp ==> lines == Lines(stream))
    && (end == Banned ==> |lines| < |RawLines(stream)| && |RawLines(stream)[|lines|]| > max)
  }

  lemma OneMoreWithin(lines: seq<seq<byte>>, line: seq<byte>, max: nat)
    requires AllWithin(lines, max) && |line| <= max
    ensures AllWithin(lines + [line], max)
  {
  }

  lemma ProgressStart(stream: seq<byte>)
    ensures Progress([], stream, stream)
  {
  }

  lemma ServedSoFar(lines: seq<seq<byte>>, s: seq<byte>, stream: seq<byte>, max: nat)
    requires Progress(lines, s, stream) && AllWithin(lines, max)
    ensures Served(lines, Interrupted, stream, max)
    ensures s == [] ==> Served(lines, HungUp, stream, max)
  {
  }

  lemma ServedBan(lines: seq<seq<byte>>, s: seq<byte>, stream: seq<byte>, max: nat)
    requires Progress(lines, s, stream) && AllWithin(lines, max) && s != [] && !Fits(s, max)
    ensures Served(lines, Banned, stream, max)
  {
    ProgressStep(lines, s, stream);
    ServedSoFar(lines, s, stream, max);
  }

  class Connection {
    var incoming: seq<byte>
    var lineBuf: seq<byte>

    constructor (stream: seq<byte>)
      ensures incoming == stream && lineBuf == []
    {
      incoming := stream;
      lineBuf := [];
    }

    /** The bytes of messages not yet handed out. */
    function Pending(): seq<byte> reads this { lineBuf + incoming }

    /** The buffer holds the start of one message. */
    ghost predicate Valid(max: nat) reads this { NoNewline(lineBuf) && |lineBuf| <= max }

    method ReadLineBounded(max: nat) returns (r: Outcome)
      requires Valid(max)
      modifies this
      ensures r == Cancelled ==> Valid(max) && Pending() == old(Pending())
      ensures r.Line? ==>
        && old(Pending()) != [] && lineBuf == First(old(Pending())) && incoming == Rest(old(Pending()))
        && r.length == |lineBuf| <= max
      ensures r == Eof ==> old(Pending()) == [] && Pending() == []
      ensures r == TooLong ==> old(Pending()) != [] && !Fits(old(Pending()), max)
    {
      while true
        invariant Valid(max) && Pending() == old(Pending())
        decreases |incoming|
      {
        if * {
          return Cancelled;
        }
        if incoming == [] {
          PositionNone(lineBuf);
          assert Pending() == lineBuf;
          return if lineBuf == [] then Eof else Line(|lineBuf|);
        }
        var n: nat :| 1 <= n <= |incoming|;
        ChunkFollows(lineBuf, incoming, n, max);
        var done, outcome := Consume(n, max);
        if done {
          return outcome;
        }
      }
    }

    /** One turn of the loop on the `n` bytes `fill_buf` made available. */
    method Consume(n: nat, max: nat) returns (done: bool, r: Outcome)
      requires 1 <= n <= |incoming|
      modifies this
      ensures match Chunk(old(lineBuf), old(incoming), n, max)
        case More(buf, rest) => !done && lineBuf == buf && incoming == rest
        case Took(line, rest) => done && r == Line(|line|) && lineBuf == line && incoming == rest
        case Refused => done && r == TooLong
    {
      var available := incoming[..n];
      var pos := Position(available);
      if pos < n {
        lineBuf := lineBuf + available[..pos];
        assert available[..pos] == incoming[..pos];
        incoming := incoming[pos + 1..];
        if lineBuf != [] && lineBuf[|lineBuf| - 1] == CR {
          lineBuf := lineBuf[..|lineBuf| - 1];
        }
        if |lineBuf| > max {
          return true, TooLong;
        }
        return true, Line(|lineBuf|);
      }
      lineBuf := lineBuf + available;
      incoming := incoming[n..];
      if |lineBuf| > max {
        return true, TooLong;
      }
      return false, Cancelled;
    }

    /** One read by the session loop, which takes a finished line out of the buffer. */
    method NextLine(max: nat, ghost lines: seq<seq<byte>>, ghost stream: seq<byte>) returns (r: Outcome, line: seq<byte>)
      requires Valid(max) && Progress(lines, Pending(), stream) && AllWithin(lines, max)
      modifies this
      ensures r == Cancelled ==> Valid(max) && Pending() == old(Pending())
      ensures r.Line? ==> Valid(max) && |Pending()| < |old(Pending())| && |line| <= max
      ensures r.Line? ==> Progress(lines + [line], Pending(), stream)
      ensures r == Eof ==> Served(lines, HungUp, stream, max)
      ensures r == TooLong ==> Served(lines, Banned, stream, max)
    {
      ghost var before := Pending();
      ServedSoFar(lines, before, stream, max);
      if before != [] {
        ProgressStep(lines, before, stream);
      }
      line := [];
      r := ReadLineBounded(max);
      if r == TooLong {
        ServedBan(lines, before, stream, max);
      } else if r.Line? {
        line := lineBuf;
        lineBuf := [];
        assert Pending() == Rest(before);
      }
    }

    /** The session loop's use of the reader, with up to `wakeups` reads dropped for
        other events. */
    method Serve(max: nat, wakeups: nat) returns (lines: seq<seq<byte>>, end: End)
      requires lineBuf == []
      modifies this
      ensures Served(lines, end, old(incoming), max)
    {
      lines := [];
      var left := wakeups;
      ghost var stream := incoming;
      assert Pending() == stream;
      ProgressStart(stream);
      while true
        invariant Valid(max)
        invariant Progress(lines, Pending(), stream)
        invariant AllWithin(lines, max)
        decreases |Pending()|, left
      {
        ServedSoFar(lines, Pending(), stream, max);
        var r, line := NextLine(max, lines, stream);
        if r == Cancelled && left == 0 {
          return lines, Interrupted;
        } else if r == Cancelled {
          left := left - 1;
        } else if r == Eof {
          return lines, HungUp;
        } else if r == TooLong {
          return lines, Banned;
        } else {
          OneMoreWithin(lines, line, max);
          lines := lines + [line];
        }
      }
    }
  }
}
