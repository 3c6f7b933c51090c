/**
 The LMTP wire code: sending a message body with dot-stuffing, read by the receiver of section 4.5.2 of RFC 5321, and
 reading replies in the format of section 4.2.1 of RFC 5321.
 */
module LmtpWire {
  import opened Common

  newtype byte = x: int | 0 <= x < 256

  const CR: byte := 13
  const LF: byte := 10
  const DOT: byte := 46
  const SP: byte := 32
  const DASH: byte := 45
  const PLUS: byte := 43

  const CRLF: seq<byte> := [CR, LF]

  /** Position of the first occurrence of b, or -1. */
  function IndexByte(s: seq<byte>, b: byte): (i: int)
    ensures -1 <= i < |s|
    ensures i < 0 ==> b !in s
    ensures i >= 0 ==> s[i] == b && b !in s[..i]
  {
    if s == [] then -1
    else if s[0] == b then 0
    else
      var r := IndexByte(s[1..], b);
      assert s == [s[0]] + s[1..];
      if r < 0 then -1 else
        assert s[..r + 1] == [s[0]] + s[1..][..r];
        r + 1
  }

  function TrimCr(line: seq<byte>): seq<byte> {
    if line != [] && line[|line| - 1] == CR then line[..|line| - 1] else line
  }

  // ---------------------------------------------------------------- what the message means

  /** The lines of a message: ended by LF, a CR just before it dropped; a last line may lack the LF. */
  function Lines(msg: seq<byte>): (ls: seq<seq<byte>>)
    ensures forall l :: l in ls ==> LF !in l
  {
    if msg == [] then []
    else
      var i := IndexByte(msg, LF);
      if i < 0 then [TrimCr(msg)] else [TrimCr(msg[..i])] + Lines(msg[i + 1..])
  }

  function Unlines(ls: seq<seq<byte>>): seq<byte> {
    if ls == [] then [] else ls[0] + CRLF + Unlines(ls[1..])
  }

  /** The message with every line ended by CRLF. */
  function Normalised(msg: seq<byte>): seq<byte> {
    Unlines(Lines(msg))
  }

  // ---------------------------------------------------------------- sending

  function Stuff(line: seq<byte>): seq<byte> {
    if line != [] && line[0] == DOT then [DOT] + line else line
  }

  function StuffedLines(ls: seq<seq<byte>>): seq<byte> {
    if ls == [] then [] else Stuff(ls[0]) + CRLF + StuffedLines(ls[1..])
  }

  /** The bytes of a DATA transfer: stuffed lines and the terminating dot. */
  function Wire(msg: seq<byte>): seq<byte> {
    StuffedLines(Lines(msg)) + [DOT] + CRLF
  }

  method WriteLmtpData(message: seq<byte>) returns (out: seq<byte>)
    ensures out == Wire(message)
  {
    hide StuffedLines, IndexByte;
    out := [];
    var remaining := message;
    while |remaining| > 0
      invariant out + StuffedLines(Lines(remaining)) == StuffedLines(Lines(message))
      decreases |remaining|
    {
      ghost var before := remaining;
      var i := IndexByte(remaining, LF);
      var line: seq<byte>;
      if i < 0 {
        line, remaining := remaining, [];
      } else {
        line, remaining := remaining[..i], remaining[i + 1..];
      }
      if |line| > 0 && line[|line| - 1] == CR {
        line := line[..|line| - 1];
      }
      assert Lines(before) == [line] + Lines(remaining);
      SendLine(out, line, Lines(remaining));
      if |line| > 0 && line[0] == DOT {
        out := out + [DOT];
      }
      out := out + line;
      out := out + CRLF;
    }
    NoLines();
    out := out + [DOT] + CRLF;
  }

  lemma SendLine(out: seq<byte>, line: seq<byte>, ls: seq<seq<byte>>)
    ensures out + StuffedLines([line] + ls) == out + Stuff(line) + CRLF + StuffedLines(ls)
    ensures line != [] && line[0] == DOT ==> out + Stuff(line) == out + [DOT] + line
  {
    assert ([line] + ls)[1..] == ls;
  }

  lemma NoLines()
    ensures Lines([]) == [] && StuffedLines(Lines([])) == []
  {
  }

  // ---------------------------------------------------------------- the standard receiver

  /** Position of the first CR LF pair, or -1. */
  function FindCrlf(s: seq<byte>): (i: int)
    ensures -1 <= i
    ensures i >= 0 ==> i + 1 < |s| && s[i] == CR && s[i + 1] == LF
  {
    if |s| < 2 then -1
    else if s[0] == CR && s[1] == LF then 0
    else var r := FindCrlf(s[1..]); if r < 0 then -1 else r + 1
  }

  datatype Received = More | Message(content: seq<byte>, rest: seq<byte>)

  /**
   Section 4.5.2 of RFC 5321: a line of one period ends the mail data; from any other line that starts with a period
   the first character is deleted.  More stands for a stream that has not ended the data yet.
   */
  function Receive(s: seq<byte>): Received
    decreases |s|
  {
    var i := FindCrlf(s);
    if i < 0 then More
    else
      var line, rest := s[..i], s[i + 2..];
      if line == [DOT] then Message([], rest)
      else
        var content := if line != [] && line[0] == DOT then line[1..] else line;
        match Receive(rest)
        case More => More
        case Message(c, r) => Message(content + CRLF + c, r)
  }

  lemma {:induction false} CrlfAfterLine(line: seq<byte>, rest: seq<byte>)
    requires LF !in line
    ensures FindCrlf(line + CRLF + rest) == |line|
  {
    var s := line + CRLF + rest;
    if line != [] {
      assert s[1..] == line[1..] + CRLF + rest;
      CrlfAfterLine(line[1..], rest);
      assert s[1] == if |line| == 1 then CR else line[1];
    }
  }

  lemma {:induction false} ReceiveLines(ls: seq<seq<byte>>, rest: seq<byte>)
    requires forall l :: l in ls ==> LF !in l
    ensures Receive(StuffedLines(ls) + [DOT] + CRLF + rest) == Message(Unlines(ls), rest)
  {
    var s := StuffedLines(ls) + [DOT] + CRLF + rest;
    if ls == [] {
      assert s == [DOT] + CRLF + rest;
      CrlfAfterLine([DOT], rest);
      assert s[..1] == [DOT] && s[3..] == rest;
    } else {
      var line, tail := Stuff(ls[0]), StuffedLines(ls[1..]) + [DOT] + CRLF + rest;
      assert s == line + CRLF + tail;
      assert LF !in line;
      CrlfAfterLine(line, tail);
      ReceiveLines(ls[1..], rest);
      assert s[..|line|] == line && s[|line| + 2..] == tail;
      if ls[0] != [] && ls[0][0] == DOT { assert line[1..] == ls[0]; }
    }
  }

  /** The receiver gets the message with normalised line ends, and stops exactly after the terminating dot. */
  lemma ReceiverGetsMessage(msg: seq<byte>, rest: seq<byte>)
    ensures Receive(Wire(msg) + rest) == Message(Normalised(msg), rest)
  {
    ReceiveLines(Lines(msg), rest);
  }

  /** The CRLF-terminated lines of a stream, without what follows the last CRLF. */
  function CrlfLines(s: seq<byte>): seq<seq<byte>>
    decreases |s|
  {
    var i := FindCrlf(s);
    if i < 0 then [] else [s[..i]] + CrlfLines(s[i + 2..])
  }

  function StuffAll(ls: seq<seq<byte>>): (r: seq<seq<byte>>)
    ensures forall k :: 0 <= k < |r| ==> r[k] != [DOT]
  {
    if ls == [] then [] else [Stuff(ls[0])] + StuffAll(ls[1..])
  }

  lemma FirstCrlfLine(line: seq<byte>, tail: seq<byte>)
    requires LF !in line
    ensures CrlfLines(line + CRLF + tail) == [line] + CrlfLines(tail)
  {
    var s := line + CRLF + tail;
    CrlfAfterLine(line, tail);
    assert s[..|line|] == line && s[|line| + 2..] == tail;
  }

  lemma {:induction false} WireLines(ls: seq<seq<byte>>)
    requires forall l :: l in ls ==> LF !in l
    ensures CrlfLines(StuffedLines(ls) + [DOT] + CRLF) == StuffAll(ls) + [[DOT]]
  {
    if ls == [] {
      assert StuffedLines(ls) + [DOT] + CRLF == [DOT] + CRLF + [];
      FirstCrlfLine([DOT], []);
    } else {
      var tail := StuffedLines(ls[1..]) + [DOT] + CRLF;
      assert StuffedLines(ls) + [DOT] + CRLF == Stuff(ls[0]) + CRLF + tail;
      FirstCrlfLine(Stuff(ls[0]), tail);
      WireLines(ls[1..]);
    }
  }

  /** On the wire the lone dot occurs once, as the last line. */
  lemma LoneDotOnlyAtEnd(msg: seq<byte>, k: nat)
    requires k < |CrlfLines(Wire(msg))|
    ensures CrlfLines(Wire(msg))[k] == [DOT] <==> k == |CrlfLines(Wire(msg))| - 1
  {
    WireLines(Lines(msg));
  }

  // ---------------------------------------------------------------- normalisation

  lemma FirstLf(line: seq<byte>, rest: seq<byte>)
    requires LF !in line
    ensures IndexByte(line + [LF] + rest, LF) == |line|
  {
    var s := line + [LF] + rest;
    assert s[|line|] == LF && forall k :: 0 <= k < |line| ==> s[k] == line[k];
  }

  lemma {:induction false} LinesOfUnlines(ls: seq<seq<byte>>)
    requires forall l :: l in ls ==> LF !in l
    ensures Lines(Unlines(ls)) == ls
  {
    if ls != [] {
      var rest := Unlines(ls[1..]);
      var s := Unlines(ls);
      assert s == (ls[0] + [CR]) + [LF] + rest;
      FirstLf(ls[0] + [CR], rest);
      LinesOfUnlines(ls[1..]);
      assert s[..|ls[0]| + 1] == ls[0] + [CR] && s[|ls[0]| + 2..] == rest;
      assert TrimCr(ls[0] + [CR]) == ls[0];
    }
  }

  lemma NormalisationIsIdempotent(msg: seq<byte>)
    ensures Normalised(Normalised(msg)) == Normalised(msg)
    ensures Wire(Normalised(msg)) == Wire(msg)
  {
    LinesOfUnlines(Lines(msg));
  }

  // ---------------------------------------------------------------- normalisation, byte by byte

  lemma {:induction false} UnlinesConcat(a: seq<seq<byte>>, b: seq<seq<byte>>)
    ensures Unlines(a + b) == Unlines(a) + Unlines(b)
  {
    if a == [] {
      assert a + b == b;
    } else {
      assert (a + b)[1..] == a[1..] + b;
      UnlinesConcat(a[1..], b);
    }
  }

  lemma FirstLine(line: seq<byte>, rest: seq<byte>)
    requires LF !in line
    ensures Lines(line + [LF] + rest) == [TrimCr(line)] + Lines(rest)
  {
    var s := line + [LF] + rest;
    FirstLf(line, rest);
    assert s[..|line|] == line && s[|line| + 1..] == rest;
  }

  lemma {:induction false} LinesConcat(a: seq<byte>, b: seq<byte>)
    ensures Lines(a + [LF] + b) == Lines(a + [LF]) + Lines(b)
    decreases |a|
  {
    hide Lines, IndexByte, TrimCr;
    var i := IndexByte(a, LF);
    if i < 0 {
      FirstLine(a, b);
      FirstLine(a, []);
      assert a + [LF] + [] == a + [LF];
      NoLines();
    } else {
      var line, rest := a[..i], a[i + 1..];
      assert a + [LF] + b == line + [LF] + (rest + [LF] + b);
      assert a + [LF] == line + [LF] + (rest + [LF]);
      FirstLine(line, rest + [LF] + b);
      FirstLine(line, rest + [LF]);
      LinesConcat(rest, b);
    }
  }

  /** Whatever ends with a line feed is normalised on its own. */
  lemma NormalisedInParts(a: seq<byte>, b: seq<byte>)
    ensures Normalised(a + [LF] + b) == Normalised(a + [LF]) + Normalised(b)
  {
    LinesConcat(a, b);
    UnlinesConcat(Lines(a + [LF]), Lines(b));
  }

  lemma OneLine(line: seq<byte>)
    ensures Unlines([line]) == line + CRLF
  {
    assert [line][1..] == [];
  }

  /** A single line: with a bare LF, with CRLF, without a line end, and with a CR for a line end. */
  lemma NormalisedLine(line: seq<byte>)
    requires LF !in line && (line == [] || line[|line| - 1] != CR)
    ensures Normalised(line + [LF]) == line + CRLF
    ensures Normalised(line + [CR]) == line + CRLF
    ensures Normalised(line) == if line == [] then [] else line + CRLF
  {
    FirstLine(line, []);
    assert line + [LF] + [] == line + [LF];
    assert TrimCr(line + [CR]) == line && LF !in line + [CR];
    OneLine(line);
    assert [line] + [] == [line];
  }

  /** A CR just before the line feed is the line's own end, and only one is. */
  lemma NormalisedCrlf(line: seq<byte>)
    requires LF !in line
    ensures Normalised(line + CRLF) == line + CRLF
  {
    FirstLine(line + [CR], []);
    assert line + CRLF == line + [CR] + [LF] + [];
    assert TrimCr(line + [CR]) == line;
    OneLine(line);
    assert [line] + [] == [line];
  }

  /** Every line feed has a CR before it, and the text is empty or ends with one. */
  predicate CrlfText(s: seq<byte>) {
    && (forall i :: 0 <= i < |s| && s[i] == LF ==> i > 0 && s[i - 1] == CR)
    && (s == [] || s[|s| - 1] == LF)
  }

  /** A message in normal form is sent as it is. */
  lemma {:induction false} NormalFormIsKept(s: seq<byte>)
    requires CrlfText(s)
    ensures Normalised(s) == s
    decreases |s|
  {
    if s != [] {
      var i := IndexByte(s, LF);
      var line, rest := s[..i - 1], s[i + 1..];
      assert s[..i] == line + [CR];
      assert s == (line + [CR]) + [LF] + rest;
      NormalisedInParts(line + [CR], rest);
      assert line + [CR] + [LF] == line + CRLF;
      assert LF !in line by { assert LF !in s[..i]; }
      NormalisedCrlf(line);
      forall j | 0 <= j < |rest| && rest[j] == LF ensures j > 0 && rest[j - 1] == CR {
        assert s[j + i + 1] == LF;
      }
      NormalFormIsKept(rest);
    }
  }

  /** The bytes that are not part of a line end: not an LF, nor a CR before an LF or at the very end. */
  function Text(s: seq<byte>): seq<byte> {
    if s == [] then []
    else if s[0] == LF || (s[0] == CR && (|s| == 1 || s[1] == LF)) then Text(s[1..])
    else [s[0]] + Text(s[1..])
  }

  lemma {:induction false} TextOfLine(line: seq<byte>, rest: seq<byte>)
    requires LF !in line
    ensures Text(line + [LF] + rest) == Text(line) + Text(rest)
  {
    var s := line + [LF] + rest;
    if line == [] {
      assert s[1..] == rest;
    } else {
      assert s[1..] == line[1..] + [LF] + rest;
      assert s[1] == if |line| == 1 then LF else line[1];
      TextOfLine(line[1..], rest);
    }
  }

  lemma {:induction false} FinalCr(line: seq<byte>)
    requires LF !in line && (line == [] || line[|line| - 1] != CR)
    ensures Text(line + [CR]) == Text(line)
  {
    if line != [] {
      assert (line + [CR])[1..] == line[1..] + [CR];
      FinalCr(line[1..]);
    }
  }

  /** Putting a line's end in normal form keeps its text. */
  lemma TextOfTrimmed(line: seq<byte>)
    requires LF !in line
    ensures Text(TrimCr(line) + [CR]) == Text(line) && LF !in TrimCr(line) + [CR]
  {
    if line != [] && line[|line| - 1] == CR {
      assert TrimCr(line) + [CR] == line;
    } else {
      FinalCr(line);
    }
  }

  lemma NormalisedFirst(line: seq<byte>, rest: seq<byte>)
    requires LF !in line
    ensures Normalised(line + [LF] + rest) == (TrimCr(line) + [CR]) + [LF] + Normalised(rest)
    ensures line != [] ==> Normalised(line) == (TrimCr(line) + [CR]) + [LF] + []
  {
    FirstLine(line, rest);
    assert ([TrimCr(line)] + Lines(rest))[1..] == Lines(rest);
    OneLine(TrimCr(line));
  }

  /** Normalising changes line ends and nothing else: all other bytes are kept, in order. */
  lemma {:induction false} TextIsKept(msg: seq<byte>)
    ensures Text(Normalised(msg)) == Text(msg)
    decreases |msg|
  {
    hide Normalised, Text, TrimCr, IndexByte;
    var i := IndexByte(msg, LF);
    if i >= 0 {
      var line, rest := msg[..i], msg[i + 1..];
      assert msg == line + [LF] + rest;
      NormalisedFirst(line, rest);
      TextOfTrimmed(line);
      TextOfLine(TrimCr(line) + [CR], Normalised(rest));
      TextIsKept(rest);
      TextOfLine(line, rest);
    } else if msg != [] {
      NormalisedFirst(msg, []);
      TextOfTrimmed(msg);
      TextOfLine(TrimCr(msg) + [CR], []);
      NoText();
    } else {
      NoText();
    }
  }

  lemma NoText()
    ensures Text([]) == [] && Normalised([]) == []
  {
  }

  // ---------------------------------------------------------------- stuffing, line by line

  lemma {:induction false} CrlfLinesOfUnlines(ls: seq<seq<byte>>)
    requires forall l :: l in ls ==> LF !in l
    ensures CrlfLines(Unlines(ls)) == ls
  {
    if ls != [] {
      FirstCrlfLine(ls[0], Unlines(ls[1..]));
      CrlfLinesOfUnlines(ls[1..]);
    }
  }

  lemma {:induction false} StuffAllAt(ls: seq<seq<byte>>)
    ensures |StuffAll(ls)| == |ls| && forall k :: 0 <= k < |ls| ==> StuffAll(ls)[k] == Stuff(ls[k])
  {
    if ls != [] { StuffAllAt(ls[1..]); }
  }

  lemma {:induction false} StuffedIsUnlines(ls: seq<seq<byte>>)
    ensures StuffedLines(ls) == Unlines(StuffAll(ls))
  {
    if ls != [] { StuffedIsUnlines(ls[1..]); }
  }

  /** On the wire are the lines of the normalised message, with one more dot on exactly those that begin with one. */
  lemma OnlyDotsAreStuffed(msg: seq<byte>)
    ensures
      var lines, wire := CrlfLines(Normalised(msg)), CrlfLines(Wire(msg));
      && |wire| == |lines| + 1 && wire[|lines|] == [DOT] && Unlines(wire) == Wire(msg)
      && forall k :: 0 <= k < |lines| ==>
           wire[k] == if lines[k] != [] && lines[k][0] == DOT then [DOT] + lines[k] else lines[k]
  {
    var ls := Lines(msg);
    CrlfLinesOfUnlines(ls);
    WireLines(ls);
    StuffAllAt(ls);
    StuffedIsUnlines(ls);
    UnlinesConcat(StuffAll(ls), [[DOT]]);
    OneLine([DOT]);
  }

  // ---------------------------------------------------------------- reading replies

  datatype Read = Reply(code: int, text: seq<byte>, rest: seq<byte>) | Closed | BadLine | BadCode

  predicate IsDigit(b: byte) {
    48 <= b <= 57
  }

  function Digit(b: byte): int {
    b as int - 48
  }

  /** Decimal parsing of three bytes, with the optional sign that the library accepts. */
  function Atoi(a: byte, b: byte, c: byte): Option<int> {
    if !IsDigit(b) || !IsDigit(c) then None
    else if IsDigit(a) then Some(100 * Digit(a) + 10 * Digit(b) + Digit(c))
    else if a == PLUS then Some(10 * Digit(b) + Digit(c))
    else if a == DASH then Some(-(10 * Digit(b) + Digit(c)))
    else None
  }

  /** The line without its trailing CRs and LFs. */
  function TrimEol(line: seq<byte>): (r: seq<byte>)
    ensures |r| <= |line|
  {
    if line != [] && line[|line| - 1] in {CR, LF} then TrimEol(line[..|line| - 1]) else line
  }

  function JoinSp(ls: seq<seq<byte>>): seq<byte> {
    if ls == [] then [] else if |ls| == 1 then ls[0] else ls[0] + [SP] + JoinSp(ls[1..])
  }

  function AddText(texts: seq<seq<byte>>, line: seq<byte>): seq<seq<byte>> {
    if |line| > 4 then texts + [line[4..]] else texts
  }

  function ReadReply(input: seq<byte>, texts: seq<seq<byte>>): Read
    decreases |input|
  {
    var i := IndexByte(input, LF);
    if i < 0 then Closed
    else
      var line, rest := TrimEol(input[..i + 1]), input[i + 1..];
      if |line| < 3 then BadLine
      else
        var code := Atoi(line[0], line[1], line[2]);
        if code.None? then BadCode
        else if |line| == 3 || line[3] == SP then Reply(code.value, JoinSp(AddText(texts, line)), rest)
        else ReadReply(rest, AddText(texts, line))
  }

  method ReadLmtpResponse(input: seq<byte>) returns (r: Read)
    ensures r == ReadReply(input, [])
  {
    var stream, lines := input, [];
    while true
      invariant ReadReply(stream, lines) == ReadReply(input, [])
      decreases |stream|
    {
      var i := IndexByte(stream, LF);
      if i < 0 {
        return Closed;
      }
      var line := TrimEol(stream[..i + 1]);
      if |line| < 3 {
        return BadLine;
      }
      var code := Atoi(line[0], line[1], line[2]);
      if code.None? {
        return BadCode;
      }
      if |line| > 4 {
        lines := lines + [line[4..]];
      }
      stream := stream[i + 1..];
      if |line| == 3 || line[3] == SP {
        return Reply(code.value, JoinSp(lines), stream);
      }
    }
  }

  /** A reply of section 4.2.1: a three-digit code, continuation lines, and a last line with or without text. */
  datatype WellFormed = WellFormed(d1: byte, d2: byte, d3: byte, more: seq<seq<byte>>, last: Option<seq<byte>>)

  predicate IsText(t: seq<byte>) {
    CR !in t && LF !in t
  }

  predicate Valid(r: WellFormed) {
    && IsDigit(r.d1) && IsDigit(r.d2) && IsDigit(r.d3)
    && (forall i :: 0 <= i < |r.more| ==> IsText(r.more[i]))
    && (r.last.Some? ==> IsText(r.last.value))
  }

  function Code(r: WellFormed): int {
    100 * Digit(r.d1) + 10 * Digit(r.d2) + Digit(r.d3)
  }

  function FormatLast(r: WellFormed): seq<byte> {
    [r.d1, r.d2, r.d3] + (if r.last.Some? then [SP] + r.last.value else [])
  }

  function Format(r: WellFormed): seq<byte>
    decreases |r.more|
  {
    if r.more == [] then FormatLast(r) + CRLF
    else [r.d1, r.d2, r.d3, DASH] + r.more[0] + CRLF + Format(r.(more := r.more[1..]))
  }

  /** The texts the reader keeps: the non-empty ones, in order. */
  function Texts(r: WellFormed): seq<seq<byte>>
    decreases |r.more|
  {
    if r.more == [] then (if r.last.Some? && r.last.value != [] then [r.last.value] else [])
    else (if r.more[0] != [] then [r.more[0]] else []) + Texts(r.(more := r.more[1..]))
  }

  lemma TrimEolOfLine(line: seq<byte>)
    requires line != [] && line[|line| - 1] != CR && line[|line| - 1] != LF
    ensures TrimEol(line + CRLF) == line
  {
    var withCr := line + [CR];
    assert (line + CRLF)[..|line| + 1] == withCr && withCr[..|line|] == line;
    assert TrimEol(withCr) == TrimEol(line) == line;
  }

  /** The reader takes one line off the stream. */
  lemma ReadOneLine(line: seq<byte>, rest: seq<byte>, texts: seq<seq<byte>>)
    requires |line| >= 3 && CR !in line && LF !in line
    requires Atoi(line[0], line[1], line[2]).Some?
    ensures
      ReadReply(line + CRLF + rest, texts) ==
      if |line| == 3 || line[3] == SP then
        Reply(Atoi(line[0], line[1], line[2]).value, JoinSp(AddText(texts, line)), rest)
      else ReadReply(rest, AddText(texts, line))
  {
    var s := line + CRLF + rest;
    assert s == (line + [CR]) + [LF] + rest;
    FirstLf(line + [CR], rest);
    assert s[..|line| + 2] == line + CRLF && s[|line| + 2..] == rest;
    TrimEolOfLine(line);
  }

  lemma {:induction false} ReaderInvertsFormatFrom(r: WellFormed, rest: seq<byte>, texts: seq<seq<byte>>)
    requires Valid(r)
    ensures ReadReply(Format(r) + rest, texts) == Reply(Code(r), JoinSp(texts + Texts(r)), rest)
    decreases |r.more|
  {
    hide ReadReply;
    if r.more == [] {
      ReadOneLine(FormatLast(r), rest, texts);
      if r.last.Some? { assert FormatLast(r)[4..] == r.last.value; }
      assert AddText(texts, FormatLast(r)) == texts + Texts(r);
    } else {
      var line, tail := [r.d1, r.d2, r.d3, DASH] + r.more[0], r.(more := r.more[1..]);
      assert Format(r) + rest == line + CRLF + (Format(tail) + rest);
      ReadOneLine(line, Format(tail) + rest, texts);
      assert line[4..] == r.more[0];
      ReaderInvertsFormatFrom(tail, rest, AddText(texts, line));
      assert AddText(texts, line) + Texts(tail) == texts + Texts(r);
    }
  }

  /** Code and joined text of a reply. */
  function Content(r: WellFormed): (int, seq<byte>) {
    (Code(r), JoinSp(Texts(r)))
  }

  function Contents(rs: seq<WellFormed>): seq<(int, seq<byte>)> {
    if rs == [] then [] else [Content(rs[0])] + Contents(rs[1..])
  }

  lemma ReadsFirst(r: WellFormed, rest: seq<byte>)
    requires Valid(r)
    ensures ReadReply(Format(r) + rest, []) == Reply(Content(r).0, Content(r).1, rest)
  {
    ReaderInvertsFormatFrom(r, rest, []);
    assert [] + Texts(r) == Texts(r);
  }

  /** Any number of replies, one after the other. */
  function FormatAll(rs: seq<WellFormed>): seq<byte> {
    if rs == [] then [] else Format(rs[0]) + FormatAll(rs[1..])
  }

  /** Reads k replies: their codes and texts, and what is left of the stream, or None if a read fails. */
  function ReadMany(input: seq<byte>, k: nat): Option<(seq<(int, seq<byte>)>, seq<byte>)>
    decreases k
  {
    if k == 0 then Some(([], input))
    else
      match ReadReply(input, [])
      case Reply(code, text, rest) =>
        (match ReadMany(rest, k - 1)
         case None => None
         case Some((more, left)) => Some(([(code, text)] + more, left)))
      case _ => None
  }

  /** Reading as many replies as were formatted returns each code and joined text, and consumes exactly their bytes. */
  lemma {:induction false} ReaderInvertsFormat(rs: seq<WellFormed>, rest: seq<byte>)
    requires forall i :: 0 <= i < |rs| ==> Valid(rs[i])
    ensures ReadMany(FormatAll(rs) + rest, |rs|) ==
            Some((Contents(rs), rest))
  {
    hide ReadReply, Format, Content;
    if rs == [] {
      assert FormatAll(rs) + rest == rest;
    } else {
      var after := FormatAll(rs[1..]) + rest;
      assert FormatAll(rs) + rest == Format(rs[0]) + after;
      ReadsFirst(rs[0], after);
      ReaderInvertsFormat(rs[1..], rest);
    }
  }

  /** Texts are joined by single spaces, in order. */
  lemma {:induction false} JoinedBySpaces(texts: seq<seq<byte>>, last: seq<byte>)
    ensures JoinSp(texts + [last]) == if texts == [] then last else JoinSp(texts) + [SP] + last
  {
    if texts != [] {
      assert (texts + [last])[1..] == texts[1..] + [last];
      JoinedBySpaces(texts[1..], last);
    }
  }

  /** A line ends before its trailing CRs and LFs. */
  lemma {:induction false} TrimEolMeans(line: seq<byte>)
    ensures
      var r := TrimEol(line);
      && r <= line && (forall i :: |r| <= i < |line| ==> line[i] == CR || line[i] == LF)
      && (r != [] ==> r[|r| - 1] != CR && r[|r| - 1] != LF)
  {
    if line != [] && line[|line| - 1] in {CR, LF} { TrimEolMeans(line[..|line| - 1]); }
  }

  predicate LooksLikeCode(line: seq<byte>) {
    |line| >= 3 && (IsDigit(line[0]) || line[0] == PLUS || line[0] == DASH) && IsDigit(line[1]) && IsDigit(line[2])
  }

  /** The reader fails on a stream that ends before a line does, on a short line, and on a line without a number. */
  lemma ReaderRefuses(input: seq<byte>, line: seq<byte>, rest: seq<byte>, texts: seq<seq<byte>>)
    requires LF !in line
    ensures LF !in input ==> ReadReply(input, texts) == Closed
    ensures
      var t, r := TrimEol(line + [LF]), ReadReply(line + [LF] + rest, texts);
      && (|t| < 3 ==> r == BadLine)
      && (|t| >= 3 && !LooksLikeCode(t) ==> r == BadCode)
      && (LooksLikeCode(t) && (|t| == 3 || t[3] == SP) ==>
            r == Reply(SignedCode(t), JoinSp(AddText(texts, t)), rest))
  {
    var s := line + [LF] + rest;
    FirstLf(line, rest);
    assert s[..|line| + 1] == line + [LF] && s[|line| + 1..] == rest;
  }

  /** The number a line begins with, signed or not. */
  function SignedCode(t: seq<byte>): int
    requires LooksLikeCode(t)
  {
    var low := 10 * (t[1] as int - 48) + (t[2] as int - 48);
    if t[0] == DASH then -low else if t[0] == PLUS then low else 100 * (t[0] as int - 48) + low
  }
}
