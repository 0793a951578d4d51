// ngx_upstream_check_http_parse_status_line: the resumable parser for the head of an
// HTTP response.

module StatusLine {
  datatype Option<T> = None | Some(value: T)

  datatype Sw = Start | H | HT | HTT | HTTP | FirstMajor | Major | FirstMinor | Minor | Status | AfterStatus | Text
    | Lf | Cr | AlmostDone | Body

  // The saved state; start and end are offsets into the response.
  datatype Parser = Parser(state: Sw, code: nat, count: nat, start: Option<int>, end: Option<int>)

  datatype Verdict = Again | Ok | Error
  datatype Step = Go(parser: Parser) | Done(parser: Parser) | Fail
  datatype Result = Result(verdict: Verdict, parser: Parser, pos: nat)

  const FRESH := Parser(Start, 0, 0, None, None)

  predicate IsDigit(c: char) {
    '0' <= c <= '9'
  }

  function To(p: Parser, state: Sw): Step {
    Go(p.(state := state))
  }

  function Want(p: Parser, ok: bool, state: Sw): Step {
    if ok then To(p, state) else Fail
  }

  // status->end stays where it was set before.
  function Finish(p: Parser, at: nat): Step {
    Done(p.(state := Body, end := if p.end.None? then Some(at) else p.end))
  }

  // One character at offset at.
  function Next(p: Parser, ch: char, at: nat): Step {
    match p.state
    case Start => Want(p, ch == 'H', H)
    case H => Want(p, ch == 'T', HT)
    case HT => Want(p, ch == 'T', HTT)
    case HTT => Want(p, ch == 'P', HTTP)
    case HTTP => Want(p, ch == '/', FirstMajor)
    case FirstMajor => Want(p, '1' <= ch <= '9', Major)
    case Major => if ch == '.' then To(p, FirstMinor) else Want(p, IsDigit(ch), Major)
    case FirstMinor => Want(p, IsDigit(ch), Minor)
    case Minor => if ch == ' ' then To(p, Status) else Want(p, IsDigit(ch), Minor)
    case Status =>
      if ch == ' ' then To(p, Status)
      else if !IsDigit(ch) then Fail
      else
        var q := p.(code := p.code * 10 + (ch as int - '0' as int), count := p.count + 1);
        if q.count == 3 then Go(q.(state := AfterStatus, start := Some(at - 2))) else Go(q)
    case AfterStatus =>
      if ch == ' ' || ch == '.' then To(p, Text)
      else if ch == '\r' then To(p, AlmostDone)
      else if ch == '\n' then Finish(p, at) else Fail
    case Text => if ch == '\r' then To(p, Lf) else if ch == '\n' then Finish(p, at) else To(p, Text)
    case Lf => Want(p, ch == '\n', Cr)
    case Cr => To(p, if ch == '\r' then AlmostDone else Text)
    case AlmostDone => if ch == '\n' then Finish(p.(end := Some(at - 1)), at) else Fail
    case Body => Done(p)
  }

  // All the characters of data, the first of them at offset at.
  function Run(p: Parser, data: string, at: nat): Result
    decreases |data|
  {
    if p.state == Body then Result(Ok, p, at)
    else if data == [] then Result(Again, p, at)
    else
      match Next(p, data[0], at)
      case Go(q) => Run(q, data[1..], at + 1)
      case Done(q) => Result(Ok, q, at + 1)
      case Fail => Result(Error, p, at)
  }

  // Stopping in the middle and going on later makes no difference.
  lemma {:induction false} Resume(p: Parser, x: string, y: string, at: nat)
    ensures var r := Run(p, x, at);
            Run(p, x + y, at) == if r.verdict == Again then Run(r.parser, y, r.pos) else r
    ensures Run(p, x, at).verdict == Again ==> Run(p, x, at).pos == at + |x|
    decreases |x|
  {
    if x == [] {
      assert x + y == y;
    } else if p.state != Body && Next(p, x[0], at).Go? {
      assert (x + y)[1..] == x[1..] + y;
      Resume(Next(p, x[0], at).parser, x[1..], y, at + 1);
    }
  }

  class StatusParser {
    var state: Sw
    var code: nat
    var count: nat
    var start: Option<int>
    var end: Option<int>
    var pos: nat

    ghost function P(): Parser
      reads this
    {
      Parser(state, code, count, start, end)
    }

    constructor ()
      ensures P() == FRESH && pos == 0
    {
      state, code, count, start, end, pos := Start, 0, 0, None, None, 0;
    }

    // The parser on a buffer that holds the response so far. An error leaves the position
    // and the saved state alone, but not the digits counted.
    method Parse(buffer: string) returns (r: Verdict)
      requires pos <= |buffer|
      modifies this
      ensures var o := Run(old(P()), buffer[old(pos)..], old(pos));
              && r == o.verdict
              && (if r == Error then P() == o.parser.(state := old(state)) && pos == old(pos)
                  else P() == o.parser && pos == o.pos)
    {
      if state == Body {
        return Ok;
      }
      ghost var o := Run(P(), buffer[pos..], pos);
      var q := Parser(state, code, count, start, end);
      var p := pos;
      while p < |buffer|
        invariant pos == old(pos) <= p <= |buffer| && state == old(state) && q.state != Body
        invariant o == Run(q, buffer[p..], p)
      {
        assert buffer[p..][1..] == buffer[p + 1..];
        match Next(q, buffer[p], p) {
          case Fail =>
            code, count, start, end := q.code, q.count, q.start, q.end;
            return Error;
          case Done(d) =>
            pos := p + 1;
            state, code, count, start, end := Body, d.code, d.count, d.start, d.end;
            return Ok;
          case Go(g) =>
            q := g;
        }
        p := p + 1;
      }
      pos := p;
      state, code, count, start, end := q.state, q.code, q.count, q.start, q.end;
      return Again;
    }
  }

  // A response in pieces

  function Join(chunks: seq<string>): string {
    if chunks == [] then "" else chunks[0] + Join(chunks[1..])
  }

  // The parser is called again for every piece until it has a verdict.
  function Feed(p: Parser, chunks: seq<string>, at: nat): Result
    decreases |chunks|
  {
    if chunks == [] then Run(p, "", at)
    else
      var r := Run(p, chunks[0], at);
      if r.verdict == Again then Feed(r.parser, chunks[1..], r.pos) else r
  }

  // However a response is cut, the verdict, the code and the position of the body are
  // those of the whole response.
  lemma {:induction false} AnyPieces(p: Parser, chunks: seq<string>, at: nat)
    ensures Feed(p, chunks, at) == Run(p, Join(chunks), at)
    decreases |chunks|
  {
    if chunks != [] {
      Resume(p, chunks[0], Join(chunks[1..]), at);
      var r := Run(p, chunks[0], at);
      if r.verdict == Again {
        AnyPieces(r.parser, chunks[1..], r.pos);
      }
    }
  }

  // Response heads by sections 3 and 3.1.2 of RFC 7230

  predicate OneLine(s: string) {
    forall i | 0 <= i < |s| :: s[i] != '\r' && s[i] != '\n'
  }

  // A status line with one-digit version numbers, and the lines of the header fields.
  datatype Head = Head(major: char, minor: char, code: string, reason: string, fields: seq<string>)

  predicate Proper(h: Head) {
    && '1' <= h.major <= '9' && IsDigit(h.minor)
    && |h.code| == 3 && IsDigit(h.code[0]) && IsDigit(h.code[1]) && IsDigit(h.code[2])
    && OneLine(h.reason) && forall i | 0 <= i < |h.fields| :: h.fields[i] != [] && OneLine(h.fields[i])
  }

  function Lines(fields: seq<string>): string {
    if fields == [] then "" else fields[0] + "\r\n" + Lines(fields[1..])
  }

  function StatusText(h: Head): string {
    "HTTP/" + [h.major] + "." + [h.minor] + " " + h.code + " " + h.reason + "\r\n"
  }

  function HeadText(h: Head): string {
    StatusText(h) + Lines(h.fields) + "\r\n"
  }

  function Code(s: string): nat
    requires |s| == 3 && IsDigit(s[0]) && IsDigit(s[1]) && IsDigit(s[2])
  {
    100 * (s[0] as int - '0' as int) + 10 * (s[1] as int - '0' as int) + (s[2] as int - '0' as int)
  }

  lemma {:induction false} Eat(p: Parser, c: char, rest: string, at: nat)
    requires p.state != Body && Next(p, c, at).Go?
    ensures Run(p, [c] + rest, at) == Run(Next(p, c, at).parser, rest, at + 1)
  {
    assert ([c] + rest)[1..] == rest;
  }

  // Text without line ends.
  lemma {:induction false} EatText(p: Parser, s: string, rest: string, at: nat)
    requires p.state == Text && OneLine(s)
    ensures Run(p, s + rest, at) == Run(p, rest, at + |s|)
    decreases |s|
  {
    if s == [] {
      assert s + rest == rest;
    } else {
      assert s + rest == [s[0]] + (s[1..] + rest);
      Eat(p, s[0], s[1..] + rest, at);
      EatText(p, s[1..], rest, at + 1);
    }
  }

  lemma {:induction false} EatEnd(p: Parser, rest: string, at: nat)
    requires p.state == Text
    ensures Run(p, "\r\n" + rest, at) == Run(p.(state := Cr), rest, at + 2)
  {
    assert "\r\n" + rest == ['\r'] + (['\n'] + rest);
    Eat(p, '\r', ['\n'] + rest, at);
    Eat(p.(state := Lf), '\n', rest, at + 1);
  }

  // One header field after the other.
  lemma {:induction false} EatFields(p: Parser, fields: seq<string>, rest: string, at: nat)
    requires p.state == Cr && forall i | 0 <= i < |fields| :: fields[i] != [] && OneLine(fields[i])
    ensures Run(p, Lines(fields) + rest, at) == Run(p, rest, at + |Lines(fields)|)
    decreases |fields|
  {
    hide Run;
    if fields == [] {
      assert Lines(fields) + rest == rest;
    } else {
      var f, more := fields[0], Lines(fields[1..]) + rest;
      assert Lines(fields) + rest == [f[0]] + (f[1..] + ("\r\n" + more));
      Eat(p, f[0], f[1..] + ("\r\n" + more), at);
      EatText(p.(state := Text), f[1..], "\r\n" + more, at + 1);
      EatEnd(p.(state := Text), more, at + |f|);
      EatFields(p, fields[1..], rest, at + |f| + 2);
    }
  }

  lemma {:induction false} EatName(rest: string)
    ensures Run(FRESH, "HTTP/" + rest, 0) == Run(FRESH.(state := FirstMajor), rest, 5)
  {
    hide Run;
    assert "HTTP/" + rest == ['H'] + (['T'] + (['T'] + (['P'] + (['/'] + rest))));
    Eat(FRESH, 'H', ['T'] + (['T'] + (['P'] + (['/'] + rest))), 0);
    Eat(FRESH.(state := H), 'T', ['T'] + (['P'] + (['/'] + rest)), 1);
    Eat(FRESH.(state := HT), 'T', ['P'] + (['/'] + rest), 2);
    Eat(FRESH.(state := HTT), 'P', ['/'] + rest, 3);
    Eat(FRESH.(state := HTTP), '/', rest, 4);
  }

  // "HTTP/" and the version
  lemma {:induction false} EatVersion(major: char, minor: char, rest: string)
    requires '1' <= major <= '9' && IsDigit(minor)
    ensures Run(FRESH, "HTTP/" + [major] + "." + [minor] + " " + rest, 0) == Run(FRESH.(state := Status), rest, 9)
  {
    hide Run;
    var r8 := [' '] + rest;
    var r7 := [minor] + r8;
    var r6 := ['.'] + r7;
    assert "HTTP/" + [major] + "." + [minor] + " " + rest == "HTTP/" + ([major] + r6);
    EatName([major] + r6);
    Eat(FRESH.(state := FirstMajor), major, r6, 5);
    Eat(FRESH.(state := Major), '.', r7, 6);
    Eat(FRESH.(state := FirstMinor), minor, r8, 7);
    Eat(FRESH.(state := Minor), ' ', rest, 8);
  }

  lemma {:induction false} EatCode(code: string, rest: string)
    requires |code| == 3 && IsDigit(code[0]) && IsDigit(code[1]) && IsDigit(code[2])
    ensures Run(FRESH.(state := Status), code + " " + rest, 9)
                == Run(Parser(Text, Code(code), 3, Some(9), None), rest, 13)
  {
    hide Run;
    var r3 := [' '] + rest;
    var r2 := [code[2]] + r3;
    var r1 := [code[1]] + r2;
    assert code + " " + rest == [code[0]] + r1;
    var p0 := FRESH.(state := Status);
    Eat(p0, code[0], r1, 9);
    var p1 := Next(p0, code[0], 9).parser;
    Eat(p1, code[1], r2, 10);
    var p2 := Next(p1, code[1], 10).parser;
    Eat(p2, code[2], r3, 11);
    var p3 := Next(p2, code[2], 11).parser;
    Eat(p3, ' ', rest, 12);
  }

  // Every such head is accepted, with its code and the position just after it.
  lemma {:induction false} HeadAccepted(h: Head, body: string)
    requires Proper(h)
    ensures var n := |HeadText(h)|;
            Run(FRESH, HeadText(h) + body, 0) == Result(Ok, Parser(Body, Code(h.code), 3, Some(9), Some(n - 2)), n)
  {
    hide Run, Next, Code;
    var r4 := "\r\n" + body;
    var r3 := Lines(h.fields) + r4;
    var r2 := h.reason + ("\r\n" + r3);
    var r1 := h.code + " " + r2;
    assert HeadText(h) + body == "HTTP/" + [h.major] + "." + [h.minor] + " " + r1;
    EatVersion(h.major, h.minor, r1);
    EatCode(h.code, r2);
    var p := Parser(Text, Code(h.code), 3, Some(9), None);
    EatText(p, h.reason, "\r\n" + r3, 13);
    var at := 13 + |h.reason|;
    EatEnd(p, r3, at);
    EatFields(p.(state := Cr), h.fields, r4, at + 2);
    BlankLine(p.(state := Cr), body, at + 2 + |Lines(h.fields)|);
  }

  lemma {:induction false} BlankLine(p: Parser, body: string, at: nat)
    requires p.state == Cr
    ensures Run(p, "\r\n" + body, at) == Result(Ok, p.(state := Body, end := Some(at)), at + 2)
  {
    assert "\r\n" + body == ['\r'] + (['\n'] + body);
    Eat(p, '\r', ['\n'] + body, at);
    assert (['\n'] + body)[0] == '\n';
  }

  // Exactly the heads that are accepted

  // Pieces of text, each followed by a separator and one more character.
  function Marks(parts: seq<(string, char)>, sep: string): string {
    if parts == [] then "" else parts[0].0 + sep + [parts[0].1] + Marks(parts[1..], sep)
  }

  // After the code comes the end of the line, or text. Text goes on over every CR LF that
  // no CR follows, and ends at a bare LF or at an empty line.
  datatype Ending = Ending(lines: seq<(string, char)>, last: string, blank: bool)
  datatype Rest = AtLf | AtCrLf | More(sep: char, ending: Ending)
  datatype Response = Response(major: string, minor: string, code: seq<(string, char)>, rest: Rest)

  predicate Digits(s: string) {
    s != [] && forall i | 0 <= i < |s| :: IsDigit(s[i])
  }

  predicate Blank(s: string) {
    forall i | 0 <= i < |s| :: s[i] == ' '
  }

  predicate LegalCode(code: seq<(string, char)>) {
    forall i | 0 <= i < |code| :: Blank(code[i].0) && IsDigit(code[i].1)
  }

  predicate LegalEnding(e: Ending) {
    OneLine(e.last) && forall i | 0 <= i < |e.lines| :: OneLine(e.lines[i].0) && e.lines[i].1 != '\r'
  }

  predicate Legal(x: Response) {
    && Digits(x.major) && x.major[0] != '0' && Digits(x.minor)
    && |x.code| == 3 && LegalCode(x.code)
    && (x.rest.More? ==> (x.rest.sep == ' ' || x.rest.sep == '.') && LegalEnding(x.rest.ending))
  }

  function EndingText(e: Ending): string {
    Marks(e.lines, "\r\n") + (e.last + if e.blank then "\r\n\r\n" else "\n")
  }

  function RestText(rest: Rest): string {
    match rest
    case AtLf => "\n"
    case AtCrLf => "\r\n"
    case More(sep, e) => [sep] + EndingText(e)
  }

  function ResponseText(x: Response): string {
    "HTTP/" + (x.major + ("." + (x.minor + (" " + (Marks(x.code, "") + RestText(x.rest))))))
  }

  // The number with the digits of code after those of n.
  function Value(n: nat, code: seq<(string, char)>): nat
    requires LegalCode(code)
    decreases |code|
  {
    if code == [] then n else Value(n * 10 + (code[0].1 as int - '0' as int), code[1..])
  }

  lemma {:induction false} EatDigits(p: Parser, s: string, rest: string, at: nat)
    requires (p.state == Major || p.state == Minor) && forall i | 0 <= i < |s| :: IsDigit(s[i])
    ensures Run(p, s + rest, at) == Run(p, rest, at + |s|)
    decreases |s|
  {
    if s == [] {
      assert s + rest == rest;
    } else {
      assert s + rest == [s[0]] + (s[1..] + rest);
      Eat(p, s[0], s[1..] + rest, at);
      EatDigits(p, s[1..], rest, at + 1);
    }
  }

  lemma {:induction false} EatNumber(p: Parser, s: string, rest: string, at: nat)
    requires (p.state == FirstMajor && Digits(s) && s[0] != '0') || (p.state == FirstMinor && Digits(s))
    ensures Run(p, s + rest, at) == Run(p.(state := if p.state == FirstMajor then Major else Minor), rest, at + |s|)
  {
    hide Run;
    assert s + rest == [s[0]] + (s[1..] + rest);
    Eat(p, s[0], s[1..] + rest, at);
    EatDigits(p.(state := if p.state == FirstMajor then Major else Minor), s[1..], rest, at + 1);
  }

  lemma {:induction false} EatBlanks(p: Parser, s: string, rest: string, at: nat)
    requires p.state == Status && Blank(s)
    ensures Run(p, s + rest, at) == Run(p, rest, at + |s|)
    decreases |s|
  {
    if s == [] {
      assert s + rest == rest;
    } else {
      assert s + rest == [s[0]] + (s[1..] + rest);
      Eat(p, s[0], s[1..] + rest, at);
      EatBlanks(p, s[1..], rest, at + 1);
    }
  }

  lemma {:induction false} EatMarks(p: Parser, code: seq<(string, char)>, rest: string, at: nat)
    requires p.state == Status && LegalCode(code) && code != [] && p.count + |code| == 3
    ensures var n := at + |Marks(code, "")|;
            Run(p, Marks(code, "") + rest, at) ==
            Run(Parser(AfterStatus, Value(p.code, code), 3, Some(n - 3), p.end), rest, n)
    decreases |code|
  {
    hide Run;
    var blanks, d, more := code[0].0, code[0].1, Marks(code[1..], "") + rest;
    assert Marks(code, "") + rest == blanks + ([d] + more);
    EatBlanks(p, blanks, [d] + more, at);
    Eat(p, d, more, at + |blanks|);
    var q := Next(p, d, at + |blanks|).parser;
    if |code| == 1 {
      assert code[1..] == [] && more == rest;
      assert Value(q.code, []) == q.code;
    } else {
      EatMarks(q, code[1..], rest, at + |blanks| + 1);
    }
  }

  lemma {:induction false} EatLines(p: Parser, lines: seq<(string, char)>, rest: string, at: nat)
    requires p.state == Text && forall i | 0 <= i < |lines| :: OneLine(lines[i].0) && lines[i].1 != '\r'
    ensures Run(p, Marks(lines, "\r\n") + rest, at) == Run(p, rest, at + |Marks(lines, "\r\n")|)
    decreases |lines|
  {
    hide Run;
    if lines == [] {
      assert Marks(lines, "\r\n") + rest == rest;
    } else {
      var s, c, more := lines[0].0, lines[0].1, Marks(lines[1..], "\r\n") + rest;
      assert Marks(lines, "\r\n") + rest == s + ("\r\n" + ([c] + more));
      EatText(p, s, "\r\n" + ([c] + more), at);
      EatEnd(p, [c] + more, at + |s|);
      Eat(p.(state := Cr), c, more, at + |s| + 2);
      EatLines(p, lines[1..], rest, at + |s| + 3);
    }
  }

  lemma {:induction false} EatEnding(p: Parser, e: Ending, body: string, at: nat)
    requires p.state == Text && LegalEnding(e)
    ensures var r := Run(p, EndingText(e) + body, at);
            r.verdict == Ok && r.pos == at + |EndingText(e)| && r.parser.code == p.code
  {
    hide Run;
    var stop := if e.blank then "\r\n\r\n" else "\n";
    assert EndingText(e) + body == Marks(e.lines, "\r\n") + (e.last + (stop + body));
    EatLines(p, e.lines, e.last + (stop + body), at);
    var n := at + |Marks(e.lines, "\r\n")|;
    EatText(p, e.last, stop + body, n);
    if e.blank {
      assert stop + body == "\r\n" + ("\r\n" + body);
      EatEnd(p, "\r\n" + body, n + |e.last|);
      BlankLine(p.(state := Cr), body, n + |e.last| + 2);
    } else {
      BareLf(p, body, n + |e.last|);
    }
  }

  lemma {:induction false} BareLf(p: Parser, body: string, at: nat)
    requires p.state == Text || p.state == AfterStatus || p.state == AlmostDone
    ensures var r := Run(p, "\n" + body, at); r.verdict == Ok && r.pos == at + 1 && r.parser.code == p.code
  {
    assert ("\n" + body)[0] == '\n';
  }

  lemma {:induction false} EatRest(p: Parser, rest: Rest, body: string, at: nat)
    requires p.state == AfterStatus
    requires rest.More? ==> (rest.sep == ' ' || rest.sep == '.') && LegalEnding(rest.ending)
    ensures var r := Run(p, RestText(rest) + body, at);
            r.verdict == Ok && r.pos == at + |RestText(rest)| && r.parser.code == p.code
  {
    hide Run, LegalEnding, EndingText;
    match rest
    case AtLf => BareLf(p, body, at);
    case AtCrLf => LineEnd(p, body, at);
    case More(sep, e) =>
      assert RestText(rest) + body == [sep] + (EndingText(e) + body);
      Eat(p, sep, EndingText(e) + body, at);
      EatEnding(p.(state := Text), e, body, at + 1);
  }

  lemma {:induction false} LineEnd(p: Parser, body: string, at: nat)
    requires p.state == AfterStatus
    ensures var r := Run(p, "\r\n" + body, at); r.verdict == Ok && r.pos == at + 2 && r.parser.code == p.code
  {
    hide Run;
    assert "\r\n" + body == ['\r'] + ("\n" + body);
    Eat(p, '\r', "\n" + body, at);
    BareLf(p.(state := AlmostDone), body, at + 1);
  }

  // Every legal response is accepted, with its code and the position just after it.
  lemma {:induction false} LegalAccepted(x: Response, body: string)
    requires Legal(x)
    ensures var r := Run(FRESH, ResponseText(x) + body, 0);
            r.verdict == Ok && r.pos == |ResponseText(x)| && r.parser.code == Value(0, x.code)
  {
    hide Run, Next, Marks, RestText, Value;
    var r4 := RestText(x.rest) + body;
    var r3 := Marks(x.code, "") + r4;
    var r2 := x.minor + ([' '] + r3);
    var r1 := x.major + (['.'] + r2);
    assert ResponseText(x) + body == "HTTP/" + r1;
    EatName(r1);
    var p := FRESH;
    EatNumber(p.(state := FirstMajor), x.major, ['.'] + r2, 5);
    var n := 5 + |x.major|;
    Dot(p.(state := Major), r2, n);
    EatNumber(p.(state := FirstMinor), x.minor, [' '] + r3, n + 1);
    n := n + 1 + |x.minor|;
    Space(p.(state := Minor), r3, n);
    EatMarks(p.(state := Status), x.code, r4, n + 1);
    n := n + 1 + |Marks(x.code, "")|;
    EatRest(Parser(AfterStatus, Value(0, x.code), 3, Some(n - 3), None), x.rest, body, n);
  }

  lemma {:induction false} Dot(p: Parser, rest: string, at: nat)
    requires p.state == Major
    ensures Run(p, ['.'] + rest, at) == Run(p.(state := FirstMinor), rest, at + 1)
  {
    Eat(p, '.', rest, at);
  }

  lemma {:induction false} Space(p: Parser, rest: string, at: nat)
    requires p.state == Minor
    ensures Run(p, [' '] + rest, at) == Run(p.(state := Status), rest, at + 1)
  {
    Eat(p, ' ', rest, at);
  }

  // One step back from acceptance.
  lemma {:induction false} Uneat(p: Parser, data: string, at: nat)
    requires p.state != Body && Run(p, data, at).verdict == Ok
    ensures data != [] && data == [data[0]] + data[1..] && !Next(p, data[0], at).Fail?
    ensures Next(p, data[0], at).Go? ==> Run(Next(p, data[0], at).parser, data[1..], at + 1).verdict == Ok
  {
  }

  lemma {:induction false} EndingBack(p: Parser, data: string, at: nat) returns (e: Ending, body: string)
    requires p.state == Text && Run(p, data, at).verdict == Ok
    ensures LegalEnding(e) && data == EndingText(e) + body
    decreases |data|
  {
    hide Run;
    Uneat(p, data, at);
    if data[0] == '\n' {
      e, body := Ending([], "", false), data[1..];
    } else if data[0] == '\r' {
      e, body := LineBack(p, data, at);
    } else {
      var f;
      f, body := EndingBack(p, data[1..], at + 1);
      e := Longer(data[0], f);
    }
  }

  // One more character in front.
  lemma {:induction false} Longer(c: char, f: Ending) returns (e: Ending)
    requires c != '\r' && c != '\n' && LegalEnding(f)
    ensures LegalEnding(e) && EndingText(e) == [c] + EndingText(f)
  {
    if f.lines == [] {
      e := f.(last := [c] + f.last);
    } else {
      var line := ([c] + f.lines[0].0, f.lines[0].1);
      e := f.(lines := [line] + f.lines[1..]);
      assert e.lines[1..] == f.lines[1..];
    }
  }

  lemma {:induction false} OneMore(c: char, f: Ending) returns (e: Ending)
    requires c != '\r' && LegalEnding(f)
    ensures LegalEnding(e) && EndingText(e) == "\r\n" + ([c] + EndingText(f))
  {
    e := f.(lines := [("", c)] + f.lines);
    assert e.lines[1..] == f.lines;
    assert Marks(e.lines, "\r\n") == "\r\n" + ([c] + Marks(f.lines, "\r\n"));
  }

  // CR LF, and then an empty line or another line.
  lemma {:induction false} LineBack(p: Parser, data: string, at: nat) returns (e: Ending, body: string)
    requires p.state == Text && data != [] && data[0] == '\r' && Run(p, data, at).verdict == Ok
    ensures LegalEnding(e) && data == EndingText(e) + body
    decreases |data|, 0
  {
    hide Run, LegalEnding, EndingText;
    var more := PairBack(p, data, at);
    Uneat(p.(state := Cr), more, at + 2);
    var c, rest := more[0], more[1..];
    if c == '\r' {
      Uneat(p.(state := AlmostDone), rest, at + 3);
      body := rest[1..];
      e := EmptyLine();
      assert data == "\r\n\r\n" + body;
    } else {
      var f;
      f, body := EndingBack(p, rest, at + 3);
      e := OneMore(c, f);
      assert data == "\r\n" + ([c] + EndingText(f)) + body;
    }
  }

  lemma {:induction false} PairBack(p: Parser, data: string, at: nat) returns (more: string)
    requires p.state == Text && data != [] && data[0] == '\r' && Run(p, data, at).verdict == Ok
    ensures data == "\r\n" + more && Run(p.(state := Cr), more, at + 2).verdict == Ok
  {
    hide Run;
    Uneat(p, data, at);
    Uneat(p.(state := Lf), data[1..], at + 1);
    more := data[2..];
    assert data[1..][1..] == more;
  }

  lemma {:induction false} EmptyLine() returns (e: Ending)
    ensures LegalEnding(e) && EndingText(e) == "\r\n\r\n"
  {
    e := Ending([], "", true);
  }

  lemma {:induction false} RestBack(p: Parser, data: string, at: nat) returns (rest: Rest, body: string)
    requires p.state == AfterStatus && Run(p, data, at).verdict == Ok
    ensures rest.More? ==> (rest.sep == ' ' || rest.sep == '.') && LegalEnding(rest.ending)
    ensures data == RestText(rest) + body
  {
    hide Run, EndingText;
    Uneat(p, data, at);
    if data[0] == '\n' {
      rest, body := AtLf, data[1..];
    } else if data[0] == '\r' {
      Uneat(p.(state := AlmostDone), data[1..], at + 1);
      rest, body := AtCrLf, data[2..];
      assert data == "\r\n" + body;
    } else {
      var e;
      e, body := EndingBack(p.(state := Text), data[1..], at + 1);
      rest := More(data[0], e);
    }
  }

  lemma {:induction false} CodeBack(p: Parser, data: string, at: nat) returns (code: seq<(string, char)>, more: string)
    requires p.state == Status && p.count < 3 && Run(p, data, at).verdict == Ok
    ensures p.count + |code| == 3 && LegalCode(code) && data == Marks(code, "") + more
    ensures exists q: Parser, n: nat :: q.state == AfterStatus && Run(q, more, n).verdict == Ok
    decreases |data|
  {
    hide Run, LegalCode, Marks;
    NoDigits();
    Uneat(p, data, at);
    var q := Next(p, data[0], at).parser;
    if data[0] == ' ' {
      code, more := CodeBack(p, data[1..], at + 1);
      code := OneBlank(code);
    } else if p.count == 2 {
      more := data[1..];
      code := OneDigit(data[0], []);
      assert q.state == AfterStatus && Run(q, more, at + 1).verdict == Ok;
    } else {
      code, more := CodeBack(q, data[1..], at + 1);
      code := OneDigit(data[0], code);
    }
  }

  lemma {:induction false} NoDigits()
    ensures LegalCode([]) && Marks([], "") == ""
  {
  }

  lemma {:induction false} OneBlank(code: seq<(string, char)>) returns (code': seq<(string, char)>)
    requires code != [] && LegalCode(code)
    ensures |code'| == |code| && LegalCode(code') && Marks(code', "") == [' '] + Marks(code, "")
  {
    code' := [([' '] + code[0].0, code[0].1)] + code[1..];
    assert code'[1..] == code[1..];
  }

  lemma {:induction false} OneDigit(d: char, code: seq<(string, char)>) returns (code': seq<(string, char)>)
    requires IsDigit(d) && LegalCode(code)
    ensures |code'| == 1 + |code| && LegalCode(code') && Marks(code', "") == [d] + Marks(code, "")
  {
    code' := [("", d)] + code;
    assert code'[1..] == code;
  }

  lemma {:induction false} DigitsBack(p: Parser, data: string, at: nat) returns (s: string, more: string)
    requires (p.state == Major || p.state == Minor) && Run(p, data, at).verdict == Ok
    ensures forall i | 0 <= i < |s| :: IsDigit(s[i])
    ensures data == s + ([if p.state == Major then '.' else ' '] + more)
    ensures Run(p.(state := if p.state == Major then FirstMinor else Status), more, at + |s| + 1).verdict == Ok
    decreases |data|
  {
    hide Run;
    Uneat(p, data, at);
    if data[0] == (if p.state == Major then '.' else ' ') {
      s, more := "", data[1..];
    } else {
      s, more := DigitsBack(p, data[1..], at + 1);
      s := [data[0]] + s;
    }
  }

  lemma {:induction false} NumberBack(p: Parser, data: string, at: nat) returns (s: string, more: string)
    requires (p.state == FirstMajor || p.state == FirstMinor) && Run(p, data, at).verdict == Ok
    ensures Digits(s) && (p.state == FirstMajor ==> s[0] != '0')
    ensures data == s + ([if p.state == FirstMajor then '.' else ' '] + more)
    ensures Run(p.(state := if p.state == FirstMajor then FirstMinor else Status), more, at + |s| + 1).verdict == Ok
  {
    hide Run;
    Uneat(p, data, at);
    s, more := DigitsBack(p.(state := if p.state == FirstMajor then Major else Minor), data[1..], at + 1);
    s := [data[0]] + s;
  }

  lemma {:induction false} NameBack(data: string) returns (more: string)
    requires Run(FRESH, data, 0).verdict == Ok
    ensures data == "HTTP/" + more && Run(FRESH.(state := FirstMajor), more, 5).verdict == Ok
  {
    hide Run;
    Uneat(FRESH, data, 0);
    var d1 := data[1..];
    Uneat(FRESH.(state := H), d1, 1);
    var d2 := d1[1..];
    Uneat(FRESH.(state := HT), d2, 2);
    var d3 := d2[1..];
    Uneat(FRESH.(state := HTT), d3, 3);
    var d4 := d3[1..];
    Uneat(FRESH.(state := HTTP), d4, 4);
    more := d4[1..];
    assert data == ['H'] + (['T'] + (['T'] + (['P'] + (['/'] + more))));
  }

  lemma {:induction false} AcceptedLegal(data: string) returns (x: Response, body: string)
    requires Run(FRESH, data, 0).verdict == Ok
    ensures Legal(x) && data == ResponseText(x) + body
  {
    hide Run, Next, Marks, RestText;
    var r1 := NameBack(data);
    var p := FRESH;
    var major, r2 := NumberBack(p.(state := FirstMajor), r1, 5);
    var minor, r3 := NumberBack(p.(state := FirstMinor), r2, 6 + |major|);
    var code, r4 := CodeBack(p.(state := Status), r3, 7 + |major| + |minor|);
    var q: Parser, n: nat :| q.state == AfterStatus && Run(q, r4, n).verdict == Ok;
    var rest;
    rest, body := RestBack(q, r4, n);
    x := Response(major, minor, code, rest);
    assert data == ResponseText(x) + body;
  }

  // The accepted responses are exactly those that begin with a legal one.
  lemma {:induction false} AcceptedIff(data: string)
    ensures Run(FRESH, data, 0).verdict == Ok <==> exists x :: Legal(x) && ResponseText(x) <= data
  {
    hide Run, Legal, ResponseText;
    if Run(FRESH, data, 0).verdict == Ok {
      var x, body := AcceptedLegal(data);
      assert Legal(x) && ResponseText(x) <= data;
    }
    if x :| Legal(x) && ResponseText(x) <= data {
      LegalAccepted(x, data[|ResponseText(x)|..]);
      assert data == ResponseText(x) + data[|ResponseText(x)|..];
    }
  }
}
