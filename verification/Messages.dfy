/** RTSP and HTTP messages: `tcp_send_pmsg` prints a response (tcp.c), `parse_pmsg` reads a message back
    (pmsg.c). A pointer into the message stands for the string it points at. */
module Messages {
  import opened Numbers
  import SendBuffer

  const SP: byte := 0x20
  const TAB: byte := 0x09
  const CR: byte := 0x0D
  const LF: byte := 0x0A
  const COLON: byte := 0x3A
  const SLASH: byte := 0x2F
  const MAX_FIELDS: int := 32

  datatype Header = Header(name: seq<byte>, value: seq<byte>)

  datatype Start = Response(protocol: seq<byte>, code: nat, reason: seq<byte>)
                 | Request(verb: seq<byte>, uri: seq<byte>, protocol: seq<byte>)

  // ---------------------------------------------------------------- printing

  function Digit(n: nat): byte
    requires n < 10
  {
    0x30 + n
  }

  /** `%d` of a number that is not negative. */
  function Decimal(n: nat): seq<byte> {
    if n < 10 then [Digit(n)] else Decimal(n / 10) + [Digit(n % 10)]
  }

  const NEWLINE: seq<byte> := [CR, LF]

  function StatusLine(protocol: seq<byte>, code: nat, reason: seq<byte>): seq<byte> {
    protocol + [SP] + Decimal(code) + [SP] + reason + NEWLINE
  }

  function HeaderLine(h: Header): seq<byte> { h.name + [COLON, SP] + h.value + NEWLINE }

  function HeaderLines(hs: seq<Header>): seq<byte> {
    if hs == [] then [] else HeaderLine(hs[0]) + HeaderLines(hs[1..])
  }

  const CONTENT_LENGTH: seq<byte> :=
    [0x43, 0x6F, 0x6E, 0x74, 0x65, 0x6E, 0x74, 0x2D, 0x4C, 0x65, 0x6E, 0x67, 0x74, 0x68]

  /** The headers as printed: one more when the length of a body is given. */
  function AllHeaders(hs: seq<Header>, len: int): seq<Header> {
    if len >= 0 then hs + [Header(CONTENT_LENGTH, Decimal(len))] else hs
  }

  function Printed(protocol: seq<byte>, code: nat, reason: seq<byte>, hs: seq<Header>, len: int): seq<byte> {
    StatusLine(protocol, code, reason) + HeaderLines(AllHeaders(hs, len)) + NEWLINE
  }

  lemma {:induction false} HeaderLinesJoin(s: seq<Header>, t: seq<Header>)
    ensures HeaderLines(s + t) == HeaderLines(s) + HeaderLines(t)
  {
    hide HeaderLine;
    if s == [] {
      assert s + t == t;
    } else {
      HeaderLinesJoin(s[1..], t);
      assert (s + t)[0] == s[0] && (s + t)[1..] == s[1..] + t;
    }
  }

  /** `tcp_send_pmsg`, up to the buffer it fills. */
  method PrintResponse(start: Start, headers: seq<Header>, len: int) returns (buf: seq<byte>)
    requires start.Response?
    ensures buf == Printed(start.protocol, start.code, start.reason, headers, len)
  {
    hide HeaderLines;
    buf := StatusLine(start.protocol, start.code, start.reason);
    ghost var line := buf;
    NoLines(headers);
    for f := 0 to |headers|
      invariant buf == line + HeaderLines(headers[..f])
    {
      LineMore(headers[..f], headers[f]);
      assert headers[..f + 1] == headers[..f] + [headers[f]];
      buf := buf + headers[f].name + [COLON, SP] + headers[f].value + NEWLINE;
    }
    assert headers[..|headers|] == headers;
    if len >= 0 {
      LineMore(headers, Header(CONTENT_LENGTH, Decimal(len)));
      buf := buf + CONTENT_LENGTH + [COLON, SP] + Decimal(len) + NEWLINE + NEWLINE;
    } else {
      buf := buf + NEWLINE;
    }
  }

  const BUFFER: int := 2048   // on the stack of tcp_send_pmsg

  /** `tcp_send_pmsg`: the response is queued as a whole, when the body fits behind it, or not at all. */
  method SendMessage(c: SendBuffer.Connection, start: Start, headers: seq<Header>, len: int) returns (failed: bool)
    requires c.Valid()
    requires start.Response? ==> |Printed(start.protocol, start.code, start.reason, headers, len)| < BUFFER
    modifies c`sendBufW, c.sendBuf
    ensures c.Valid()
    ensures failed <==>
            (!start.Response? ||
             |old(c.Waiting())| + |Printed(start.protocol, start.code, start.reason, headers, len)| + Max(len, 0) >= c.sendBuf.Length)
    ensures c.Waiting() == if failed then old(c.Waiting())
                           else old(c.Waiting()) + Printed(start.protocol, start.code, start.reason, headers, len)
  {
    hide Printed, SendBuffer.Connection.Waiting;
    if !start.Response? { return true; }
    var buf := PrintResponse(start, headers, len);
    var available := c.Available();
    if available < |buf| + Max(len, 0) { return true; }
    var refused := c.SendData(buf);
    failed := false;
  }

  lemma NoLines(hs: seq<Header>)
    ensures HeaderLines(hs[..0]) == []
  {
  }

  lemma LineMore(hs: seq<Header>, h: Header)
    ensures HeaderLines(hs + [h]) == HeaderLines(hs) + h.name + [COLON, SP] + h.value + NEWLINE
  {
    HeaderLinesJoin(hs, [h]);
    assert HeaderLines([h]) == HeaderLine(h) + HeaderLines([]) == HeaderLine(h);
  }

  // ---------------------------------------------------------------- parsing

  /** What may end a word: two characters, or the end of the line. */
  predicate Ends(c: byte, a: byte, b: byte) { c == a || c == b || c == CR || c == LF }

  /** `delim`, from `i` on. */
  function Delim(d: seq<byte>, i: nat, a: byte, b: byte): (e: nat)
    requires i <= |d|
    ensures i <= e <= |d|
    decreases |d| - i
  {
    if i == |d| || Ends(d[i], a, b) then i else Delim(d, i + 1, a, b)
  }

  /** Blanks are skipped; the index may be just past the end. */
  function Skip(d: seq<byte>, i: nat, tabs: bool): (e: nat)
    ensures i <= e && (i <= |d| ==> e <= |d|)
    decreases |d| - i
  {
    if i < |d| && (d[i] == SP || (tabs && d[i] == TAB)) then Skip(d, i + 1, tabs) else i
  }

  /** The first space or slash. */
  function FirstWord(d: seq<byte>, i: nat): (e: nat)
    requires i <= |d|
    ensures i <= e <= |d|
    decreases |d| - i
  {
    if i < |d| && d[i] != SP && d[i] != SLASH then FirstWord(d, i + 1) else i
  }

  predicate IsDigit(c: byte) { 0x30 <= c <= 0x39 }

  function DigitValue(c: byte): nat
    requires IsDigit(c)
  {
    c - 0x30
  }

  datatype Maybe<T> = None | Some(value: T)

  /** The rest of the first line, whose end was overwritten: only its line feed is left. */
  function EndOfLine(d: seq<byte>, i: nat): (r: Maybe<nat>)
    ensures r.Some? ==> i < r.value <= |d|
  {
    var j := Skip(d, i, false);
    var k := if j < |d| && d[j] == CR then j + 1 else j;
    if k >= |d| || d[k] != LF then None else Some(k + 1)
  }

  /** Three digits and a space. */
  predicate HasCode(d: seq<byte>, c: nat) {
    c + 4 <= |d| && IsDigit(d[c]) && IsDigit(d[c + 1]) && IsDigit(d[c + 2]) && d[c + 3] == SP
  }

  function CodeAt(d: seq<byte>, c: nat): nat
    requires HasCode(d, c)
  {
    DigitValue(d[c]) * 100 + DigitValue(d[c + 1]) * 10 + DigitValue(d[c + 2])
  }

  /** A response: the protocol, three digits, and the reason. */
  function ParseResponse(d: seq<byte>): (r: Maybe<(Start, nat)>)
    ensures r.Some? ==> r.value.1 <= |d|
  {
    var p := Delim(d, 0, SP, 0);
    if p >= |d| || d[p] != SP then None
    else
      var c := Skip(d, p + 1, false);
      if !HasCode(d, c) then None
      else
        var code := CodeAt(d, c);
        var r := Skip(d, c + 4, false);
        var e := Delim(d, r, 0, 0);
        match EndOfLine(d, e + 1)
        case None => None
        case Some(i) => Some((Response(d[..p], code, d[r..e]), i))
  }

  /** A request: the method, the URI and the protocol. */
  function ParseRequest(d: seq<byte>): (r: Maybe<(Start, nat)>)
    ensures r.Some? ==> r.value.1 <= |d|
  {
    var m := Delim(d, 0, SP, 0);
    if m >= |d| || d[m] != SP then None
    else
      var u := Skip(d, m + 1, false);
      var v := Delim(d, u, SP, 0);
      if v >= |d| || d[v] != SP then None
      else
        var p := Skip(d, v + 1, false);
        var e := Delim(d, p, 0, 0);
        match EndOfLine(d, e + 1)
        case None => None
        case Some(i) => Some((Request(d[..m], d[u..v], d[p..e]), i))
  }

  /** The first line: what it says, and where the next one begins. */
  function ParseStart(d: seq<byte>): (r: Maybe<(Start, nat)>)
    ensures r.Some? ==> r.value.1 <= |d|
  {
    if |d| < 4 then None
    else
      var slash := FirstWord(d, 0);
      if slash == |d| then None
      else if d[slash] == SLASH then ParseResponse(d)
      else ParseRequest(d)
  }

  /** `TooMany`: more headers than a message has room for. */
  datatype Headers = Fields(headers: seq<Header>, end: nat) | Malformed | TooMany

  /** One header line: the header, and where the next line begins. */
  function ParseHeader(d: seq<byte>, i: nat): (r: Maybe<(Header, nat)>)
    requires i < |d|
    ensures r.Some? ==> i + 1 < r.value.1 <= |d|
  {
    var n := Delim(d, i, SP, COLON);
    if n >= |d| then None
    else
      var c := if d[n] == SP then Skip(d, n + 1, false) else n;
      if c >= |d| || d[c] != COLON then None
      else
        var v := Skip(d, c + 1, true);
        var e := Delim(d, v, 0, 0);
        if e + 1 >= |d| || d[e + 1] != LF then None
        else Some((Header(d[i..n], d[v..e]), e + 2))
  }

  function ParseHeaders(d: seq<byte>, i: nat, count: nat): Headers
    requires i <= |d|
    decreases |d| - i
  {
    var j := if i < |d| && d[i] == CR then i + 1 else i;
    if j == |d| then Fields([], |d|)
    else if d[j] == LF then Fields([], j + 1)
    else if d[j] == TAB || d[j] == SP then Malformed
    else if count >= MAX_FIELDS then TooMany
    else
      match ParseHeader(d, j)
      case None => Malformed
      case Some(p) =>
        Behind([p.0], ParseHeaders(d, p.1, count + 1))
  }

  datatype Message = Message(start: Start, headers: seq<Header>, end: nat) | Refused | Overflow

  /** `parse_pmsg`. `Overflow` stands for the write past the last field that the code does not check. */
  function Parse(d: seq<byte>): Message {
    match ParseStart(d)
    case None => Refused
    case Some(p) =>
      match ParseHeaders(d, p.1, 0)
      case Fields(hs, end) => Message(p.0, hs, end)
      case Malformed => Refused
      case TooMany => Overflow
  }

  // ---------------------------------------------------------------- parsing in place

  /** A message in its buffer. Found strings are ended by a NUL that is written behind them; `text` is the
      message as it came. */
  class Buffer {
    const d: array<byte>
    const len: nat

    constructor (d: array<byte>, len: nat)
      ensures this.d == d && this.len == len
    {
      this.d, this.len := d, len;
    }

    /** What lies from `i` on is still as it came. */
    ghost predicate Unread(text: seq<byte>, i: nat)
      reads d
    {
      |text| == len <= d.Length && forall k :: i <= k < len ==> d[k] == text[k]
    }

    /** `delim`. */
    method FindDelim(i: nat, a: byte, b: byte, ghost text: seq<byte>) returns (s: nat)
      requires i <= len && Unread(text, i)
      ensures s == Delim(text, i, a, b) && d[i..s] == text[i..s]
    {
      s := i;
      while s < len
        invariant i <= s <= len && Delim(text, i, a, b) == Delim(text, s, a, b)
      {
        if Ends(d[s], a, b) { return; }
        s := s + 1;
      }
    }

    method SkipBlanks(i: nat, tabs: bool, ghost text: seq<byte>) returns (j: nat)
      requires Unread(text, i)
      ensures j == Skip(text, i, tabs)
    {
      j := i;
      while j < len && (d[j] == SP || (tabs && d[j] == TAB))
        invariant i <= j && Skip(text, i, tabs) == Skip(text, j, tabs)
      {
        j := j + 1;
      }
    }

    /** `d[i++] = 0`, inside the message. */
    method EndString(i: nat, ghost text: seq<byte>)
      requires Unread(text, i)
      modifies d
      ensures Unread(text, i + 1)
    {
      if i < len { d[i] := 0; }
    }

    method FinishLine(i: nat, ghost text: seq<byte>) returns (r: Maybe<nat>)
      requires Unread(text, i)
      ensures r == EndOfLine(text, i)
    {
      var j := SkipBlanks(i, false, text);
      if j < len && d[j] == CR { j := j + 1; }
      if j >= len || d[j] != LF { return None; }
      r := Some(j + 1);
    }

    method ReadCode(i: nat, ghost text: seq<byte>) returns (ok: bool, code: nat)
      requires Unread(text, i)
      ensures ok == HasCode(text, i) && (ok ==> i + 4 <= len && code == CodeAt(text, i))
    {
      ok, code := len - i >= 4 && IsDigit(d[i]) && IsDigit(d[i + 1]) && IsDigit(d[i + 2]) && d[i + 3] == SP, 0;
      if ok { code := DigitValue(d[i]) * 100 + DigitValue(d[i + 1]) * 10 + DigitValue(d[i + 2]); }
    }

    method ReadResponse(ghost text: seq<byte>) returns (r: Maybe<(Start, nat)>)
      requires Unread(text, 0)
      modifies d
      ensures r == ParseResponse(text) && (r.Some? ==> Unread(text, r.value.1))
    {
      hide Delim, Skip, EndOfLine, HasCode, CodeAt;
      var i := FindDelim(0, SP, 0, text);
      if i >= len || d[i] != SP { return None; }
      var protocol := d[0..i];
      EndString(i, text);
      i := SkipBlanks(i + 1, false, text);
      var coded, code := ReadCode(i, text);
      if !coded { return None; }
      i := SkipBlanks(i + 4, false, text);
      var e := FindDelim(i, 0, 0, text);
      var reason := d[i..e];
      EndString(e, text);
      var end := FinishLine(e + 1, text);
      match end
      case None => r := None;
      case Some(next) => r := Some((Response(protocol, code, reason), next));
    }

    method ReadRequest(ghost text: seq<byte>) returns (r: Maybe<(Start, nat)>)
      requires Unread(text, 0)
      modifies d
      ensures r == ParseRequest(text) && (r.Some? ==> Unread(text, r.value.1))
    {
      hide Delim, Skip, EndOfLine;
      var i := FindDelim(0, SP, 0, text);
      if i >= len || d[i] != SP { return None; }
      var verb := d[0..i];
      EndString(i, text);
      i := SkipBlanks(i + 1, false, text);
      var v := FindDelim(i, SP, 0, text);
      var uri := d[i..v];
      if v >= len || d[v] != SP { return None; }
      EndString(v, text);
      i := SkipBlanks(v + 1, false, text);
      var e := FindDelim(i, 0, 0, text);
      var protocol := d[i..e];
      EndString(e, text);
      var end := FinishLine(e + 1, text);
      match end
      case None => r := None;
      case Some(next) => r := Some((Request(verb, uri, protocol), next));
    }

    method ReadHeader(i: nat, ghost text: seq<byte>) returns (r: Maybe<(Header, nat)>)
      requires i < len && Unread(text, i)
      modifies d
      ensures r == ParseHeader(text, i) && (r.Some? ==> Unread(text, r.value.1))
    {
      hide Delim, Skip;
      var n := FindDelim(i, SP, COLON, text);
      if n >= len { return None; }
      var name, c := d[i..n], n;
      if d[n] == SP {
        EndString(n, text);
        c := SkipBlanks(n + 1, false, text);
      }
      if c >= len || d[c] != COLON { return None; }
      EndString(c, text);
      var v := SkipBlanks(c + 1, true, text);
      var e := FindDelim(v, 0, 0, text);
      var value := d[v..e];
      EndString(e, text);
      if e + 1 >= len || d[e + 1] != LF { return None; }
      r := Some((Header(name, value), e + 2));
    }

    /** The header lines, up to an empty line or the end of the message. */
    method ReadHeaders(i0: nat, ghost text: seq<byte>) returns (r: Headers)
      requires i0 <= len && Unread(text, i0)
      modifies d
      ensures r == ParseHeaders(text, i0, 0)
    {
      hide ParseHeader;
      var i, fields := i0, [];
      while true
        invariant i <= len && Unread(text, i)
        invariant ParseHeaders(text, i0, 0) == Behind(fields, ParseHeaders(text, i, |fields|))
        decreases len - i
      {
        if i < len && d[i] == CR { i := i + 1; }
        if i == len { return Fields(fields, len); }
        if d[i] == LF { return Fields(fields, i + 1); }
        if d[i] == TAB || d[i] == SP { return Malformed; }
        if |fields| >= MAX_FIELDS { return TooMany; }
        var p := ReadHeader(i, text);
        match p {
          case None => return Malformed;
          case Some(h) =>
            BehindOneMore(fields, h.0, ParseHeaders(text, h.1, |fields| + 1));
            fields, i := fields + [h.0], h.1;
        }
      }
    }

    /** `parse_pmsg`. */
    method ParseMessage() returns (m: Message)
      requires len <= d.Length
      modifies d
      ensures m == Parse(old(d[..len]))
    {
      hide ParseResponse, ParseRequest, ParseHeaders;
      ghost var text := d[..len];
      if len < 4 { return Refused; }
      var slash := 0;
      while slash < len && d[slash] != SP && d[slash] != SLASH
        invariant slash <= len && FirstWord(text, 0) == FirstWord(text, slash)
      {
        slash := slash + 1;
      }
      if slash == len { return Refused; }
      var start;
      if d[slash] == SLASH { start := ReadResponse(text); } else { start := ReadRequest(text); }
      match start {
        case None => return Refused;
        case Some(p) =>
          var headers := ReadHeaders(p.1, text);
          match headers {
            case Fields(hs, end) => return Message(p.0, hs, end);
            case Malformed => return Refused;
            case TooMany => return Overflow;
          }
      }
    }
  }

  /** Headers found before the others. */
  function Behind(fields: seq<Header>, rest: Headers): Headers {
    match rest
    case Fields(hs, end) => Fields(fields + hs, end)
    case other => other
  }

  lemma BehindOneMore(fields: seq<Header>, h: Header, rest: Headers)
    ensures Behind(fields, Behind([h], rest)) == Behind(fields + [h], rest)
  {
    if rest.Fields? { assert fields + ([h] + rest.headers) == (fields + [h]) + rest.headers; }
  }

  // ---------------------------------------------------------------- the round trip

  /** A string with no end of line in it, nor the NUL that would end it. */
  predicate Plain(s: seq<byte>) { forall k :: 0 <= k < |s| ==> s[k] != CR && s[k] != LF && s[k] != 0 }

  predicate WellFormed(h: Header) {
    && Plain(h.name) && h.name != [] && h.name[0] != TAB
    && (forall k :: 0 <= k < |h.name| ==> h.name[k] != SP && h.name[k] != COLON)
    && Plain(h.value) && (h.value != [] ==> h.value[0] != SP && h.value[0] != TAB)
  }

  /** Section 7.1 of RFC 2326: the protocol and its version, with a slash between them, three digits, and
      a reason. */
  predicate WellFormedStatus(protocol: seq<byte>, code: nat, reason: seq<byte>) {
    && Plain(protocol) && SLASH in protocol && SP !in protocol && 100 <= code < 1000
    && Plain(reason) && (reason != [] ==> reason[0] != SP)
  }

  lemma {:induction false} DelimIs(d: seq<byte>, i: nat, a: byte, b: byte, e: nat)
    requires i <= e < |d| && Ends(d[e], a, b) && forall k :: i <= k < e ==> !Ends(d[k], a, b)
    ensures Delim(d, i, a, b) == e
    decreases e - i
  {
    if i < e { DelimIs(d, i + 1, a, b, e); }
  }

  lemma {:induction false} FirstWordIs(d: seq<byte>, i: nat, s: nat)
    requires i <= s < |d| && d[s] == SLASH && forall k :: i <= k < s ==> d[k] != SP
    ensures FirstWord(d, i) < |d| && d[FirstWord(d, i)] == SLASH
    decreases s - i
  {
    if d[i] != SLASH { FirstWordIs(d, i + 1, s); }
  }

  /** A string lies at a place of the text. */
  ghost predicate At(d: seq<byte>, i: nat, s: seq<byte>) {
    i + |s| <= |d| && forall k :: i <= k < i + |s| ==> d[k] == s[k - i]
  }

  lemma AtJoin(d: seq<byte>, i: nat, s: seq<byte>, t: seq<byte>)
    requires At(d, i, s + t)
    ensures At(d, i, s) && At(d, i + |s|, t)
  {
    forall k | i <= k < i + |s| ensures d[k] == s[k - i] { assert d[k] == (s + t)[k - i]; }
    forall k | i + |s| <= k < i + |s| + |t| ensures d[k] == t[k - (i + |s|)] { assert d[k] == (s + t)[k - i]; }
  }

  lemma AtSlice(d: seq<byte>, i: nat, s: seq<byte>)
    requires At(d, i, s)
    ensures i + |s| <= |d| && d[i..i + |s|] == s
    ensures forall k :: i <= k < i + |s| ==> d[k] == s[k - i]
  {
  }

  lemma AtTwo(d: seq<byte>, i: nat, a: byte, b: byte)
    requires At(d, i, [a, b])
    ensures i + 2 <= |d| && d[i] == a && d[i + 1] == b
  {
    assert d[i] == [a, b][0] && d[i + 1] == [a, b][1];
  }

  lemma AtOne(d: seq<byte>, i: nat, a: byte)
    requires At(d, i, [a])
    ensures i < |d| && d[i] == a
  {
    assert d[i] == [a][0];
  }

  /** A name that stands before its end is found as a whole. */
  lemma WordFound(d: seq<byte>, i: nat, s: seq<byte>, a: byte, b: byte)
    requires At(d, i, s) && i + |s| < |d| && Ends(d[i + |s|], a, b) && forall k :: 0 <= k < |s| ==> !Ends(s[k], a, b)
    ensures Delim(d, i, a, b) == i + |s| && d[i..i + |s|] == s
  {
    AtSlice(d, i, s);
    DelimIs(d, i, a, b, i + |s|);
  }

  lemma AtStart(d: seq<byte>, i: nat, s: seq<byte>)
    requires At(d, i, s)
    ensures i + |s| <= |d| && forall k :: 0 <= k < |s| && k < 3 ==> d[i + k] == s[k]
  {
    forall k | 0 <= k < |s| && k < 3 ensures d[i + k] == s[k] { assert s[(i + k) - i] == s[k]; }
  }

  /** The parts of a header line, found one after the other. */
  lemma HeaderParts(d: seq<byte>, i: nat, h: Header)
    requires At(d, i, HeaderLine(h))
    ensures var n, e := i + |h.name|, i + |h.name| + 2 + |h.value|;
            && i + |HeaderLine(h)| == e + 2 <= |d| && At(d, i, h.name) && At(d, n + 2, h.value)
            && d[n] == COLON && d[n + 1] == SP && d[e] == CR && d[e + 1] == LF
  {
    hide At;
    AtJoin(d, i, h.name + [COLON, SP] + h.value, NEWLINE);
    AtJoin(d, i, h.name + [COLON, SP], h.value);
    AtJoin(d, i, h.name, [COLON, SP]);
    AtTwo(d, i + |h.name|, COLON, SP);
    AtTwo(d, i + |h.name| + 2 + |h.value|, CR, LF);
  }

  lemma HeaderReadBack(d: seq<byte>, i: nat, h: Header)
    requires WellFormed(h) && At(d, i, HeaderLine(h))
    ensures i < |d| && ParseHeader(d, i) == Some((h, i + |HeaderLine(h)|))
    ensures d[i] != CR && d[i] != LF && d[i] != SP && d[i] != TAB
  {
    hide At;
    HeaderParts(d, i, h);
    hide HeaderLine;
    var n := i + |h.name|;
    var v := n + 2;
    AtStart(d, i, h.name);
    AtStart(d, v, h.value);
    assert d[i + 0] == h.name[0] && (h.value != [] ==> d[v + 0] == h.value[0]);
    WordFound(d, i, h.name, SP, COLON);
    assert Skip(d, n + 1, true) == Skip(d, v, true) == v;
    WordFound(d, v, h.value, 0, 0);
  }

  lemma NoHeaderLeft(d: seq<byte>, i: nat, count: nat)
    requires At(d, i, NEWLINE) && |d| == i + 2
    ensures ParseHeaders(d, i, count) == Fields([], |d|)
  {
    AtTwo(d, i, CR, LF);
  }

  lemma OneHeaderMore(d: seq<byte>, i: nat, h: Header, j: nat, rest: Headers, count: nat)
    requires i < |d| && d[i] != CR && d[i] != LF && d[i] != SP && d[i] != TAB
    requires ParseHeader(d, i) == Some((h, j)) && j <= |d| && ParseHeaders(d, j, count + 1) == rest
    ensures ParseHeaders(d, i, count) == if count >= MAX_FIELDS then TooMany else Behind([h], rest)
  {
    hide ParseHeader;
  }

  /** The header lines are read back if there is room for all of them, and run over the last field if not. */
  lemma {:induction false} HeadersReadBack(d: seq<byte>, i: nat, hs: seq<Header>, count: nat)
    requires At(d, i, HeaderLines(hs) + NEWLINE) && |d| == i + |HeaderLines(hs) + NEWLINE| && count <= MAX_FIELDS + 1
    requires forall k :: 0 <= k < |hs| ==> WellFormed(hs[k])
    ensures ParseHeaders(d, i, count) == if hs != [] && count + |hs| > MAX_FIELDS then TooMany else Fields(hs, |d|)
    decreases |hs|
  {
    hide WellFormed, HeaderLine, ParseHeader, ParseHeaders, At;
    if hs == [] {
      assert HeaderLines(hs) + NEWLINE == NEWLINE;
      NoHeaderLeft(d, i, count);
    } else {
      var line, rest := HeaderLine(hs[0]), HeaderLines(hs[1..]) + NEWLINE;
      assert HeaderLines(hs) + NEWLINE == line + rest;
      AtJoin(d, i, line, rest);
      HeaderReadBack(d, i, hs[0]);
      OneHeaderMore(d, i, hs[0], i + |line|, ParseHeaders(d, i + |line|, count + 1), count);
      if count <= MAX_FIELDS { HeadersReadBack(d, i + |line|, hs[1..], count + 1); }
      assert hs == [hs[0]] + hs[1..];
    }
  }

  /** The number that a string of digits stands for. */
  function Number(s: seq<byte>): nat {
    if s == [] then 0 else 10 * Number(s[..|s| - 1]) + if IsDigit(s[|s| - 1]) then DigitValue(s[|s| - 1]) else 0
  }

  /** The digits printed spell the number, with no zero in front. */
  lemma {:induction false} DecimalSpells(n: nat)
    ensures var d := Decimal(n);
            && Number(d) == n && d != [] && (n > 0 ==> d[0] != 0x30) && (n == 0 ==> |d| == 1)
            && forall k :: 0 <= k < |d| ==> IsDigit(d[k])
  {
    if n < 10 {
      assert [Digit(n)][..0] == [];
    } else {
      DecimalSpells(n / 10);
      assert Decimal(n)[..|Decimal(n)| - 1] == Decimal(n / 10);
    }
  }

  /** Three digits are printed and read back. */
  lemma CodeReadBack(code: nat)
    requires 100 <= code < 1000
    ensures var c := Decimal(code);
            && |c| == 3 && IsDigit(c[0]) && IsDigit(c[1]) && IsDigit(c[2])
            && DigitValue(c[0]) * 100 + DigitValue(c[1]) * 10 + DigitValue(c[2]) == code
  {
    assert Decimal(code / 100) == [Digit(code / 100)];
    assert Decimal(code / 10) == Decimal(code / 10 / 10) + [Digit(code / 10 % 10)];
    assert code / 10 / 10 == code / 100;
  }

  lemma {:induction false} DecimalIsPlain(n: nat)
    ensures Plain(Decimal(n)) && |Decimal(n)| > 0 && forall k :: 0 <= k < |Decimal(n)| ==> IsDigit(Decimal(n)[k])
  {
    if n >= 10 { DecimalIsPlain(n / 10); }
  }

  lemma ContentLengthIsWellFormed(len: nat)
    ensures WellFormed(Header(CONTENT_LENGTH, Decimal(len)))
  {
    DecimalIsPlain(len);
  }

  lemma SlashFound(d: seq<byte>, protocol: seq<byte>)
    requires At(d, 0, protocol) && SLASH in protocol && SP !in protocol
    ensures FirstWord(d, 0) < |d| && d[FirstWord(d, 0)] == SLASH
  {
    AtSlice(d, 0, protocol);
    var s :| 0 <= s < |protocol| && protocol[s] == SLASH;
    FirstWordIs(d, 0, s);
  }

  /** The parts of a status line, found one after the other. */
  lemma StatusParts(d: seq<byte>, protocol: seq<byte>, code: nat, reason: seq<byte>)
    requires WellFormedStatus(protocol, code, reason) && At(d, 0, StatusLine(protocol, code, reason))
    ensures var p, c, r := |protocol|, |protocol| + 1, |protocol| + 5;
            var e := r + |reason|;
            && |StatusLine(protocol, code, reason)| == e + 2 <= |d|
            && At(d, 0, protocol) && At(d, c, Decimal(code)) && At(d, r, reason)
            && d[p] == SP && d[c + 3] == SP && d[e] == CR && d[e + 1] == LF
  {
    CodeReadBack(code);
    hide Decimal, At;
    var digits := Decimal(code);
    AtJoin(d, 0, protocol + [SP] + digits + [SP] + reason, NEWLINE);
    AtJoin(d, 0, protocol + [SP] + digits + [SP], reason);
    AtJoin(d, 0, protocol + [SP] + digits, [SP]);
    AtJoin(d, 0, protocol + [SP], digits);
    AtJoin(d, 0, protocol, [SP]);
    AtOne(d, |protocol|, SP);
    AtOne(d, |protocol| + 4, SP);
    AtTwo(d, |protocol| + 5 + |reason|, CR, LF);
  }

  lemma StatusReadBack(d: seq<byte>, protocol: seq<byte>, code: nat, reason: seq<byte>)
    requires WellFormedStatus(protocol, code, reason) && At(d, 0, StatusLine(protocol, code, reason))
    ensures |d| >= 4 && ParseResponse(d) == Some((Response(protocol, code, reason), |StatusLine(protocol, code, reason)|))
  {
    hide At, Decimal;
    StatusParts(d, protocol, code, reason);
    CodeReadBack(code);
    hide StatusLine;
    var p, c, r := |protocol|, |protocol| + 1, |protocol| + 5;
    var e := r + |reason|;
    AtStart(d, c, Decimal(code));
    AtStart(d, r, reason);
    assert d[c + 0] == Decimal(code)[0] && d[c + 1] == Decimal(code)[1] && d[c + 2] == Decimal(code)[2];
    assert reason != [] ==> d[r + 0] == reason[0];
    WordFound(d, 0, protocol, SP, 0);
    assert Skip(d, p + 1, false) == c && Skip(d, c + 4, false) == r;
    WordFound(d, r, reason, 0, 0);
    assert EndOfLine(d, e + 1) == Some(e + 2);
  }

  /** A well-formed response that is printed is read back as it was, with the length of its body as a last
      header, if and only if its headers are no more than a message can hold; if they are more, the parser
      writes past its last field. */
  lemma ResponseReadBack(protocol: seq<byte>, code: nat, reason: seq<byte>, headers: seq<Header>, len: int)
    requires WellFormedStatus(protocol, code, reason)
    requires forall k :: 0 <= k < |headers| ==> WellFormed(headers[k])
    ensures var d := Printed(protocol, code, reason, headers, len);
            Parse(d) == if |AllHeaders(headers, len)| <= MAX_FIELDS
                        then Message(Response(protocol, code, reason), AllHeaders(headers, len), |d|)
                        else Overflow
  {
    var d, line, hs := Printed(protocol, code, reason, headers, len), StatusLine(protocol, code, reason), AllHeaders(headers, len);
    var rest := HeaderLines(hs) + NEWLINE;
    assert d == line + rest;
    LineThenRest(d, protocol, code, reason, rest);
    AllWellFormed(headers, len);
    hide WellFormed, HeaderLines, StatusLine, At, Printed, Decimal, AllHeaders, ParseStart;
    HeadersReadBack(d, |line|, hs, 0);
  }

  lemma AllWellFormed(headers: seq<Header>, len: int)
    requires forall k :: 0 <= k < |headers| ==> WellFormed(headers[k])
    ensures forall k :: 0 <= k < |AllHeaders(headers, len)| ==> WellFormed(AllHeaders(headers, len)[k])
  {
    hide WellFormed;
    if len >= 0 { ContentLengthIsWellFormed(len); }
  }

  lemma LineThenRest(d: seq<byte>, protocol: seq<byte>, code: nat, reason: seq<byte>, rest: seq<byte>)
    requires WellFormedStatus(protocol, code, reason) && d == StatusLine(protocol, code, reason) + rest
    ensures var line := |StatusLine(protocol, code, reason)|;
            ParseStart(d) == Some((Response(protocol, code, reason), line)) && At(d, line, rest)
  {
    var line := StatusLine(protocol, code, reason);
    assert At(d, 0, line + rest);
    AtJoin(d, 0, line, rest);
    hide At, StatusLine, ParseResponse, ParseRequest, Decimal;
    StatusReadBack(d, protocol, code, reason);
    StatusParts(d, protocol, code, reason);
    SlashFound(d, protocol);
  }

  // ---------------------------------------------------------------- requests

  /** Section 6.1 of RFC 2326: the method, the URI and the protocol, with a space between them. */
  function RequestLine(verb: seq<byte>, uri: seq<byte>, protocol: seq<byte>): seq<byte> {
    verb + [SP] + uri + [SP] + protocol + NEWLINE
  }

  predicate WellFormedRequest(verb: seq<byte>, uri: seq<byte>, protocol: seq<byte>) {
    && Plain(verb) && SP !in verb && SLASH !in verb && Plain(uri) && uri != [] && SP !in uri
    && Plain(protocol) && (protocol != [] ==> protocol[0] != SP)
  }

  lemma {:induction false} SpaceFirst(d: seq<byte>, i: nat, s: nat)
    requires i <= s < |d| && d[s] == SP && forall k :: i <= k < s ==> d[k] != SP && d[k] != SLASH
    ensures FirstWord(d, i) == s
    decreases s - i
  {
    if i < s { SpaceFirst(d, i + 1, s); }
  }

  /** The parts of a request line, found one after the other. */
  lemma RequestParts(d: seq<byte>, verb: seq<byte>, uri: seq<byte>, protocol: seq<byte>)
    requires At(d, 0, RequestLine(verb, uri, protocol))
    ensures var m, v, e := |verb|, |verb| + 1 + |uri|, |verb| + 2 + |uri| + |protocol|;
            && |RequestLine(verb, uri, protocol)| == e + 2 <= |d|
            && At(d, 0, verb) && At(d, m + 1, uri) && At(d, v + 1, protocol)
            && d[m] == SP && d[v] == SP && d[e] == CR && d[e + 1] == LF
  {
    hide At;
    AtJoin(d, 0, verb + [SP] + uri + [SP] + protocol, NEWLINE);
    AtJoin(d, 0, verb + [SP] + uri + [SP], protocol);
    AtJoin(d, 0, verb + [SP] + uri, [SP]);
    AtJoin(d, 0, verb + [SP], uri);
    AtJoin(d, 0, verb, [SP]);
    AtOne(d, |verb|, SP);
    AtOne(d, |verb| + 1 + |uri|, SP);
    AtTwo(d, |verb| + 2 + |uri| + |protocol|, CR, LF);
  }

  lemma SpaceEnds(d: seq<byte>, i: nat, s: seq<byte>)
    requires At(d, i, s) && i + |s| < |d| && d[i + |s|] == SP && Plain(s) && SP !in s
    ensures Delim(d, i, SP, 0) == i + |s| && d[i..i + |s|] == s
  {
    hide At;
    assert forall k :: 0 <= k < |s| ==> s[k] in s;
    WordFound(d, i, s, SP, 0);
  }

  lemma LineEnds(d: seq<byte>, i: nat, s: seq<byte>)
    requires At(d, i, s) && i + |s| < |d| && d[i + |s|] == CR && Plain(s)
    ensures Delim(d, i, 0, 0) == i + |s| && d[i..i + |s|] == s
  {
    hide At;
    WordFound(d, i, s, 0, 0);
  }

  lemma VerbEnds(d: seq<byte>, verb: seq<byte>)
    requires At(d, 0, verb) && |verb| < |d| && d[|verb|] == SP && SP !in verb && SLASH !in verb
    ensures FirstWord(d, 0) == |verb|
  {
    AtSlice(d, 0, verb);
    assert forall k :: 0 <= k < |verb| ==> verb[k] in verb;
    SpaceFirst(d, 0, |verb|);
  }

  lemma RequestLineReadBack(d: seq<byte>, verb: seq<byte>, uri: seq<byte>, protocol: seq<byte>)
    requires WellFormedRequest(verb, uri, protocol) && At(d, 0, RequestLine(verb, uri, protocol))
    ensures |d| >= 4 && FirstWord(d, 0) < |d| && d[FirstWord(d, 0)] != SLASH
    ensures ParseRequest(d) == Some((Request(verb, uri, protocol), |RequestLine(verb, uri, protocol)|))
  {
    hide At, Delim, FirstWord, Plain, ParseRequest;
    RequestParts(d, verb, uri, protocol);
    hide RequestLine;
    var m, v := |verb|, |verb| + 1 + |uri|;
    var u, p, e := m + 1, v + 1, v + 1 + |protocol|;
    VerbEnds(d, verb);
    AtStart(d, u, uri);
    AtStart(d, p, protocol);
    assert d[u + 0] == uri[0] && uri[0] in uri && (protocol != [] ==> d[p + 0] == protocol[0]);
    SpaceEnds(d, 0, verb);
    SpaceEnds(d, u, uri);
    LineEnds(d, p, protocol);
    assert Skip(d, m + 1, false) == u && Skip(d, v + 1, false) == p;
    assert EndOfLine(d, e + 1) == Some(e + 2);
    hide Skip, EndOfLine;
    RequestIs(d, m, u, v, p, e, e + 2);
  }

  lemma RequestIs(d: seq<byte>, m: nat, u: nat, v: nat, p: nat, e: nat, i: nat)
    requires m < v < |d| && d[m] == SP == d[v] && Delim(d, 0, SP, 0) == m && Skip(d, m + 1, false) == u <= |d|
    requires Delim(d, u, SP, 0) == v && Skip(d, v + 1, false) == p <= |d| && Delim(d, p, 0, 0) == e && EndOfLine(d, e + 1) == Some(i)
    ensures ParseRequest(d) == Some((Request(d[..m], d[u..v], d[p..e]), i))
  {
    hide Delim, Skip, EndOfLine;
  }

  /** A well-formed request is read as it is written, its method as the method and its URI as the URI, if and
      only if it has no more headers than a message can hold. */
  lemma RequestReadBack(verb: seq<byte>, uri: seq<byte>, protocol: seq<byte>, headers: seq<Header>)
    requires WellFormedRequest(verb, uri, protocol)
    requires forall k :: 0 <= k < |headers| ==> WellFormed(headers[k])
    ensures var d := RequestLine(verb, uri, protocol) + HeaderLines(headers) + NEWLINE;
            Parse(d) == if |headers| <= MAX_FIELDS then Message(Request(verb, uri, protocol), headers, |d|) else Overflow
  {
    var line, rest := RequestLine(verb, uri, protocol), HeaderLines(headers) + NEWLINE;
    var d := RequestLine(verb, uri, protocol) + HeaderLines(headers) + NEWLINE;
    assert d == line + rest;
    hide At, RequestLine, HeaderLines, WellFormed, WellFormedRequest, ParseStart, ParseHeaders;
    RequestThenRest(d, verb, uri, protocol, rest);
    HeadersReadBack(d, |line|, headers, 0);
  }

  lemma RequestThenRest(d: seq<byte>, verb: seq<byte>, uri: seq<byte>, protocol: seq<byte>, rest: seq<byte>)
    requires WellFormedRequest(verb, uri, protocol) && d == RequestLine(verb, uri, protocol) + rest
    ensures var line := RequestLine(verb, uri, protocol);
            ParseStart(d) == Some((Request(verb, uri, protocol), |line|)) && At(d, |line|, rest)
  {
    var line := RequestLine(verb, uri, protocol);
    assert At(d, 0, line + rest);
    AtJoin(d, 0, line, rest);
    hide At, RequestLine, ParseResponse, ParseRequest;
    RequestLineReadBack(d, verb, uri, protocol);
  }
}
