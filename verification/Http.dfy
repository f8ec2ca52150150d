/** Incremental parsing of HTTP requests. */
module Http {
  import opened Buffers

  datatype Method = Invalid | Get | Post | Head | Put | Delete

  datatype Version = Unknown | Http10 | Http11

  /** `HttpRequest`, except for `receiveTime_`, which the context keeps beside it. */
  datatype Request = Request(
    verb: Method,
    version: Version,
    path: string,
    query: string,
    headers: map<string, string>)

  const EmptyRequest := Request(Invalid, Unknown, "", "", map[])

  datatype ParseState = ExpectRequestLine | ExpectHeaders | ExpectBody | GotAll

  const CRLF := "\r\n"

  // ----- Scanning ------------------------------------------------------------------------------

  /** `std::find`: the position of the first `c`, or the length. */
  function Find(s: string, c: char): (k: nat)
    ensures k <= |s| && c !in s[..k] && (k < |s| ==> s[k] == c)
  {
    if s == [] || s[0] == c then 0 else 1 + Find(s[1..], c)
  }

  predicate CrlfAt(s: string, i: nat) {
    i + 1 < |s| && s[i] == '\r' && s[i + 1] == '\n'
  }

  ghost predicate HasCrlf(s: string) {
    exists i: nat :: CrlfAt(s, i)
  }

  /** `findCRLF`: the position of the first CRLF, or the length when there is none. */
  function FindCrlf(s: string): (k: nat)
    ensures k <= |s| && (k < |s| ==> CrlfAt(s, k))
    ensures forall i: nat :: CrlfAt(s, i) ==> k <= i && k < |s|
  {
    if s == [] then 0
    else if CrlfAt(s, 0) then 0
    else
      assert forall i: nat :: CrlfAt(s, i) ==> i >= 1 && CrlfAt(s[1..], i - 1);
      assert forall i: nat :: CrlfAt(s[1..], i) ==> CrlfAt(s, i + 1);
      1 + FindCrlf(s[1..])
  }

  /** `isspace` in the C locale. */
  predicate IsSpace(c: char) {
    c == ' ' || c == '\t' || c == '\n' || c == '\r' || c == 11 as char || c == 12 as char
  }

  /** The text without leading and trailing white space. */
  ghost predicate Trimmed(s: string, r: string) {
    exists i: nat, j: nat :: i <= j <= |s| && IsTrim(s, i, j) && r == s[i..j]
  }

  ghost predicate IsTrim(s: string, i: nat, j: nat)
    requires i <= j <= |s|
  {
    && (forall k :: 0 <= k < i ==> IsSpace(s[k]))
    && (forall k :: j <= k < |s| ==> IsSpace(s[k]))
    && (i < j ==> !IsSpace(s[i]) && !IsSpace(s[j - 1]))
  }

  function TrimLeft(s: string): string {
    if s != [] && IsSpace(s[0]) then TrimLeft(s[1..]) else s
  }

  function TrimRight(s: string): string {
    if s != [] && IsSpace(s[|s| - 1]) then TrimRight(s[..|s| - 1]) else s
  }

  function Trim(s: string): string { TrimRight(TrimLeft(s)) }

  // ----- The request line ----------------------------------------------------------------------

  function MethodOf(m: string): Method {
    if m == "GET" then Get
    else if m == "POST" then Post
    else if m == "HEAD" then Head
    else if m == "PUT" then Put
    else if m == "DELETE" then Delete
    else Invalid
  }

  function MethodString(m: Method): string {
    match m
    case Get => "GET"
    case Post => "POST"
    case Head => "HEAD"
    case Put => "PUT"
    case Delete => "DELETE"
    case Invalid => "UNKNOWN"
  }

  lemma MethodRoundTrip(m: Method)
    requires m != Invalid
    ensures MethodOf(MethodString(m)) == m && ' ' !in MethodString(m)
  {
  }

  /** The names, spelled out. */
  lemma Spelling(m: string)
    ensures MethodOf("GET") == Get && MethodOf("POST") == Post && MethodOf("HEAD") == Head
    ensures MethodOf("PUT") == Put && MethodOf("DELETE") == Delete
    ensures MethodOf(m) == Invalid <==> m !in {"GET", "POST", "HEAD", "PUT", "DELETE"}
    ensures VersionString(Http10) == "HTTP/1.0" && VersionString(Http11) == "HTTP/1.1"
    ensures forall c :: IsSpace(c) <==> c as int == 32 || 9 <= c as int <= 13
  {
  }

  predicate IsVersion(v: string, version: Version) {
    && |v| == 8 && v[..7] == "HTTP/1."
    && ((v[7] == '1' && version == Http11) || (v[7] == '0' && version == Http10))
  }

  /** `processRequestLine`: the request after it, also when it fails half-way, and its result. */
  function RequestLine(line: string, req: Request): (Request, bool) {
    var sp := Find(line, ' ');
    if sp == |line| then (req, false)
    else
      var req1 := req.(verb := MethodOf(line[..sp]));
      if req1.verb == Invalid then (req1, false)
      else
        var rest := line[sp + 1..];
        var sp2 := Find(rest, ' ');
        if sp2 == |rest| then (req1, false)
        else
          var q := Find(rest[..sp2], '?');
          var req2 := if q < sp2 then req1.(path := rest[..q], query := rest[q..sp2]) else req1.(path := rest[..sp2]);
          var v := rest[sp2 + 1..];
          if IsVersion(v, Http11) then (req2.(version := Http11), true)
          else if IsVersion(v, Http10) then (req2.(version := Http10), true)
          else (req2, false)
  }

  /** `addHeader` on a line with a colon at `colon`. */
  function AddHeader(line: string, colon: nat, req: Request): Request
    requires colon < |line|
  {
    req.(headers := req.headers[line[..colon] := Trim(line[colon + 1..])])
  }

  // ----- The parser as a function of the bytes -------------------------------------------------

  datatype Outcome = Outcome(ok: bool, state: ParseState, request: Request, rest: string)

  /** What one call of `parseRequest` computes from its state and the buffer contents. */
  function Parse(state: ParseState, req: Request, s: string): Outcome
    requires state == ExpectRequestLine || state == ExpectHeaders
    decreases |s|
  {
    var k := FindCrlf(s);
    if k == |s| then Outcome(true, state, req, s)
    else if state == ExpectRequestLine then
      var (req', ok) := RequestLine(s[..k], req);
      if ok then Parse(ExpectHeaders, req', s[k + 2..]) else Outcome(false, state, req', s)
    else
      var colon := Find(s[..k], ':');
      if colon < k then Parse(ExpectHeaders, AddHeader(s[..k], colon, req), s[k + 2..])
      else Outcome(true, GotAll, req, s[k + 2..])
  }

  /** One line of the parser, and where it goes on. */
  lemma ParseUnfold(state: ParseState, req: Request, s: string)
    requires state == ExpectRequestLine || state == ExpectHeaders
    ensures var k := FindCrlf(s);
            Parse(state, req, s) ==
            if k == |s| then Outcome(true, state, req, s)
            else if state == ExpectRequestLine then
              (var (req', ok) := RequestLine(s[..k], req);
               if ok then Parse(ExpectHeaders, req', s[k + 2..]) else Outcome(false, state, req', s))
            else if Find(s[..k], ':') < k then
              Parse(ExpectHeaders, AddHeader(s[..k], Find(s[..k], ':'), req), s[k + 2..])
            else Outcome(true, GotAll, req, s[k + 2..])
  {
    hide RequestLine, Find, FindCrlf, AddHeader;
  }

  // ----- Chunks --------------------------------------------------------------------------------

  /** Nothing more will be parsed: an error was reported or the request is complete. */
  predicate Done(o: Outcome) { !o.ok || (o.state != ExpectRequestLine && o.state != ExpectHeaders) }

  lemma CrlfAppend(a: string, b: string)
    requires FindCrlf(a) < |a|
    ensures var k := FindCrlf(a);
            FindCrlf(a + b) == k && (a + b)[..k] == a[..k] && (a + b)[k + 2..] == a[k + 2..] + b
  {
    var k := FindCrlf(a);
    assert CrlfAt(a + b, k);
    var k' := FindCrlf(a + b);
    assert CrlfAt(a, k');
  }

  /** Parsing what is there, then what is left together with more bytes, is parsing all at once. */
  lemma {:induction false} ParseAppend(state: ParseState, req: Request, a: string, b: string)
    requires state == ExpectRequestLine || state == ExpectHeaders
    ensures var o := Parse(state, req, a);
            Parse(state, req, a + b)
            == if Done(o) then o.(rest := o.rest + b) else Parse(o.state, o.request, o.rest + b)
    decreases |a|
  {
    hide Parse, FindCrlf, Find, RequestLine, AddHeader;
    var k := FindCrlf(a);
    ParseUnfold(state, req, a);
    if k < |a| {
      CrlfAppend(a, b);
      ParseUnfold(state, req, a + b);
      if state == ExpectRequestLine {
        var (req', ok) := RequestLine(a[..k], req);
        if ok {
          ParseAppend(ExpectHeaders, req', a[k + 2..], b);
        }
      } else {
        var colon := Find(a[..k], ':');
        if colon < k {
          ParseAppend(ExpectHeaders, AddHeader(a[..k], colon, req), a[k + 2..], b);
        }
      }
    }
  }

  function Concat(chunks: seq<string>): string {
    if chunks == [] then [] else chunks[0] + Concat(chunks[1..])
  }

  /** `parseRequest` called after each chunk, up to the first error or the end of the headers. */
  function Feed(o: Outcome, chunks: seq<string>): Outcome
    decreases |chunks|
  {
    if chunks == [] then o
    else
      var rest := o.rest + chunks[0];
      Feed(if Done(o) then o.(rest := rest) else Parse(o.state, o.request, rest), chunks[1..])
  }

  const Start := Outcome(true, ExpectRequestLine, EmptyRequest, "")

  ghost predicate Settled(o: Outcome) {
    Done(o) || Parse(o.state, o.request, o.rest) == o
  }

  lemma {:induction false} ParseSettles(state: ParseState, req: Request, s: string)
    requires state == ExpectRequestLine || state == ExpectHeaders
    ensures Settled(Parse(state, req, s))
    decreases |s|
  {
    hide RequestLine, AddHeader, FindCrlf, Find;
    var k := FindCrlf(s);
    if k < |s| {
      if state == ExpectRequestLine {
        var (req', ok) := RequestLine(s[..k], req);
        if ok {
          ParseSettles(ExpectHeaders, req', s[k + 2..]);
        }
      } else {
        var colon := Find(s[..k], ':');
        if colon < k {
          ParseSettles(ExpectHeaders, AddHeader(s[..k], colon, req), s[k + 2..]);
        }
      }
    }
  }

  lemma {:induction false} FeedIsOneCall(o: Outcome, chunks: seq<string>)
    requires Settled(o)
    ensures Feed(o, chunks) == if Done(o) then o.(rest := o.rest + Concat(chunks))
                               else Parse(o.state, o.request, o.rest + Concat(chunks))
    decreases |chunks|
  {
    hide Parse;
    if chunks == [] {
      assert o.rest + Concat(chunks) == o.rest;
    } else {
      var rest, later := o.rest + chunks[0], Concat(chunks[1..]);
      assert o.rest + Concat(chunks) == rest + later;
      if Done(o) {
        FeedIsOneCall(o.(rest := rest), chunks[1..]);
      } else {
        ParseSettles(o.state, o.request, rest);
        FeedIsOneCall(Parse(o.state, o.request, rest), chunks[1..]);
        ParseAppend(o.state, o.request, rest, later);
      }
    }
  }

  /** However a byte string is cut into chunks, feeding the chunks gives the result, the parse state,
      the request and the left-over bytes of feeding it at once. */
  lemma ChunksDoNotMatter(chunks: seq<string>)
    ensures Feed(Start, chunks) == Parse(ExpectRequestLine, EmptyRequest, Concat(chunks))
  {
    FeedIsOneCall(Start, chunks);
    assert "" + Concat(chunks) == Concat(chunks);
  }

  // ----- The assertion in setMethod ------------------------------------------------------------

  /** `setMethod` runs on entry to `parseRequest` although the method is already set. */
  predicate MethodAssertFails(state: ParseState, req: Request, s: string) {
    var k := FindCrlf(s);
    state == ExpectRequestLine && k < |s| && Find(s[..k], ' ') < k && req.verb != Invalid
  }

  /** Until the first error the request line is only expected while no method is set. */
  lemma {:induction false} NoMethodBeforeRequestLine(state: ParseState, req: Request, s: string)
    requires state == ExpectRequestLine || state == ExpectHeaders
    requires state == ExpectRequestLine ==> req.verb == Invalid
    ensures var o := Parse(state, req, s); o.ok && o.state == ExpectRequestLine ==> o.request == req
    ensures var o := Parse(state, req, s); state == ExpectHeaders ==> o.ok && o.state != ExpectRequestLine
    decreases |s|
  {
    hide Parse, FindCrlf, Find, RequestLine, AddHeader;
    ParseUnfold(state, req, s);
    var k := FindCrlf(s);
    if k < |s| {
      if state == ExpectRequestLine {
        var (req', ok) := RequestLine(s[..k], req);
        if ok {
          NoMethodBeforeRequestLine(ExpectHeaders, req', s[k + 2..]);
        }
      } else {
        var colon := Find(s[..k], ':');
        if colon < k {
          NoMethodBeforeRequestLine(ExpectHeaders, AddHeader(s[..k], colon, req), s[k + 2..]);
        }
      }
    }
  }

  /** After an error a further call, with whatever bytes have arrived, trips the assertion exactly
      when the rejected line starts with one of the five methods and a space. */
  lemma AfterErrorAssertFailsExactly(s: string, t: string)
    requires !Parse(ExpectRequestLine, EmptyRequest, s).ok
    ensures var o := Parse(ExpectRequestLine, EmptyRequest, s);
            var line := s[..FindCrlf(s)];
            MethodAssertFails(o.state, o.request, o.rest + t)
            <==> Find(line, ' ') < |line| && MethodOf(line[..Find(line, ' ')]) != Invalid
  {
    hide Parse, FindCrlf, Find;
    var k := FindCrlf(s);
    ParseUnfold(ExpectRequestLine, EmptyRequest, s);
    RejectedLine(s);
    CrlfAppend(s, t);
  }

  /** A rejected line is complete, stays in the buffer, and leaves the method it named. */
  lemma RejectedLine(s: string)
    requires !Parse(ExpectRequestLine, EmptyRequest, s).ok
    ensures var k := FindCrlf(s); var o := Parse(ExpectRequestLine, EmptyRequest, s);
            && k < |s| && o == Outcome(false, ExpectRequestLine, RequestLine(s[..k], EmptyRequest).0, s)
            && o.request.verb == if Find(s[..k], ' ') == k then Invalid else MethodOf(s[..k][..Find(s[..k], ' ')])
  {
    hide Parse, FindCrlf, Find, MethodOf, RequestLine;
    var k := FindCrlf(s);
    ParseUnfold(ExpectRequestLine, EmptyRequest, s);
    if k < |s| {
      VerbOfLine(s[..k]);
      var (req', ok) := RequestLine(s[..k], EmptyRequest);
      if ok {
        NoMethodBeforeRequestLine(ExpectHeaders, req', s[k + 2..]);
      }
    }
  }

  lemma VerbOfLine(line: string)
    ensures var sp := Find(line, ' ');
            RequestLine(line, EmptyRequest).0.verb == if sp == |line| then Invalid else MethodOf(line[..sp])
  {
    hide Find, MethodOf;
  }

  // ----- Trimming ------------------------------------------------------------------------------

  lemma {:induction false} TrimLeftSplits(s: string) returns (i: nat)
    ensures i <= |s| && TrimLeft(s) == s[i..] && (forall k :: 0 <= k < i ==> IsSpace(s[k]))
    ensures i < |s| ==> !IsSpace(s[i])
  {
    if s != [] && IsSpace(s[0]) {
      var i' := TrimLeftSplits(s[1..]);
      i := i' + 1;
      assert forall k :: 0 < k < i ==> s[k] == s[1..][k - 1];
    } else {
      i := 0;
    }
  }

  lemma {:induction false} TrimRightSplits(s: string) returns (j: nat)
    ensures j <= |s| && TrimRight(s) == s[..j] && (forall k :: j <= k < |s| ==> IsSpace(s[k]))
    ensures j > 0 ==> !IsSpace(s[j - 1])
  {
    if s != [] && IsSpace(s[|s| - 1]) {
      j := TrimRightSplits(s[..|s| - 1]);
    } else {
      j := |s|;
    }
  }

  /** `Trim` removes exactly the white space at both ends. */
  lemma TrimIsRight(s: string)
    ensures Trimmed(s, Trim(s))
  {
    var i := TrimLeftSplits(s);
    var t := s[i..];
    var j := TrimRightSplits(t);
    assert t[..j] == s[i..i + j];
    assert forall k :: i + j <= k < |s| ==> s[k] == t[k - i];
    assert j > 0 ==> t[j - 1] == s[i + j - 1];
    assert IsTrim(s, i, i + j);
  }

  /** The two loops of `addHeader`. */
  method TrimValue(s: string) returns (value: string)
    ensures value == Trim(s)
  {
    var colon := 0;
    while colon < |s| && IsSpace(s[colon])
      invariant 0 <= colon <= |s| && TrimLeft(s) == TrimLeft(s[colon..])
    {
      assert s[colon..][1..] == s[colon + 1..];
      colon := colon + 1;
    }
    value := s[colon..];
    while value != [] && IsSpace(value[|value| - 1])
      invariant TrimRight(value) == Trim(s)
    {
      value := value[..|value| - 1];
    }
  }

  // ----- The context ---------------------------------------------------------------------------

  /** `HttpContext` with its request. */
  class HttpContext {
    var state: ParseState
    var request: Request
    var receiveTime: int

    constructor ()
      ensures state == ExpectRequestLine && request == EmptyRequest
    {
      state, request, receiveTime := ExpectRequestLine, EmptyRequest, 0;
    }

    method SetMethod(m: string) returns (ok: bool)
      requires request.verb == Invalid
      modifies this`request
      ensures request == old(request).(verb := MethodOf(m)) && ok == (MethodOf(m) != Invalid)
    {
      if m == "GET" {
        request := request.(verb := Get);
      } else if m == "POST" {
        request := request.(verb := Post);
      } else if m == "HEAD" {
        request := request.(verb := Head);
      } else if m == "PUT" {
        request := request.(verb := Put);
      } else if m == "DELETE" {
        request := request.(verb := Delete);
      } else {
        request := request.(verb := Invalid);
      }
      ok := request.verb != Invalid;
    }

    method ProcessRequestLine(line: string) returns (succeed: bool)
      requires request.verb == Invalid
      modifies this`request
      ensures (request, succeed) == RequestLine(line, old(request))
    {
      hide Find, MethodOf;
      succeed := false;
      var space := Find(line, ' ');
      if space != |line| {
        var known := SetMethod(line[..space]);
        if known {
          var rest := line[space + 1..];
          space := Find(rest, ' ');
          if space != |rest| {
            var question := Find(rest[..space], '?');
            if question != space {
              request := request.(path := rest[..question]);
              request := request.(query := rest[question..space]);
            } else {
              request := request.(path := rest[..space]);
            }
            var start := rest[space + 1..];
            succeed := |start| == 8 && start[..7] == "HTTP/1.";
            if succeed {
              if start[7] == '1' {
                request := request.(version := Http11);
              } else if start[7] == '0' {
                request := request.(version := Http10);
              } else {
                succeed := false;
              }
            }
          }
        }
      }
    }

    /** The branch of the loop in `parseRequest` for the request line; the result is `hasMore`. */
    method ParseLine(buf: Buffer<char>, now: int) returns (ok: bool, hasMore: bool)
      requires buf.Valid() && state == ExpectRequestLine && request.verb == Invalid
      modifies this, buf
      ensures buf.Valid() && buf.buffer == old(buf.buffer)
      ensures hasMore ==>
        && ok && state == ExpectHeaders && receiveTime == now && |buf.Contents()| < |old(buf.Contents())|
        && Parse(old(state), old(request), old(buf.Contents())) == Parse(state, request, buf.Contents())
      ensures !hasMore ==>
        && state == ExpectRequestLine && receiveTime == old(receiveTime)
        && Parse(old(state), old(request), old(buf.Contents())) == Outcome(ok, state, request, buf.Contents())
    {
      hide Parse, RequestLine, Find, FindCrlf;
      ok, hasMore := true, true;
      var s := buf.Peek(buf.ReadableBytes());
      assert s == buf.Contents();
      ParseUnfold(state, request, s);
      var crlf := FindCrlf(s);
      if crlf < |s| {
        ok := ProcessRequestLine(s[..crlf]);
        if ok {
          receiveTime := now;
          buf.Retrieve(crlf + 2);
          state := ExpectHeaders;
        } else {
          hasMore := false;
        }
      } else {
        hasMore := false;
      }
    }

    /** The branch for header lines. */
    method ParseHeader(buf: Buffer<char>) returns (hasMore: bool)
      requires buf.Valid() && state == ExpectHeaders
      modifies this`state, this`request, buf
      ensures buf.Valid() && buf.buffer == old(buf.buffer)
      ensures hasMore ==>
        && state == ExpectHeaders && |buf.Contents()| < |old(buf.Contents())|
        && Parse(old(state), old(request), old(buf.Contents())) == Parse(state, request, buf.Contents())
      ensures !hasMore ==>
        && state != ExpectRequestLine
        && Parse(old(state), old(request), old(buf.Contents())) == Outcome(true, state, request, buf.Contents())
    {
      hide Parse, RequestLine, Find, FindCrlf, Trim;
      hasMore := true;
      var s := buf.Peek(buf.ReadableBytes());
      assert s == buf.Contents();
      ParseUnfold(state, request, s);
      var crlf := FindCrlf(s);
      if crlf < |s| {
        var colon := Find(s[..crlf], ':');
        if colon != crlf {
          var value := TrimValue(s[..crlf][colon + 1..]);
          request := request.(headers := request.headers[s[..crlf][..colon] := value]);
        } else {
          state := GotAll;
          hasMore := false;
        }
        buf.Retrieve(crlf + 2);
      } else {
        hasMore := false;
      }
    }

    /** `parseRequest`.  Calls are only made while a request line or headers are expected, and
        not after an error; then `setMethod` never finds a method already set. */
    method ParseRequest(buf: Buffer<char>, now: int) returns (ok: bool)
      requires buf.Valid()
      requires state == ExpectRequestLine || state == ExpectHeaders
      requires state == ExpectRequestLine ==> request.verb == Invalid
      modifies this, buf
      ensures buf.Valid() && buf.buffer == old(buf.buffer)
      ensures Outcome(ok, state, request, buf.Contents()) == Parse(old(state), old(request), old(buf.Contents()))
      ensures ok && state == ExpectRequestLine ==> request.verb == Invalid
      ensures receiveTime
              == if old(state) == ExpectRequestLine && state != ExpectRequestLine then now else old(receiveTime)
    {
      ghost var goal := Parse(state, request, buf.Contents());
      NoMethodBeforeRequestLine(state, request, buf.Contents());
      hide Parse;
      ok := true;
      var hasMore := true;
      while hasMore
        invariant buf.Valid() && buf.buffer == old(buf.buffer)
        invariant hasMore ==> ok && (state == ExpectRequestLine || state == ExpectHeaders)
        invariant if hasMore then goal == Parse(state, request, buf.Contents())
                  else goal == Outcome(ok, state, request, buf.Contents())
        invariant hasMore && state == ExpectRequestLine ==> request == old(request) && old(state) == ExpectRequestLine
        invariant receiveTime
                  == if old(state) == ExpectRequestLine && state != ExpectRequestLine then now else old(receiveTime)
        invariant old(state) == ExpectHeaders ==> state != ExpectRequestLine
        decreases hasMore, |buf.Contents()|
      {
        if state == ExpectRequestLine {
          ok, hasMore := ParseLine(buf, now);
        } else if state == ExpectHeaders {
          hasMore := ParseHeader(buf);
        }
      }
    }

    /** Any sequence of chunks, with `parseRequest` called after each one as long as that is allowed. */
    method Receive(buf: Buffer<char>, chunks: seq<string>, now: int) returns (ok: bool)
      requires buf.Valid() && buf.Contents() == [] && state == ExpectRequestLine && request == EmptyRequest
      modifies this, buf, buf.buffer
      ensures buf.Valid()
      ensures Outcome(ok, state, request, buf.Contents()) == Parse(ExpectRequestLine, EmptyRequest, Concat(chunks))
    {
      hide Parse;
      ok := true;
      ghost var goal := Feed(Start, chunks);
      ChunksDoNotMatter(chunks);
      assert chunks[0..] == chunks;
      var i := 0;
      while i < |chunks|
        invariant 0 <= i <= |chunks| && buf.Valid() && (buf.buffer == old(buf.buffer) || fresh(buf.buffer))
        invariant ok && state == ExpectRequestLine ==> request.verb == Invalid
        invariant goal == Feed(Outcome(ok, state, request, buf.Contents()), chunks[i..])
      {
        assert chunks[i..][0] == chunks[i] && chunks[i..][1..] == chunks[i + 1..];
        buf.Append(chunks[i]);
        if ok && (state == ExpectRequestLine || state == ExpectHeaders) {
          ok := ParseRequest(buf, now);
        }
        i := i + 1;
      }
    }
  }

  // ----- Rendering and parsing back ------------------------------------------------------------

  function VersionString(v: Version): string {
    match v
    case Http10 => "HTTP/1.0"
    case Http11 => "HTTP/1.1"
    case Unknown => "UNKNOWN"
  }

  type Headers = seq<(string, string)>

  function RenderLine(r: Request): string {
    MethodString(r.verb) + " " + (r.path + r.query) + " " + VersionString(r.version)
  }

  function RenderHeader(h: (string, string)): string { h.0 + ": " + h.1 }

  function RenderHeaders(hs: Headers): string {
    if hs == [] then CRLF else RenderHeader(hs[0]) + CRLF + RenderHeaders(hs[1..])
  }

  function Render(r: Request, hs: Headers): string {
    RenderLine(r) + CRLF + RenderHeaders(hs)
  }

  /** The request line as in section 3.1.1 of RFC 7230: no space and no line end in the target, the
      query, if any, starting at the first question mark. */
  ghost predicate WellFormedLine(r: Request) {
    && r.verb != Invalid && r.version != Unknown
    && ' ' !in r.path && '?' !in r.path && ' ' !in r.query
    && (r.query != "" ==> r.query[0] == '?')
    && !HasCrlf(r.path + r.query)
  }

  ghost predicate WellFormedHeader(h: (string, string)) {
    && ':' !in h.0 && !HasCrlf(RenderHeader(h))
    && (h.1 != "" ==> !IsSpace(h.1[0]) && !IsSpace(h.1[|h.1| - 1]))
  }

  lemma LineEnds(line: string, rest: string)
    requires !HasCrlf(line)
    ensures var s := line + CRLF + rest; var k := FindCrlf(s);
            k == |line| && k < |s| && s[..k] == line && s[k + 2..] == rest
  {
    var s := line + CRLF + rest;
    assert CrlfAt(s, |line|);
    var k := FindCrlf(s);
    assert forall i :: 0 <= i < |line| ==> s[i] == line[i];
    assert CrlfAt(s, k) && !CrlfAt(line, k);
  }

  lemma FindSplits(a: string, c: char, b: string)
    requires c !in a
    ensures Find(a + [c] + b, c) == |a| && (a + [c] + b)[..|a|] == a && (a + [c] + b)[|a| + 1..] == b
  {
    var s := a + [c] + b;
    var k := Find(s, c);
    assert forall i :: 0 <= i < |a| ==> s[i] == a[i];
    assert s[|a|] == c && forall i :: 0 <= i < k ==> s[..k][i] == s[i];
  }

  lemma NoCrlfJoin(a: string, b: string)
    requires !HasCrlf(a) && !HasCrlf(b) && |a| > 0 && a[|a| - 1] != '\r'
    ensures !HasCrlf(a + b)
  {
    forall i: nat | CrlfAt(a + b, i)
      ensures CrlfAt(a, i) || (i >= |a| && CrlfAt(b, i - |a|))
    {
    }
  }

  lemma NoCrlfBeforeSpace(a: string, b: string)
    requires !HasCrlf(a) && '\r' !in b
    ensures !HasCrlf(a + ([' '] + b))
  {
    var s := a + ([' '] + b);
    assert forall i :: |a| <= i < |s| ==> s[i] == ([' '] + b)[i - |a|];
    assert forall i: nat :: CrlfAt(s, i) ==> CrlfAt(a, i);
  }

  lemma LineHasNoCrlf(r: Request)
    requires WellFormedLine(r)
    ensures !HasCrlf(RenderLine(r))
  {
    var target := r.path + r.query;
    var m, v := MethodString(r.verb), VersionString(r.version);
    NoCrlfBeforeSpace(target, v);
    assert '\r' !in m + " ";
    assert !HasCrlf(m + " ");
    NoCrlfJoin(m + " ", target + ([' '] + v));
    assert RenderLine(r) == (m + " ") + (target + ([' '] + v));
  }

  lemma TargetSplits(path: string, query: string)
    requires '?' !in path && (query != "" ==> query[0] == '?')
    ensures var t := path + query; var q := Find(t, '?');
            if query == "" then q == |t| && t == path else q < |t| && t[..q] == path && t[q..] == query
  {
    var t := path + query;
    if query == "" {
      assert t == path;
    } else {
      assert t == path + ['?'] + query[1..];
      FindSplits(path, '?', query[1..]);
      assert t[|path|..] == query;
    }
  }

  lemma LineParses(r: Request)
    requires WellFormedLine(r)
    ensures RequestLine(RenderLine(r), EmptyRequest) == (r.(headers := map[]), true)
  {
    hide Find;
    var target := r.path + r.query;
    var m, v := MethodString(r.verb), VersionString(r.version);
    MethodRoundTrip(r.verb);
    var line, rest := RenderLine(r), target + [' '] + v;
    assert line == m + [' '] + rest;
    FindSplits(m, ' ', rest);
    assert ' ' !in target;
    FindSplits(target, ' ', v);
    TargetSplits(r.path, r.query);
    var q := Find(target, '?');
    assert rest[..q] == target[..q] && rest[q..|target|] == target[q..];
    assert v[..7] == "HTTP/1.";
    assert RequestLine(line, EmptyRequest).1;
  }

  lemma FindJoins(s: string, c: char)
    requires Find(s, c) < |s|
    ensures var k := Find(s, c); s == s[..k] + [c] + s[k + 1..] && c !in s[..k]
  {
    hide Find;
    var k := Find(s, c);
    assert s[k..] == [c] + s[k + 1..];
    assert s[..k] + ([c] + s[k + 1..]) == s[..k] + [c] + s[k + 1..];
  }

  lemma MethodIsRight(m: string)
    requires MethodOf(m) != Invalid
    ensures MethodString(MethodOf(m)) == m
  {
  }

  function BeforeSpace(s: string): string { s[..Find(s, ' ')] }

  function AfterSpace(s: string): string { if Find(s, ' ') < |s| then s[Find(s, ' ') + 1..] else [] }

  lemma SpaceJoins(s: string)
    requires Find(s, ' ') < |s|
    ensures s == BeforeSpace(s) + [' '] + AfterSpace(s) && ' ' !in BeforeSpace(s)
  {
    hide Find;
    FindJoins(s, ' ');
  }

  lemma SliceOfPrefix(s: string, n: nat, q: nat)
    requires q <= n <= |s|
    ensures s[..n][..q] == s[..q] && s[..n][q..] == s[q..n]
  {
  }

  /** What an accepted line yields, part by part. */
  lemma AcceptedShape(line: string)
    requires RequestLine(line, EmptyRequest).1
    ensures Find(line, ' ') < |line| && Find(AfterSpace(line), ' ') < |AfterSpace(line)|
    ensures var r := RequestLine(line, EmptyRequest).0; var rest := AfterSpace(line);
            var target := BeforeSpace(rest); var q := Find(target, '?');
            && r.verb == MethodOf(BeforeSpace(line)) != Invalid
            && r.path == target[..q] && r.query == target[q..]
            && IsVersion(AfterSpace(rest), r.version)
  {
    hide Find, MethodOf, IsVersion;
    var rest := AfterSpace(line);
    SliceOfPrefix(rest, Find(rest, ' '), Find(BeforeSpace(rest), '?'));
  }

  /** The parts of an accepted line. */
  lemma AcceptedParts(line: string) returns (target: string, v: string)
    requires RequestLine(line, EmptyRequest).1
    ensures var r := RequestLine(line, EmptyRequest).0;
            && r.verb != Invalid && line == MethodString(r.verb) + [' '] + (target + [' '] + v)
            && ' ' !in target && IsVersion(v, r.version)
            && var q := Find(target, '?'); r.path == target[..q] && r.query == target[q..]
  {
    hide Find, MethodString, MethodOf, RequestLine, BeforeSpace, AfterSpace, IsVersion;
    AcceptedShape(line);
    SpaceJoins(line);
    SpaceJoins(AfterSpace(line));
    MethodIsRight(BeforeSpace(line));
    target, v := BeforeSpace(AfterSpace(line)), AfterSpace(AfterSpace(line));
  }

  /** Only rendered lines are accepted: together with `LineParses`, a request line is accepted
      exactly when it is the rendering of a request, and then it yields that request. */
  lemma AcceptedLineIsRendered(line: string)
    requires RequestLine(line, EmptyRequest).1 && !HasCrlf(line)
    ensures var r := RequestLine(line, EmptyRequest).0; WellFormedLine(r) && line == RenderLine(r)
  {
    var target, v := AcceptedParts(line);
    var r := RequestLine(line, EmptyRequest).0;
    hide RequestLine, MethodString, HasCrlf, Find, VersionString;
    VersionIs(v, r.version);
    TargetIsJoined(target);
    RegroupLine(MethodString(r.verb), target, v);
    TargetHasNoCrlf(MethodString(r.verb) + " ", target, " " + v);
  }

  lemma RegroupLine(m: string, target: string, v: string)
    ensures m + [' '] + (target + [' '] + v) == (m + " ") + target + (" " + v)
    ensures m + [' '] + (target + [' '] + v) == m + " " + target + " " + v
  {
  }

  lemma TargetIsJoined(target: string)
    requires ' ' !in target
    ensures var q := Find(target, '?'); var path, query := target[..q], target[q..];
            && target == path + query && '?' !in path && ' ' !in path && ' ' !in query
            && (query != "" ==> query[0] == '?')
  {
  }

  lemma VersionIs(v: string, version: Version)
    requires IsVersion(v, version)
    ensures v == VersionString(version)
  {
    assert v == v[..7] + [v[7]];
  }

  lemma TargetHasNoCrlf(a: string, t: string, b: string)
    requires !HasCrlf(a + t + b)
    ensures !HasCrlf(t)
  {
    var s := a + t + b;
    forall i: nat | CrlfAt(t, i)
      ensures CrlfAt(s, |a| + i)
    {
      assert s[|a| + i] == t[i] && s[|a| + i + 1] == t[i + 1];
    }
  }

  /** Any header line: the text before its first colon is mapped to the text behind it without white
      space at both ends, the other headers stay, and parsing goes on behind the line. */
  lemma HeaderLineStored(req: Request, line: string, c: nat, rest: string) returns (v: string)
    requires !HasCrlf(line) && c < |line| && line[c] == ':' && ':' !in line[..c]
    ensures Trimmed(line[c + 1..], v)
    ensures Parse(ExpectHeaders, req, line + CRLF + rest)
         == Parse(ExpectHeaders, req.(headers := req.headers[line[..c] := v]), rest)
  {
    FirstIsFound(line, ':', c);
    hide Find, FindCrlf, Parse, Trim, Trimmed, HasCrlf;
    LineEnds(line, rest);
    ParseUnfold(ExpectHeaders, req, line + CRLF + rest);
    TrimIsRight(line[c + 1..]);
    v := Trim(line[c + 1..]);
  }

  lemma FirstIsFound(s: string, x: char, c: nat)
    requires c < |s| && s[c] == x && x !in s[..c]
    ensures Find(s, x) == c
  {
    hide Find;
    var k := Find(s, x);
    assert forall i :: 0 <= i < k ==> s[i] in s[..k];
    assert forall i :: 0 <= i < c ==> s[i] in s[..c];
  }

  /** A line without a colon ends the request. */
  lemma LineWithoutColonEnds(req: Request, line: string, rest: string)
    requires !HasCrlf(line) && ':' !in line
    ensures Parse(ExpectHeaders, req, line + CRLF + rest) == Outcome(true, GotAll, req, rest)
  {
    assert Find(line, ':') == |line|;
    hide Find, FindCrlf, Parse, HasCrlf;
    LineEnds(line, rest);
    ParseUnfold(ExpectHeaders, req, line + CRLF + rest);
  }

  /** A request line is accepted, yielding a request without headers, exactly when it is the
      rendering of that request; otherwise the parser stops with an error and consumes nothing. */
  lemma RequestLineDecides(line: string, rest: string)
    requires !HasCrlf(line)
    ensures var o := Parse(ExpectRequestLine, EmptyRequest, line + CRLF + rest);
            && (forall r :: WellFormedLine(r) && r.headers == map[] && line == RenderLine(r) ==>
                  o == Parse(ExpectHeaders, r, rest))
            && if Renders(line) then o.ok else !o.ok && o.rest == line + CRLF + rest
  {
    hide Find, FindCrlf, Parse, HasCrlf, RequestLine, RenderLine, WellFormedLine;
    var s := line + CRLF + rest;
    LineEnds(line, rest);
    ParseUnfold(ExpectRequestLine, EmptyRequest, s);
    forall r | WellFormedLine(r) && r.headers == map[] && line == RenderLine(r)
      ensures Parse(ExpectRequestLine, EmptyRequest, s) == Parse(ExpectHeaders, r, rest)
    {
      LineParses(r);
    }
    RendersExactly(line);
    if RequestLine(line, EmptyRequest).1 {
      NoMethodBeforeRequestLine(ExpectHeaders, RequestLine(line, EmptyRequest).0, rest);
    }
  }

  ghost predicate Renders(line: string) {
    exists r :: WellFormedLine(r) && line == RenderLine(r)
  }

  lemma RendersExactly(line: string)
    requires !HasCrlf(line)
    ensures RequestLine(line, EmptyRequest).1 <==> Renders(line)
  {
    hide Find, FindCrlf, HasCrlf, RequestLine, RenderLine, WellFormedLine;
    if RequestLine(line, EmptyRequest).1 {
      AcceptedLineIsRendered(line);
    }
    if Renders(line) {
      var r :| WellFormedLine(r) && line == RenderLine(r);
      LineParses(r);
    }
  }

  lemma HeaderParses(h: (string, string), req: Request)
    requires WellFormedHeader(h)
    ensures Find(RenderHeader(h), ':') == |h.0| < |RenderHeader(h)|
    ensures AddHeader(RenderHeader(h), |h.0|, req) == req.(headers := req.headers[h.0 := h.1])
  {
    var line := RenderHeader(h);
    assert line == h.0 + [':'] + ([' '] + h.1);
    FindSplits(h.0, ':', [' '] + h.1);
    assert ([' '] + h.1)[1..] == h.1;
    assert TrimLeft([' '] + h.1) == TrimLeft(h.1) == h.1;
    assert TrimRight(h.1) == h.1;
  }

  function AddAll(m: map<string, string>, hs: Headers): map<string, string>
    decreases |hs|
  {
    if hs == [] then m else AddAll(m[hs[0].0 := hs[0].1], hs[1..])
  }

  lemma {:induction false} HeadersParse(hs: Headers, req: Request, rest: string)
    requires forall h :: h in hs ==> WellFormedHeader(h)
    ensures Parse(ExpectHeaders, req, RenderHeaders(hs) + rest)
         == Outcome(true, GotAll, req.(headers := AddAll(req.headers, hs)), rest)
    decreases |hs|
  {
    hide Find, FindCrlf, RenderHeader, AddHeader;
    if hs == [] {
      LineEnds("", rest);
      assert "" + CRLF + rest == CRLF + rest;
    } else {
      var h := hs[0];
      assert h in hs;
      var line, more := RenderHeader(h), RenderHeaders(hs[1..]) + rest;
      assert RenderHeaders(hs) + rest == line + CRLF + more;
      LineEnds(line, more);
      HeaderParses(h, req);
      HeadersParse(hs[1..], req.(headers := req.headers[h.0 := h.1]), rest);
    }
  }

  lemma {:induction false} AddAllElsewhere(m: map<string, string>, hs: Headers, k: string)
    requires forall h :: h in hs ==> h.0 != k
    ensures k in AddAll(m, hs) <==> k in m
    ensures k in m ==> AddAll(m, hs)[k] == m[k]
    decreases |hs|
  {
    if hs != [] {
      assert hs[0] in hs;
      AddAllElsewhere(m[hs[0].0 := hs[0].1], hs[1..], k);
    }
  }

  ghost predicate DistinctNames(hs: Headers) {
    forall i, j :: 0 <= i < j < |hs| ==> hs[i].0 != hs[j].0
  }

  /** With distinct names every header comes back with its value. */
  lemma {:induction false} AddAllFinds(m: map<string, string>, hs: Headers, i: nat)
    requires i < |hs| && DistinctNames(hs)
    ensures hs[i].0 in AddAll(m, hs) && AddAll(m, hs)[hs[i].0] == hs[i].1
    decreases |hs|
  {
    var h, t := hs[0], hs[1..];
    if i == 0 {
      assert forall x :: x in t ==> x.0 != h.0;
      AddAllElsewhere(m[h.0 := h.1], t, h.0);
    } else {
      AddAllFinds(m[h.0 := h.1], t, i - 1);
    }
  }

  /** The parsed headers are exactly the rendered ones. */
  lemma AddAllExact(hs: Headers)
    requires DistinctNames(hs)
    ensures AddAll(map[], hs).Keys == (set h | h in hs :: h.0)
    ensures forall h :: h in hs ==> AddAll(map[], hs)[h.0] == h.1
  {
    var r := AddAll(map[], hs);
    forall h | h in hs
      ensures h.0 in r && r[h.0] == h.1
    {
      var i :| 0 <= i < |hs| && hs[i] == h;
      AddAllFinds(map[], hs, i);
    }
    forall k | k in r
      ensures exists h :: h in hs && h.0 == k
    {
      if forall h :: h in hs ==> h.0 != k {
        AddAllElsewhere(map[], hs, k);
      }
    }
  }

  /** A well-formed request, rendered, followed by any bytes and cut into any chunks, is parsed back
      exactly, and the bytes that follow it stay in the buffer. */
  lemma RoundTrip(r: Request, hs: Headers, rest: string, chunks: seq<string>)
    requires WellFormedLine(r) && forall h :: h in hs ==> WellFormedHeader(h)
    requires DistinctNames(hs)
    requires Concat(chunks) == Render(r, hs) + rest
    ensures var o := Feed(Start, chunks);
            && o == Outcome(true, GotAll, r.(headers := o.request.headers), rest)
            && o.request.headers.Keys == (set h | h in hs :: h.0)
            && (forall h :: h in hs ==> o.request.headers[h.0] == h.1)
  {
    hide Find, FindCrlf, RequestLine, RenderLine, RenderHeaders, Render, Feed, Concat, Parse, AddAll,
         WellFormedLine, WellFormedHeader, DistinctNames;
    ChunksDoNotMatter(chunks);
    var line, more := RenderLine(r), RenderHeaders(hs) + rest;
    RenderSplits(r, hs, rest);
    LineHasNoCrlf(r);
    LineEnds(line, more);
    LineParses(r);
    ParseUnfold(ExpectRequestLine, EmptyRequest, line + CRLF + more);
    HeadersParse(hs, r.(headers := map[]), rest);
    AddAllExact(hs);
  }

  lemma RenderSplits(r: Request, hs: Headers, rest: string)
    ensures Render(r, hs) + rest == RenderLine(r) + CRLF + (RenderHeaders(hs) + rest)
  {
    hide RenderLine, RenderHeaders;
  }

  /** `getHeader`: the value, or the empty string when there is none. */
  function GetHeader(r: Request, field: string): string {
    if field in r.headers then r.headers[field] else ""
  }

  /** So `getHeader` on the parsed request finds the value of every rendered header, and nothing else. */
  lemma GetHeaderFindsRendered(r: Request, hs: Headers, rest: string, chunks: seq<string>, field: string)
    requires WellFormedLine(r) && forall h :: h in hs ==> WellFormedHeader(h)
    requires DistinctNames(hs)
    requires Concat(chunks) == Render(r, hs) + rest
    ensures var o := Feed(Start, chunks);
            && (forall h :: h in hs && h.0 == field ==> GetHeader(o.request, field) == h.1)
            && (GetHeader(o.request, field) != "" ==> exists h :: h in hs && h.0 == field)
  {
    hide Feed, WellFormedLine, WellFormedHeader, DistinctNames, Concat, Render;
    RoundTrip(r, hs, rest, chunks);
    var headers := Feed(Start, chunks).request.headers;
    assert field in headers ==> field in headers.Keys;
  }
}
