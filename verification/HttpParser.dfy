/**
 The in-place request parser of src/http_parser.c: it writes NULs into the buffer it parses,
 and everything it writes lies before the end of the header block.
 */
module HttpParser {
  import opened Common

  /** "\r\n" starts at `i`. */
  predicate CrlfAt(s: string, i: nat) {
    i + 1 < |s| && s[i] == '\r' && s[i + 1] == '\n'
  }

  predicate BlankAt(s: string, i: nat) {
    CrlfAt(s, i) && CrlfAt(s, i + 2)
  }

  /** The header block of `s` ends with the blank line at `e`: the first "\r\n\r\n", and no NUL before it. */
  ghost predicate HeaderEnd(s: string, e: nat) {
    && e + 4 <= |s| && BlankAt(s, e)
    && (forall i :: 0 <= i < e ==> !BlankAt(s, i))
    && (forall i :: 0 <= i < e ==> s[i] != '\0')
  }

  lemma HeaderEndUnique(s: string, e: nat, e': nat)
    requires HeaderEnd(s, e) && HeaderEnd(s, e')
    ensures e == e'
  {
  }

  /** Bytes that arrive later do not move the end of the header block. */
  lemma HeaderEndExtends(s: string, t: string, e: nat)
    requires HeaderEnd(s, e)
    ensures HeaderEnd(s + t, e)
  {
    var u := s + t;
    forall i | 0 <= i < e ensures !BlankAt(u, i) {
      assert BlankAt(u, i) == BlankAt(s, i);
    }
  }

  /** `find_crlf`: the first "\r\n" in [p, end), or end. */
  method FindCrlf(buffer: array<char>, p: nat, end: nat) returns (i: nat)
    requires p <= end <= buffer.Length
    ensures p <= i <= end
    ensures i < end ==> CrlfAt(buffer[..end], i)
    ensures forall j :: p <= j < i ==> !CrlfAt(buffer[..end], j)
  {
    i := p;
    while i + 1 < end
      invariant p <= i <= end && forall j :: p <= j < i ==> !CrlfAt(buffer[..end], j)
    {
      if buffer[i] == '\r' && buffer[i + 1] == '\n' {
        return;
      }
      i := i + 1;
    }
    i := end;
  }

  /** `find_char`: the first `c` in [p, end), or end. */
  method FindChar(buffer: array<char>, p: nat, end: nat, c: char) returns (i: nat)
    requires p <= end <= buffer.Length
    ensures p <= i <= end && (i < end ==> buffer[i] == c) && forall j :: p <= j < i ==> buffer[j] != c
  {
    i := p;
    while i < end && buffer[i] != c
      invariant p <= i <= end && forall j :: p <= j < i ==> buffer[j] != c
    {
      i := i + 1;
    }
  }

  datatype Method = GET | POST | HEAD | UNKNOWN

  /** What the parser reports; header names and values are positions in the buffer, the body is the rest from bodyAt. */
  datatype Request = Request(meth: Method, uriAt: nat, uriEnd: nat, headers: seq<(nat, nat)>, bodyAt: nat)

  datatype Outcome = Malformed | Incomplete | Parsed(request: Request)

  const MAX_HEADERS: nat := 32

  // ---- What a request says ------------------------------------------------------------------------

  function FirstCrlf(s: string, i: nat): (k: nat)
    requires i <= |s|
    ensures i <= k <= |s| && (k < |s| ==> CrlfAt(s, k)) && forall j :: i <= j < k ==> !CrlfAt(s, j)
    decreases |s| - i
  {
    if i == |s| || CrlfAt(s, i) then i else FirstCrlf(s, i + 1)
  }

  /** The first `c` in [i, end), or `end`. */
  function FirstChar(s: string, i: nat, end: nat, c: char): (k: nat)
    requires i <= end <= |s|
    ensures i <= k <= end
    decreases end - i
  {
    if i == end || s[i] == c then i else FirstChar(s, i + 1, end, c)
  }

  function SkipBlanks(s: string, i: nat, end: nat): (k: nat)
    requires i <= end <= |s|
    ensures i <= k <= end && (forall j :: i <= j < k ==> s[j] == ' ' || s[j] == '\t')
    ensures k < end ==> s[k] != ' ' && s[k] != '\t'
    decreases end - i
  {
    if i < end && (s[i] == ' ' || s[i] == '\t') then SkipBlanks(s, i + 1, end) else i
  }

  /** The method a word names; `strcmp` reads it up to a NUL. */
  function MethodOf(text: string): Method {
    var word := CString(text, 0);
    if word == "GET" then GET else if word == "POST" then POST else if word == "HEAD" then HEAD else UNKNOWN
  }

  /** A request line of `n` bytes: method, URI and an acceptable version, split at the first two spaces. */
  function LineOf(s: string, n: nat, versionOk: string -> bool): Option<Request>
    requires n <= |s|
  {
    var a := FirstChar(s, 0, n, ' ');
    if a + 1 >= n then None
    else
      var b := FirstChar(s, a + 1, n, ' ');
      if b + 1 >= n || !versionOk(s[b + 1..n]) then None
      else Some(Request(MethodOf(s[..a]), a + 1, b, [], 0))
  }

  /** The name and the value of a header line that ends at `crlf`; a NUL in it ends it earlier. */
  function HeaderAt(s: string, line: nat, crlf: nat): (h: Option<(nat, nat)>)
    requires line <= crlf <= |s|
    ensures h.Some? ==> h.value.0 == line < h.value.1 <= crlf
  {
    var colon := FirstChar(s, line, FirstChar(s, line, crlf, '\0'), ':');
    if colon < FirstChar(s, line, crlf, '\0') then Some((line, SkipBlanks(s, colon + 1, crlf))) else None
  }

  function AddHeader(s: string, line: nat, crlf: nat, headers: seq<(nat, nat)>): (r: seq<(nat, nat)>)
    requires line <= crlf <= |s|
    ensures headers <= r && (|headers| <= MAX_HEADERS ==> |r| <= MAX_HEADERS)
  {
    var h := HeaderAt(s, line, crlf);
    if |headers| < MAX_HEADERS && h.Some? then headers + [h.value] else headers
  }

  /** The header lines from `line` on, and where the body starts: after an empty line, else nowhere. */
  function HeadersFrom(s: string, line: nat, headers: seq<(nat, nat)>): (r: (seq<(nat, nat)>, nat))
    requires line <= |s|
    ensures headers <= r.0 && line <= r.1 <= |s| && (|headers| <= MAX_HEADERS ==> |r.0| <= MAX_HEADERS)
    decreases |s| - line
  {
    var crlf := FirstCrlf(s, line);
    if crlf == |s| then (headers, |s|)
    else if crlf == line || s[line] == '\0' then (headers, crlf + 2)
    else HeadersFrom(s, crlf + 2, AddHeader(s, line, crlf, headers))
  }

  /** What `http_parse_request` makes of `s`. */
  function RequestOf(s: string, versionOk: string -> bool): Outcome {
    var crlf := FirstCrlf(s, 0);
    if s == "" then Malformed
    else if crlf == |s| then Incomplete
    else match LineOf(s, crlf, versionOk)
      case None => Malformed
      case Some(r) => var h := HeadersFrom(s, crlf + 2, []); Parsed(r.(headers := h.0, bodyAt := h.1))
  }

  // ---- The parser -----------------------------------------------------------------------------------

  /** Only bytes of [lo, hi) may differ. */
  twostate predicate OnlyWithin(buffer: array<char>, lo: nat, hi: nat)
    reads buffer
  {
    forall i :: 0 <= i < buffer.Length && !(lo <= i < hi) ==> buffer[i] == old(buffer[i])
  }

  lemma {:induction false} FirstCharIs(s: string, i: nat, end: nat, c: char, k: nat)
    requires i <= k <= end <= |s| && (k < end ==> s[k] == c) && forall j :: i <= j < k ==> s[j] != c
    ensures FirstChar(s, i, end, c) == k
    decreases k - i
  {
    if i < k {
      FirstCharIs(s, i + 1, end, c, k);
    }
  }

  lemma {:induction false} FirstCharMeans(s: string, i: nat, end: nat, c: char)
    requires i <= end <= |s|
    ensures var k := FirstChar(s, i, end, c); (k < end ==> s[k] == c) && forall j :: i <= j < k ==> s[j] != c
    decreases end - i
  {
    if i < end && s[i] != c {
      FirstCharMeans(s, i + 1, end, c);
    }
  }

  lemma FirstCrlfIs(s: string, i: nat, k: nat)
    requires i <= k <= |s| && (k < |s| ==> CrlfAt(s, k)) && forall j :: i <= j < k ==> !CrlfAt(s, j)
    ensures FirstCrlf(s, i) == k
  {
  }

  /** `parse_request_line` on buffer[..n]; `versionOk` is what sscanf makes of the third word. */
  method ParseRequestLine(buffer: array<char>, n: nat, versionOk: string -> bool) returns (r: Option<Request>)
    requires n <= buffer.Length
    modifies buffer
    ensures OnlyWithin(buffer, 0, n)
    ensures r == LineOf(old(buffer[..]), n, versionOk)
  {
    ghost var s := buffer[..];
    var sp1 := FindChar(buffer, 0, n, ' ');
    FirstCharIs(s, 0, n, ' ', sp1);
    if sp1 == n {
      return None;
    }
    buffer[sp1] := '\0';
    var m := MethodOf(buffer[..sp1]);
    assert buffer[..sp1] == s[..sp1];
    var uriAt := sp1 + 1;
    if uriAt >= n {
      return None;
    }
    ghost var t := buffer[..];
    var sp2, ok := SplitTarget(buffer, uriAt, n, versionOk);
    assert forall j :: uriAt <= j < n ==> t[j] == s[j];
    FirstCharIs(s, uriAt, n, ' ', sp2);
    assert sp2 + 1 < n ==> t[sp2 + 1..n] == s[sp2 + 1..n];
    r := if ok then Some(Request(m, uriAt, sp2, [], 0)) else None;
  }

  /** The URI from `uriAt` on is terminated at the space behind it, and what is left must be the version. */
  method SplitTarget(buffer: array<char>, uriAt: nat, n: nat, versionOk: string -> bool) returns (sp2: nat, ok: bool)
    requires uriAt < n <= buffer.Length
    modifies buffer
    ensures OnlyWithin(buffer, uriAt, n) && uriAt <= sp2 <= n && (sp2 < n ==> old(buffer[sp2]) == ' ')
    ensures forall j :: uriAt <= j < sp2 ==> old(buffer[j]) != ' '
    ensures ok <==> sp2 + 1 < n && versionOk(old(buffer[..])[sp2 + 1..n])
  {
    sp2 := FindChar(buffer, uriAt, n, ' ');
    ok := false;
    if sp2 < n {
      ok := CheckVersion(buffer, sp2, n, versionOk);
    }
  }

  /** The URI is terminated at `sp2`, and what is left of the line must be the version. */
  method CheckVersion(buffer: array<char>, sp2: nat, n: nat, versionOk: string -> bool) returns (ok: bool)
    requires sp2 < n <= buffer.Length
    modifies buffer
    ensures OnlyWithin(buffer, sp2, sp2 + 1)
    ensures ok <==> sp2 + 1 < n && versionOk(old(buffer[..])[sp2 + 1..n])
  {
    ghost var s := buffer[..];
    buffer[sp2] := '\0';
    assert buffer[sp2 + 1..n] == s[sp2 + 1..n];
    ok := sp2 + 1 < n && versionOk(buffer[sp2 + 1..n]);
  }

  /** `parse_header_line` on the line [line, crlf), already terminated at crlf. */
  method ParseHeaderLine(buffer: array<char>, line: nat, crlf: nat, headers: seq<(nat, nat)>)
    returns (h: seq<(nat, nat)>)
    requires line <= crlf < buffer.Length && buffer[crlf] == '\0'
    modifies buffer
    ensures OnlyWithin(buffer, line, crlf)
    ensures h == AddHeader(old(buffer[..]), line, crlf, headers)
  {
    if |headers| >= MAX_HEADERS {
      return headers;
    }
    ghost var s := buffer[..];
    var colon := line;
    while buffer[colon] != ':' && buffer[colon] != '\0'
      invariant line <= colon <= crlf && forall j :: line <= j < colon ==> s[j] != ':' && s[j] != '\0'
      decreases crlf - colon
    {
      colon := colon + 1;
    }
    ColonIs(s, line, crlf, colon);
    if buffer[colon] == '\0' {
      return headers;
    }
    buffer[colon] := '\0';
    var value := colon + 1;
    while buffer[value] == ' ' || buffer[value] == '\t'
      invariant colon < value <= crlf && SkipBlanks(s, colon + 1, crlf) == SkipBlanks(s, value, crlf)
      decreases crlf - value
    {
      value := value + 1;
    }
    h := headers + [(line, value)];
  }

  lemma ColonIs(s: string, line: nat, crlf: nat, k: nat)
    requires line <= k <= crlf < |s| && s[crlf] == '\0' && (s[k] == ':' || s[k] == '\0')
    requires forall j :: line <= j < k ==> s[j] != ':' && s[j] != '\0'
    ensures s[k] == '\0' ==> HeaderAt(s, line, crlf) == None
    ensures s[k] == ':' ==> HeaderAt(s, line, crlf) == Some((line, SkipBlanks(s, k + 1, crlf)))
  {
    if s[k] == '\0' {
      FirstCharIs(s, line, crlf, '\0', k);
      FirstCharIs(s, line, k, ':', k);
    } else {
      ColonFound(s, line, crlf, k);
    }
  }

  lemma ColonFound(s: string, line: nat, crlf: nat, k: nat)
    requires line <= k < crlf < |s| && s[k] == ':' && forall j :: line <= j < k ==> s[j] != ':' && s[j] != '\0'
    ensures HeaderAt(s, line, crlf) == Some((line, SkipBlanks(s, k + 1, crlf)))
  {
    var end := FirstChar(s, line, crlf, '\0');
    assert k < end by { FirstCharMeans(s, line, crlf, '\0'); }
    FirstCharIs(s, line, end, ':', k);
  }

  /** Only the bytes of the line matter. */
  lemma {:induction false} FirstCharSame(s: string, t: string, i: nat, end: nat, c: char)
    requires i <= end <= |s| && end <= |t| && forall j :: i <= j < end ==> s[j] == t[j]
    ensures FirstChar(s, i, end, c) == FirstChar(t, i, end, c)
  {
    FirstCharMeans(s, i, end, c);
    FirstCharIs(t, i, end, c, FirstChar(s, i, end, c));
  }

  lemma {:induction false} SkipBlanksSame(s: string, t: string, i: nat, end: nat)
    requires i <= end <= |s| && end <= |t| && forall j :: i <= j < end ==> s[j] == t[j]
    ensures SkipBlanks(s, i, end) == SkipBlanks(t, i, end)
    decreases end - i
  {
    if i < end {
      SkipBlanksSame(s, t, i + 1, end);
    }
  }

  lemma AddHeaderSame(s: string, t: string, line: nat, crlf: nat, headers: seq<(nat, nat)>)
    requires line <= crlf <= |s| && crlf <= |t| && forall j :: line <= j < crlf ==> s[j] == t[j]
    ensures AddHeader(s, line, crlf, headers) == AddHeader(t, line, crlf, headers)
  {
    FirstCharSame(s, t, line, crlf, '\0');
    var end := FirstChar(s, line, crlf, '\0');
    FirstCharSame(s, t, line, end, ':');
    var colon := FirstChar(s, line, end, ':');
    if colon < end {
      SkipBlanksSame(s, t, colon + 1, crlf);
    }
  }

  /** One pass of the header loop of `http_parse_request`: the line at `line` is terminated and judged. */
  method ParseOneLine(buffer: array<char>, length: nat, line: nat, headers: seq<(nat, nat)>, ghost s: string)
    returns (h: seq<(nat, nat)>, next: nat, done: bool)
    requires line < length == |s| <= buffer.Length && forall i :: line <= i < |s| ==> buffer[i] == s[i]
    modifies buffer
    ensures line < next <= length && OnlyWithin(buffer, line, next)
    ensures HeadersFrom(s, line, headers) == if done then (h, next) else HeadersFrom(s, next, h)
  {
    var crlf := FindCrlf(buffer, line, length);
    CrlfIs(buffer[..length], s, line, crlf);
    HeadersStep(s, line, headers, crlf);
    if crlf == length {
      return headers, length, true;
    }
    buffer[crlf] := '\0';
    if buffer[line] == '\0' {
      return headers, crlf + 2, true;
    }
    AddHeaderSame(buffer[..], s, line, crlf, headers);
    h := ParseHeaderLine(buffer, line, crlf, headers);
    next, done := crlf + 2, false;
  }

  /** The header loop, on what follows the request line. */
  method ParseHeaders(buffer: array<char>, length: nat, start: nat, ghost s: string)
    returns (headers: seq<(nat, nat)>, bodyAt: nat)
    requires start <= length == |s| <= buffer.Length && forall i :: start <= i < |s| ==> buffer[i] == s[i]
    modifies buffer
    ensures (headers, bodyAt) == HeadersFrom(s, start, []) && bodyAt <= length
    ensures OnlyWithin(buffer, start, bodyAt)
  {
    headers, bodyAt := [], start;
    while bodyAt < length
      invariant start <= bodyAt <= length && HeadersFrom(s, start, []) == HeadersFrom(s, bodyAt, headers)
      invariant OnlyWithin(buffer, start, bodyAt)
      decreases length - bodyAt
    {
      var done;
      headers, bodyAt, done := ParseOneLine(buffer, length, bodyAt, headers, s);
      if done {
        return;
      }
    }
  }

  lemma HeadersStep(s: string, line: nat, headers: seq<(nat, nat)>, crlf: nat)
    requires line <= |s| && crlf == FirstCrlf(s, line)
    ensures HeadersFrom(s, line, headers) ==
            if crlf == |s| then (headers, |s|)
            else if crlf == line || s[line] == '\0' then (headers, crlf + 2)
            else HeadersFrom(s, crlf + 2, AddHeader(s, line, crlf, headers))
  {
  }

  lemma CrlfIs(b: string, s: string, line: nat, k: nat)
    requires line <= k <= |s| == |b| && forall i :: line <= i < |s| ==> b[i] == s[i]
    requires (k < |s| ==> CrlfAt(b, k)) && forall j :: line <= j < k ==> !CrlfAt(b, j)
    ensures FirstCrlf(s, line) == k
  {
    forall j | line <= j < k ensures !CrlfAt(s, j) {
      assert !CrlfAt(b, j);
    }
    FirstCrlfIs(s, line, k);
  }

  /**
   `http_parse_request`. Whatever it makes of the buffer, it writes nothing behind the request
   line unless that is well formed, and nothing of the body.
   */
  method ParseRequest(buffer: array<char>, length: nat, versionOk: string -> bool) returns (r: Outcome)
    requires length <= buffer.Length
    modifies buffer
    ensures r == RequestOf(old(buffer[..length]), versionOk)
    ensures OnlyWithin(buffer, 0, if r.Parsed? then r.request.bodyAt else FirstCrlf(old(buffer[..length]), 0) + 1)
  {
    if length == 0 {
      return Malformed;
    }
    ghost var s := buffer[..length];
    var crlf := FindCrlf(buffer, 0, length);
    CrlfIs(buffer[..length], s, 0, crlf);
    if crlf == length {
      return Incomplete;
    }
    buffer[crlf] := '\0';
    LineSame(buffer[..], s, crlf, versionOk);
    var line := ParseRequestLine(buffer, crlf, versionOk);
    if line.None? {
      return Malformed;
    }
    var headers, bodyAt := ParseHeaders(buffer, length, crlf + 2, s);
    r := Parsed(line.value.(headers := headers, bodyAt := bodyAt));
  }

  lemma LineSame(b: string, s: string, n: nat, versionOk: string -> bool)
    requires n <= |s| && n <= |b| && b[..n] == s[..n]
    ensures LineOf(b, n, versionOk) == LineOf(s, n, versionOk)
  {
    assert forall j :: 0 <= j < n ==> b[j] == b[..n][j] == s[j];
    FirstCharSame(b, s, 0, n, ' ');
    var a := FirstChar(s, 0, n, ' ');
    if a + 1 < n {
      FirstCharSame(b, s, a + 1, n, ' ');
      var c := FirstChar(s, a + 1, n, ' ');
      assert b[..a] == s[..a];
      if c + 1 < n {
        assert b[c + 1..n] == s[c + 1..n];
      }
    }
  }

  // ---- What the request means -------------------------------------------------------------------------

  /**
   A request line made of a method, a URI and a version is split back into them, exactly when the version is
   accepted.
   */
  lemma LineRoundTrip(m: string, u: string, v: string, rest: string, versionOk: string -> bool)
    requires ' ' !in m && ' ' !in u && '\0' !in m && v != ""
    ensures var line := m + " " + u + " " + v; var r := LineOf(line + rest, |line|, versionOk);
      if !versionOk(v) then r == None
      else
        && r.Some? && r.value.uriAt == |m| + 1 && r.value.uriEnd == |m| + 1 + |u|
        && (r.value.meth == GET <==> m == "GET") && (r.value.meth == POST <==> m == "POST")
        && (r.value.meth == HEAD <==> m == "HEAD")
  {
    var line := m + " " + u + " " + v;
    var s, n, a, b := line + rest, |line|, |m|, |m| + 1 + |u|;
    assert s[..a] == m && s[a] == ' ' && s[a + 1..b] == u && s[b] == ' ' && s[b + 1..n] == v;
    assert forall j :: 0 <= j < a ==> s[j] == m[j];
    assert forall j :: a + 1 <= j < b ==> s[j] == u[j - (a + 1)];
    FirstCharIs(s, 0, n, ' ', a);
    FirstCharIs(s, a + 1, n, ' ', b);
    CStringIs(m, 0, m);
  }

  /** A line that is neither the last nor empty is followed by the rest of the block. */
  lemma HeadersGoOn(s: string, line: nat, headers: seq<(nat, nat)>, crlf: nat)
    requires line <= |s| && crlf == FirstCrlf(s, line) < |s| && crlf != line && s[line] != '\0'
    ensures HeadersFrom(s, line, headers) == HeadersFrom(s, crlf + 2, AddHeader(s, line, crlf, headers))
  {
  }

  lemma HeadersStop(s: string, line: nat, headers: seq<(nat, nat)>, crlf: nat)
    requires line <= |s| && crlf == FirstCrlf(s, line) && (crlf == |s| || crlf == line || s[line] == '\0')
    ensures HeadersFrom(s, line, headers) == (headers, if crlf == |s| then |s| else crlf + 2)
  {
  }

  /** The body starts right after the first blank line of a complete header block. */
  lemma {:induction false} BodyAfterBlankLine(s: string, e: nat, line: nat, headers: seq<(nat, nat)>,
                                              r: (seq<(nat, nat)>, nat))
    requires HeaderEnd(s, e) && 2 <= line && CrlfAt(s, line - 2) && (line <= e || line == e + 2)
    requires r == HeadersFrom(s, line, headers)
    ensures r.1 == e + 4
    decreases |s| - line
  {
    if line <= e {
      var crlf := LineInBlock(s, e, line);
      HeadersGoOn(s, line, headers, crlf);
      var next := AddHeader(s, line, crlf, headers);
      BodyAfterBlankLine(s, e, crlf + 2, next, r);
    } else {
      BlankLineEnds(s, line, headers);
    }
  }

  lemma BlankLineEnds(s: string, line: nat, headers: seq<(nat, nat)>)
    requires CrlfAt(s, line)
    ensures HeadersFrom(s, line, headers).1 == line + 2
  {
    FirstCrlfIs(s, line, line);
    HeadersStop(s, line, headers, line);
  }

  /** A line of the block ends at or before the blank line. */
  lemma LineInBlock(s: string, e: nat, line: nat) returns (crlf: nat)
    requires HeaderEnd(s, e) && 2 <= line <= e && CrlfAt(s, line - 2)
    ensures crlf == FirstCrlf(s, line)
    ensures line < crlf < |s| && CrlfAt(s, crlf) && s[line] != '\0' && (crlf + 2 <= e || crlf + 2 == e + 2)
  {
    crlf := FirstCrlf(s, line);
    assert CrlfAt(s, e);
    LineStart(s, e, crlf);
    assert !BlankAt(s, line - 2);
  }

  lemma CompleteRequest(s: string, e: nat, versionOk: string -> bool)
    requires HeaderEnd(s, e)
    ensures FirstCrlf(s, 0) <= e && !RequestOf(s, versionOk).Incomplete?
    ensures RequestOf(s, versionOk).Parsed? <==> LineOf(s, FirstCrlf(s, 0), versionOk).Some?
    ensures RequestOf(s, versionOk).Parsed? ==> RequestOf(s, versionOk).request.bodyAt == e + 4
  {
    var crlf := FirstCrlf(s, 0);
    assert CrlfAt(s, e);
    LineStart(s, e, crlf);
    BodyAfterBlankLine(s, e, crlf + 2, [], HeadersFrom(s, crlf + 2, []));
  }

  /** `h` names a line of `s` that starts at `h.0`, has a colon, and a value at `h.1` after the blanks behind it. */
  ghost predicate IsHeader(s: string, h: (nat, nat)) {
    exists c ::
      && h.0 <= c < h.1 <= |s| && s[c] == ':' && ':' !in s[h.0..c]
      && forall j :: c < j < h.1 ==> s[j] == ' ' || s[j] == '\t'
  }

  lemma HeaderAtIs(s: string, line: nat, crlf: nat)
    requires line <= crlf <= |s| && HeaderAt(s, line, crlf).Some?
    ensures IsHeader(s, HeaderAt(s, line, crlf).value)
  {
    var c := FirstChar(s, line, FirstChar(s, line, crlf, '\0'), ':');
    FirstCharMeans(s, line, FirstChar(s, line, crlf, '\0'), ':');
    assert s[c] == ':' && ':' !in s[line..c];
  }

  /** `h[k]` is a header line at `line` or after a line end behind it, and comes after `h[k - 1]`. */
  ghost predicate SoundAt(s: string, line: nat, before: nat, h: seq<(nat, nat)>, k: nat)
    requires k < |h|
  {
    && IsHeader(s, h[k]) && line <= h[k].0 && (h[k].0 == line || (2 <= h[k].0 && CrlfAt(s, h[k].0 - 2)))
    && (k > before ==> h[k - 1].0 < h[k].0)
  }

  /** Every header reported is a line of the block with its name and value, in the order of the lines. */
  lemma {:induction false} HeadersSound(s: string, line: nat, headers: seq<(nat, nat)>, k: nat)
    requires line <= |s| && |headers| <= k < |HeadersFrom(s, line, headers).0|
    ensures SoundAt(s, line, |headers|, HeadersFrom(s, line, headers).0, k)
    decreases |s| - line
  {
    var crlf := FirstCrlf(s, line);
    if crlf < |s| && crlf != line && s[line] != '\0' {
      var next := AddHeader(s, line, crlf, headers);
      var h := HeadersFrom(s, crlf + 2, next).0;
      HeadersGoOn(s, line, headers, crlf);
      if k < |next| {
        SoundHere(s, line, crlf, headers, h, k);
      } else {
        HeadersSound(s, crlf + 2, next, k);
        SoundOn(s, line, crlf, headers, h, k);
      }
    }
  }

  lemma SoundHere(s: string, line: nat, crlf: nat, headers: seq<(nat, nat)>, h: seq<(nat, nat)>, k: nat)
    requires line <= crlf <= |s| && AddHeader(s, line, crlf, headers) <= h
    requires |headers| <= k < |AddHeader(s, line, crlf, headers)|
    ensures SoundAt(s, line, |headers|, h, k)
  {
    HeaderAtIs(s, line, crlf);
    assert h[k] == AddHeader(s, line, crlf, headers)[k];
  }

  lemma SoundOn(s: string, line: nat, crlf: nat, headers: seq<(nat, nat)>, h: seq<(nat, nat)>, k: nat)
    requires line <= crlf && CrlfAt(s, crlf) && AddHeader(s, line, crlf, headers) <= h
    requires |AddHeader(s, line, crlf, headers)| <= k < |h|
    requires SoundAt(s, crlf + 2, |AddHeader(s, line, crlf, headers)|, h, k)
    ensures SoundAt(s, line, |headers|, h, k)
  {
    var next := AddHeader(s, line, crlf, headers);
    if k == |next| > |headers| {
      assert h[k - 1] == next[k - 1];
    }
  }

  /** Until 32 are reported, no line with a colon is left out. */
  lemma HeadersComplete(s: string, line: nat, headers: seq<(nat, nat)>, p: nat)
    requires 2 <= line <= p <= |s| && CrlfAt(s, line - 2) && CrlfAt(s, p - 2) && p + 2 < HeadersFrom(s, line, headers).1
    requires FirstCrlf(s, p) < |s| && HeaderAt(s, p, FirstCrlf(s, p)).Some?
      && |HeadersFrom(s, line, headers).0| < MAX_HEADERS
    ensures HeaderAt(s, p, FirstCrlf(s, p)).value in HeadersFrom(s, line, headers).0
  {
    LineReported(s, line, headers, p, HeadersFrom(s, line, headers));
  }

  /** The block read from `line` on with result `r` holds the line at `p`, and there is room to report it. */
  ghost predicate Holds(s: string, line: nat, headers: seq<(nat, nat)>, p: nat, r: (seq<(nat, nat)>, nat)) {
    && 2 <= line <= p <= |s| && CrlfAt(s, line - 2) && CrlfAt(s, p - 2)
    && r == HeadersFrom(s, line, headers) && p + 2 < r.1 && |r.0| < MAX_HEADERS
    && FirstCrlf(s, p) < |s| && HeaderAt(s, p, FirstCrlf(s, p)).Some?
  }

  lemma {:induction false} LineReported(s: string, line: nat, headers: seq<(nat, nat)>, p: nat,
                                        r: (seq<(nat, nat)>, nat))
    requires Holds(s, line, headers, p, r)
    ensures HeaderAt(s, p, FirstCrlf(s, p)).value in r.0
    decreases |s| - line
  {
    var crlf := LineGoesOn(s, line, headers, p, r);
    HeadersGoOn(s, line, headers, crlf);
    if p > line {
      LineReported(s, crlf + 2, AddHeader(s, line, crlf, headers), p, r);
    } else {
      AddedIsKept(s, line, crlf, headers);
    }
  }

  /** The block does not end before a line that it holds. */
  lemma LineGoesOn(s: string, line: nat, headers: seq<(nat, nat)>, p: nat, r: (seq<(nat, nat)>, nat))
    returns (crlf: nat)
    requires Holds(s, line, headers, p, r)
    ensures crlf == FirstCrlf(s, line) < |s| && crlf != line && s[line] != '\0'
    ensures p > line ==> Holds(s, crlf + 2, AddHeader(s, line, crlf, headers), p, r)
  {
    crlf := FirstCrlf(s, line);
    NoLineBetween(s, line, crlf, p);
    StopMeans(s, line, headers);
    HeaderIsLine(s, p, FirstCrlf(s, p));
    GoOnMeans(s, line, headers);
  }

  lemma GoOnMeans(s: string, line: nat, headers: seq<(nat, nat)>)
    requires line <= |s|
    ensures var crlf := FirstCrlf(s, line);
            crlf < |s| && crlf != line && s[line] != '\0' ==>
              HeadersFrom(s, line, headers) == HeadersFrom(s, crlf + 2, AddHeader(s, line, crlf, headers))
  {
  }

  lemma StopMeans(s: string, line: nat, headers: seq<(nat, nat)>)
    requires line <= |s|
    ensures var crlf := FirstCrlf(s, line);
            crlf < |s| && (crlf == line || s[line] == '\0') ==> HeadersFrom(s, line, headers).1 == crlf + 2
  {
  }

  lemma HeaderIsLine(s: string, line: nat, crlf: nat)
    requires line <= crlf <= |s| && HeaderAt(s, line, crlf).Some?
    ensures line < crlf && s[line] != '\0'
  {
    assert FirstChar(s, line, crlf, '\0') > line;
  }

  lemma AddedIsKept(s: string, line: nat, crlf: nat, headers: seq<(nat, nat)>)
    requires line <= crlf && crlf + 2 <= |s| && HeaderAt(s, line, crlf).Some? && |headers| < MAX_HEADERS
    ensures HeaderAt(s, line, crlf).value in HeadersFrom(s, crlf + 2, AddHeader(s, line, crlf, headers)).0
  {
    var next := AddHeader(s, line, crlf, headers);
    assert HeadersFrom(s, crlf + 2, next).0[|headers|] == next[|headers|];
  }

  /** No line starts between `line` and the end of its line. */
  lemma NoLineBetween(s: string, line: nat, crlf: nat, p: nat)
    requires 2 <= line <= p <= |s| && CrlfAt(s, line - 2) && CrlfAt(s, p - 2) && crlf == FirstCrlf(s, line)
    ensures p == line || (crlf < |s| && crlf + 2 <= p)
  {
    if p > line {
      assert p - 2 != line - 1;
      assert p - 2 >= line && !(p - 2 < crlf);
    }
  }

  /** A line that follows a CRLF at or before the blank line starts before it, or is the blank line. */
  lemma LineStart(s: string, e: nat, crlf: nat)
    requires HeaderEnd(s, e) && crlf <= e && CrlfAt(s, crlf)
    ensures crlf + 2 <= e || crlf + 2 == e + 2
  {
    assert s[e] != s[crlf + 1];
  }
}
