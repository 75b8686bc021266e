/**
 The upload path of src/http_server.c: a POST to /api/upload whose header block and body
 arrive in any pieces, with the first body bytes taken from the buffer the header was parsed in.
 */
module HttpUpload {
  import opened Common
  import opened HttpParser

  const BUFFER_SIZE: nat := 8192
  const METHOD_CAP: nat := 8
  const URI_CAP: nat := 2048
  const SIZE_WRAP: nat := 0x1_0000_0000_0000_0000

  // ---- Content-Length ---------------------------------------------------------------------------

  predicate IsBlank(c: char) {
    c == ' ' || c == '\t'
  }

  predicate IsDigit(c: char) {
    '0' <= c <= '9'
  }

  function Lower(c: char): char {
    if 'A' <= c <= 'Z' then (c as int + 32) as char else c
  }

  const LENGTH_NAME: string := "content-length:"

  /** `strncasecmp(p, "Content-Length:", 15) == 0` at position `p`. */
  predicate NamesLength(s: string, p: nat) {
    p + 15 <= |s| && forall i :: 0 <= i < 15 ==> Lower(s[p + i]) == LENGTH_NAME[i]
  }

  function SkipWhile(s: string, i: nat, f: char -> bool): (j: nat)
    requires i <= |s|
    ensures i <= j <= |s| && (forall k :: i <= k < j ==> f(s[k])) && (j < |s| ==> !f(s[j]))
    decreases |s| - i
  {
    if i < |s| && f(s[i]) then SkipWhile(s, i + 1, f) else i
  }

  lemma SkipTo(s: string, i: nat, k: nat, f: char -> bool)
    requires i <= k <= |s| && (forall j :: i <= j < k ==> f(s[j])) && (k < |s| ==> !f(s[k]))
    ensures SkipWhile(s, i, f) == k
  {
  }

  function DigitValue(c: char): nat
    requires IsDigit(c)
  {
    c as int - '0' as int
  }

  /** The decimal digits from `i` on, after the digits worth `acc`. */
  function Digits(s: string, i: nat, acc: nat): nat
    requires i <= |s|
    decreases |s| - i
  {
    if i < |s| && IsDigit(s[i]) then Digits(s, i + 1, 10 * acc + DigitValue(s[i])) else acc
  }

  /** `strtoull` in base 10: white space, a sign, digits; a number too large saturates, '-' wraps. */
  function Strtoull(s: string, v: nat): (r: nat)
    requires v <= |s|
    ensures r < SIZE_WRAP
  {
    var j := SkipWhile(s, v, IsSpace);
    var signed := j < |s| && (s[j] == '-' || s[j] == '+');
    var n := Digits(s, if signed then j + 1 else j, 0);
    if n >= SIZE_WRAP then SIZE_WRAP - 1
    else if signed && s[j] == '-' then (SIZE_WRAP - n) % SIZE_WRAP
    else n
  }

  /** The value of the Content-Length line that starts at `p`. */
  function LengthAt(s: string, p: nat): nat
    requires NamesLength(s, p)
  {
    Strtoull(s, SkipWhile(s, p + 15, IsBlank))
  }

  /** `p` starts a line after the first one. */
  predicate StartsLine(s: string, p: nat) {
    2 <= p && CrlfAt(s, p - 2)
  }

  /** Where the last Content-Length line that starts before `q` starts, or -1. */
  function LastLength(s: string, q: nat): (p: int)
    ensures -1 <= p < q || p == -1
    ensures 0 <= p ==> StartsLine(s, p) && NamesLength(s, p)
  {
    if q == 0 then -1
    else if StartsLine(s, q - 1) && NamesLength(s, q - 1) then q - 1
    else LastLength(s, q - 1)
  }

  /** No Content-Length line starts behind the last one. */
  lemma {:induction false} LastIsLast(s: string, q: nat, i: nat)
    requires LastLength(s, q) < i < q
    ensures !(StartsLine(s, i) && NamesLength(s, i))
  {
    if i < q - 1 {
      LastIsLast(s, q - 1, i);
    }
  }

  /** The content length of a request whose header block ends at `e`: the last line that names it wins. */
  function ContentLength(s: string, e: nat): (n: nat)
    ensures n < SIZE_WRAP
  {
    var p := LastLength(s, e);
    if p < 0 then 0 else LengthAt(s, p)
  }

  /** Decimal notation. */
  function Decimal(n: nat): string {
    (if n < 10 then "" else Decimal(n / 10)) + [('0' as int + n % 10) as char]
  }

  function Worth(d: string, acc: nat): nat
    requires forall c :: c in d ==> IsDigit(c)
  {
    if d == "" then acc else 10 * Worth(d[..|d| - 1], acc) + DigitValue(d[|d| - 1])
  }

  lemma {:induction false} WorthDecimal(n: nat)
    ensures (forall c :: c in Decimal(n) ==> IsDigit(c)) && Worth(Decimal(n), 0) == n
  {
    var d := Decimal(n);
    var c := ('0' as int + n % 10) as char;
    assert DigitValue(c) == n % 10;
    if n >= 10 {
      WorthDecimal(n / 10);
      assert d[..|d| - 1] == Decimal(n / 10);
    } else {
      assert d == [c] && d[..|d| - 1] == "";
    }
  }

  lemma {:induction false} DigitsOver(s: string, i: nat, d: string)
    requires i + |d| <= |s| && s[i..i + |d|] == d && forall c :: c in d ==> IsDigit(c)
    ensures Digits(s, i, 0) == Digits(s, i + |d|, Worth(d, 0))
  {
    if d != "" {
      var d0 := d[..|d| - 1];
      assert s[i..i + |d0|] == d0;
      DigitsOver(s, i, d0);
      assert s[i + |d0|] == d[|d| - 1];
    }
  }

  predicate WrittenAt(s: string, v: nat, d: string) {
    v + |d| < |s| && s[v..v + |d|] == d && s[v + |d|] == '\r'
  }

  lemma StrtoullOf(s: string, v: nat, d: string)
    requires WrittenAt(s, v, d) && d != "" && forall c :: c in d ==> IsDigit(c)
    ensures !IsSpace(s[v])
    ensures Strtoull(s, v) == if Worth(d, 0) < SIZE_WRAP then Worth(d, 0) else SIZE_WRAP - 1
  {
    assert s[v] == d[0] && d[0] in d;
    SkipTo(s, v, v, IsSpace);
    DigitsOver(s, v, d);
  }

  /** A length written in decimal is read back, up to the largest `size_t`. */
  lemma LengthRoundTrip(s: string, p: nat, v: nat, n: nat)
    requires NamesLength(s, p) && p + 15 <= v && WrittenAt(s, v, Decimal(n))
    requires forall i :: p + 15 <= i < v ==> IsBlank(s[i])
    ensures LengthAt(s, p) == if n < SIZE_WRAP then n else SIZE_WRAP - 1
  {
    WorthDecimal(n);
    StrtoullOf(s, v, Decimal(n));
    SkipTo(s, p + 15, v, IsBlank);
  }

  // ---- What the length depends on -----------------------------------------------------------------

  /** The last Content-Length line of the header block is followed by something other than white space. */
  predicate Settled(h: string, e: nat) {
    var p := LastLength(h, e);
    p < 0 || exists k :: p + 15 <= k < e && k < |h| && !IsSpace(h[k])
  }

  lemma NameInside(h: string, e: nat, p: nat)
    requires HeaderEnd(h, e) && p < e && NamesLength(h, p)
    ensures p + 15 <= e
  {
    forall i | p <= i < p + 15 ensures h[i] != '\r' {
      assert Lower(h[p + (i - p)]) == LENGTH_NAME[i - p];
    }
  }

  lemma NameExtends(h: string, t: string, e: nat, p: nat)
    requires HeaderEnd(h, e) && p < e
    ensures NamesLength(h + t, p) == NamesLength(h, p)
  {
    HeaderEndExtends(h, t, e);
    if NamesLength(h + t, p) {
      NameInside(h + t, e, p);
      forall i | 0 <= i < 15 ensures Lower(h[p + i]) == LENGTH_NAME[i] {
        assert (h + t)[p + i] == h[p + i];
      }
    }
  }

  lemma {:induction false} LastExtends(h: string, t: string, e: nat, q: nat)
    requires HeaderEnd(h, e) && q <= e
    ensures LastLength(h + t, q) == LastLength(h, q)
  {
    if q > 0 {
      NameExtends(h, t, e, q - 1);
      LastExtends(h, t, e, q - 1);
    }
  }

  lemma {:induction false} SkipExtends(h: string, t: string, i: nat, k: nat, f: char -> bool)
    requires i <= k < |h| && !f(h[k])
    ensures SkipWhile(h + t, i, f) == SkipWhile(h, i, f) <= k
    decreases k - i
  {
    if i < k {
      SkipExtends(h, t, i + 1, k, f);
    }
  }

  lemma {:induction false} DigitsExtends(h: string, t: string, i: nat, k: nat, acc: nat)
    requires i <= k < |h| && !IsDigit(h[k])
    ensures Digits(h + t, i, acc) == Digits(h, i, acc)
    decreases k - i
  {
    if i < k && IsDigit(h[i]) {
      DigitsExtends(h, t, i + 1, k, 10 * acc + DigitValue(h[i]));
    }
  }

  lemma StrtoullExtends(h: string, t: string, v: nat, k: nat, e: nat)
    requires v <= k < e < |h| && !IsSpace(h[k]) && h[e] == '\r'
    ensures Strtoull(h + t, v) == Strtoull(h, v)
  {
    SkipExtends(h, t, v, k, IsSpace);
    var j := SkipWhile(h, v, IsSpace);
    DigitsExtends(h, t, j, e, 0);
    DigitsExtends(h, t, j + 1, e, 0);
  }

  lemma LengthExtends(h: string, t: string, p: nat, k: nat, e: nat)
    requires NamesLength(h, p) && NamesLength(h + t, p) && p + 15 <= k < e < |h| && !IsSpace(h[k]) && h[e] == '\r'
    ensures LengthAt(h + t, p) == LengthAt(h, p)
  {
    SkipExtends(h, t, p + 15, k, IsBlank);
    StrtoullExtends(h, t, SkipWhile(h, p + 15, IsBlank), k, e);
  }

  lemma SettledExtends(h: string, t: string, e: nat)
    requires HeaderEnd(h, e) && Settled(h, e)
    ensures ContentLength(h + t, e) == ContentLength(h, e)
  {
    LastExtends(h, t, e, e);
    var p := LastLength(h, e);
    if p >= 0 {
      var k :| p + 15 <= k < e && !IsSpace(h[k]);
      NameExtends(h, t, e, p);
      LengthExtends(h, t, p, k, e);
    }
  }

  lemma SpacesToEnd(s: string, p: nat)
    requires NamesLength(s, p) && forall k :: p + 15 <= k < |s| ==> IsSpace(s[k])
    ensures LengthAt(s, p) == 0
  {
    assert SkipWhile(s, SkipWhile(s, p + 15, IsBlank), IsSpace) == |s|;
  }

  lemma SpacesThenFive(s: string, p: nat)
    requires NamesLength(s, p) && s[|s| - 1] == '5' && p + 15 < |s|
    requires forall k :: p + 15 <= k < |s| - 1 ==> IsSpace(s[k])
    ensures LengthAt(s, p) == 5
  {
    assert SkipWhile(s, SkipWhile(s, p + 15, IsBlank), IsSpace) == |s| - 1;
    assert Digits(s, |s| - 1, 0) == Digits(s, |s|, 5) == 5;
  }

  /**
   The length is fixed by the header block alone, whatever part of the body is already in the
   buffer, exactly when the last Content-Length line is not left blank to the end of the block.
   */
  lemma FramedIffSettled(h: string, e: nat)
    requires HeaderEnd(h, e) && |h| == e + 4
    ensures (forall t :: ContentLength(h + t, e) == ContentLength(h, e)) <==> Settled(h, e)
  {
    if Settled(h, e) {
      forall t ensures ContentLength(h + t, e) == ContentLength(h, e) {
        SettledExtends(h, t, e);
      }
    } else {
      var p := LastLength(h, e);
      var t := "5";
      NameInside(h, e, p);
      NameExtends(h, t, e, p);
      LastExtends(h, t, e, e);
      SpacesToEnd(h, p);
      SpacesThenFive(h + t, p);
      assert ContentLength(h + t, e) != ContentLength(h, e);
    }
  }

  const BLANK_TAIL: string := "\r\nContent-Length:\r\n\r\n"

  /** Any request whose one header line is a Content-Length left blank: its length is read from its body. */
  lemma BlankLength(first: string, h: string, e: nat)
    requires '\r' !in first && '\0' !in first && h == first + BLANK_TAIL && e == |first| + 17
    ensures HeaderEnd(h, e) && !Settled(h, e)
  {
    var p := |first| + 2;
    forall i | 0 <= i < e ensures h[i] != '\0' && (h[i] == '\r' ==> i == |first|) {
      assert i < |first| ==> h[i] in first;
      assert i >= |first| ==> h[i] == BLANK_TAIL[i - |first|];
    }
    forall i | 0 <= i < 15 ensures Lower(h[p + i]) == LENGTH_NAME[i] {
      assert h[p + i] == BLANK_TAIL[2 + i];
    }
    assert NamesLength(h, p);
    assert BlankAt(h, e) && h[p] == 'C';
    NoLineBetween(h, p + 1, e);
  }

  // ---- The request line and the header scan ---------------------------------------------------------

  /** `strstr(buf, "\r\n\r\n")`. */
  method FindHeaderEnd(buffer: array<char>, used: nat) returns (r: Option<nat>)
    requires used <= buffer.Length
    ensures r.Some? ==> HeaderEnd(buffer[..used], r.value)
    ensures r.None? ==> forall e: nat :: !HeaderEnd(buffer[..used], e)
  {
    ghost var s := buffer[..used];
    var i := 0;
    while i + 4 <= used && buffer[i] != '\0'
      invariant 0 <= i <= used && forall k :: 0 <= k < i ==> s[k] != '\0' && !BlankAt(s, k)
    {
      if buffer[i] == '\r' && buffer[i + 1] == '\n' && buffer[i + 2] == '\r' && buffer[i + 3] == '\n' {
        assert BlankAt(s, i);
        return Some(i);
      }
      assert !BlankAt(s, i);
      i := i + 1;
    }
    assert forall e: nat :: HeaderEnd(s, e) ==> e < i || e + 4 <= |s|;
    r := None;
  }

  datatype Basic = Bad | Basic(meth: string, uri: string, headerLen: nat, contentLength: nat)

  /** `s` begins with `m`, a space, `u` and a space, all on its first line. */
  ghost predicate FirstLine(s: string, m: string, u: string) {
    && 0 < |m| < METHOD_CAP && 0 < |u| < URI_CAP && ' ' !in m && ' ' !in u
    && m + [' '] + u + [' '] <= s
    && forall i :: 0 <= i <= |m| + |u| + 1 ==> !CrlfAt(s, i)
  }

  lemma FirstLineUnique(s: string, m: string, u: string, m': string, u': string)
    requires FirstLine(s, m, u) && FirstLine(s, m', u')
    ensures m == m' && u == u'
  {
    assert s[|m|] == ' ' && s[|m'|] == ' ' && s[..|m|] == m && s[..|m'|] == m';
    assert |m| == |m'|;
    var a := |m| + 1;
    assert s[a..a + |u|] == u && s[a..a + |u'|] == u';
    assert s[a + |u|] == ' ' && s[a + |u'|] == ' ';
    assert |u| == |u'|;
  }

  lemma FirstLineIs(s: string, a: nat, b: nat, crlf: nat)
    requires a < b < crlf < |s| && s[a] == ' ' && s[b] == ' '
    requires (forall j :: 0 <= j < a ==> s[j] != ' ') && (forall j :: a < j < b ==> s[j] != ' ')
    requires forall j :: 0 <= j < crlf ==> !CrlfAt(s, j)
    requires 0 < a < METHOD_CAP && a + 1 < b < a + 1 + URI_CAP
    ensures FirstLine(s, s[..a], s[a + 1..b])
  {
  }

  lemma {:induction false} NoLineBetween(s: string, p: nat, q: nat)
    requires p <= q && forall i :: p <= i < q ==> !(StartsLine(s, i) && NamesLength(s, i))
    ensures LastLength(s, q) == LastLength(s, p)
  {
    if p < q {
      NoLineBetween(s, p, q - 1);
    }
  }

  lemma NextLine(s: string, e: nat, p: nat, eol: nat)
    requires HeaderEnd(s, e) && StartsLine(s, p) && p < e && p <= eol <= e && CrlfAt(s, eol)
    requires forall j :: p <= j < eol ==> !CrlfAt(s, j)
    ensures p < eol && (eol + 2 < e || eol == e)
    ensures LastLength(s, if eol < e then eol + 2 else e) == if NamesLength(s, p) then p else LastLength(s, p)
  {
    LineStart(s, e, eol);
    assert !BlankAt(s, p - 2);
    assert eol < e ==> !BlankAt(s, eol);
    var q := if eol < e then eol + 2 else e;
    forall i | p + 1 <= i < q ensures !StartsLine(s, i) {
      assert i == p + 1 || !CrlfAt(s, i - 2);
    }
    NoLineBetween(s, p + 1, q);
  }

  lemma NoLineBeforeFirst(s: string, p: nat)
    requires forall j :: 0 <= j < p - 2 ==> !CrlfAt(s, j)
    ensures LastLength(s, p) == -1
  {
    NoLineBetween(s, 0, p);
  }

  /** The Content-Length loop of `http_parse_basic_request`. */
  method ScanHeaders(buffer: array<char>, used: nat, lineEnd: nat, e: nat) returns (cl: nat)
    requires used <= buffer.Length && HeaderEnd(buffer[..used], e) && lineEnd <= e && CrlfAt(buffer[..used], lineEnd)
    requires forall j :: 0 <= j < lineEnd ==> !CrlfAt(buffer[..used], j)
    ensures cl == ContentLength(buffer[..used], e)
  {
    ghost var s := buffer[..used];
    LineStart(s, e, lineEnd);
    var p := lineEnd + 2;
    cl := 0;
    NoLineBeforeFirst(s, if p < e then p else e);
    while p < e && buffer[p] != '\0'
      invariant p >= 2 && (p == e + 2 || (p <= e && StartsLine(s, p)))
      invariant cl == ContentLength(s, if p < e then p else e)
      decreases used - p
    {
      var eol := FindCrlf(buffer, p, used);
      assert CrlfAt(s, e) && !BlankAt(s, p - 2);
      if eol > e || eol == p {
        break;
      }
      NextLine(s, e, p, eol);
      if NamesLength(buffer[..used], p) {
        cl := LengthAt(buffer[..used], p);
      }
      p := eol + 2;
    }
  }

  /** `http_parse_basic_request`. */
  method ParseBasic(buffer: array<char>, used: nat) returns (r: Basic)
    requires used <= buffer.Length
    ensures r.Basic? ==> r.headerLen >= 4 && HeaderEnd(buffer[..used], r.headerLen - 4)
    ensures r.Basic? ==> r.contentLength == ContentLength(buffer[..used], r.headerLen - 4)
    ensures r.Basic? ==> FirstLine(buffer[..used], r.meth, r.uri)
    ensures r.Bad? ==>
      (forall e: nat :: !HeaderEnd(buffer[..used], e)) || forall m, u :: !FirstLine(buffer[..used], m, u)
  {
    ghost var s := buffer[..used];
    var end := FindHeaderEnd(buffer, used);
    if end.None? {
      return Bad;
    }
    var e := end.value;
    assert CrlfAt(s, e);
    var lineEnd := FindCrlf(buffer, 0, used);
    var line := SplitFirstLine(buffer, used, lineEnd);
    if line.None? {
      return Bad;
    }
    var cl := ScanHeaders(buffer, used, lineEnd, e);
    r := Basic.Basic(line.value.0, line.value.1, e + 4, cl);
  }

  /** The method and the URI, copied out of a request line that ends at `lineEnd`. */
  method SplitFirstLine(buffer: array<char>, used: nat, lineEnd: nat) returns (r: Option<(string, string)>)
    requires used <= buffer.Length && CrlfAt(buffer[..used], lineEnd)
    requires forall j :: 0 <= j < lineEnd ==> !CrlfAt(buffer[..used], j)
    ensures r.Some? ==> FirstLine(buffer[..used], r.value.0, r.value.1)
    ensures r.None? ==> forall m, u :: !FirstLine(buffer[..used], m, u)
  {
    ghost var s := buffer[..used];
    var sp1 := FindChar(buffer, 0, lineEnd, ' ');
    if sp1 == lineEnd {
      NoFirstLine(s, lineEnd, sp1, sp1);
      return None;
    }
    var sp2 := FindChar(buffer, sp1 + 1, lineEnd, ' ');
    if sp2 == lineEnd || sp1 == 0 || sp1 >= METHOD_CAP || sp2 == sp1 + 1 || sp2 - (sp1 + 1) >= URI_CAP {
      NoFirstLine(s, lineEnd, sp1, sp2);
      return None;
    }
    FirstLineIs(s, sp1, sp2, lineEnd);
    Slices(buffer, used, sp1, sp2);
    r := Some((buffer[..sp1], buffer[sp1 + 1..sp2]));
  }

  lemma Slices(buffer: array<char>, used: nat, a: nat, b: nat)
    requires a < b <= used <= buffer.Length
    ensures buffer[..a] == buffer[..used][..a] && buffer[a + 1..b] == buffer[..used][a + 1..b]
  {
  }

  /** `a` and `b` are the first two spaces of a line that ends at `crlf`, or `crlf` where there is none. */
  predicate FirstSpaces(s: string, crlf: nat, a: nat, b: nat) {
    && CrlfAt(s, crlf) && a <= b <= crlf
    && (forall j :: 0 <= j < a ==> s[j] != ' ') && (forall j :: a < j < b ==> s[j] != ' ')
    && (a < crlf ==> s[a] == ' ' && a < b) && (a < b < crlf ==> s[b] == ' ')
  }

  lemma SpacesAre(s: string, m: string, u: string, crlf: nat, a: nat, b: nat)
    requires FirstLine(s, m, u) && FirstSpaces(s, crlf, a, b)
    ensures |m| == a && |m| + 1 + |u| == b < crlf
  {
    FirstLineSpaces(s, m, u);
    assert |m| + |u| + 1 < crlf;
    assert |m| == a;
  }

  lemma NoFirstLine(s: string, crlf: nat, a: nat, b: nat)
    requires FirstSpaces(s, crlf, a, b)
    requires b == crlf || a == 0 || a >= METHOD_CAP || b == a + 1 || b - (a + 1) >= URI_CAP
    ensures forall m, u :: !FirstLine(s, m, u)
  {
    forall m, u | FirstLine(s, m, u) ensures false {
      SpacesAre(s, m, u, crlf, a, b);
    }
  }

  lemma FirstLineSpaces(s: string, m: string, u: string)
    requires FirstLine(s, m, u)
    ensures |m| + |u| + 1 < |s| && s[|m|] == ' ' && s[|m| + 1 + |u|] == ' '
    ensures (forall j :: 0 <= j < |m| ==> s[j] != ' ') && (forall j :: |m| < j < |m| + 1 + |u| ==> s[j] != ' ')
  {
    assert forall j :: 0 <= j < |m| ==> s[j] == m[j];
    assert forall j :: |m| < j < |m| + 1 + |u| ==> s[j] == u[j - |m| - 1];
  }

  // ---- The connection -------------------------------------------------------------------------------

  datatype Event = Waiting | Dropped | Refused(status: nat) | Dispatched | Saved

  /** What the rest of the server and the system answer during one event. */
  datatype Answers = Answers(versionOk: string -> bool, csrfOk: bool, pathOk: bool, directoryOk: bool, openOk: bool,
                             writes: seq<int>)

  /** Nothing that is asked before the file is opened stands in the way. */
  predicate Allows(env: Answers) {
    env.csrfOk && env.pathOk && env.directoryOk && env.openOk
  }

  /** How many of `n` bytes a series of write() results takes before it fails; -1 is an interrupted call. */
  function Accepted(writes: seq<int>, n: nat): (k: nat)
    ensures k <= n
  {
    if n == 0 || writes == [] || writes[0] == 0 then 0
    else if writes[0] < 0 then Accepted(writes[1..], n)
    else
      var m := if writes[0] <= n then writes[0] else n;
      m + Accepted(writes[1..], n - m)
  }

  /** One call takes what it says, but no more than is left; an interrupted one takes nothing. */
  lemma AcceptedOne(w: int, n: nat)
    ensures Accepted([w], n) == if w <= 0 then 0 else if w < n then w else n
  {
    assert [w][1..] == [];
  }

  /** Further calls take from what the first ones left, unless one of those failed. */
  lemma {:induction false} AcceptedMore(a: seq<int>, b: seq<int>, n: nat)
    ensures Accepted(a + b, n) == Accepted(a, n) + if 0 in a then 0 else Accepted(b, n - Accepted(a, n))
    decreases |a|
  {
    if a == [] {
      assert a + b == b;
    } else {
      assert (a + b)[0] == a[0] && (a + b)[1..] == a[1..] + b && a == [a[0]] + a[1..];
      if a[0] < 0 {
        AcceptedMore(a[1..], b, n);
      } else if a[0] > 0 {
        var m := if a[0] <= n then a[0] else n;
        AcceptedMore(a[1..], b, n - m);
      }
    }
  }

  predicate IsUpload(m: string, u: string) {
    m == "POST" && "/api/upload" <= u
  }

  /** The first `n` bytes after a header block that ends at `e`. */
  function BodyOf(wire: string, e: nat, n: nat): string
    requires e + 4 + n <= |wire|
  {
    wire[e + 4..e + 4 + n]
  }

  /** An upload: where its header block ends, how much was in the buffer when it was parsed, the length read. */
  datatype Upload = Upload(headerEnd: nat, parsedAt: nat, length: nat)

  /** The bytes received ask for the upload `up`. */
  ghost predicate Asked(wire: string, up: Upload) {
    && HeaderEnd(wire, up.headerEnd) && up.headerEnd + 4 <= up.parsedAt <= |wire|
    && 0 < up.length == ContentLength(wire[..up.parsedAt], up.headerEnd)
    && IsUploadLine(wire)
  }

  lemma FirstLineExtends(s: string, t: string, m: string, u: string)
    requires FirstLine(s, m, u)
    ensures FirstLine(s + t, m, u)
  {
    FirstLineSpaces(s, m, u);
    forall i | 0 <= i <= |m| + |u| + 1 ensures !CrlfAt(s + t, i) {
      assert !CrlfAt(s, i);
    }
  }

  lemma AskedSeen(wire: string, s: Seen, up: Upload)
    requires SeenIs(wire, s) && SeesUpload(s) && up == Upload(s.e, |wire|, s.cl)
    ensures HeaderEnd(wire, s.e) && (0 < s.cl ==> Asked(wire, up))
  {
    assert wire[..|wire|] == wire;
  }

  lemma AskedExtends(wire: string, t: string, up: Upload)
    requires Asked(wire, up)
    ensures Asked(wire + t, up)
  {
    HeaderEndExtends(wire, t, up.headerEnd);
    assert (wire + t)[..up.parsedAt] == wire[..up.parsedAt];
    var u :| FirstLine(wire, "POST", u) && "/api/upload" <= u;
    FirstLineExtends(wire, t, "POST", u);
  }

  /** `file` is the start of the body, and no more of it than was asked for. */
  ghost predicate StartOfBody(wire: string, up: Upload, file: string) {
    && Asked(wire, up) && |file| <= up.length && up.headerEnd + 4 + |file| <= |wire|
    && file == BodyOf(wire, up.headerEnd, |file|)
  }

  lemma StartExtends(wire: string, up: Upload, file: string, t: string, n: nat, wire': string, file': string)
    requires StartOfBody(wire, up, file) && up.headerEnd + 4 + |file| == |wire| && n <= |t| && |file| + n <= up.length
    requires wire' == wire + t && file' == file + t[..n]
    ensures StartOfBody(wire', up, file')
  {
    AskedOn(wire, t, up, wire');
    SliceOn(wire, t, up.headerEnd + 4, file, n, wire', file');
    StartIs(wire', up, file');
  }

  lemma StartIs(wire: string, up: Upload, file: string)
    requires Asked(wire, up) && |file| <= up.length && up.headerEnd + 4 + |file| <= |wire|
    requires wire[up.headerEnd + 4..up.headerEnd + 4 + |file|] == file
    ensures StartOfBody(wire, up, file)
  {
  }

  lemma AskedOn(wire: string, t: string, up: Upload, wire': string)
    requires Asked(wire, up) && wire' == wire + t
    ensures Asked(wire', up)
  {
    AskedExtends(wire, t, up);
  }

  lemma SliceOn(wire: string, t: string, k: nat, file: string, n: nat, wire': string, file': string)
    requires k + |file| == |wire| && file == wire[k..k + |file|] && n <= |t|
    requires wire' == wire + t && file' == file + t[..n]
    ensures k + |file'| <= |wire'| && wire'[k..k + |file'|] == file' && |file'| == |file| + n
  {
  }

  lemma FirstBytes(wire: string, up: Upload, data: string, n: nat)
    requires Asked(wire, up) && up.headerEnd + 4 + |data| <= |wire| && n <= |data| && n <= up.length
    requires data == BodyOf(wire, up.headerEnd, |data|)
    ensures StartOfBody(wire, up, data[..n])
  {
  }

  /** What a read of `chunk` does to an upload that still lacks `remaining` bytes. */
  predicate Streamed(remaining: nat, chunk: string, writes: seq<int>, r: Event) {
    var got := if |chunk| > remaining then remaining else |chunk|;
    r == if chunk == "" || Accepted(writes, got) < got then Dropped else if got == remaining then Saved else Waiting
  }

  /** The answer when the file is open, `body` bytes of a body of `cl` are in the buffer and the writes go as given. */
  function OpenEvent(writes: seq<int>, body: nat, cl: nat): Event {
    var inBuf := if body > cl then cl else body;
    if Accepted(writes, inBuf) < inBuf then Dropped else if inBuf == cl then Saved else Waiting
  }

  function CheckedEvent(env: Answers, parsed: bool, body: nat, cl: nat): Event {
    if !parsed || !env.csrfOk then Refused(403)
    else if cl == 0 then Refused(400)
    else if !env.pathOk then Dropped
    else if !env.directoryOk || !env.openOk then Refused(500)
    else OpenEvent(env.writes, body, cl)
  }

  /** Any other request is dispatched once its body has arrived, and refused if it cannot fit. */
  function OtherEvent(size: nat, e: nat, cl: nat): Event {
    if cl > 0 && e + 4 + cl > BUFFER_SIZE - 1 then Refused(400)
    else if cl > 0 && size < e + 4 + cl then Waiting
    else Dispatched
  }

  /** Neither comparison of the wrapped sum stops the request. */
  predicate PassesWrapped(size: nat, headerLen: nat, contentLength: nat) {
    (headerLen + contentLength) % SIZE_WRAP <= BUFFER_SIZE - 1 && (headerLen + contentLength) % SIZE_WRAP <= size
  }

  /**
   Comparing the wrapped sum alone would dispatch a body that is not there exactly when the sum wraps into the
   buffer.
   */
  lemma WrappedPasses(size: nat, headerLen: nat, contentLength: nat)
    requires headerLen <= size < BUFFER_SIZE && contentLength < SIZE_WRAP
    ensures PassesWrapped(size, headerLen, contentLength) && headerLen + contentLength > size
      <==> SIZE_WRAP <= headerLen + contentLength <= SIZE_WRAP + size
    ensures 0 < headerLen ==> PassesWrapped(size, headerLen, SIZE_WRAP - 1)
  {
    var sum := headerLen + contentLength;
    if sum < SIZE_WRAP {
      assert sum % SIZE_WRAP == sum;
    } else {
      assert sum % SIZE_WRAP == sum - SIZE_WRAP;
    }
  }

  /** What the bytes received say: no complete header block, a bad first line, or a request. */
  datatype Seen = NoHeader | BadLine | Req(e: nat, meth: string, uri: string, cl: nat)

  ghost predicate SeenIs(wire: string, s: Seen) {
    match s
    case NoHeader => forall e: nat :: !HeaderEnd(wire, e)
    case BadLine => (exists e: nat :: HeaderEnd(wire, e)) && forall m, u :: !FirstLine(wire, m, u)
    case Req(e, m, u, cl) => HeaderEnd(wire, e) && FirstLine(wire, m, u) && cl == ContentLength(wire, e)
  }

  predicate SeesUpload(s: Seen) {
    s.Req? && IsUpload(s.meth, s.uri)
  }

  /** The bytes can be read in one way only. */
  lemma SeenUnique(wire: string, s: Seen, s': Seen)
    requires SeenIs(wire, s) && SeenIs(wire, s')
    ensures s == s'
  {
    if s.Req? && s'.Req? {
      HeaderEndUnique(wire, s.e, s'.e);
      FirstLineUnique(wire, s.meth, s.uri, s'.meth, s'.uri);
    }
  }

  /** `http_parse_request` accepts the request line. */
  predicate LineParses(wire: string, versionOk: string -> bool) {
    LineOf(wire, FirstCrlf(wire, 0), versionOk).Some?
  }

  /** The answer to `size` bytes that say `s`, while no upload is active. */
  function EventOf(env: Answers, s: Seen, parsed: bool, size: nat): Event {
    match s
    case NoHeader => Waiting
    case BadLine => Dropped
    case Req(e, m, u, cl) =>
      if IsUpload(m, u) then CheckedEvent(env, parsed, if size > e + 4 then size - (e + 4) else 0, cl)
      else OtherEvent(size, e, cl)
  }

  /** What leads to each answer, while no upload is active. */
  lemma EventMeans(env: Answers, s: Seen, parsed: bool, size: nat)
    ensures var r := EventOf(env, s, parsed, size);
      && (r == Refused(403) <==> SeesUpload(s) && (!parsed || !env.csrfOk))
      && (r == Refused(500) <==>
            SeesUpload(s) && parsed && env.csrfOk && s.cl > 0 && env.pathOk && !(env.directoryOk && env.openOk))
      && (r == Saved <==>
            && SeesUpload(s) && parsed && Allows(env) && 0 < s.cl && s.e + 4 + s.cl <= size
            && Accepted(env.writes, s.cl) == s.cl)
      && (r == Dispatched <==>
            s.Req? && !SeesUpload(s) && (s.cl == 0 || (s.e + 4 + s.cl <= size && s.e + 4 + s.cl <= BUFFER_SIZE - 1)))
      && (s.BadLine? ==> r == Dropped) && (s.NoHeader? ==> r == Waiting)
  {
  }

  ghost predicate IsUploadLine(wire: string) {
    exists u :: FirstLine(wire, "POST", u) && "/api/upload" <= u
  }

  class Connection {
    const buffer: array<char>
    var used: nat
    var uploadActive: bool
    var uploadRemaining: nat
    /** What has been written to the open file. */
    var file: string
    /** Every byte read from the socket, and the upload they ask for. */
    ghost var wire: string
    ghost var up: Upload

    /** Between two events nothing received is lost. */
    ghost predicate Valid()
      reads this, buffer
    {
      && buffer.Length == BUFFER_SIZE && used < BUFFER_SIZE
      && (uploadActive ==>
            && StartOfBody(wire, up, file) && up.headerEnd + 4 + |file| == |wire|
            && 0 < uploadRemaining && |file| + uploadRemaining == up.length)
      && (!uploadActive ==> buffer[..used] == wire && file == "")
    }

    /** After an event with outcome `r`: the file is the start of the body, and all of it if the upload is confirmed. */
    ghost predicate Kept(r: Event)
      reads this, buffer
    {
      && (file != "" ==> StartOfBody(wire, up, file))
      && (r.Waiting? ==> Valid() && (!uploadActive ==> used == |wire|))
      && (r.Saved? ==> StartOfBody(wire, up, file) && |file| == up.length)
    }

    /** A file has been opened. */
    ghost predicate Begun(r: Event)
      reads this
    {
      uploadActive || file != "" || r.Saved?
    }

    constructor ()
      ensures Valid() && wire == "" && !uploadActive && fresh(buffer)
    {
      buffer := new char[BUFFER_SIZE];
      used, uploadActive, uploadRemaining, file, wire := 0, false, 0, "", "";
    }

    /** The write loop: what the system accepts is appended to the file. */
    method WriteAll(data: string, writes: seq<int>) returns (n: nat)
      modifies `file
      ensures n == Accepted(writes, |data|) && file == old(file) + data[..n]
    {
      n := 0;
      var k := 0;
      while n < |data| && k < |writes|
        invariant n <= |data| && k <= |writes| && file == old(file) + data[..n]
        invariant Accepted(writes, |data|) == n + Accepted(writes[k..], |data| - n)
        decreases |writes| - k
      {
        var w := writes[k];
        assert writes[k..][0] == w && writes[k..][1..] == writes[k + 1..];
        k := k + 1;
        if w > 0 {
          var m := if w <= |data| - n then w else |data| - n;
          assert data[..n + m] == data[..n] + data[n..n + m];
          file := file + data[n..n + m];
          n := n + m;
        } else if w == 0 {
          break;
        }
      }
    }

    /** One read while an upload is being streamed; an empty chunk stands for end of file or an error. */
    method Stream(chunk: string, writes: seq<int>) returns (r: Event)
      requires Valid() && uploadActive
      modifies this
      ensures wire == old(wire) + chunk && up == old(up) && StartOfBody(wire, up, file)
      ensures r.Waiting? ==> Valid() && uploadActive
      ensures r.Saved? ==> |file| == up.length
      ensures Streamed(old(uploadRemaining), chunk, writes, r)
    {
      var got := if |chunk| > uploadRemaining then uploadRemaining else |chunk|;
      var n := Append(chunk, got, writes);
      r := Dropped;
      if chunk != "" && n >= got {
        uploadRemaining := uploadRemaining - got;
        r := if uploadRemaining == 0 then Saved else Waiting;
      }
    }

    /** The first `got` bytes of what was read go to the file, as far as the system takes them. */
    method Append(chunk: string, got: nat, writes: seq<int>) returns (n: nat)
      requires StartOfBody(wire, up, file) && up.headerEnd + 4 + |file| == |wire| && got <= |chunk|
        && |file| + got <= up.length
      modifies `wire, `file
      ensures wire == old(wire) + chunk && StartOfBody(wire, up, file)
      ensures n == Accepted(writes, got) <= got && |file| == |old(file)| + n
    {
      n := WriteAll(chunk[..got], writes);
      assert chunk[..got][..n] == chunk[..n];
      StartExtends(wire, up, old(file), chunk, n, wire + chunk, file);
      wire := wire + chunk;
    }

    /** `read(fd, buffer + used, remaining)`. */
    method Receive(chunk: string)
      requires Valid() && !uploadActive && used + |chunk| < BUFFER_SIZE
      modifies this, buffer
      ensures wire == old(wire) + chunk && Valid() && !uploadActive && used == |wire|
    {
      forall i | 0 <= i < |chunk| {
        buffer[used + i] := chunk[i];
      }
      used := used + |chunk|;
      buffer[used] := '\0';
      wire := wire + chunk;
      assert buffer[..used] == wire;
    }

    /** The body bytes in the buffer go to the file and the rest is left to `Stream`. */
    method Open(body: string, contentLength: nat, writes: seq<int>, ghost u: Upload) returns (r: Event)
      requires buffer.Length == BUFFER_SIZE && file == "" && Asked(wire, u) && u.length == contentLength
      requires u.headerEnd + 4 + |body| == |wire| && body == BodyOf(wire, u.headerEnd, |body|)
      modifies this, buffer
      ensures wire == old(wire) && up == u && StartOfBody(wire, u, file)
      ensures r == OpenEvent(writes, |body|, contentLength)
      ensures r.Waiting? ==> Valid() && uploadActive
      ensures r.Saved? ==> |file| == contentLength
    {
      up := u;
      var inBuf := if |body| > contentLength then contentLength else |body|;
      var n := WriteFirst(body, inBuf, writes, u);
      r := Dropped;
      if n >= inBuf {
        Activate(contentLength - inBuf);
        r := if uploadRemaining == 0 then Saved else Waiting;
      }
    }

    /** From here on what arrives is streamed, until `left` bytes are in. */
    method Activate(left: nat)
      requires buffer.Length == BUFFER_SIZE && StartOfBody(wire, up, file) && |file| + left == up.length
      requires left > 0 ==> up.headerEnd + 4 + |file| == |wire|
      modifies `uploadActive, `uploadRemaining, `used, buffer
      ensures uploadActive && uploadRemaining == left && (left > 0 ==> Valid())
    {
      uploadActive := true;
      uploadRemaining := left;
      used := 0;
      buffer[0] := '\0';
    }

    method WriteFirst(body: string, inBuf: nat, writes: seq<int>, ghost u: Upload) returns (n: nat)
      requires file == "" && Asked(wire, u) && inBuf <= |body| && inBuf <= u.length
      requires u.headerEnd + 4 + |body| == |wire| && body == BodyOf(wire, u.headerEnd, |body|)
      modifies `file
      ensures StartOfBody(wire, u, file) && |file| == n == Accepted(writes, inBuf) <= inBuf
    {
      n := WriteAll(body[..inBuf], writes);
      assert file == body[..inBuf][..n] == body[..n];
      FirstBytes(wire, u, body, n);
    }

    /** `http_parse_request` writes into the buffer the body is still in, and leaves the body alone. */
    method ParseInPlace(ghost e: nat, versionOk: string -> bool) returns (ok: bool)
      requires Valid() && !uploadActive && used == |wire| && HeaderEnd(wire, e)
      modifies buffer
      ensures ok <==> LineParses(wire, versionOk)
      ensures buffer[e + 4..used] == BodyOf(wire, e, used - (e + 4))
    {
      CompleteRequest(wire, e, versionOk);
      var parsed := ParseRequest(buffer, used, versionOk);
      ok := parsed.Parsed?;
      assert forall i :: e + 4 <= i < used ==> buffer[i] == wire[i];
    }

    /** The request is parsed, and the body bytes behind it are what was received. */
    method TakeBody(headerLen: nat, versionOk: string -> bool) returns (ok: bool, body: string)
      requires Valid() && !uploadActive && used == |wire| && 4 <= headerLen && HeaderEnd(wire, headerLen - 4)
      modifies buffer
      ensures ok <==> LineParses(wire, versionOk)
      ensures headerLen + |body| == |wire| && body == BodyOf(wire, headerLen - 4, |body|)
    {
      ok := ParseInPlace(headerLen - 4, versionOk);
      body := buffer[headerLen..used];
    }

    /** The checks before an upload is opened. */
    method Begin(headerLen: nat, contentLength: nat, env: Answers, ghost u: Upload) returns (r: Event)
      requires Valid() && !uploadActive && used == |wire| && HeaderEnd(wire, u.headerEnd)
      requires headerLen == u.headerEnd + 4 && contentLength == u.length && (contentLength > 0 ==> Asked(wire, u))
      modifies this, buffer
      ensures wire == old(wire)
      ensures Kept(r) && (r.Waiting? ==> uploadActive)
      ensures r == CheckedEvent(env, LineParses(wire, env.versionOk), |wire| - headerLen, contentLength)
      ensures Begun(r) ==> LineParses(wire, env.versionOk) && Allows(env)
    {
      var ok, body := TakeBody(headerLen, env.versionOk);
      r := Check(ok, body, contentLength, env, u);
    }

    method Check(parsed: bool, body: string, contentLength: nat, env: Answers, ghost u: Upload) returns (r: Event)
      requires buffer.Length == BUFFER_SIZE && file == "" && !uploadActive && u.length == contentLength
        && (contentLength > 0 ==> Asked(wire, u))
      requires u.headerEnd + 4 + |body| == |wire| && body == BodyOf(wire, u.headerEnd, |body|)
      modifies this, buffer
      ensures wire == old(wire)
      ensures Kept(r) && (r.Waiting? ==> uploadActive)
      ensures r == CheckedEvent(env, parsed, |body|, contentLength)
      ensures Begun(r) ==> parsed && Allows(env)
    {
      if !parsed || !env.csrfOk {
        return Refused(403);
      }
      if contentLength == 0 {
        return Refused(400);
      }
      if !env.pathOk {
        return Dropped;
      }
      if !env.directoryOk || !env.openOk {
        return Refused(500);
      }
      r := Open(body, contentLength, env.writes, u);
    }

    /** `http_client_callback` on a readable socket; an empty chunk stands for end of file or an error. */
    method OnRead(chunk: string, env: Answers) returns (r: Event, ghost seen: Seen)
      requires Valid() && (!uploadActive ==> used == |wire| && |chunk| <= BUFFER_SIZE - used - 1)
      modifies this, buffer
      ensures wire == old(wire) + chunk
      ensures Kept(r)
      ensures chunk == "" ==> r == Dropped
      ensures old(uploadActive) ==> Streamed(old(uploadRemaining), chunk, env.writes, r)
      ensures !old(uploadActive) && chunk != "" ==> 
              SeenIs(wire, seen) && r == EventOf(env, seen, LineParses(wire, env.versionOk), |wire|)
      ensures r.Waiting? ==> (uploadActive <==> old(uploadActive) || SeesUpload(seen))
      ensures !old(uploadActive) && Begun(r) ==> LineParses(wire, env.versionOk) && Allows(env)
    {
      seen := NoHeader;
      if uploadActive {
        r := Stream(chunk, env.writes);
        return;
      }
      if chunk == "" {
        assert wire == old(wire) + chunk;
        r := Dropped;
        return;
      }
      Receive(chunk);
      r, seen := Judge(env);
    }

    /** The search for the blank line and the first look at the request. */
    method Look() returns (seen: Seen)
      requires Valid() && !uploadActive && used == |wire|
      ensures SeenIs(wire, seen)
    {
      assert buffer[..used] == wire;
      var end := FindHeaderEnd(buffer, used);
      if end.None? {
        assert forall e: nat :: !HeaderEnd(buffer[..used], e);
        assert buffer[..used] == wire;
        return NoHeader;
      }
      var basic := ParseBasic(buffer, used);
      return if basic.Bad? then BadLine else Req(basic.headerLen - 4, basic.meth, basic.uri, basic.contentLength);
    }

    /** What becomes of the bytes in the buffer. */
    method Judge(env: Answers) returns (r: Event, ghost seen: Seen)
      requires Valid() && !uploadActive && used == |wire|
      modifies this, buffer
      ensures wire == old(wire)
      ensures Kept(r)
      ensures SeenIs(wire, seen) && r == EventOf(env, seen, LineParses(wire, env.versionOk), |wire|)
      ensures r.Waiting? ==> (uploadActive <==> SeesUpload(seen))
      ensures Begun(r) ==> LineParses(wire, env.versionOk) && Allows(env)
    {
      var req := Look();
      seen := req;
      ghost var u := if req.Req? then Upload(req.e, used, req.cl) else Upload(0, 0, 0);
      if SeesUpload(req) {
        AskedSeen(wire, req, u);
      }
      r := Act(req, env, u);
    }

    method Act(req: Seen, env: Answers, ghost u: Upload) returns (r: Event)
      requires Valid() && !uploadActive && used == |wire|
      requires req.Req? ==> HeaderEnd(wire, req.e) && req.cl < SIZE_WRAP
      requires SeesUpload(req) ==> u == Upload(req.e, used, req.cl) && (0 < req.cl ==> Asked(wire, u))
      modifies this, buffer
      ensures wire == old(wire)
      ensures Kept(r)
      ensures r == EventOf(env, req, LineParses(wire, env.versionOk), |wire|)
      ensures r.Waiting? ==> (uploadActive <==> SeesUpload(req))
      ensures Begun(r) ==> LineParses(wire, env.versionOk) && Allows(env)
    {
      if req.NoHeader? {
        r := Waiting;
      } else if req.BadLine? {
        r := Dropped;
      } else if IsUpload(req.meth, req.uri) {
        r := Begin(req.e + 4, req.cl, env, u);
      } else {
        r := Admit(used, req.e + 4, req.cl);
      }
    }

    /**
     The size check before a request that is not an upload is dispatched, in 64-bit arithmetic. The
     first comparison keeps the sum from wrapping: what is dispatched has its whole body in the buffer.
     */
    static method Admit(size: nat, headerLen: nat, contentLength: nat) returns (r: Event)
      requires 4 <= headerLen <= size < BUFFER_SIZE && contentLength < SIZE_WRAP
      ensures r == Dispatched <==> headerLen + contentLength <= size
      ensures r == Refused(400) <==> headerLen + contentLength > BUFFER_SIZE - 1
      ensures r == Dispatched || r == Refused(400) || r == Waiting
    {
      if contentLength > 0 {
        if contentLength > BUFFER_SIZE - 1 || (headerLen + contentLength) % SIZE_WRAP > BUFFER_SIZE - 1 {
          return Refused(400);
        }
        if size < (headerLen + contentLength) % SIZE_WRAP {
          return Waiting;
        }
      }
      return Dispatched;
    }

    /** One read of at most `size` bytes of what the peer sends from `pos` on. */
    method ReadSome(stream: string, pos: nat, size: nat, env: Answers, ghost e: nat, ghost u: string, ghost good: bool)
      returns (r: Event, n: nat)
      requires Valid() && (!uploadActive ==> used == |wire|) && pos <= |stream| && wire == stream[..pos]
      requires good ==> CompleteUpload(stream, e, u) && Cooperative(stream, env) && size > 0
      requires good ==> OnTheWay(wire, uploadActive, e, BodyLength(stream, e))
      modifies this, buffer
      ensures pos + n <= |stream| && wire == stream[..pos + n]
      ensures Kept(r)
      ensures good ==> n > 0 && Advanced(stream, e, wire, uploadActive, r)
      ensures !old(uploadActive) && Begun(r) ==> Allows(env)
    {
      n := if size < |stream| - pos then size else |stream| - pos;
      if !uploadActive && n > BUFFER_SIZE - used - 1 {
        n := BUFFER_SIZE - used - 1;
      }
      var chunk := stream[pos..pos + n];
      assert stream[..pos] + chunk == stream[..pos + n];
      ghost var active, was, left := uploadActive, up, uploadRemaining;
      ghost var seen;
      r, seen := OnRead(chunk, env);
      if good {
        if active {
          GoodStream(stream, old(wire), was, left, chunk, env, e, u, r);
        } else {
          GoodRead(stream, wire, e, u, env, seen, r, uploadActive);
        }
      }
    }

    /** The events of one connection whose peer sends `stream`; the k-th read returns at most sizes[k] bytes. */
    method Serve(stream: string, sizes: seq<nat>, answers: seq<Answers>, ghost e: nat, ghost u: string)
      returns (r: Event)
      requires Valid() && wire == "" && !uploadActive && used == 0 && |answers| == |sizes|
      modifies this, buffer
      ensures wire <= stream && Kept(r)
      ensures CompleteUpload(stream, e, u) && Untroubled(stream, sizes, answers) ==> r.Saved?
      ensures Begun(r) ==> exists k :: 0 <= k < |answers| && Allows(answers[k])
    {
      r := Waiting;
      var pos, k := 0, 0;
      ghost var good := CompleteUpload(stream, e, u) && Untroubled(stream, sizes, answers);
      while k < |sizes| && r.Waiting?
        invariant 0 <= k <= |sizes| && 0 <= pos <= |stream| && wire == stream[..pos]
        invariant Kept(r)
        invariant good ==> (r.Waiting? ==> k <= pos) && Advanced(stream, e, wire, uploadActive, r)
        invariant Begun(r) ==> exists j :: 0 <= j < |answers| && Allows(answers[j])
        decreases |sizes| - k
      {
        var n;
        r, n := ReadSome(stream, pos, sizes[k], answers[k], e, u, good);
        pos, k := pos + n, k + 1;
      }
    }
  }

  /** The first bytes of `stream` are an upload that is all there, with a header block that fits the buffer. */
  ghost predicate CompleteUpload(stream: string, e: nat, u: string) {
    && HeaderEnd(stream, e) && e + 4 <= BUFFER_SIZE - 1 && FirstLine(stream, "POST", u) && "/api/upload" <= u
    && Settled(stream[..e + 4], e) && 0 < BodyLength(stream, e) && e + 4 + BodyLength(stream, e) <= |stream|
  }

  ghost function BodyLength(stream: string, e: nat): nat
    requires e + 4 <= |stream|
  {
    ContentLength(stream[..e + 4], e)
  }

  /** Nothing in the server or the system stands in the way. */
  ghost predicate Cooperative(stream: string, env: Answers) {
    && LineOf(stream, FirstCrlf(stream, 0), env.versionOk).Some?
    && env.csrfOk && env.pathOk && env.directoryOk && env.openOk
    && forall n: nat :: n <= |stream| ==> Accepted(env.writes, n) == n
  }

  ghost predicate Untroubled(stream: string, sizes: seq<nat>, answers: seq<Answers>) {
    && |stream| <= |sizes| <= |answers|
    && forall k :: 0 <= k < |sizes| ==> sizes[k] > 0 && Cooperative(stream, answers[k])
  }

  /** The upload is not over: its header block is incomplete, or its body is. */
  predicate OnTheWay(wire: string, active: bool, e: nat, length: nat) {
    if active then e + 4 <= |wire| < e + 4 + length else |wire| < e + 4
  }

  ghost predicate Advanced(stream: string, e: nat, wire: string, active: bool, r: Event)
    requires e + 4 <= |stream|
  {
    r.Saved? || (r.Waiting? && OnTheWay(wire, active, e, BodyLength(stream, e)))
  }

  lemma HeaderEndPrefix(stream: string, e: nat, k: nat)
    requires HeaderEnd(stream, e) && e + 4 <= k <= |stream|
    ensures HeaderEnd(stream[..k], e)
  {
    var w := stream[..k];
    forall i | 0 <= i < e ensures !BlankAt(w, i) {
      assert !BlankAt(stream, i);
    }
  }

  lemma FirstLinePrefix(stream: string, m: string, u: string, e: nat, k: nat)
    requires FirstLine(stream, m, u) && HeaderEnd(stream, e) && e <= k <= |stream|
    ensures FirstLine(stream[..k], m, u)
  {
    assert CrlfAt(stream, e);
    assert |m| + |u| + 2 <= e;
    forall i | 0 <= i <= |m| + |u| + 1 ensures !CrlfAt(stream[..k], i) {
      assert !CrlfAt(stream, i);
    }
  }

  lemma LinePrefix(stream: string, e: nat, k: nat, versionOk: string -> bool)
    requires HeaderEnd(stream, e) && e + 4 <= k <= |stream|
    ensures LineOf(stream[..k], FirstCrlf(stream[..k], 0), versionOk) == LineOf(stream, FirstCrlf(stream, 0), versionOk)
  {
    var w, n := stream[..k], FirstCrlf(stream, 0);
    assert CrlfAt(stream, e);
    forall j | 0 <= j < n ensures !CrlfAt(w, j) {
      assert !CrlfAt(stream, j);
    }
    FirstCrlfIs(w, 0, n);
    LineSame(w, stream, n, versionOk);
  }

  lemma NotYet(stream: string, e: nat, w: string)
    requires HeaderEnd(stream, e) && w <= stream && |w| < e + 4
    ensures forall e': nat :: !HeaderEnd(w, e')
  {
    forall e': nat | HeaderEnd(w, e') ensures false {
      SameEnd(stream, w, stream, e', e);
    }
  }

  /** With everything in order, the header block starts the upload as soon as it is complete. */
  lemma GoodStart(stream: string, w: string, e: nat, u: string, env: Answers, seen: Seen)
    requires CompleteUpload(stream, e, u) && Cooperative(stream, env) && w <= stream && SeenIs(w, seen)
    ensures if |w| < e + 4 then seen == NoHeader
            else
              && SeesUpload(seen)
              && EventOf(env, seen, LineParses(w, env.versionOk), |w|)
                 == if |w| >= e + 4 + BodyLength(stream, e) then Saved else Waiting
  {
    if |w| < e + 4 {
      NotYet(stream, e, w);
    } else {
      PrefixHeader(stream, w, e, u, env.versionOk);
      PrefixLength(stream, w, e);
      SeenUnique(w, seen, Req(e, "POST", u, BodyLength(stream, e)));
      GoodEvent(stream, env, |w| - (e + 4), BodyLength(stream, e));
    }
  }

  lemma GoodRead(stream: string, w: string, e: nat, u: string, env: Answers, seen: Seen, r: Event, active: bool)
    requires CompleteUpload(stream, e, u) && Cooperative(stream, env) && w <= stream && SeenIs(w, seen)
    requires r == EventOf(env, seen, LineParses(w, env.versionOk), |w|)
      && (r.Waiting? ==> (active <==> SeesUpload(seen)))
    ensures Advanced(stream, e, w, active, r)
  {
    GoodStart(stream, w, e, u, env, seen);
  }

  lemma PrefixHeader(stream: string, w: string, e: nat, u: string, versionOk: string -> bool)
    requires HeaderEnd(stream, e) && FirstLine(stream, "POST", u) && w <= stream && e + 4 <= |w|
    ensures HeaderEnd(w, e) && FirstLine(w, "POST", u)
    ensures LineOf(w, FirstCrlf(w, 0), versionOk) == LineOf(stream, FirstCrlf(stream, 0), versionOk)
  {
    assert w == stream[..|w|];
    HeaderEndPrefix(stream, e, |w|);
    FirstLinePrefix(stream, "POST", u, e, |w|);
    LinePrefix(stream, e, |w|, versionOk);
  }

  lemma PrefixLength(stream: string, w: string, e: nat)
    requires HeaderEnd(stream, e) && Settled(stream[..e + 4], e) && w <= stream && e + 4 <= |w|
    ensures ContentLength(w, e) == BodyLength(stream, e)
  {
    HeaderEndPrefix(stream, e, e + 4);
    LengthOfPrefix(w, stream[..e + 4], e, |w|);
    assert w[..|w|] == w;
  }

  lemma GoodEvent(stream: string, env: Answers, body: nat, cl: nat)
    requires Cooperative(stream, env) && body <= |stream| && 0 < cl
    ensures CheckedEvent(env, true, body, cl) == if body >= cl then Saved else Waiting
  {
    var inBuf := if body > cl then cl else body;
    assert Accepted(env.writes, inBuf) == inBuf;
  }

  /** And each further read brings it closer to its end. */
  lemma GoodStream(stream: string, w: string, up: Upload, left: nat, chunk: string, env: Answers, e: nat, u: string,
                   r: Event)
    requires CompleteUpload(stream, e, u) && Cooperative(stream, env) && w + chunk <= stream && Asked(w, up)
      && chunk != ""
    requires |w| + left == up.headerEnd + 4 + up.length && up.headerEnd + 4 <= |w|
      && Streamed(left, chunk, env.writes, r)
    ensures Advanced(stream, e, w + chunk, true, r)
  {
    assert w <= stream;
    ActiveMeans(stream, w, up, e, u);
    var got := if |chunk| > left then left else |chunk|;
    assert Accepted(env.writes, got) == got;
  }

  lemma ActiveMeans(stream: string, w: string, up: Upload, e: nat, u: string)
    requires CompleteUpload(stream, e, u) && w <= stream && Asked(w, up)
    ensures up.headerEnd == e && up.length == BodyLength(stream, e)
  {
    SameEnd(stream, w, stream, up.headerEnd, e);
    SettledLength(w, up, stream[..e + 4]);
  }

  /** A complete upload is cut out of the stream by its header block alone, when that settles the length. */
  lemma SavedIs(stream: string, w: string, up: Upload, f: string, h: string)
    requires w <= stream && StartOfBody(w, up, f) && |f| == up.length
    requires h <= w && |h| == up.headerEnd + 4 && Settled(h, up.headerEnd)
    ensures up.length == ContentLength(h, up.headerEnd) && f == stream[|h|..|h| + |f|]
  {
    SliceOf(stream, w, |h|, f);
    SettledLength(w, up, h);
  }

  lemma SettledLength(w: string, up: Upload, h: string)
    requires Asked(w, up) && h <= w && |h| == up.headerEnd + 4 && Settled(h, up.headerEnd)
    ensures up.length == ContentLength(h, up.headerEnd)
  {
    HeaderEndWithin(w, up.headerEnd);
    assert h == w[..up.headerEnd + 4];
    LengthOfPrefix(w, h, up.headerEnd, up.parsedAt);
  }

  /**
   Whatever the pieces in which two connections read the same stream, the files they save are the
   same, provided the header block settles the length.
   */
  lemma ChunkingIrrelevant(stream: string, w: string, up: Upload, f: string, w': string, up': Upload, f': string)
    requires w <= stream && StartOfBody(w, up, f) && |f| == up.length
    requires w' <= stream && StartOfBody(w', up', f') && |f'| == up'.length
    requires Settled(w[..up.headerEnd + 4], up.headerEnd)
    ensures f == f'
  {
    SameEnd(stream, w, w', up.headerEnd, up'.headerEnd);
    var h := w[..up.headerEnd + 4];
    SavedIs(stream, w, up, f, h);
    SavedIs(stream, w', up', f', h);
  }

  lemma SliceOf(stream: string, w: string, k: nat, f: string)
    requires w <= stream && k + |f| <= |w| && f == w[k..k + |f|]
    ensures f == stream[k..k + |f|]
  {
  }

  lemma HeaderEndWithin(w: string, e: nat)
    requires HeaderEnd(w, e)
    ensures HeaderEnd(w[..e + 4], e)
  {
    var h := w[..e + 4];
    forall i | 0 <= i < e ensures !BlankAt(h, i) {
      assert !BlankAt(w, i);
    }
  }

  lemma SameEnd(stream: string, w: string, w': string, e: nat, e': nat)
    requires w <= stream && w' <= stream && HeaderEnd(w, e) && HeaderEnd(w', e')
    ensures e == e' && w[..e + 4] == w'[..e + 4]
  {
    HeaderEndExtends(w, stream[|w|..], e);
    HeaderEndExtends(w', stream[|w'|..], e');
    assert w + stream[|w|..] == stream == w' + stream[|w'|..];
    HeaderEndUnique(stream, e, e');
  }

  lemma LengthOfPrefix(w: string, h: string, e: nat, k: nat)
    requires HeaderEnd(h, e) && |h| == e + 4 && Settled(h, e) && h <= w && e + 4 <= k <= |w|
    ensures ContentLength(w[..k], e) == ContentLength(h, e)
  {
    SettledExtends(h, w[e + 4..k], e);
    assert h + w[e + 4..k] == w[..k];
  }
}
