/** What several parts share: bytes, optional values, concatenation and C strings. */
module Common {
  type Byte = b: nat | b < 256

  datatype Option<T> = None | Some(value: T)

  function Concat<T>(pieces: seq<seq<T>>): seq<T> {
    if pieces == [] then [] else pieces[0] + Concat(pieces[1..])
  }

  /** `isspace` in the C locale. */
  predicate IsSpace(c: char) {
    c == ' ' || '\t' <= c <= '\r'
  }

  /** The C string that starts at `i`: it ends before the first NUL. */
  function CString(s: string, i: nat): string
    requires i <= |s|
    decreases |s| - i
  {
    if i == |s| || s[i] == '\0' then "" else [s[i]] + CString(s, i + 1)
  }

  /** The text from `i` on up to a NUL, or to the end. */
  lemma {:induction false} CStringIs(s: string, i: nat, t: string)
    requires i + |t| <= |s| && s[i..i + |t|] == t && '\0' !in t && (i + |t| < |s| ==> s[i + |t|] == '\0')
    ensures CString(s, i) == t
    decreases |t|
  {
    if t != "" {
      assert s[i] == t[0];
      assert s[i + 1..i + 1 + |t[1..]|] == t[1..];
      CStringIs(s, i + 1, t[1..]);
      assert [t[0]] + t[1..] == t;
    }
  }

  lemma CStringCut(t: string, lost: string)
    requires '\0' !in t
    ensures CString(t + ("\0" + lost), 0) == t
  {
    var s := t + ("\0" + lost);
    assert s[0..|t|] == t && s[|t|] == '\0';
    CStringIs(s, 0, t);
  }

  /** `strlen`, with the text it measures. */
  method Strlen(s: string) returns (n: nat)
    ensures n <= |s| && s[..n] == CString(s, 0)
  {
    n := 0;
    while n < |s| && s[n] != '\0'
      invariant 0 <= n <= |s| && '\0' !in s[..n]
    {
      assert s[..n + 1] == s[..n] + [s[n]];
      n := n + 1;
    }
    CStringIs(s, 0, s[..n]);
  }
}
