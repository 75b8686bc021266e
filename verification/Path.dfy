/**
 Path handling of src/ftp_path.c: the component-stack normalizer and the confinement test,
 and what a path means as a list of components.
 */
module Path {
  import opened Common

  const PATH_MAX: nat := 4096
  const MAX_COMPONENTS: nat := 128

  datatype Error = InvalidParam | TooLong | Invalid

  datatype Result<T> = Ok(value: T) | Err(error: Error)

  // ---- a path as a list of components --------------------------------------------------

  /** The end of the component that starts at `i`. */
  function TokenEnd(s: string, i: nat): (e: nat)
    requires i <= |s|
    ensures i <= e <= |s| && (forall j :: i <= j < e ==> s[j] != '/') && (e < |s| ==> s[e] == '/')
    decreases |s| - i
  {
    if i == |s| || s[i] == '/' then i else TokenEnd(s, i + 1)
  }

  /** The components of `s` from position `i` on; runs of slashes separate them. */
  function Tokens(s: string, i: nat): seq<string>
    requires i <= |s|
    decreases |s| - i
  {
    if i == |s| then []
    else if s[i] == '/' then Tokens(s, i + 1)
    else [s[i..TokenEnd(s, i)]] + Tokens(s, TokenEnd(s, i))
  }

  datatype Stack = TooDeep | Stack(comps: seq<string>)

  /** Reading components left to right: "." is skipped, ".." drops the last one kept, if any. */
  function Walk(stack: seq<string>, toks: seq<string>): Stack
    decreases |toks|
  {
    if toks == [] then Stack(stack)
    else if toks[0] == "." then Walk(stack, toks[1..])
    else if toks[0] == ".." then Walk(if stack == [] then [] else stack[..|stack| - 1], toks[1..])
    else if |stack| >= MAX_COMPONENTS then TooDeep
    else Walk(stack + [toks[0]], toks[1..])
  }

  /** "/a/b/c" for [a, b, c]. */
  function Body(comps: seq<string>): string
  {
    if comps == [] then "" else "/" + comps[0] + Body(comps[1..])
  }

  /** The canonical spelling of a component list. */
  function Render(comps: seq<string>): string {
    if comps == [] then "/" else Body(comps)
  }

  /** What `ftp_path_normalize` returns for an output buffer of `size` bytes. */
  function Normal(path: string, size: nat): Result<string> {
    if size == 0 then Err(InvalidParam)
    else if |path| >= PATH_MAX then Err(TooLong)
    else match Walk([], Tokens(path, 0))
      case TooDeep => Err(TooLong)
      case Stack(comps) => if |Render(comps)| + 1 > size then Err(TooLong) else Ok(Render(comps))
  }

  /** A component that may stand in a canonical path. */
  predicate Proper(c: string) {
    c != "" && c != "." && c != ".." && '/' !in c
  }

  predicate ProperAll(comps: seq<string>) {
    forall i :: 0 <= i < |comps| ==> Proper(comps[i])
  }

  ghost predicate Canonical(path: string) {
    exists comps :: ProperAll(comps) && path == Render(comps)
  }

  // ---- component lists and their spelling ------------------------------------------------

  lemma {:induction false} TokenEndShift(a: string, s: string, i: nat)
    requires i <= |s|
    ensures TokenEnd(a + s, |a| + i) == |a| + TokenEnd(s, i)
    decreases |s| - i
  {
    if i < |s| && s[i] != '/' {
      TokenEndShift(a, s, i + 1);
    }
  }

  lemma SliceShift(a: string, s: string, i: nat, e: nat)
    requires i <= e <= |s|
    ensures (a + s)[|a| + i..|a| + e] == s[i..e]
  {
  }

  lemma {:induction false} TokensShift(a: string, s: string, i: nat)
    requires i <= |s|
    ensures Tokens(a + s, |a| + i) == Tokens(s, i)
    decreases |s| - i
  {
    if i < |s| {
      if s[i] == '/' {
        TokensShift(a, s, i + 1);
      } else {
        TokenEndShift(a, s, i);
        var e := TokenEnd(s, i);
        TokensShift(a, s, e);
        SliceShift(a, s, i, e);
      }
    }
  }

  lemma {:induction false} TokenEndIs(s: string, i: nat, e: nat)
    requires i <= e <= |s| && (forall j :: i <= j < e ==> s[j] != '/') && (e < |s| ==> s[e] == '/')
    ensures TokenEnd(s, i) == e
    decreases e - i
  {
    if i < e {
      TokenEndIs(s, i + 1, e);
    }
  }

  /** Reading a spelled-out component list gives it back, followed by whatever comes after it. */
  lemma {:induction false} TokensOfBody(comps: seq<string>, rest: string)
    requires ProperAll(comps) && (rest == "" || rest[0] == '/')
    ensures Tokens(Body(comps) + rest, 0) == comps + Tokens(rest, 0)
    decreases |comps|
  {
    if comps == [] {
      assert Body(comps) + rest == rest;
    } else {
      TokensOfBody(comps[1..], rest);
      BodyFirst(comps, rest);
      TokensOfCons(comps[0], comps[1..], Body(comps[1..]) + rest, Tokens(rest, 0), Body(comps) + rest);
      assert [comps[0]] + comps[1..] == comps;
    }
  }

  lemma TokensOfCons(c: string, cs: seq<string>, more: string, after: seq<string>, s: string)
    requires Proper(c) && (more == "" || more[0] == '/') && s == "/" + c + more && Tokens(more, 0) == cs + after
    ensures Tokens(s, 0) == [c] + cs + after
  {
    FirstToken(c, more, s);
  }

  lemma BodyFirst(comps: seq<string>, rest: string)
    requires comps != [] && (rest == "" || rest[0] == '/')
    ensures var more := Body(comps[1..]) + rest;
            Body(comps) + rest == "/" + comps[0] + more && (more == "" || more[0] == '/')
  {
  }

  lemma FirstToken(c: string, more: string, s: string)
    requires Proper(c) && (more == "" || more[0] == '/') && s == "/" + c + more
    ensures Tokens(s, 0) == [c] + Tokens(more, 0)
  {
    assert s[1..1 + |c|] == c && (forall j :: 1 <= j < 1 + |c| ==> s[j] == c[j - 1]);
    TokenEndIs(s, 1, 1 + |c|);
    assert Tokens(s, 0) == Tokens(s, 1) == [c] + Tokens(s, 1 + |c|);
    assert s == ("/" + c) + more;
    TokensShift("/" + c, more, 0);
  }

  lemma TokensOfRender(comps: seq<string>)
    requires ProperAll(comps)
    ensures Tokens(Render(comps), 0) == comps
  {
    TokensOfBody(comps, "");
    assert Body(comps) + "" == Body(comps);
    assert comps + Tokens("", 0) == comps;
  }

  /** Two component lists with the same spelling are the same list. */
  lemma RenderInjective(a: seq<string>, b: seq<string>)
    requires ProperAll(a) && ProperAll(b) && Render(a) == Render(b)
    ensures a == b
  {
    TokensOfRender(a);
    TokensOfRender(b);
  }

  lemma {:induction false} BodyConcat(a: seq<string>, b: seq<string>)
    ensures Body(a + b) == Body(a) + Body(b)
    decreases |a|
  {
    if a == [] {
      assert a + b == b;
      assert Body(a) + Body(b) == Body(b);
    } else {
      assert (a + b)[1..] == a[1..] + b;
      BodyConcat(a[1..], b);
    }
  }

  /** Components are never empty and hold no slash. */
  lemma {:induction false} TokensSplit(s: string, i: nat)
    requires i <= |s|
    ensures forall k :: 0 <= k < |Tokens(s, i)| ==> Tokens(s, i)[k] != "" && '/' !in Tokens(s, i)[k]
    decreases |s| - i
  {
    if i < |s| {
      if s[i] == '/' {
        TokensSplit(s, i + 1);
      } else {
        TokensSplit(s, TokenEnd(s, i));
      }
    }
  }

  lemma {:induction false} WalkProper(stack: seq<string>, toks: seq<string>)
    requires ProperAll(stack) && forall k :: 0 <= k < |toks| ==> toks[k] != "" && '/' !in toks[k]
    ensures Walk(stack, toks).Stack? ==> ProperAll(Walk(stack, toks).comps)
    decreases |toks|
  {
    if toks != [] {
      var t, rest := toks[0], toks[1..];
      if t == "." {
        WalkProper(stack, rest);
      } else if t == ".." {
        WalkProper(if stack == [] then [] else stack[..|stack| - 1], rest);
      } else if |stack| < MAX_COMPONENTS {
        WalkProper(stack + [t], rest);
      }
    }
  }

  /** Proper components walk to themselves. */
  lemma {:induction false} WalkOfProper(stack: seq<string>, toks: seq<string>)
    requires ProperAll(toks) && |stack| + |toks| <= MAX_COMPONENTS
    ensures Walk(stack, toks) == Stack(stack + toks)
    decreases |toks|
  {
    if toks == [] {
      assert stack + toks == stack;
    } else {
      WalkOfProper(stack + [toks[0]], toks[1..]);
      assert stack + [toks[0]] + toks[1..] == stack + toks;
    }
  }

  lemma {:induction false} WalkDepth(stack: seq<string>, toks: seq<string>)
    requires |stack| <= MAX_COMPONENTS
    ensures Walk(stack, toks).Stack? ==> |Walk(stack, toks).comps| <= MAX_COMPONENTS
    decreases |toks|
  {
    if toks != [] {
      var t, rest := toks[0], toks[1..];
      if t == "." {
        WalkDepth(stack, rest);
      } else if t == ".." {
        WalkDepth(if stack == [] then [] else stack[..|stack| - 1], rest);
      } else if |stack| < MAX_COMPONENTS {
        WalkDepth(stack + [t], rest);
      }
    }
  }

  // ---- the promises of normalization -----------------------------------------------------

  /** A normalized path is canonical: absolute, without ".", ".." or empty components, and it fits. */
  lemma NormalIsCanonical(path: string, size: nat) returns (comps: seq<string>)
    requires Normal(path, size).Ok?
    ensures Walk([], Tokens(path, 0)) == Stack(comps) && ProperAll(comps) && |comps| <= MAX_COMPONENTS
    ensures Normal(path, size).value == Render(comps) && |Render(comps)| < size
  {
    TokensSplit(path, 0);
    WalkProper([], Tokens(path, 0));
    WalkDepth([], Tokens(path, 0));
    comps := Walk([], Tokens(path, 0)).comps;
  }

  /** Normalizing a path that is canonical and fits gives it back. */
  lemma CanonicalIsFixed(comps: seq<string>, size: nat)
    requires ProperAll(comps) && |comps| <= MAX_COMPONENTS && |Render(comps)| < size && |Render(comps)| < PATH_MAX
    ensures Normal(Render(comps), size) == Ok(Render(comps))
  {
    TokensOfRender(comps);
    WalkOfProper([], comps);
    assert [] + comps == comps;
  }

  /** Normalizing twice is normalizing once, for every buffer up to FTP_PATH_MAX. */
  lemma Idempotent(path: string, size: nat)
    requires Normal(path, size).Ok? && size <= PATH_MAX
    ensures Normal(Normal(path, size).value, size) == Normal(path, size)
  {
    var comps := NormalIsCanonical(path, size);
    CanonicalIsFixed(comps, size);
  }

  // ---- ftp_path_normalize ------------------------------------------------------------------

  /** The working buffer: consumed up to `scan`, still the path from there on. */
  ghost predicate Pristine(temp: seq<char>, path: string, scan: nat) {
    && |temp| == |path| + 1 && scan <= |path| && temp[|path|] == '\0'
    && forall j :: scan <= j < |path| ==> temp[j] == path[j]
  }

  /** The stack of component starts, read back as C strings, is `stack`. */
  ghost predicate Stacked(temp: seq<char>, starts: seq<nat>, stack: seq<string>, scan: nat) {
    && |stack| <= |starts|
    && forall k :: 0 <= k < |stack| ==>
         && '\0' !in stack[k]
         && starts[k] + |stack[k]| <= scan && starts[k] + |stack[k]| < |temp|
         && temp[starts[k]..starts[k] + |stack[k]|] == stack[k]
         && temp[starts[k] + |stack[k]|] == '\0'
  }

  /** Overwriting a slash at or after `scan` with a NUL leaves stacked components alone. */
  lemma CutKeeps(temp: seq<char>, starts: seq<nat>, stack: seq<string>, scan: nat, i: nat)
    requires Stacked(temp, starts, stack, scan) && scan <= i < |temp| && temp[i] == '/'
    ensures Stacked(temp[i := '\0'], starts, stack, scan)
  {
    var t := temp[i := '\0'];
    forall k | 0 <= k < |stack|
      ensures t[starts[k]..starts[k] + |stack[k]|] == stack[k] && t[starts[k] + |stack[k]|] == '\0'
    {
      assert t[starts[k]..starts[k] + |stack[k]|] == temp[starts[k]..starts[k] + |stack[k]|];
    }
  }

  lemma PushKeeps(temp: seq<char>, starts: seq<nat>, stack: seq<string>, scan: nat, start: nat, token: string)
    requires Stacked(temp, starts, stack, scan) && |stack| < |starts| && '\0' !in token
    requires start + |token| <= scan && start + |token| < |temp|
    requires temp[start..start + |token|] == token && temp[start + |token|] == '\0'
    ensures Stacked(temp, starts[|stack| := start], stack + [token], scan)
  {
  }

  /** The inner loop that blanks out separators. */
  method SkipSlashes(temp: array<char>, path: string, starts: seq<nat>, ghost stack: seq<string>, from: nat)
    returns (scan: nat)
    requires Pristine(temp[..], path, from) && Stacked(temp[..], starts, stack, from)
    modifies temp
    ensures from <= scan && Pristine(temp[..], path, scan) && Stacked(temp[..], starts, stack, scan)
    ensures Tokens(path, from) == Tokens(path, scan)
    ensures scan < |path| ==> path[scan] != '/'
  {
    scan := from;
    while temp[scan] == '/'
      invariant from <= scan && Pristine(temp[..], path, scan) && Stacked(temp[..], starts, stack, scan)
      invariant Tokens(path, from) == Tokens(path, scan)
      decreases |path| - scan
    {
      assert temp[..][scan] == '/';
      CutKeeps(temp[..], starts, stack, scan, scan);
      ghost var cut := temp[..][scan := '\0'];
      temp[scan] := '\0';
      assert temp[..] == cut;
      scan := scan + 1;
    }
    assert temp[..][scan] != '/';
  }

  /** Reading one component and terminating it in place. */
  method TakeToken(temp: array<char>, path: string, starts: seq<nat>, ghost stack: seq<string>, start: nat)
    returns (token: string, scan: nat)
    requires '\0' !in path && Pristine(temp[..], path, start) && Stacked(temp[..], starts, stack, start)
    requires start < |path| && path[start] != '/'
    modifies temp
    ensures start < scan && Pristine(temp[..], path, scan) && Stacked(temp[..], starts, stack, scan)
    ensures token == path[start..TokenEnd(path, start)] && '\0' !in token
    ensures start + |token| <= scan && start + |token| < temp.Length
    ensures temp[start..start + |token|] == token && temp[start + |token|] == '\0'
    ensures Tokens(path, start) == [token] + Tokens(path, scan)
  {
    scan := start;
    while temp[scan] != '\0' && temp[scan] != '/'
      invariant start <= scan <= |path| && Pristine(temp[..], path, start) && Stacked(temp[..], starts, stack, start)
      invariant forall j :: start <= j < scan ==> path[j] != '/'
      decreases |path| - scan
    {
      assert scan < |path|;
      scan := scan + 1;
    }
    assert scan < |path| ==> temp[..][scan] == path[scan] && path[scan] in path;
    TokenEndIs(path, start, scan);
    assert start < scan by { assert temp[..][start] == path[start] && path[start] in path; }
    token := path[start..scan];
    ghost var e := scan;
    if temp[scan] == '/' {
      assert temp[..][scan] == '/';
      CutKeeps(temp[..], starts, stack, start, scan);
      ghost var cut := temp[..][scan := '\0'];
      temp[scan] := '\0';
      assert temp[..] == cut;
      scan := scan + 1;
    }
    assert temp[..][start..e] == token && temp[..][e] == '\0';
    assert Tokens(path, start) == [token] + Tokens(path, e);
  }

  /** What one component does to the stack. */
  method Apply(ghost temp: seq<char>, starts: array<nat>, ghost stack: seq<string>, depth: nat,
               token: string, start: nat, ghost scan: nat, ghost rest: seq<string>)
    returns (ok: bool, depth': nat, ghost stack': seq<string>)
    requires depth == |stack| <= MAX_COMPONENTS == starts.Length && Stacked(temp, starts[..], stack, scan)
    requires '\0' !in token && start + |token| <= scan && start + |token| < |temp|
    requires temp[start..start + |token|] == token && temp[start + |token|] == '\0'
    modifies starts
    ensures ok ==> depth' == |stack'| <= MAX_COMPONENTS && Stacked(temp, starts[..], stack', scan)
    ensures if ok then Walk(stack, [token] + rest) == Walk(stack', rest) else !Walk(stack, [token] + rest).Stack?
  {
    ok, depth', stack' := true, depth, stack;
    assert ([token] + rest)[1..] == rest;
    if token == "." {
    } else if token == ".." {
      if depth > 0 {
        depth' := depth - 1;
        stack' := stack[..depth'];
      }
    } else {
      if depth >= MAX_COMPONENTS {
        return false, depth, stack;
      }
      PushKeeps(temp, starts[..], stack, scan, start, token);
      ghost var pushed := starts[..][depth := start];
      starts[depth] := start;
      assert starts[..] == pushed;
      stack' := stack + [token];
      depth' := depth + 1;
    }
  }

  /** One more component is spelled out, and the whole is at least as long. */
  lemma BodyNext(stack: seq<string>, i: nat)
    requires i < |stack|
    ensures Body(stack[..i + 1]) == Body(stack[..i]) + "/" + stack[i]
    ensures |Body(stack)| >= |Body(stack[..i])| + 1 + |stack[i]|
  {
    assert stack[..i + 1] == stack[..i] + [stack[i]];
    BodyConcat(stack[..i], [stack[i]]);
    assert Body([stack[i]]) == "/" + stack[i];
    assert stack == stack[..i + 1] + stack[i + 1..];
    BodyConcat(stack[..i + 1], stack[i + 1..]);
  }

  /** Spelling out the stacked components into a buffer of `size` bytes. */
  method Rebuild(temp: seq<char>, starts: seq<nat>, ghost stack: seq<string>, depth: nat, size: nat)
    returns (r: Result<string>)
    requires depth == |stack| && Stacked(temp, starts, stack, |temp|) && size > 0
    ensures r == if |Render(stack)| + 1 > size then Err(TooLong) else Ok(Render(stack))
  {
    if depth == 0 {
      return if size < 2 then Err(TooLong) else Ok("/");
    }
    var output := "";
    var idx := 0;
    while idx < depth
      invariant 0 <= idx <= depth && output == Body(stack[..idx])
      invariant idx > 0 ==> |output| + 1 <= size
    {
      CStringIs(temp, starts[idx], stack[idx]);
      var comp := CString(temp, starts[idx]);
      BodyNext(stack, idx);
      if |output| + |comp| + 2 > size {
        return Err(TooLong);
      }
      output := output + "/" + comp;
      idx := idx + 1;
    }
    assert stack[..depth] == stack;
    r := Ok(output);
  }

  /** `ftp_path_normalize` */
  method Normalize(path: string, size: nat) returns (r: Result<string>)
    requires '\0' !in path
    ensures r == Normal(path, size)
  {
    if size == 0 {
      return Err(InvalidParam);
    }
    if |path| >= PATH_MAX {
      return Err(TooLong);
    }
    if |path| == 0 {
      return if size < 2 then Err(TooLong) else Ok("/");
    }
    var temp := new char[|path| + 1](i requires 0 <= i <= |path| => if i < |path| then path[i] else '\0');
    var starts := new nat[MAX_COMPONENTS](_ => 0);
    var depth, scan := 0, 0;
    ghost var stack: seq<string> := [];
    while true
      invariant Pristine(temp[..], path, scan) && Stacked(temp[..], starts[..], stack, scan)
      invariant depth == |stack| <= MAX_COMPONENTS
      invariant Walk([], Tokens(path, 0)) == Walk(stack, Tokens(path, scan))
      decreases |path| - scan
    {
      scan := SkipSlashes(temp, path, starts[..], stack, scan);
      if temp[scan] == '\0' {
        assert scan == |path|;
        break;
      }
      var start := scan;
      var token, ok;
      token, scan := TakeToken(temp, path, starts[..], stack, start);
      ok, depth, stack := Apply(temp[..], starts, stack, depth, token, start, scan, Tokens(path, scan));
      if !ok {
        return Err(TooLong);
      }
    }
    r := Rebuild(temp[..], starts[..], stack, depth, size);
  }

  // ---- confinement ---------------------------------------------------------------------------

  /** `ftp_path_is_within_root` */
  predicate IsWithinRoot(path: string, root: string) {
    if path == "" || path[0] != '/' || root == "" || root[0] != '/' then false
    else if |root| == 1 then true
    else if |path| < |root| then false
    else if path[..|root|] != root then false
    else |path| == |root| || path[|root|] == '/'
  }

  lemma BodyStart(comps: seq<string>)
    requires ProperAll(comps) && comps != []
    ensures |Body(comps)| > 1 && Body(comps)[0] == '/'
  {
    assert comps[0] != "";
  }

  /** On canonical paths the textual test is the component test: the root's components come first. */
  lemma WithinRootIff(path: seq<string>, root: seq<string>)
    requires ProperAll(path) && ProperAll(root)
    ensures IsWithinRoot(Render(path), Render(root)) <==> root <= path
  {
    if root == [] {
      assert Render(path)[0] == '/';
    } else {
      BodyStart(root);
      var p, r := Render(path), Body(root);
      if IsWithinRoot(p, r) {
        var rest := p[|r|..];
        assert p == r + rest;
        TokensOfBody(root, rest);
        TokensOfRender(path);
        assert path == root + Tokens(rest, 0);
      }
      if root <= path {
        var rest := path[|root|..];
        assert path == root + rest;
        BodyConcat(root, rest);
        assert p == r + Body(rest);
        assert p[..|r|] == r;
        if rest != [] {
          BodyStart(rest);
          assert p[|r|] == Body(rest)[0];
        }
      }
    }
  }

  // ---- splitting and joining -----------------------------------------------------------------

  /** Index just after the last slash, 0 if there is none. */
  function AfterLastSlash(s: string): (i: nat)
    ensures i <= |s| && (i > 0 ==> s[i - 1] == '/') && (forall j :: i <= j < |s| ==> s[j] != '/')
  {
    if s == "" then 0
    else if s[|s| - 1] == '/' then |s|
    else AfterLastSlash(s[..|s| - 1])
  }

  function Basename(path: string, size: nat): Result<string> {
    var name := path[AfterLastSlash(path)..];
    if size == 0 then Err(InvalidParam) else if |name| + 1 > size then Err(TooLong) else Ok(name)
  }

  function Dirname(path: string, size: nat): Result<string> {
    var i := AfterLastSlash(path);
    var dir := if i == 0 then "." else if i == 1 then "/" else path[..i - 1];
    if size == 0 then Err(InvalidParam) else if |dir| + 1 > size then Err(TooLong) else Ok(dir)
  }

  lemma {:induction false} LastSlashIs(a: string, c: string)
    requires '/' !in c
    ensures AfterLastSlash(a + "/" + c) == |a| + 1
    decreases |c|
  {
    var s := a + "/" + c;
    if c != "" {
      var c' := c[..|c| - 1];
      assert s[|s| - 1] == c[|c| - 1] && c[|c| - 1] in c;
      assert s[..|s| - 1] == a + "/" + c';
      LastSlashIs(a, c');
    }
  }

  lemma LastComponent(front: seq<string>, c: string)
    ensures Body(front + [c]) == Body(front) + "/" + c
  {
    BodyConcat(front, [c]);
    assert Body([c]) == "/" + c;
  }

  /** Directory and base name of a canonical path: all components but the last, and the last. */
  lemma SplitCanonical(front: seq<string>, c: string, size: nat)
    requires ProperAll(front) && Proper(c) && |Render(front + [c])| < size
    ensures Dirname(Render(front + [c]), size) == Ok(Render(front))
    ensures Basename(Render(front + [c]), size) == Ok(c)
  {
    LastComponent(front, c);
    var s := Body(front) + "/" + c;
    LastSlashIs(Body(front), c);
    assert s[|Body(front)| + 1..] == c;
    assert s[..|Body(front)|] == Body(front);
    if front != [] {
      BodyStart(front);
    }
  }

  /** `ftp_path_join` */
  function Join(base: string, tail: string, size: nat): Result<string> {
    if size < PATH_MAX then Err(InvalidParam)
    else if |base| + |tail| + 2 >= size then Err(TooLong)
    else Normal((if base != "" && base[|base| - 1] != '/' then base + "/" else base) + tail, size)
  }

  /** Joining directory and base name of a canonical path gives the path back. */
  lemma JoinSplit(front: seq<string>, c: string)
    requires ProperAll(front) && Proper(c) && |front| < MAX_COMPONENTS && |Render(front + [c])| + 2 < PATH_MAX
    ensures Join(Render(front), c, PATH_MAX) == Ok(Render(front + [c]))
  {
    LastComponent(front, c);
    CanonicalIsFixed(front + [c], PATH_MAX);
    if front == [] {
      assert Render(front) + c == Render(front + [c]);
    } else {
      BodyEnd(front);
      assert (Render(front) + "/") + c == Render(front + [c]);
    }
  }

  lemma BodyEnd(comps: seq<string>)
    requires ProperAll(comps) && comps != []
    ensures Body(comps) != "" && Body(comps)[|Body(comps)| - 1] != '/'
  {
    var front, c := comps[..|comps| - 1], comps[|comps| - 1];
    assert comps == front + [c];
    LastComponent(front, c);
    assert c[|c| - 1] in c;
  }

  // ---- resolution ----------------------------------------------------------------------------

  datatype RealPath = NoReal | Real(path: string)

  /** The file system as the resolver sees it. */
  datatype Files = Files(exists_: string -> bool, realpath: string -> RealPath)

  /** realpath yields canonical paths. */
  ghost predicate Faithful(fs: Files) {
    forall p :: fs.realpath(p).Real? ==> Canonical(fs.realpath(p).path)
  }

  /** `ftp_path_resolve` with an output buffer of FTP_PATH_MAX bytes. */
  function Resolve(fs: Files, cwd: string, root: string, path: string): Result<string> {
    if |path| >= PATH_MAX then Err(TooLong)
    else if path != "" && path[0] == '/' then Confine(fs, root, Normal(path, PATH_MAX))
    else if |cwd| + |path| + 2 >= PATH_MAX then Err(TooLong)
    else Confine(fs, root, Normal(cwd + "/" + path, PATH_MAX))
  }

  function Confine(fs: Files, root: string, n: Result<string>): Result<string> {
    if n.Err? then n
    else if !IsWithinRoot(n.value, root) then Err(Invalid)
    else if fs.exists_(n.value) then ConfineExisting(fs, root, n.value)
    else ConfineNew(fs, root, n.value)
  }

  function ConfineExisting(fs: Files, root: string, output: string): Result<string> {
    match fs.realpath(output)
    case NoReal => Ok(output)
    case Real(p) =>
      if |p| + 1 > PATH_MAX then Ok(output)
      else if IsWithinRoot(p, root) then Ok(p) else Err(Invalid)
  }

  function ConfineNew(fs: Files, root: string, output: string): Result<string> {
    var dir, name := Dirname(output, PATH_MAX), Basename(output, PATH_MAX);
    if dir.Err? || name.Err? || !fs.exists_(dir.value) || fs.realpath(dir.value).NoReal? then Ok(output)
    else
      var joined := fs.realpath(dir.value).path + "/" + name.value;
      if |joined| >= PATH_MAX then Err(TooLong)
      else
        var n := Normal(joined, PATH_MAX);
        if n.Err? then n else if IsWithinRoot(n.value, root) then n else Err(Invalid)
  }

  /** Every path that resolves is canonical, fits its buffer and lies below the root, whatever links exist. */
  lemma ResolveConfined(fs: Files, cwd: string, root: string, path: string)
    requires Faithful(fs)
    ensures Confined(root, Resolve(fs, cwd, root, path))
  {
    if |path| < PATH_MAX {
      if path != "" && path[0] == '/' {
        ConfineConfined(fs, root, path);
      } else if |cwd| + |path| + 2 < PATH_MAX {
        ConfineConfined(fs, root, cwd + "/" + path);
      }
    }
  }

  /** What a confined path is. */
  ghost predicate Confined(root: string, r: Result<string>) {
    r.Ok? ==> Canonical(r.value) && |r.value| < PATH_MAX && IsWithinRoot(r.value, root)
  }

  lemma NormalCanonical(text: string)
    requires Normal(text, PATH_MAX).Ok?
    ensures Canonical(Normal(text, PATH_MAX).value) && |Normal(text, PATH_MAX).value| < PATH_MAX
  {
    var comps := NormalIsCanonical(text, PATH_MAX);
  }

  lemma NewConfined(fs: Files, root: string, output: string)
    requires Canonical(output) && |output| < PATH_MAX && IsWithinRoot(output, root)
    ensures Confined(root, ConfineNew(fs, root, output))
  {
    var dir, name := Dirname(output, PATH_MAX), Basename(output, PATH_MAX);
    if dir.Ok? && name.Ok? && fs.realpath(dir.value).Real? {
      var joined := fs.realpath(dir.value).path + "/" + name.value;
      if Normal(joined, PATH_MAX).Ok? {
        NormalCanonical(joined);
      }
    }
  }

  lemma ConfineConfined(fs: Files, root: string, text: string)
    requires Faithful(fs)
    ensures Confined(root, Confine(fs, root, Normal(text, PATH_MAX)))
  {
    var n := Normal(text, PATH_MAX);
    if n.Ok? {
      NormalCanonical(text);
      if IsWithinRoot(n.value, root) {
        NewConfined(fs, root, n.value);
      }
    }
  }
}
