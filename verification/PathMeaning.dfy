/** What a path means to `ftp_path_resolve`: a walk over components from the working directory or from the top. */
module PathMeaning {
  import opened Common
  import opened Path

  predicate Absolute(path: string) {
    path != "" && path[0] == '/'
  }

  /** The components that `path` leads to from the directory with components `cwd`. */
  function Meant(cwd: seq<string>, path: string): Stack {
    if Absolute(path) then Walk([], Tokens(path, 0))
    else if |cwd| > MAX_COMPONENTS then TooDeep
    else Walk(cwd, Tokens(path, 0))
  }

  /** No links: the real path of a path is the path. */
  ghost predicate NoLinks(fs: Files) {
    forall p :: fs.realpath(p) == Real(p)
  }

  // ---- the text that is normalized -------------------------------------------------------------

  /** Components kept first are walked over first. */
  lemma {:induction false} WalkFrom(stack: seq<string>, comps: seq<string>, toks: seq<string>)
    requires ProperAll(comps) && |stack| <= MAX_COMPONENTS
    ensures Walk(stack, comps + toks) == if |stack + comps| > MAX_COMPONENTS then TooDeep else Walk(stack + comps, toks)
    decreases |comps|
  {
    if comps == [] {
      assert comps + toks == toks && stack + comps == stack;
    } else {
      var all := comps + toks;
      assert all[0] == comps[0] && all[1..] == comps[1..] + toks && Proper(comps[0]);
      if |stack| < MAX_COMPONENTS {
        WalkFrom(stack + [comps[0]], comps[1..], toks);
        assert stack + [comps[0]] + comps[1..] == stack + comps;
      }
    }
  }

  /** The working directory, a slash and a path have the components of both. */
  lemma TokensJoined(cwd: seq<string>, path: string)
    requires ProperAll(cwd)
    ensures Tokens(Render(cwd) + "/" + path, 0) == cwd + Tokens(path, 0)
  {
    var rest := "/" + path;
    TokensShift("/", path, 0);
    if cwd == [] {
      assert Render(cwd) + "/" + path == "/" + rest;
      TokensShift("/", rest, 0);
      assert cwd + Tokens(path, 0) == Tokens(path, 0);
    } else {
      assert Render(cwd) + "/" + path == Body(cwd) + rest;
      TokensOfBody(cwd, rest);
    }
  }

  /** What normalization makes of the text put together for a path. */
  lemma NormalMeans(cwd: seq<string>, path: string)
    requires ProperAll(cwd)
    ensures Absolute(path) ==> Walk([], Tokens(path, 0)) == Meant(cwd, path)
    ensures !Absolute(path) ==> Walk([], Tokens(Render(cwd) + "/" + path, 0)) == Meant(cwd, path)
  {
    TokensJoined(cwd, path);
    WalkFrom([], cwd, Tokens(path, 0));
    assert [] + cwd == cwd;
  }

  lemma MeantProper(cwd: seq<string>, path: string)
    requires ProperAll(cwd) && Meant(cwd, path).Stack?
    ensures ProperAll(Meant(cwd, path).comps) && |Meant(cwd, path).comps| <= MAX_COMPONENTS
  {
    TokensSplit(path, 0);
    var from := if Absolute(path) then [] else cwd;
    WalkProper(from, Tokens(path, 0));
    WalkDepth(from, Tokens(path, 0));
  }

  // ---- confinement without links ---------------------------------------------------------------

  /** The one name that fits alone but not behind the slash that is added to the top directory. */
  predicate OneTooLong(fs: Files, comps: seq<string>) {
    |comps| == 1 && |Render(comps)| + 1 == PATH_MAX && !fs.exists_(Render(comps)) && fs.exists_("/")
  }

  lemma NewMeans(fs: Files, root: seq<string>, comps: seq<string>)
    requires NoLinks(fs) && ProperAll(root) && ProperAll(comps) && |comps| <= MAX_COMPONENTS
    requires |Render(comps)| < PATH_MAX && IsWithinRoot(Render(comps), Render(root)) && !fs.exists_(Render(comps))
    ensures ConfineNew(fs, Render(root), Render(comps))
         == if OneTooLong(fs, comps) then Err(TooLong) else Ok(Render(comps))
  {
    if comps != [] {
      var n := |comps| - 1;
      var front, c := comps[..n], comps[n];
      assert comps == front + [c];
      SplitCanonical(front, c, PATH_MAX);
      JoinedLength(front, c);
      var joined := Render(front) + "/" + c;
      if |joined| < PATH_MAX {
        JoinedNormal(front, c);
      }
    } else {
      assert AfterLastSlash("/") == 1;
    }
  }

  lemma JoinedLength(front: seq<string>, c: string)
    requires ProperAll(front) && Proper(c)
    ensures |Render(front) + "/" + c| == |Render(front + [c])| + if front == [] then 1 else 0
    ensures front == [] ==> Render(front) == "/"
    ensures front != [] ==> Render(front) + "/" + c == Render(front + [c])
  {
    LastComponent(front, c);
  }

  lemma JoinedNormal(front: seq<string>, c: string)
    requires ProperAll(front) && Proper(c) && |front| < MAX_COMPONENTS && |Render(front) + "/" + c| < PATH_MAX
    ensures Normal(Render(front) + "/" + c, PATH_MAX) == Ok(Render(front + [c]))
  {
    TokensJoined(front, c);
    JoinedLength(front, c);
    OneToken(c);
    WalkOfProper([], front + [c]);
    assert [] + (front + [c]) == front + [c];
  }

  lemma OneToken(c: string)
    requires Proper(c)
    ensures Tokens(c, 0) == [c]
  {
    TokenEndIs(c, 0, |c|);
    assert c[0..|c|] == c;
  }

  /** A path found below the root is the answer, but for the one that is too long by the added slash. */
  lemma ConfineMeans(fs: Files, root: seq<string>, comps: seq<string>)
    requires NoLinks(fs) && ProperAll(root) && ProperAll(comps) && |comps| <= MAX_COMPONENTS
    requires |Render(comps)| < PATH_MAX
    ensures Confine(fs, Render(root), Ok(Render(comps)))
         == if !(root <= comps) then Err(Invalid) else if OneTooLong(fs, comps) then Err(TooLong) else Ok(Render(comps))
  {
    WithinRootIff(comps, root);
    var p := Render(comps);
    if root <= comps {
      if fs.exists_(p) {
        assert fs.realpath(p) == Real(p);
      } else {
        NewMeans(fs, root, comps);
      }
    }
  }

  /** The text put together for a path fits its buffer. */
  predicate TextFits(cwd: seq<string>, path: string) {
    |path| < PATH_MAX && (Absolute(path) || |Render(cwd)| + |path| + 2 < PATH_MAX)
  }

  /**
   Without links, a path resolves to the components it means: those walked over from the top if it is
   absolute and from the working directory if not. It fails when that is too long or too deep, or
   leaves the root.
   */
  lemma ResolveMeans(fs: Files, cwd: seq<string>, root: seq<string>, path: string)
    requires NoLinks(fs) && ProperAll(cwd) && ProperAll(root)
    ensures Resolve(fs, Render(cwd), Render(root), path) ==
            if !TextFits(cwd, path) || Meant(cwd, path).TooDeep? then Err(TooLong)
            else
              var d := Meant(cwd, path).comps;
              if |Render(d)| >= PATH_MAX then Err(TooLong)
              else if !(root <= d) then Err(Invalid)
              else if OneTooLong(fs, d) then Err(TooLong)
              else Ok(Render(d))
  {
    NormalMeans(cwd, path);
    if TextFits(cwd, path) && Meant(cwd, path).Stack? {
      MeantProper(cwd, path);
      var d := Meant(cwd, path).comps;
      if |Render(d)| < PATH_MAX {
        ConfineMeans(fs, root, d);
      }
    }
  }

  /** A new name of 4094 bytes in the top directory is refused, although its path fits. */
  lemma LongNameRefused(fs: Files, c: string)
    requires NoLinks(fs) && Proper(c) && |c| == PATH_MAX - 2 && fs.exists_("/") && !fs.exists_(Render([c]))
    ensures |Render([c])| < PATH_MAX && Resolve(fs, "/", "/", Render([c])) == Err(TooLong)
  {
    var p := Render([c]);
    assert p == "/" + c by {
      assert [c][1..] == [];
      assert Body([c]) == "/" + c + Body([]);
    }
    TokensOfRender([c]);
    WalkOfProper([], [c]);
    assert [] + [c] == [c];
    assert Meant([], p) == Stack([c]);
    assert OneTooLong(fs, [c]);
    ResolveMeans(fs, [], [], p);
  }

  /** ".." means the directory above, and the top directory at the top. */
  lemma ParentMeans(cwd: seq<string>)
    requires |cwd| <= MAX_COMPONENTS
    ensures Meant(cwd, "..") == Stack(if cwd == [] then [] else cwd[..|cwd| - 1])
  {
    TokenEndIs("..", 0, 2);
    assert ".."[0..2] == "..";
    assert Tokens("..", 0) == [".."];
    assert [".."][1..] == [];
  }

  /** A name means the entry of that name in the working directory. */
  lemma ChildMeans(cwd: seq<string>, c: string)
    requires Proper(c) && |cwd| < MAX_COMPONENTS
    ensures Meant(cwd, c) == Stack(cwd + [c])
  {
    OneToken(c);
    WalkOfProper(cwd, [c]);
    assert c[0] in c;
  }

  /** "." means the working directory itself. */
  lemma DotMeans(cwd: seq<string>)
    requires |cwd| <= MAX_COMPONENTS
    ensures Meant(cwd, ".") == Stack(cwd)
  {
    TokenEndIs(".", 0, 1);
    assert "."[0..1] == ".";
    assert Tokens(".", 0) == ["."];
    assert ["."][1..] == [];
  }

  // ---- one path behind another -----------------------------------------------------------------

  lemma {:induction false} TokensBehind(p: string, q: string, i: nat)
    requires i <= |p|
    ensures Tokens(p + ("/" + q), i) == Tokens(p, i) + Tokens(q, 0)
    decreases |p| - i
  {
    var s := p + ("/" + q);
    if i == |p| {
      assert s == (p + "/") + q;
      TokensShift(p + "/", q, 0);
    } else if p[i] == '/' {
      TokensBehind(p, q, i + 1);
    } else {
      var e := TokenEnd(p, i);
      TokenEndIs(s, i, e);
      assert s[i..e] == p[i..e];
      TokensBehind(p, q, e);
    }
  }

  /** Components are walked over one after another. */
  lemma {:induction false} WalkBehind(stack: seq<string>, a: seq<string>, b: seq<string>)
    ensures Walk(stack, a + b) == match Walk(stack, a) case TooDeep => TooDeep case Stack(comps) => Walk(comps, b)
    decreases |a|
  {
    if a == [] {
      assert a + b == b;
    } else {
      assert (a + b)[0] == a[0] && (a + b)[1..] == a[1..] + b;
      if a[0] == "." {
        WalkBehind(stack, a[1..], b);
      } else if a[0] == ".." {
        WalkBehind(if stack == [] then [] else stack[..|stack| - 1], a[1..], b);
      } else if |stack| < MAX_COMPONENTS {
        WalkBehind(stack + [a[0]], a[1..], b);
      }
    }
  }

  /** A path followed by a slash and another path means the second one, seen from where the first one leads. */
  lemma JoinedMeans(cwd: seq<string>, p: string, q: string)
    requires p != "" && !Absolute(q) && |cwd| <= MAX_COMPONENTS
    ensures Meant(cwd, p + ("/" + q))
         == match Meant(cwd, p) case TooDeep => TooDeep case Stack(comps) => Meant(comps, q)
  {
    assert (p + ("/" + q))[0] == p[0];
    TokensBehind(p, q, 0);
    var from := if Absolute(p) then [] else cwd;
    WalkBehind(from, Tokens(p, 0), Tokens(q, 0));
    WalkDepth(from, Tokens(p, 0));
  }
}
