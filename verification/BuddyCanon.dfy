/** What is live decides how the arena is cut: no trace of the order of operations is left. */
module BuddyCanon {
  import opened Powers
  import opened BuddyTree
  import opened BuddySpec

  ghost predicate SameAt(t: Tree, u: Tree, k: nat, o: nat)
    requires WF(t, k) && WF(u, k)
  {
    IsUsed(t, k, o) || IsUsed(u, k, o) ==> Lookup(u, k, o) == Lookup(t, k, o)
  }

  /** The same live blocks, of the same orders. */
  ghost predicate SameLive(t: Tree, u: Tree, k: nat)
    requires WF(t, k) && WF(u, k)
  {
    forall o: nat :: SameAt(t, u, k, o)
  }

  lemma SameLiveLeft(t: Tree, u: Tree, k: nat)
    requires WF(t, k) && WF(u, k) && t.Node? && u.Node? && SameLive(t, u, k)
    ensures SameLive(t.left, u.left, k - 1)
  {
    var l, m, j := t.left, u.left, k - 1;
    forall o: nat ensures SameAt(l, m, j, o) {
      if o < Pow2(j) {
        assert SameAt(t, u, k, o);
      } else {
        NoBlockOutside(l, j, o);
        NoBlockOutside(m, j, o);
      }
    }
  }

  lemma SameLiveRight(t: Tree, u: Tree, k: nat)
    requires WF(t, k) && WF(u, k) && t.Node? && u.Node? && SameLive(t, u, k)
    ensures SameLive(t.right, u.right, k - 1)
  {
    var r, s, j := t.right, u.right, k - 1;
    forall o: nat ensures SameAt(r, s, j, o) {
      assert SameAt(t, u, k, o + Pow2(j));
    }
  }

  /** A leaf is known from its live blocks. */
  lemma LeafLive(t: Tree, u: Tree, k: nat)
    requires WF(t, k) && WF(u, k) && Coalesced(u) && Settled(u) && t.Leaf? && !t.st.Held? && SameLive(t, u, k)
    ensures u == t
  {
    if t.st.Used? {
      assert SameAt(t, u, k, 0);
      LookupIsLeaf(u, k, 0, k, Used);
    } else {
      forall o: nat ensures !IsUsed(u, k, o) {
        assert SameAt(t, u, k, o);
      }
      NoUsedIsRoot(u, k);
    }
  }

  lemma SameLiveBack(t: Tree, u: Tree, k: nat)
    requires WF(t, k) && WF(u, k) && SameLive(t, u, k)
    ensures SameLive(u, t, k)
  {
    forall o: nat ensures SameAt(u, t, k, o) {
      assert SameAt(t, u, k, o);
    }
  }

  /** Two coalesced arenas with the same live blocks are cut in the same way. */
  lemma {:induction false} LiveDecides(t: Tree, u: Tree, k: nat)
    requires WF(t, k) && WF(u, k) && Coalesced(t) && Settled(t) && Coalesced(u) && Settled(u) && SameLive(t, u, k)
    ensures t == u
  {
    if t.Leaf? {
      LeafLive(t, u, k);
    } else if u.Leaf? {
      SameLiveBack(t, u, k);
      LeafLive(u, t, k);
    } else {
      SameLiveLeft(t, u, k);
      SameLiveRight(t, u, k);
      LiveDecides(t.left, u.left, k - 1);
      LiveDecides(t.right, u.right, k - 1);
    }
  }

  lemma LiveIs(t: Tree, k: nat, o: nat)
    requires WF(t, k)
    ensures o in Live(t, k) <==> IsUsed(t, k, o)
    ensures o in Live(t, k) ==> Lookup(t, k, o) == Block(Live(t, k)[o], Used)
  {
  }

  lemma SameMap(t: Tree, u: Tree, k: nat)
    requires WF(t, k) && WF(u, k) && Live(t, k) == Live(u, k)
    ensures SameLive(t, u, k)
  {
    forall o: nat ensures SameAt(t, u, k, o) {
      LiveIs(t, k, o);
      LiveIs(u, k, o);
    }
  }

  /** Whatever two runs did, if they leave the same blocks live they leave the same arena. */
  lemma RunsAgree(t: Tree, k: nat, ops: seq<Op>, ops': seq<Op>)
    requires WF(t, k) && Coalesced(t) && Settled(t) && RunOk(t, k, ops) && RunOk(t, k, ops')
    requires Live(Run(t, k, ops), k) == Live(Run(t, k, ops'), k)
    ensures Run(t, k, ops) == Run(t, k, ops')
  {
    RunKeeps(t, k, ops);
    RunKeeps(t, k, ops');
    SameMap(Run(t, k, ops), Run(t, k, ops'), k);
    LiveDecides(Run(t, k, ops), Run(t, k, ops'), k);
  }

  /** Giving back what was just taken undoes the taking. */
  lemma GiveUndoesTake(t: Tree, k: nat, op: Op)
    requires WF(t, k) && Coalesced(t) && Settled(t) && op.Take? && Enabled(t, k, op)
    ensures IsUsed(Step(t, k, op), k, op.from)
    ensures Step(Step(t, k, op), k, Give(op.from)) == t
  {
    StepKeeps(t, k, op);
    var t' := Step(t, k, op);
    StepKeeps(t', k, Give(op.from));
    var u := Step(t', k, Give(op.from));
    assert Live(u, k) == Live(t, k);
    SameMap(u, t, k);
    LiveDecides(u, t, k);
  }
}
