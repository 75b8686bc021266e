/**
 The lock-free stream buffer pool of src/ftp_buffer_pool.c: any number of threads run the CAS
 loop of `ftp_buffer_acquire` and the fetch-and of `ftp_buffer_release`, one atomic access a step.
 */
module BufferPool {
  /** One buffer per session. The bit mask is the set of its bits. */
  const COUNT: nat := 32

  /** Every slot is taken. */
  ghost predicate Full(m: set<nat>) {
    forall i: nat :: i < COUNT ==> i in m
  }

  /** Where a thread is; `m` is the mask it loaded and `seen` how many mask changes came before that load. */
  datatype Local =
    | Idle
    | Start
    | Scan(m: set<nat>, seen: nat, i: nat)
    | Recheck(m: set<nat>, seen: nat)

  /** `full` tells whether the last call returned NULL. */
  datatype Thread = Thread(pc: Local, owned: set<nat>, retries: nat, full: bool)

  /** The shared mask, the thread behind each of its changes in order, and the threads. */
  datatype Pool = Pool(mask: set<nat>, writers: seq<nat>, threads: map<nat, Thread>)

  datatype Step = Call(t: nat) | Load(t: nat) | Skip(t: nat) | Exhaust(t: nat) | Cas(t: nat) | Check(t: nat)
    | Release(t: nat, slot: nat)

  predicate Enabled(p: Pool, s: Step) {
    s.t in p.threads && var th := p.threads[s.t];
    match s
    case Call(_) => th.pc.Idle?
    case Load(_) => th.pc.Start?
    case Skip(_) => th.pc.Scan? && th.pc.i < COUNT && th.pc.i in th.pc.m
    case Exhaust(_) => th.pc.Scan? && th.pc.i == COUNT
    case Cas(_) => th.pc.Scan? && th.pc.i < COUNT && th.pc.i !in th.pc.m
    case Check(_) => th.pc.Recheck?
    case Release(_, slot) => th.pc.Idle? && slot in th.owned
  }

  function With(p: Pool, t: nat, th: Thread): Pool {
    p.(threads := p.threads[t := th])
  }

  function Apply(p: Pool, s: Step): Pool
    requires Enabled(p, s)
  {
    var th := p.threads[s.t];
    match s
    case Call(t) => With(p, t, th.(pc := Start, full := false))
    case Load(t) => With(p, t, th.(pc := Scan(p.mask, |p.writers|, 0)))
    case Skip(t) => With(p, t, th.(pc := th.pc.(i := th.pc.i + 1)))
    case Exhaust(t) => With(p, t, th.(pc := Recheck(th.pc.m, th.pc.seen)))
    case Cas(t) =>
      if p.mask == th.pc.m then
        With(p.(mask := p.mask + {th.pc.i}, writers := p.writers + [t]), t,
             th.(pc := Idle, owned := th.owned + {th.pc.i}))
      else
        With(p, t, th.(pc := Start, retries := th.retries + 1))
    case Check(t) =>
      if p.mask == th.pc.m then With(p, t, th.(pc := Idle, full := true))
      else With(p, t, th.(pc := Start, retries := th.retries + 1))
    case Release(t, slot) =>
      With(p.(mask := p.mask - {slot}, writers := p.writers + [t]), t, th.(owned := th.owned - {slot}))
  }

  /** How many of the changes were made by threads other than `t`. */
  function Others(writers: seq<nat>, t: nat): nat {
    if writers == [] then 0
    else Others(writers[..|writers| - 1], t) + if writers[|writers| - 1] != t then 1 else 0
  }

  lemma {:induction false} OthersGrow(w: seq<nat>, a: nat, b: nat, t: nat)
    requires a <= b <= |w|
    ensures Others(w[..a], t) <= Others(w[..b], t)
    ensures (exists k :: a <= k < b && w[k] != t) ==> Others(w[..a], t) < Others(w[..b], t)
  {
    if a < b {
      assert w[..b][..b - 1] == w[..b - 1];
      OthersGrow(w, a, b - 1, t);
    }
  }

  // ---- The invariant ----------------------------------------------------------------------------

  /** A load that `seen` changes preceded: `t` has not changed the mask since, and without a change it still holds. */
  ghost predicate Fresh(p: Pool, t: nat, m: set<nat>, seen: nat) {
    && seen <= |p.writers| && (forall k :: seen <= k < |p.writers| ==> p.writers[k] != t)
    && (seen == |p.writers| ==> m == p.mask)
  }

  ghost predicate LocalInv(p: Pool, t: nat, th: Thread) {
    && (th.pc.Scan? ==>
          && Fresh(p, t, th.pc.m, th.pc.seen) && th.pc.i <= COUNT && (forall j: nat :: j < th.pc.i ==> j in th.pc.m)
          && th.retries <= Others(p.writers[..th.pc.seen], t))
    && (th.pc.Recheck? ==>
          && Fresh(p, t, th.pc.m, th.pc.seen) && Full(th.pc.m) && th.retries <= Others(p.writers[..th.pc.seen], t))
    && (th.pc.Idle? || th.pc.Start? ==> th.retries <= Others(p.writers, t))
  }

  /** The mask is exactly what the threads own, and nothing has two owners. */
  ghost predicate Owned(p: Pool) {
    && (forall i :: i in p.mask ==> i < COUNT)
    && (forall t :: t in p.threads ==> p.threads[t].owned <= p.mask)
    && (forall t, u :: t in p.threads && u in p.threads && t != u ==> p.threads[t].owned !! p.threads[u].owned)
    && (forall i :: i in p.mask ==> exists t :: t in p.threads && i in p.threads[t].owned)
  }

  ghost predicate Inv(p: Pool) {
    Owned(p) && forall t :: t in p.threads ==> LocalInv(p, t, p.threads[t])
  }

  predicate Init(p: Pool) {
    p.mask == {} && p.writers == [] && forall t :: t in p.threads ==> p.threads[t] == Thread(Idle, {}, 0, false)
  }

  lemma InitInv(p: Pool)
    requires Init(p)
    ensures Inv(p)
  {
  }

  /** A mask change by `u` leaves the other threads' invariants standing. */
  lemma OtherKeeps(p: Pool, q: Pool, t: nat, th: Thread, u: nat)
    requires LocalInv(p, t, th) && t != u
    requires q.writers == p.writers + [u] || (q.writers == p.writers && q.mask == p.mask)
    ensures LocalInv(q, t, th)
  {
    assert q.writers[..|p.writers|] == p.writers;
    OthersGrow(q.writers, |p.writers|, |q.writers|, t);
    assert q.writers[..|q.writers|] == q.writers;
    if th.pc.Scan? || th.pc.Recheck? {
      assert q.writers[..th.pc.seen] == p.writers[..th.pc.seen];
    }
  }

  /** A failed exchange or re-check means that another thread has changed the mask since the load. */
  lemma FailureIsInterference(p: Pool, t: nat)
    requires Inv(p) && t in p.threads && (p.threads[t].pc.Scan? || p.threads[t].pc.Recheck?)
      && p.mask != p.threads[t].pc.m
    ensures var seen := p.threads[t].pc.seen; seen < |p.writers| && p.writers[seen] != t
    ensures p.threads[t].retries < Others(p.writers, t)
  {
    var seen := p.threads[t].pc.seen;
    assert p.writers[seen] != t;
    OthersGrow(p.writers, seen, |p.writers|, t);
    assert p.writers[..|p.writers|] == p.writers;
  }

  /** A thread that exchanges or re-checks: it retries only if another thread has interfered. */
  lemma SelfTries(p: Pool, s: Step)
    requires Inv(p) && Enabled(p, s) && (s.Cas? || s.Check?)
    ensures LocalInv(Apply(p, s), s.t, Apply(p, s).threads[s.t])
  {
    var th, w := p.threads[s.t], p.writers;
    assert w[..|w|] == w;
    OthersGrow(w, th.pc.seen, |w|, s.t);
    if p.mask != th.pc.m {
      FailureIsInterference(p, s.t);
    } else if s.Cas? {
      OthersAfter(w, s.t);
    }
  }

  /** A thread's own change does not count against it. */
  lemma OthersAfter(w: seq<nat>, t: nat)
    ensures Others(w + [t], t) == Others(w, t)
  {
    assert (w + [t])[..|w|] == w;
  }

  lemma SelfKeeps(p: Pool, s: Step)
    requires Inv(p) && Enabled(p, s)
    ensures LocalInv(Apply(p, s), s.t, Apply(p, s).threads[s.t])
  {
    if s.Cas? || s.Check? {
      SelfTries(p, s);
    } else {
      assert p.writers[..|p.writers|] == p.writers;
      OthersAfter(p.writers, s.t);
    }
  }

  /** `q` is `p` with another state for thread `t`. */
  ghost predicate OneThread(p: Pool, q: Pool, t: nat) {
    t in p.threads && t in q.threads && q.threads == p.threads[t := q.threads[t]]
  }

  lemma OwnedSame(p: Pool, q: Pool, t: nat)
    requires Owned(p) && OneThread(p, q, t) && q.mask == p.mask && q.threads[t].owned == p.threads[t].owned
    ensures Owned(q)
  {
    forall i | i in q.mask ensures exists u :: u in q.threads && i in q.threads[u].owned {
      var u :| u in p.threads && i in p.threads[u].owned;
      assert i in q.threads[u].owned;
    }
  }

  lemma OwnedMore(p: Pool, q: Pool, t: nat, slot: nat)
    requires Owned(p) && OneThread(p, q, t) && slot < COUNT && slot !in p.mask
    requires q.mask == p.mask + {slot} && q.threads[t].owned == p.threads[t].owned + {slot}
    ensures Owned(q)
  {
    forall i | i in q.mask ensures exists u :: u in q.threads && i in q.threads[u].owned {
      if i == slot {
        assert i in q.threads[t].owned;
      } else {
        var u :| u in p.threads && i in p.threads[u].owned;
        assert i in q.threads[u].owned;
      }
    }
  }

  lemma OwnedLess(p: Pool, q: Pool, t: nat, slot: nat)
    requires Owned(p) && OneThread(p, q, t) && slot in p.threads[t].owned
    requires q.mask == p.mask - {slot} && q.threads[t].owned == p.threads[t].owned - {slot}
    ensures Owned(q)
  {
    forall i | i in q.mask ensures exists u :: u in q.threads && i in q.threads[u].owned {
      var u :| u in p.threads && i in p.threads[u].owned;
      assert i in q.threads[u].owned;
    }
  }

  lemma OwnedKeeps(p: Pool, s: Step)
    requires Inv(p) && Enabled(p, s)
    ensures Owned(Apply(p, s))
  {
    var q := Apply(p, s);
    if s.Release? {
      OwnedLess(p, q, s.t, s.slot);
    } else if s.Cas? && p.mask == p.threads[s.t].pc.m {
      OwnedMore(p, q, s.t, p.threads[s.t].pc.i);
    } else {
      OwnedSame(p, q, s.t);
    }
  }

  lemma StepKeeps(p: Pool, s: Step)
    requires Inv(p) && Enabled(p, s)
    ensures Inv(Apply(p, s))
  {
    var q := Apply(p, s);
    OwnedKeeps(p, s);
    SelfKeeps(p, s);
    forall t | t in q.threads && t != s.t ensures LocalInv(q, t, q.threads[t]) {
      OtherKeeps(p, q, t, p.threads[t], s.t);
    }
  }

  // ---- Whole runs -------------------------------------------------------------------------------

  predicate RunOk(p: Pool, steps: seq<Step>)
    decreases |steps|
  {
    steps == [] || (Enabled(p, steps[0]) && RunOk(Apply(p, steps[0]), steps[1..]))
  }

  function Run(p: Pool, steps: seq<Step>): Pool
    requires RunOk(p, steps)
    decreases |steps|
  {
    if steps == [] then p else Run(Apply(p, steps[0]), steps[1..])
  }

  lemma {:induction false} RunKeeps(p: Pool, steps: seq<Step>)
    requires Inv(p) && RunOk(p, steps)
    ensures Inv(Run(p, steps))
    decreases |steps|
  {
    if steps != [] {
      StepKeeps(p, steps[0]);
      RunKeeps(Apply(p, steps[0]), steps[1..]);
    }
  }

  /** In every reachable state a slot is marked exactly when some thread owns it, and only one does. */
  lemma ExclusiveOwners(p: Pool, steps: seq<Step>, slot: nat)
    requires Init(p) && RunOk(p, steps)
    ensures var q := Run(p, steps);
      && (slot in q.mask <==> exists t :: t in q.threads && slot in q.threads[t].owned)
      && forall t, u :: t in q.threads && u in q.threads ==>
           slot in q.threads[t].owned && slot in q.threads[u].owned ==> t == u
  {
    InitInv(p);
    RunKeeps(p, steps);
  }

  /** The slot an exchange takes was free at that moment, and NULL is returned only while every slot is taken. */
  lemma AcquireIsAtomic(p: Pool, steps: seq<Step>, s: Step)
    requires Init(p) && RunOk(p, steps) && Enabled(Run(p, steps), s)
    ensures var q, r := Run(p, steps), Apply(Run(p, steps), s);
      && (r.threads[s.t].full && !q.threads[s.t].full ==> s.Check? && Full(q.mask))
      && (forall i :: i in r.threads[s.t].owned && i !in q.threads[s.t].owned ==>
            s.Cas? && i < COUNT && i !in q.mask && forall t :: t in q.threads ==> i !in q.threads[t].owned)
  {
    InitInv(p);
    RunKeeps(p, steps);
  }

  /** The loop is lock free: a thread has gone round no more often than the others have changed the mask. */
  lemma RetriesBounded(p: Pool, steps: seq<Step>, t: nat)
    requires Init(p) && RunOk(p, steps) && t in Run(p, steps).threads
    ensures Run(p, steps).threads[t].retries <= Others(Run(p, steps).writers, t)
  {
    InitInv(p);
    RunKeeps(p, steps);
    var q := Run(p, steps);
    var th := q.threads[t];
    assert q.writers[..|q.writers|] == q.writers;
    if th.pc.Scan? || th.pc.Recheck? {
      OthersGrow(q.writers, th.pc.seen, |q.writers|, t);
    }
  }
}
