/**
 * Killing a process and everything under it, and counting what it holds
 * (daemon/src/processes.ts).
 */
module Processes {
  import opened Common

  /** What the sampler reads about one process. `wayIn`: its command is part of the way in. */
  datatype Proc = Proc(pid: int, ppid: int, rssBytes: nat, wayIn: bool)

  // ---------- the process forest -----------------------------------------------

  ghost predicate DistinctPids(procs: seq<Proc>) {
    forall i, j | 0 <= i < j < |procs| :: procs[i].pid != procs[j].pid
  }

  predicate IsListed(procs: seq<Proc>, pid: int) {
    exists i :: 0 <= i < |procs| && procs[i].pid == pid
  }

  /** The children of a process, in listing order. */
  function ChildrenOf(procs: seq<Proc>, pid: int): seq<int> {
    if procs == [] then [] else
      var last := procs[|procs| - 1];
      ChildrenOf(procs[..|procs| - 1], pid) + if last.ppid == pid then [last.pid] else []
  }

  lemma {:induction false} ChildIsListed(procs: seq<Proc>, pid: int, c: int)
    ensures c in ChildrenOf(procs, pid)
        <==> exists i :: 0 <= i < |procs| && procs[i].pid == c && procs[i].ppid == pid
  {
    if procs == [] {
    } else {
      var init := procs[..|procs| - 1];
      ChildIsListed(init, pid, c);
      if i :| 0 <= i < |procs| && procs[i].pid == c && procs[i].ppid == pid {
        assert i < |init| ==> init[i] == procs[i];
      }
      if i :| 0 <= i < |init| && init[i].pid == c && init[i].ppid == pid {
        assert procs[i] == init[i];
      }
    }
  }

  ghost predicate IsChild(procs: seq<Proc>, p: int, c: int) {
    c in ChildrenOf(procs, p)
  }

  /** `d` is `steps` generations below `p`. */
  ghost predicate IsBelow(procs: seq<Proc>, p: int, d: int, steps: nat)
    decreases steps
  {
    if steps == 0 then p == d
    else exists c :: IsChild(procs, p, c) && IsBelow(procs, c, d, steps - 1)
  }

  ghost predicate IsDescendant(procs: seq<Proc>, p: int, d: int) {
    exists steps: nat :: steps > 0 && IsBelow(procs, p, d, steps)
  }

  /** No process is its own ancestor. */
  ghost predicate Acyclic(procs: seq<Proc>) {
    forall p :: !IsDescendant(procs, p, p)
  }

  lemma {:induction false} BelowTransitive(procs: seq<Proc>, a: int, b: int, c: int, m: nat, n: nat)
    requires IsBelow(procs, a, b, m) && IsBelow(procs, b, c, n)
    ensures IsBelow(procs, a, c, m + n)
    decreases m
  {
    if m == 0 {
    } else {
      var x :| IsChild(procs, a, x) && IsBelow(procs, x, b, m - 1);
      BelowTransitive(procs, x, b, c, m - 1, n);
    }
  }

  lemma ChildIsBelow(procs: seq<Proc>, p: int, c: int)
    requires IsChild(procs, p, c)
    ensures IsBelow(procs, p, c, 1) && IsDescendant(procs, p, c)
  {
    assert IsBelow(procs, c, c, 0);
    assert IsBelow(procs, p, c, 1);
  }

  ghost predicate IsSelfOrBelow(procs: seq<Proc>, p: int, d: int) {
    exists steps: nat :: IsBelow(procs, p, d, steps)
  }

  lemma SelfOrBelowIs(procs: seq<Proc>, p: int, d: int)
    ensures IsSelfOrBelow(procs, p, d) <==> p == d || IsDescendant(procs, p, d)
  {
    assert IsBelow(procs, p, p, 0);
    if steps: nat :| IsBelow(procs, p, d, steps) {
      assert steps > 0 ==> IsDescendant(procs, p, d);
    }
  }

  lemma StepDown(procs: seq<Proc>, x: int, p: int, c: int)
    requires IsSelfOrBelow(procs, x, p) && IsChild(procs, p, c)
    ensures IsSelfOrBelow(procs, x, c) && IsDescendant(procs, x, c)
  {
    var steps: nat :| IsBelow(procs, x, p, steps);
    ChildIsBelow(procs, p, c);
    BelowTransitive(procs, x, p, c, steps, 1);
  }

  /** A set that holds the children of all its members holds all their descendants. */
  lemma {:induction false} ClosedHoldsBelow(procs: seq<Proc>, s: set<int>, p: int, d: int, steps: nat)
    requires p in s && IsBelow(procs, p, d, steps)
    requires forall x, c :: x in s && IsChild(procs, x, c) ==> c in s
    ensures d in s
    decreases steps
  {
    if steps == 0 {
    } else {
      var c :| IsChild(procs, p, c) && IsBelow(procs, c, d, steps - 1);
      ClosedHoldsBelow(procs, s, c, d, steps - 1);
    }
  }

  /** The set of all listed pids, which bounds every walk. */
  ghost function Pids(procs: seq<Proc>): set<int> {
    set i | 0 <= i < |procs| :: procs[i].pid
  }

  lemma ChildrenAreListed(procs: seq<Proc>, p: int)
    ensures forall c | c in ChildrenOf(procs, p) :: c in Pids(procs)
  {
    forall c | c in ChildrenOf(procs, p)
      ensures c in Pids(procs)
    {
      ChildIsListed(procs, p, c);
    }
  }

  // ---------- reading the children ------------------------------------------------

  /** Children of a pid, read by looking at every process. */
  method ChildrenFrom(procs: seq<Proc>, pid: int) returns (out: seq<int>)
    ensures out == ChildrenOf(procs, pid)
  {
    out := [];
    for i := 0 to |procs|
      invariant out == ChildrenOf(procs[..i], pid)
    {
      assert procs[..i + 1][..i] == procs[..i];
      if procs[i].ppid == pid {
        out := out + [procs[i].pid];
      }
    }
    assert procs[..|procs|] == procs;
  }

  /** The sampler's index of every process by its parent. */
  method IndexChildren(procs: seq<Proc>) returns (children: map<int, seq<int>>)
    ensures forall p :: ChildrenOf(procs, p) == if p in children then children[p] else []
  {
    children := map[];
    for i := 0 to |procs|
      invariant forall p :: ChildrenOf(procs[..i], p) == if p in children then children[p] else []
    {
      assert procs[..i + 1][..i] == procs[..i];
      var p := procs[i];
      if p.ppid !in children {
        children := children[p.ppid := []];
      }
      children := children[p.ppid := children[p.ppid] + [p.pid]];
    }
    assert procs[..|procs|] == procs;
  }

  // ---------- the order of a tree kill ------------------------------------------------

  /** Every process comes after all its children. */
  ghost predicate ChildrenFirst(procs: seq<Proc>, order: seq<int>) {
    forall i | 0 <= i < |order| :: forall c | IsChild(procs, order[i], c) :: c in order[..i]
  }

  ghost predicate Distinct(order: seq<int>) {
    forall i, j | 0 <= i < j < |order| :: order[i] != order[j]
  }

  /**
   * A walk from `root` that is at `p`. `open` are the processes whose visit has begun and not
   * ended, the seen ones not yet in the order; they lead down to `p`.
   */
  ghost predicate IsWalk(procs: seq<Proc>, root: int, seen: set<int>, order: seq<int>, open: set<int>, p: int) {
    && Distinct(order)
    && (forall x | x in order :: x in seen && x !in open && IsDescendant(procs, root, x))
    && (forall x | x in seen :: x in order || x in open)
    && (forall x, c | x in order && IsChild(procs, x, c) :: c in seen)
    && open <= seen && p in open && root in open
    && IsSelfOrBelow(procs, root, p)
    && (forall x | x in open :: IsSelfOrBelow(procs, x, p))
    && (Acyclic(procs) ==> ChildrenFirst(procs, order))
  }

  lemma BeginWalk(procs: seq<Proc>, root: int)
    ensures IsWalk(procs, root, {root}, [], {root}, root)
  {
    SelfOrBelowIs(procs, root, root);
  }

  lemma EnterChild(procs: seq<Proc>, root: int, seen: set<int>, order: seq<int>, open: set<int>, p: int, c: int)
    requires IsWalk(procs, root, seen, order, open, p)
    requires IsChild(procs, p, c) && c !in seen
    ensures IsWalk(procs, root, seen + {c}, order, open + {c}, c)
    ensures IsDescendant(procs, root, c) && c !in open
  {
    StepDown(procs, root, p, c);
    SelfOrBelowIs(procs, c, c);
    forall x | x in open
      ensures IsSelfOrBelow(procs, x, c)
    {
      StepDown(procs, x, p, c);
    }
  }

  /** The visit of `c` ends: it joins the order, after all its children if none is still open. */
  lemma LeaveChild(procs: seq<Proc>, root: int, seen: set<int>, order: seq<int>, open: set<int>, c: int,
                   seen0: set<int>, order0: seq<int>, p: int)
    requires IsWalk(procs, root, seen0, order0, open, p)
    requires IsWalk(procs, root, seen, order, open + {c}, c)
    requires c !in open && IsDescendant(procs, root, c)
    requires forall d | IsChild(procs, c, d) :: d in seen
    ensures IsWalk(procs, root, seen, order + [c], open, p)
  {
    hide IsSelfOrBelow, IsDescendant, IsChild;
    var next := order + [c];
    if Acyclic(procs) {
      forall d | IsChild(procs, c, d)
        ensures d in order
      {
        NotOpenBelow(procs, c, d);
      }
      assert next[..|order|] == order;
      assert forall k | 0 <= k < |order| :: next[..k] == order[..k];
      assert ChildrenFirst(procs, next);
    }
  }

  lemma NotOpenBelow(procs: seq<Proc>, c: int, d: int)
    requires Acyclic(procs) && IsChild(procs, c, d)
    ensures !IsSelfOrBelow(procs, d, c)
  {
    if IsSelfOrBelow(procs, d, c) {
      StepDown(procs, d, c, d);
    }
  }

  class TreeWalk {
    const procs: seq<Proc>
    var seen: set<int>
    var order: seq<int>

    constructor (procs: seq<Proc>, root: int)
      ensures this.procs == procs && seen == {root} && order == []
    {
      this.procs, seen, order := procs, {root}, [];
    }

    /** Visit everything below `p` that has not been seen, each after all below it. */
    method Visit(p: int, ghost root: int, ghost open: set<int>)
      requires IsWalk(procs, root, seen, order, open, p)
      modifies this
      ensures IsWalk(procs, root, seen, order, open, p)
      ensures old(seen) <= seen
      ensures forall c | IsChild(procs, p, c) :: c in seen
      decreases Pids(procs) - seen
    {
      hide IsWalk, Pids, ChildrenOf;
      var children := ChildrenFrom(procs, p);
      ChildrenAreListed(procs, p);
      for i := 0 to |children|
        invariant IsWalk(procs, root, seen, order, open, p)
        invariant old(seen) <= seen
        invariant forall k | 0 <= k < i :: children[k] in seen
      {
        var c := children[i];
        if c !in seen {
          assert IsChild(procs, p, c) && c in Pids(procs);
          EnterChild(procs, root, seen, order, open, p, c);
          ghost var seen0, order0 := seen, order;
          seen := seen + {c};
          Visit(c, root, open + {c});
          LeaveChild(procs, root, seen, order, open, c, seen0, order0, p);
          order := order + [c];
        }
      }
    }
  }

  /** What a tree kill signals, in this order: everything below the target, then the target. */
  method KillOrder(procs: seq<Proc>, pid: int, tree: bool) returns (order: seq<int>)
    ensures |order| > 0 && order[|order| - 1] == pid
    ensures Distinct(order)
    ensures !tree ==> order == [pid]
    ensures tree ==> forall x :: x in order <==> IsSelfOrBelow(procs, pid, x)
    ensures tree && Acyclic(procs) ==> ChildrenFirst(procs, order)
  {
    SelfOrBelowIs(procs, pid, pid);
    order := [];
    if tree {
      var walk := new TreeWalk(procs, pid);
      BeginWalk(procs, pid);
      walk.Visit(pid, pid, {pid});
      order := walk.order;
      assert forall x :: x in walk.seen <==> x in order || x == pid;
      forall x | IsSelfOrBelow(procs, pid, x)
        ensures x in walk.seen
      {
        var steps: nat :| IsBelow(procs, pid, x, steps);
        ClosedHoldsBelow(procs, walk.seen, pid, x, steps);
      }
      forall x | x in order
        ensures IsSelfOrBelow(procs, pid, x)
      {
        SelfOrBelowIs(procs, pid, x);
      }
      assert forall c | IsChild(procs, pid, c) :: c in order || c == pid;
      if IsChild(procs, pid, pid) {
        ChildIsBelow(procs, pid, pid);
      }
    }
    ghost var below := order;
    order := order + [pid];
    assert forall k | 0 <= k < |below| :: order[..k] == below[..k];
    assert order[..|below|] == below;
  }

  /** Children first, so everything below a process comes before it. */
  lemma {:induction false} DescendantsFirst(procs: seq<Proc>, order: seq<int>, i: nat, d: int, steps: nat)
    requires ChildrenFirst(procs, order) && i < |order|
    requires steps > 0 && IsBelow(procs, order[i], d, steps)
    ensures d in order[..i]
    decreases steps
  {
    var c :| IsChild(procs, order[i], c) && IsBelow(procs, c, d, steps - 1);
    assert c in order[..i];
    if steps > 1 {
      var k :| 0 <= k < i && order[k] == c;
      DescendantsFirst(procs, order, k, d, steps - 1);
    }
  }

  // ---------- the kill ------------------------------------------------------------

  datatype KillResult = KillResult(signalled: seq<int>, failed: seq<int>, refused: bool)

  function Filtered(order: seq<int>, keep: int -> bool): seq<int> {
    if order == [] then [] else
      var last := order[|order| - 1];
      Filtered(order[..|order| - 1], keep) + if keep(last) then [last] else []
  }

  /** Filtering by a property and by its opposite splits the order in two. */
  lemma {:induction false} FilterSplits(order: seq<int>, keep: int -> bool, x: int)
    requires Distinct(order)
    ensures x in Filtered(order, keep) <==> x in order && keep(x)
    ensures Distinct(Filtered(order, keep))
  {
    if order == [] {
    } else {
      var init, last := order[..|order| - 1], order[|order| - 1];
      FilterSplits(init, keep, x);
      FilterSplits(init, keep, last);
      assert order == init + [last];
      assert last !in init;
    }
  }

  /**
   * Signal a process, or with `tree` all under it first. `killOk` answers each signal.
   * `order` is the order in which signals were considered.
   */
  method KillProcess(pid: int, tree: bool, procs: seq<Proc>, killOk: int -> bool, isProtected: int -> bool)
    returns (result: KillResult, order: seq<int>)
    ensures result.refused == isProtected(pid)
    ensures result.refused ==> result.signalled == [] && result.failed == []
    ensures !result.refused ==>
              && Distinct(order) && |order| > 0 && order[|order| - 1] == pid
              && (!tree ==> order == [pid])
              && (tree ==> forall x :: x in order <==> IsSelfOrBelow(procs, pid, x))
              && (tree && Acyclic(procs) ==> ChildrenFirst(procs, order))
              && result.signalled == Filtered(order, x => !isProtected(x) && killOk(x))
              && result.failed == Filtered(order, x => !(!isProtected(x) && killOk(x)))
  {
    order := [];
    if isProtected(pid) {
      return KillResult([], [], true), [];
    }
    order := KillOrder(procs, pid, tree);
    var signalled, failed := [], [];
    var sent := x => !isProtected(x) && killOk(x);
    var unsent := x => !(!isProtected(x) && killOk(x));
    for i := 0 to |order|
      invariant signalled == Filtered(order[..i], sent)
      invariant failed == Filtered(order[..i], unsent)
    {
      assert order[..i + 1][..i] == order[..i];
      var p := order[i];
      if isProtected(p) {
        failed := failed + [p];
      } else if killOk(p) {
        signalled := signalled + [p];
      } else {
        failed := failed + [p];
      }
    }
    assert order[..|order|] == order;
    result := KillResult(signalled, failed, false);
  }

  // ---------- the way in ---------------------------------------------------------------

  function ParentOf(procs: seq<Proc>, pid: int): Option<int> {
    if procs == [] then None
    else if procs[|procs| - 1].pid == pid then Some(procs[|procs| - 1].ppid)
    else ParentOf(procs[..|procs| - 1], pid)
  }

  lemma {:induction false} ParentOfIs(procs: seq<Proc>, c: int, p: int)
    requires DistinctPids(procs)
    ensures ParentOf(procs, c) == Some(p) <==> IsChild(procs, p, c)
  {
    ChildIsListed(procs, p, c);
    if procs == [] {
    } else {
      var init, last := procs[..|procs| - 1], procs[|procs| - 1];
      ParentOfIs(init, c, p);
      ChildIsListed(init, p, c);
      assert forall i | 0 <= i < |init| :: init[i] == procs[i] && init[i].pid != last.pid;
    }
  }

  /** Pids are positive and told apart, and nothing above pid 1 but the kernel's pid 0. */
  ghost predicate WellRooted(procs: seq<Proc>) {
    && DistinctPids(procs)
    && (forall i | 0 <= i < |procs| :: procs[i].pid >= 1 && procs[i].ppid >= 0)
    && (forall i | 0 <= i < |procs| :: procs[i].pid == 1 ==> procs[i].ppid == 0)
  }

  lemma {:induction false} BelowFromEnd(procs: seq<Proc>, p: int, d: int, steps: nat)
    requires steps > 0 && IsBelow(procs, p, d, steps)
    ensures exists q :: IsBelow(procs, p, q, steps - 1) && IsChild(procs, q, d)
    decreases steps
  {
    var c :| IsChild(procs, p, c) && IsBelow(procs, c, d, steps - 1);
    if steps == 1 {
      assert IsBelow(procs, p, p, 0);
    } else {
      BelowFromEnd(procs, c, d, steps - 1);
      var q :| IsBelow(procs, c, q, steps - 2) && IsChild(procs, q, d);
      assert IsBelow(procs, p, q, steps - 1);
    }
  }

  /** A set that holds every parent above 1 of its members and of `self` holds all ancestors above 1. */
  lemma {:induction false} ClosedHoldsAbove(procs: seq<Proc>, s: set<int>, self: int, a: int, d: int, steps: nat)
    requires WellRooted(procs) && a > 1 && steps > 0 && IsBelow(procs, a, d, steps)
    requires d == self || d in s
    requires forall x, p :: (x == self || x in s) && ParentOf(procs, x) == Some(p) && p > 1 ==> p in s
    ensures a in s
    decreases steps
  {
    BelowFromEnd(procs, a, d, steps);
    var q :| IsBelow(procs, a, q, steps - 1) && IsChild(procs, q, d);
    ParentOfIs(procs, d, q);
    if steps > 1 {
      BelowFromEnd(procs, a, q, steps - 1);
      var r :| IsBelow(procs, a, r, steps - 2) && IsChild(procs, r, q);
      ChildIsListed(procs, r, q);
      AboveOneIsAboveOne(procs, a, r, steps - 2);
      ClosedHoldsAbove(procs, s, self, a, q, steps - 1);
    }
  }

  /** Below a pid above 1 there is no pid 1. */
  lemma {:induction false} AboveOneIsAboveOne(procs: seq<Proc>, a: int, d: int, steps: nat)
    requires WellRooted(procs) && a > 1 && IsBelow(procs, a, d, steps)
    ensures d > 1
    decreases steps
  {
    if steps == 0 {
    } else {
      BelowFromEnd(procs, a, d, steps);
      var q :| IsBelow(procs, a, q, steps - 1) && IsChild(procs, q, d);
      AboveOneIsAboveOne(procs, a, q, steps - 1);
      ChildIsListed(procs, q, d);
    }
  }

  /** The chain of parents of this daemon, up to but not including pid 1. */
  method Ancestors(procs: seq<Proc>, self: int) returns (ancestors: set<int>)
    ensures WellRooted(procs) ==> forall a :: a in ancestors <==> a > 1 && IsDescendant(procs, a, self)
  {
    ancestors := {};
    var p := ParentOf(procs, self);
    ghost var at := self;
    ghost var ppids := set i | 0 <= i < |procs| :: procs[i].ppid;
    ParentIsAppid(procs, self);
    while p.Some? && p.value != 0 && p.value > 1 && p.value !in ancestors
      invariant p == ParentOf(procs, at) && (at == self || at in ancestors)
      invariant p.Some? ==> p.value in ppids
      invariant forall a | a in ancestors :: a > 1 && a in ppids
      invariant DistinctPids(procs) ==> (at == self || IsDescendant(procs, at, self))
      invariant DistinctPids(procs) ==> forall a | a in ancestors :: IsDescendant(procs, a, self)
      invariant forall x, q | (x == self || x in ancestors) && x != at && ParentOf(procs, x) == Some(q) && q > 1 ::
                  q in ancestors
      decreases ppids - ancestors
    {
      if DistinctPids(procs) {
        ParentOfIs(procs, at, p.value);
        ChildIsBelow(procs, p.value, at);
        if at != self {
          DescendantOfDescendant(procs, p.value, at, self);
        }
      }
      ancestors := ancestors + {p.value};
      at := p.value;
      ParentIsAppid(procs, at);
      p := ParentOf(procs, p.value);
    }
    if WellRooted(procs) {
      forall a | a > 1 && IsDescendant(procs, a, self)
        ensures a in ancestors
      {
        var steps: nat :| steps > 0 && IsBelow(procs, a, self, steps);
        ClosedHoldsAbove(procs, ancestors, self, a, self, steps);
      }
    }
  }

  lemma {:induction false} ParentIsAppid(procs: seq<Proc>, pid: int)
    ensures ParentOf(procs, pid).Some? ==> exists i :: 0 <= i < |procs| && procs[i].ppid == ParentOf(procs, pid).value
  {
    if procs != [] && procs[|procs| - 1].pid != pid {
      var init := procs[..|procs| - 1];
      ParentIsAppid(init, pid);
      if ParentOf(init, pid).Some? {
        var i :| 0 <= i < |init| && init[i].ppid == ParentOf(init, pid).value;
        assert procs[i] == init[i];
      }
    }
  }

  lemma DescendantOfDescendant(procs: seq<Proc>, a: int, b: int, c: int)
    requires IsDescendant(procs, a, b) && IsDescendant(procs, b, c)
    ensures IsDescendant(procs, a, c)
  {
    var m: nat :| m > 0 && IsBelow(procs, a, b, m);
    var n: nat :| n > 0 && IsBelow(procs, b, c, n);
    BelowTransitive(procs, a, b, c, m, n);
  }

  /** Why a process may not be killed: it is the container, this daemon, above it, or the way in. */
  predicate Protection(p: Proc, self: int, ancestors: set<int>) {
    p.pid == 1 || p.pid == self || p.pid in ancestors || p.wayIn
  }

  /** The verdict looked up by pid in a snapshot of every process. A pid not in it has none. */
  predicate IsProtected(procs: seq<Proc>, self: int, ancestors: set<int>, pid: int) {
    exists i :: 0 <= i < |procs| && procs[i].pid == pid && Protection(procs[i], self, ancestors)
  }

  /** Neither this daemon nor anything it runs under is in the order. */
  ghost predicate SparesWayIn(procs: seq<Proc>, self: int, order: seq<int>) {
    forall x | x in order :: x != self && !IsDescendant(procs, x, self)
  }

  /** The target is in the snapshot, or is neither this daemon nor above it. */
  ghost predicate IsSafeTarget(procs: seq<Proc>, self: int, pid: int) {
    IsListed(procs, pid) || (pid != self && !IsDescendant(procs, pid, self))
  }

  /**
   * A kill asked for from the phone, on one consistent look at all processes. If it is not
   * refused, neither this daemon nor anything it runs under is even considered exactly when
   * the target is in the snapshot, or is no such process itself.
   */
  method KillRequest(procs: seq<Proc>, self: int, pid: int, tree: bool, killOk: int -> bool)
    returns (result: KillResult, order: seq<int>)
    ensures !result.refused && WellRooted(procs) ==>
              (SparesWayIn(procs, self, order) <==> IsSafeTarget(procs, self, pid))
    // Refused are the ways in and nothing else; a refused kill signals nothing.
    ensures WellRooted(procs) ==> (result.refused <==> IsOffLimits(procs, self, pid))
    ensures result.refused ==> result.signalled == [] && result.failed == []
    // Whatever the snapshot, the container, this daemon and the way in are not signalled.
    ensures forall i | 0 <= i < |procs| && (procs[i].pid == 1 || procs[i].pid == self || procs[i].wayIn) ::
              procs[i].pid !in result.signalled
    // Otherwise the target, or the tree under it, is gone through, and each is signalled or failed.
    ensures !result.refused ==>
              && Distinct(order) && |order| > 0 && order[|order| - 1] == pid && (!tree ==> order == [pid])
              && (tree ==> forall x :: x in order <==> IsSelfOrBelow(procs, pid, x))
              && (tree && Acyclic(procs) ==> ChildrenFirst(procs, order))
              && Distinct(result.signalled) && Distinct(result.failed)
              && forall x :: x in order <==> x in result.signalled || x in result.failed
    ensures !result.refused && WellRooted(procs) ==>
              forall x | x in order ::
                && (x in result.signalled <==> killOk(x) && !IsOffLimits(procs, self, x))
                && (x in result.failed <==> !(killOk(x) && !IsOffLimits(procs, self, x)))
  {
    var ancestors := Ancestors(procs, self);
    var isProtected := x => IsProtected(procs, self, ancestors, x);
    result, order := KillProcess(pid, tree, procs, killOk, isProtected);
    ProtectedOnes(procs, self, ancestors);
    hide IsProtected, IsOffLimits, Acyclic, ChildrenFirst, IsSelfOrBelow;
    if !result.refused {
      var sent := x => !isProtected(x) && killOk(x);
      var unsent := x => !(!isProtected(x) && killOk(x));
      forall x
        ensures x in result.signalled <==> x in order && sent(x)
        ensures x in result.failed <==> x in order && unsent(x)
      {
        FilterSplits(order, sent, x);
        FilterSplits(order, unsent, x);
      }
      FilterSplits(order, sent, pid);
      FilterSplits(order, unsent, pid);
      if WellRooted(procs) {
        SparesExactlyWhen(procs, self, ancestors, pid, order);
      }
    }
  }

  /** A listed process no kill may take: the container, this daemon, what it runs under, or the way in. */
  ghost predicate IsOffLimits(procs: seq<Proc>, self: int, x: int) {
    exists i :: 0 <= i < |procs| && procs[i].pid == x
             && (x == 1 || x == self || IsDescendant(procs, x, self) || procs[i].wayIn)
  }

  /** With the ancestors found, protected are exactly those; in any case the first and last kinds are. */
  lemma ProtectedOnes(procs: seq<Proc>, self: int, ancestors: set<int>)
    requires WellRooted(procs) ==> forall a :: a in ancestors <==> a > 1 && IsDescendant(procs, a, self)
    ensures forall i | 0 <= i < |procs| && (procs[i].pid == 1 || procs[i].pid == self || procs[i].wayIn) ::
              IsProtected(procs, self, ancestors, procs[i].pid)
    ensures WellRooted(procs) ==>
              forall x :: IsProtected(procs, self, ancestors, x) <==> IsOffLimits(procs, self, x)
  {
    hide IsDescendant;
  }

  /** Any order of an unrefused target and processes below it. */
  lemma SparesExactlyWhen(procs: seq<Proc>, self: int, ancestors: set<int>, pid: int, order: seq<int>)
    requires WellRooted(procs) && !IsProtected(procs, self, ancestors, pid)
    requires forall a :: a in ancestors <==> a > 1 && IsDescendant(procs, a, self)
    requires pid in order && forall x | x in order :: x == pid || IsSelfOrBelow(procs, pid, x)
    ensures SparesWayIn(procs, self, order) <==> IsSafeTarget(procs, self, pid)
  {
    hide WellRooted, IsProtected;
    if IsSafeTarget(procs, self, pid) {
      forall x | x in order
        ensures x != self && !IsDescendant(procs, x, self)
      {
        NothingAboveSelfBelow(procs, self, ancestors, pid, x);
      }
    }
  }

  lemma NothingAboveSelfBelow(procs: seq<Proc>, self: int, ancestors: set<int>, pid: int, x: int)
    requires WellRooted(procs) && IsSafeTarget(procs, self, pid)
    requires forall a :: a in ancestors <==> a > 1 && IsDescendant(procs, a, self)
    requires !IsProtected(procs, self, ancestors, pid)
    requires x == pid || IsSelfOrBelow(procs, pid, x)
    ensures x != self && !IsDescendant(procs, x, self)
  {
    if i :| 0 <= i < |procs| && procs[i].pid == pid {
      assert !Protection(procs[i], self, ancestors);
      assert pid > 1;
    }
    assert pid != self && !IsDescendant(procs, pid, self);
    SelfOrBelowIs(procs, pid, x);
    if IsDescendant(procs, x, self) && IsDescendant(procs, pid, x) {
      DescendantOfDescendant(procs, pid, x, self);
    }
  }

  /**
   * The target must be in the snapshot: one that is not has no verdict, and a tree kill of it
   * reaches this daemon.
   */
  lemma UnlistedTargetIsNotRefused()
    ensures var procs := [Proc(1, 0, 0, false), Proc(20, 7, 0, false)];
            && WellRooted(procs) && !IsListed(procs, 7)
            && (forall ancestors: set<int> :: !IsProtected(procs, 20, ancestors, 7))
            && IsDescendant(procs, 7, 20)
  {
    var procs := [Proc(1, 0, 0, false), Proc(20, 7, 0, false)];
    assert procs[1].ppid == 7;
    ChildIsListed(procs, 7, 20);
    ChildIsBelow(procs, 7, 20);
  }

  // ---------- what a process holds with all below it ---------------------------------------

  ghost function Below(procs: seq<Proc>, pid: int): set<int> {
    set x | x in Pids(procs) && IsDescendant(procs, pid, x)
  }

  function RssOf(procs: seq<Proc>, pid: int): nat {
    if procs == [] then 0
    else if procs[|procs| - 1].pid == pid then procs[|procs| - 1].rssBytes
    else RssOf(procs[..|procs| - 1], pid)
  }

  /** The memory of the listed processes whose pid is in the set. */
  ghost function TotalRss(procs: seq<Proc>, s: set<int>): nat {
    if procs == [] then 0 else
      var last := procs[|procs| - 1];
      TotalRss(procs[..|procs| - 1], s) + if last.pid in s then last.rssBytes else 0
  }

  lemma {:induction false} TotalRssOneMore(procs: seq<Proc>, s: set<int>, y: int)
    requires DistinctPids(procs) && y !in s
    ensures TotalRss(procs, s + {y}) == TotalRss(procs, s) + RssOf(procs, y)
  {
    if procs == [] {
    } else {
      var init, last := procs[..|procs| - 1], procs[|procs| - 1];
      if last.pid == y {
        TotalRssWithout(init, s, y);
      } else {
        TotalRssOneMore(init, s, y);
      }
    }
  }

  lemma {:induction false} TotalRssWithout(procs: seq<Proc>, s: set<int>, y: int)
    requires forall i | 0 <= i < |procs| :: procs[i].pid != y
    ensures TotalRss(procs, s + {y}) == TotalRss(procs, s)
  {
    if procs == [] {
    } else {
      TotalRssWithout(procs[..|procs| - 1], s, y);
    }
  }

  lemma {:induction false} TotalRssOfNone(procs: seq<Proc>)
    ensures TotalRss(procs, {}) == 0
  {
    if procs == [] {
    } else {
      TotalRssOfNone(procs[..|procs| - 1]);
    }
  }

  lemma DescendantIsListed(procs: seq<Proc>, pid: int, d: int)
    requires IsDescendant(procs, pid, d)
    ensures d in Pids(procs)
  {
    var steps: nat :| steps > 0 && IsBelow(procs, pid, d, steps);
    BelowFromEnd(procs, pid, d, steps);
    var q :| IsBelow(procs, pid, q, steps - 1) && IsChild(procs, q, d);
    ChildrenAreListed(procs, q);
  }

  /** The count and memory of exactly the processes below one, each counted once. */
  method TreeTotals(procs: seq<Proc>, pid: int) returns (count: nat, rss: nat)
    ensures count == |Below(procs, pid)|
    ensures DistinctPids(procs) ==> rss == TotalRss(procs, Below(procs, pid))
  {
    hide Below, TotalRss, IsSearch, ChildrenOf, DistinctPids;
    var children := IndexChildren(procs);
    count, rss := 0, 0;
    var stack := if pid in children then children[pid] else [];
    var seen: set<int> := {};
    SearchBegins(procs, pid);
    TotalRssOfNone(procs);
    while stack != []
      invariant IsSearch(procs, pid, seen, stack)
      invariant count == |seen|
      invariant DistinctPids(procs) ==> rss == TotalRss(procs, seen)
      decreases Below(procs, pid) - seen, |stack|
    {
      var c := stack[|stack| - 1];
      var rest := stack[..|stack| - 1];
      if c in seen {
        SearchSkips(procs, pid, seen, stack);
        stack := rest;
      } else {
        SearchOneMore(procs, pid, seen, stack);
        if DistinctPids(procs) {
          TotalRssOneMore(procs, seen, c);
        }
        seen := seen + {c};
        count := count + 1;
        rss := rss + RssOf(procs, c);
        stack := rest + if c in children then children[c] else [];
      }
    }
    SearchEnds(procs, pid, seen);
  }

  /** A search under `pid` that has seen some processes and has others still to look at. */
  ghost predicate IsSearch(procs: seq<Proc>, pid: int, seen: set<int>, stack: seq<int>) {
    && seen <= Below(procs, pid)
    && (forall x | x in stack :: x in Below(procs, pid))
    && (forall c | IsChild(procs, pid, c) :: c in seen || c in stack)
    && (forall x, c | x in seen && IsChild(procs, x, c) :: c in seen || c in stack)
  }

  lemma SearchBegins(procs: seq<Proc>, pid: int)
    ensures IsSearch(procs, pid, {}, ChildrenOf(procs, pid))
  {
    ChildrenAreListed(procs, pid);
    forall x | x in ChildrenOf(procs, pid)
      ensures x in Below(procs, pid)
    {
      ChildIsBelow(procs, pid, x);
    }
  }

  lemma SearchSkips(procs: seq<Proc>, pid: int, seen: set<int>, stack: seq<int>)
    requires IsSearch(procs, pid, seen, stack) && stack != [] && stack[|stack| - 1] in seen
    ensures IsSearch(procs, pid, seen, stack[..|stack| - 1])
  {
    hide Below;
    assert stack == stack[..|stack| - 1] + [stack[|stack| - 1]];
  }

  lemma SearchOneMore(procs: seq<Proc>, pid: int, seen: set<int>, stack: seq<int>)
    requires IsSearch(procs, pid, seen, stack) && stack != []
    ensures var c, rest := stack[|stack| - 1], stack[..|stack| - 1];
            c in Below(procs, pid) && IsSearch(procs, pid, seen + {c}, rest + ChildrenOf(procs, c))
  {
    var c, rest := stack[|stack| - 1], stack[..|stack| - 1];
    assert stack == rest + [c];
    assert c in stack;
    forall x | x in ChildrenOf(procs, c)
      ensures x in Below(procs, pid)
    {
      ChildIsBelow(procs, c, x);
      DescendantOfDescendant(procs, pid, c, x);
      DescendantIsListed(procs, pid, x);
    }
    hide Below;
    assert forall x | IsChild(procs, c, x) :: x in ChildrenOf(procs, c);
  }

  lemma SearchEnds(procs: seq<Proc>, pid: int, seen: set<int>)
    requires IsSearch(procs, pid, seen, [])
    ensures seen == Below(procs, pid)
  {
    hide ChildrenOf, IsChild;
    assert forall x, c | x in seen && IsChild(procs, x, c) :: c in seen;
    assert forall c | IsChild(procs, pid, c) :: c in seen;
    forall d | d in Below(procs, pid)
      ensures d in seen
    {
      var steps: nat :| steps > 0 && IsBelow(procs, pid, d, steps);
      var c :| IsChild(procs, pid, c) && IsBelow(procs, c, d, steps - 1);
      ClosedHoldsBelow(procs, seen, c, d, steps - 1);
    }
  }

  /** The tree total is about the same processes that a tree kill would go through before the target. */
  lemma TotalsAndKillAgree(procs: seq<Proc>, pid: int, x: int)
    requires Acyclic(procs)
    ensures x in Below(procs, pid) <==> x != pid && IsSelfOrBelow(procs, pid, x)
  {
    SelfOrBelowIs(procs, pid, x);
    if IsDescendant(procs, pid, x) {
      DescendantIsListed(procs, pid, x);
    }
  }
}
