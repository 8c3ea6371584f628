/** A sequential Kahn-style scheduler for a directed graph of stages, with
    the barrier rule of a join: a stage is dispatched only after every one
    of its predecessors has finished, and each stage is dispatched once.
    Stages are any type with equality; the graph is a set of nodes and a
    set of edges `(from, to)`. */
module Scheduler {

  /** The predecessors of `n` that are nodes of the graph. */
  function Preds<T(==,!new)>(nodes: set<T>, edges: set<(T, T)>, n: T): (r: set<T>)
    ensures forall p :: p in r <==> p in nodes && (p, n) in edges
  {
    set e | e in edges && e.1 == n && e.0 in nodes :: e.0
  }

  /** The successors of `n` that are nodes of the graph. */
  function Succs<T(==,!new)>(nodes: set<T>, edges: set<(T, T)>, n: T): (r: set<T>)
    ensures forall m :: m in r <==> m in nodes && (n, m) in edges
  {
    set e | e in edges && e.0 == n && e.1 in nodes :: e.1
  }

  /** The barrier rule: `n` is ready once all its predecessors are done. */
  predicate Ready<T(==,!new)>(nodes: set<T>, edges: set<(T, T)>, done: set<T>, n: T) {
    n in nodes && n !in done && Preds(nodes, edges, n) <= done
  }

  function ReadySet<T(==,!new)>(nodes: set<T>, edges: set<(T, T)>, done: set<T>): (r: set<T>)
    ensures forall n :: n in r <==> Ready(nodes, edges, done, n)
  {
    set n | n in nodes && n !in done && Preds(nodes, edges, n) <= done
  }

  /** No node of `rest` can ever become ready: each one waits for another
      node of `rest`. */
  predicate Stuck<T(==,!new)>(edges: set<(T, T)>, rest: set<T>) {
    forall n :: n in rest ==> exists p :: p in rest && (p, n) in edges
  }

  predicate Distinct<T(==,!new)>(s: seq<T>) {
    forall i, j :: 0 <= i < j < |s| ==> s[i] != s[j]
  }

  /** Every dispatched node comes after all of its predecessors. */
  predicate PredsFirst<T(==,!new)>(nodes: set<T>, edges: set<(T, T)>, order: seq<T>) {
    forall i, p :: 0 <= i < |order| && p in nodes && (p, order[i]) in edges ==> p in order[..i]
  }

  /** A run that dispatches every node exactly once, each after its
      predecessors. */
  predicate IsSchedule<T(==,!new)>(nodes: set<T>, edges: set<(T, T)>, order: seq<T>) {
    && Distinct(order)
    && (forall i :: 0 <= i < |order| ==> order[i] in nodes)
    && (forall n :: n in nodes ==> n in order)
    && PredsFirst(nodes, edges, order)
  }

  /** A rank that grows along every edge: its existence makes the graph
      acyclic. */
  predicate Ranked<T(==,!new)>(nodes: set<T>, edges: set<(T, T)>, rank: T -> nat) {
    forall p, n :: p in nodes && n in nodes && (p, n) in edges ==> rank(p) < rank(n)
  }

  /** What a partial run has established: `done` holds exactly the
      dispatched nodes, each dispatched once and after its predecessors. */
  ghost predicate Progress<T(!new)>(nodes: set<T>, edges: set<(T, T)>, order: seq<T>, done: set<T>) {
    && done <= nodes
    && (forall n :: n in done <==> n in order)
    && Distinct(order)
    && (forall i :: 0 <= i < |order| ==> order[i] in nodes)
    && PredsFirst(nodes, edges, order)
  }

  /** Dispatches ready nodes one at a time until none is ready. Returns the
      dispatch order and the nodes that were never dispatched; those are
      stuck behind one another, so they lie on or behind a cycle. */
  method Schedule<T(==,!new)>(nodes: set<T>, edges: set<(T, T)>) returns (order: seq<T>, blocked: set<T>)
    ensures Distinct(order)
    ensures forall i :: 0 <= i < |order| ==> order[i] in nodes
    ensures PredsFirst(nodes, edges, order)
    ensures forall n :: n in nodes ==> (n in order <==> n !in blocked)
    ensures blocked <= nodes && Stuck(edges, blocked)
  {
    order := [];
    var done: set<T> := {};
    var ready := ReadySet(nodes, edges, done);
    while ready != {}
      invariant Progress(nodes, edges, order, done)
      invariant ready == ReadySet(nodes, edges, done)
      decreases |nodes - done|
    {
      var n :| n in ready;
      DispatchKeepsProgress(nodes, edges, order, done, n);
      ReadyAfterDone(nodes, edges, done, n);
      order := order + [n];
      var newly := set m | m in Succs(nodes, edges, n) && m !in done && m != n
                                && Preds(nodes, edges, m) <= done + {n};
      done := done + {n};
      ready := (ready - {n}) + newly;
    }
    blocked := nodes - done;
    NothingReadyIsStuck(nodes, edges, done);
  }

  /** Dispatching a ready node extends a partial run. */
  lemma DispatchKeepsProgress<T(!new)>(nodes: set<T>, edges: set<(T, T)>, order: seq<T>, done: set<T>, n: T)
    requires Progress(nodes, edges, order, done) && Ready(nodes, edges, done, n)
    ensures Progress(nodes, edges, order + [n], done + {n})
    ensures |nodes - (done + {n})| < |nodes - done|
  {
    forall p | p in nodes && (p, n) in edges ensures p in order {
      assert p in Preds(nodes, edges, n);
    }
    PredsFirstSnoc(nodes, edges, order, n);
    var o := order + [n];
    forall i, j | 0 <= i < j < |o| ensures o[i] != o[j] {
      if j == |order| {
        assert o[i] == order[i] && order[i] in order;
      } else {
        assert o[i] == order[i] && o[j] == order[j];
      }
    }
    forall m ensures m in done + {n} <==> m in o {
      assert m in o <==> m in order || m == n;
    }
    assert nodes - (done + {n}) == (nodes - done) - {n};
  }

  /** When no node is ready, every node not yet dispatched waits on another
      one. */
  lemma NothingReadyIsStuck<T(!new)>(nodes: set<T>, edges: set<(T, T)>, done: set<T>)
    requires ReadySet(nodes, edges, done) == {}
    ensures Stuck(edges, nodes - done)
  {
    forall m | m in nodes - done ensures exists p :: p in nodes - done && (p, m) in edges {
      assert !Ready(nodes, edges, done, m);
      var p :| p in Preds(nodes, edges, m) && p !in done;
    }
  }

  lemma PredsFirstSnoc<T(!new)>(nodes: set<T>, edges: set<(T, T)>, order: seq<T>, n: T)
    requires PredsFirst(nodes, edges, order)
    requires forall p :: p in nodes && (p, n) in edges ==> p in order
    ensures PredsFirst(nodes, edges, order + [n])
  {
    var o := order + [n];
    forall i, p | 0 <= i < |o| && p in nodes && (p, o[i]) in edges ensures p in o[..i] {
      if i < |order| {
        assert o[i] == order[i] && o[..i] == order[..i];
      } else {
        assert o[..i] == order;
      }
    }
  }

  /** Finishing `n` makes ready exactly the nodes that were ready before
      (other than `n`) and the successors of `n` whose last missing
      predecessor was `n`. */
  lemma ReadyAfterDone<T(!new)>(nodes: set<T>, edges: set<(T, T)>, done: set<T>, n: T)
    requires Ready(nodes, edges, done, n)
    ensures ReadySet(nodes, edges, done + {n})
         == (ReadySet(nodes, edges, done) - {n})
            + (set m | m in Succs(nodes, edges, n) && m !in done && m != n
                           && Preds(nodes, edges, m) <= done + {n})
  {
    var newly := set m | m in Succs(nodes, edges, n) && m !in done && m != n
                             && Preds(nodes, edges, m) <= done + {n};
    forall m | Ready(nodes, edges, done + {n}, m)
      ensures m in ReadySet(nodes, edges, done) - {n} || m in newly
    {
      if !(Preds(nodes, edges, m) <= done) {
        var p :| p in Preds(nodes, edges, m) && p !in done;
        assert p == n;
        var e :| e in edges && e.1 == m && e.0 in nodes && e.0 == n;
        assert m == e.1;
        assert m in Succs(nodes, edges, n);
      }
    }
  }

  /** A non-empty set of nodes has a node of least rank. */
  lemma {:induction false} MinimalExists<T(!new)>(s: set<T>, rank: T -> nat) returns (m: T)
    requires s != {}
    ensures m in s && forall n :: n in s ==> rank(m) <= rank(n)
    decreases |s|
  {
    var x :| x in s;
    if s == {x} {
      m := x;
    } else {
      var y := MinimalExists(s - {x}, rank);
      m := if rank(x) <= rank(y) then x else y;
    }
  }

  /** In a ranked graph no set of nodes is stuck, so the scheduler
      dispatches every node. */
  lemma RankedNeverStuck<T(!new)>(nodes: set<T>, edges: set<(T, T)>, rank: T -> nat, rest: set<T>)
    requires Ranked(nodes, edges, rank)
    requires rest <= nodes && Stuck(edges, rest)
    ensures rest == {}
  {
    if rest != {} {
      var m := MinimalExists(rest, rank);
      assert false;
    }
  }

  /** The last node of a schedule has no successor among the nodes. */
  lemma LastIsSink<T(!new)>(nodes: set<T>, edges: set<(T, T)>, order: seq<T>)
    requires IsSchedule(nodes, edges, order) && |order| > 0
    ensures Succs(nodes, edges, order[|order| - 1]) == {}
  {
    var last := order[|order| - 1];
    if m :| m in Succs(nodes, edges, last) {
      assert false;
    }
  }

  function Elems<T(!new)>(s: seq<T>): set<T> {
    set x | x in s
  }

  lemma {:induction false} DistinctElems<T(!new)>(s: seq<T>)
    requires Distinct(s)
    ensures |Elems(s)| == |s|
    decreases |s|
  {
    if s != [] {
      var init := s[..|s| - 1];
      var last := s[|s| - 1];
      assert s == init + [last];
      assert Distinct(init) by {
        forall i, j | 0 <= i < j < |init| ensures init[i] != init[j] {
          assert init[i] == s[i] && init[j] == s[j];
        }
      }
      DistinctElems(init);
      assert last !in init by {
        forall k | 0 <= k < |init| ensures init[k] != last {
          assert init[k] == s[k];
        }
      }
      assert Elems(s) == Elems(init) + {last};
    }
  }

  /** A schedule dispatches as many stages as the graph has nodes. */
  lemma ScheduleLength<T(!new)>(nodes: set<T>, edges: set<(T, T)>, order: seq<T>)
    requires IsSchedule(nodes, edges, order)
    ensures |order| == |nodes|
  {
    DistinctElems(order);
    assert Elems(order) == nodes;
  }

  // ---------------------------------------------------------------------
  // Reachability

  predicate IsPath<T(==,!new)>(edges: set<(T, T)>, p: seq<T>) {
    |p| > 0 && forall i :: 0 <= i < |p| - 1 ==> (p[i], p[i + 1]) in edges
  }

  ghost predicate Reaches<T(!new)>(edges: set<(T, T)>, a: T, b: T) {
    exists p :: IsPath(edges, p) && p[0] == a && p[|p| - 1] == b
  }

  /** In a ranked graph where every node except `entry` has a predecessor,
      `entry` reaches every node. */
  lemma {:induction false} EntryReaches<T(!new)>(nodes: set<T>, edges: set<(T, T)>, rank: T -> nat, entry: T, n: T)
    requires Ranked(nodes, edges, rank)
    requires forall m :: m in nodes && m != entry ==> Preds(nodes, edges, m) != {}
    requires n in nodes
    ensures Reaches(edges, entry, n)
    decreases rank(n)
  {
    if n == entry {
      assert IsPath(edges, [n]);
    } else {
      var p :| p in Preds(nodes, edges, n);
      var e :| e in edges && e.1 == n && e.0 in nodes && e.0 == p;
      assert (p, n) == e;
      EntryReaches(nodes, edges, rank, entry, p);
      var q :| IsPath(edges, q) && q[0] == entry && q[|q| - 1] == p;
      var q' := q + [n];
      assert IsPath(edges, q');
      assert q'[0] == entry && q'[|q'| - 1] == n;
    }
  }

  /** In a ranked graph with ranks below `bound` where every node except
      `exit` has a successor, every node reaches `exit`. */
  lemma {:induction false} ReachesExit<T(!new)>(nodes: set<T>, edges: set<(T, T)>, rank: T -> nat, bound: nat, exit: T, n: T)
    requires Ranked(nodes, edges, rank)
    requires forall m :: m in nodes ==> rank(m) < bound
    requires forall m :: m in nodes && m != exit ==> Succs(nodes, edges, m) != {}
    requires n in nodes
    ensures Reaches(edges, n, exit)
    decreases bound - rank(n)
  {
    if n == exit {
      assert IsPath(edges, [n]);
    } else {
      var s :| s in Succs(nodes, edges, n);
      var e :| e in edges && e.0 == n && e.1 in nodes && e.1 == s;
      assert (n, s) == e;
      ReachesExit(nodes, edges, rank, bound, exit, s);
      var q :| IsPath(edges, q) && q[0] == s && q[|q| - 1] == exit;
      var q' := [n] + q;
      assert IsPath(edges, q');
      assert q'[0] == n && q'[|q'| - 1] == exit;
    }
  }
}
