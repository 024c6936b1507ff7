/** Whether the capture is one component of parent and link edges, taken undirected. */
module Connectivity {
  import opened TraceGraph

  ghost predicate Linked(c: Capture, i: nat, q: nat)
  {
    Edge(c, true, i, q) || Edge(c, true, q, i)
  }

  ghost predicate Path(c: Capture, w: seq<nat>)
  {
    && w != []
    && (forall k :: 0 <= k < |w| ==> w[k] < |c.spans|)
    && (forall k :: 0 <= k < |w| - 1 ==> Linked(c, w[k], w[k + 1]))
  }

  /** An undirected path leads from the first span to `v`. */
  ghost predicate Connected(c: Capture, v: nat)
  {
    exists w :: Path(c, w) && w[0] == 0 && w[|w| - 1] == v
  }

  ghost function Unreachable(c: Capture): set<nat>
  {
    set v | v in Below(|c.spans|) && !Connected(c, v)
  }

  /** Both directions of the edges leaving the spans before `n` and, of span `n`, of
      its first `m` edges. */
  ghost predicate Adjacent(c: Capture, n: nat, m: nat, i: nat, q: nat)
  {
    Half(c, n, m, i, q) || Half(c, n, m, q, i)
  }

  ghost predicate Half(c: Capture, n: nat, m: nat, i: nat, q: nat)
  {
    && i < |c.spans|
    && ((i < n && q in Parents(c, i, true)) || (i == n && m <= |Parents(c, i, true)| && q in Parents(c, i, true)[..m]))
  }

  ghost predicate AdjacencyOf(c: Capture, adj: seq<seq<nat>>, n: nat, m: nat)
  {
    && |adj| == |c.spans|
    && forall i: nat, q: nat :: i < |adj| ==> (q in adj[i] <==> q < |c.spans| && Adjacent(c, n, m, i, q))
  }

  lemma {:induction false} HalfNext(c: Capture, n: nat, m: nat, p: nat, i: nat, q: nat)
    requires n < |c.spans| && m < |Parents(c, n, true)| && Parents(c, n, true)[m] == p
    ensures Half(c, n, m + 1, i, q) <==> Half(c, n, m, i, q) || (i == n && q == p)
  {
    var ps := Parents(c, n, true);
    assert ps[..m + 1] == ps[..m] + [p];
    assert q in ps[..m + 1] <==> q in ps[..m] || q == p;
  }

  function Both(adj: seq<seq<nat>>, n: nat, p: nat): (two: seq<seq<nat>>)
    requires n < |adj| && p < |adj|
    ensures |two| == |adj|
  {
    var one := adj[n := adj[n] + [p]];
    one[p := one[p] + [n]]
  }

  lemma {:induction false} InBoth(adj: seq<seq<nat>>, n: nat, p: nat, i: nat, q: nat)
    requires n < |adj| && p < |adj| && i < |adj|
    ensures q in Both(adj, n, p)[i] <==> q in adj[i] || (i == n && q == p) || (i == p && q == n)
  {
    var one := adj[n := adj[n] + [p]];
    assert q in one[i] <==> q in adj[i] || (i == n && q == p);
  }

  lemma {:induction false} AddEdge(c: Capture, adj: seq<seq<nat>>, n: nat, m: nat, p: nat)
    requires AdjacencyOf(c, adj, n, m) && n < |c.spans| && p < |c.spans|
    requires m < |Parents(c, n, true)| && Parents(c, n, true)[m] == p
    ensures AdjacencyOf(c, Both(adj, n, p), n, m + 1)
  {
    var two := Both(adj, n, p);
    forall i: nat, q: nat | i < |adj|
      ensures q in two[i] <==> q < |c.spans| && Adjacent(c, n, m + 1, i, q)
    {
      InBoth(adj, n, p, i, q);
      HalfNext(c, n, m, p, i, q);
      HalfNext(c, n, m, p, q, i);
    }
  }

  lemma NextSpan(c: Capture, adj: seq<seq<nat>>, n: nat)
    requires n < |c.spans| && AdjacencyOf(c, adj, n, |Parents(c, n, true)|)
    ensures AdjacencyOf(c, adj, n + 1, 0)
  {
    var ps := Parents(c, n, true);
    assert ps[..|ps|] == ps;
    assert forall i: nat, q: nat :: Half(c, n + 1, 0, i, q) <==> Half(c, n, |ps|, i, q);
  }

  /** The adjacency lists of the undirected graph. */
  method BuildAdjacency(c: Capture) returns (adj: array<seq<nat>>)
    requires c.Valid()
    ensures fresh(adj) && adj.Length == |c.spans|
    ensures forall i: nat, q: nat :: i < adj.Length ==> (q in adj[i] <==> Linked(c, i, q))
  {
    adj := new seq<nat>[|c.spans|](_ => []);
    for i := 0 to |c.spans|
      invariant AdjacencyOf(c, adj[..], i, 0)
    {
      var ps := Parents(c, i, true);
      ParentsInRange(c, i, true);
      for m := 0 to |ps|
        invariant AdjacencyOf(c, adj[..], i, m)
      {
        AddEdge(c, adj[..], i, m, ps[m]);
        ghost var both := Both(adj[..], i, ps[m]);
        adj[i] := adj[i] + [ps[m]];
        adj[ps[m]] := adj[ps[m]] + [i];
        assert adj[..] == both;
      }
      NextSpan(c, adj[..], i);
    }
    AllEdges(c, adj[..]);
  }

  lemma AllEdges(c: Capture, adj: seq<seq<nat>>)
    requires c.Valid() && AdjacencyOf(c, adj, |c.spans|, 0)
    ensures forall i: nat, q: nat :: i < |adj| ==> (q in adj[i] <==> Linked(c, i, q))
  {
    forall i: nat | i < |c.spans|
      ensures forall q: nat :: q in Parents(c, i, true) ==> q < |c.spans|
    {
      ParentsInRange(c, i, true);
    }
  }

  lemma ConnectedStep(c: Capture, i: nat, q: nat)
    requires Connected(c, i) && Linked(c, i, q)
    ensures Connected(c, q)
  {
    var w :| Path(c, w) && w[0] == 0 && w[|w| - 1] == i;
    var v := w + [q];
    assert forall k :: 0 <= k < |w| ==> v[k] == w[k];
    assert Path(c, v) && v[0] == 0 && v[|v| - 1] == q;
  }

  /** A set closed under edges that holds the first span holds its whole component. */
  lemma {:induction false} ClosedHoldsPath(c: Capture, seen: set<nat>, w: seq<nat>, k: nat)
    requires forall i: nat, q: nat :: i in seen && Linked(c, i, q) ==> q in seen
    requires Path(c, w) && w[0] in seen && k < |w|
    ensures w[k] in seen
  {
    if k > 0 {
      ClosedHoldsPath(c, seen, w, k - 1);
      assert Linked(c, w[k - 1], w[k]);
    }
  }

  /** What the search keeps: it has seen only connected spans, and the neighbours of
      every span seen and no longer on the stack. */
  ghost predicate SearchInv(c: Capture, seen: set<nat>, todo: seq<nat>)
  {
    && 0 in seen
    && (forall v :: v in seen ==> v < |c.spans| && Connected(c, v))
    && (forall k :: 0 <= k < |todo| ==> todo[k] in seen)
    && (forall i: nat, q: nat :: i in seen && Linked(c, i, q) ==> q in seen || i in todo)
  }

  lemma {:induction false} SearchComplete(c: Capture, seen: set<nat>)
    requires SearchInv(c, seen, [])
    ensures forall v :: 0 <= v < |c.spans| ==> (v in seen <==> Connected(c, v))
    ensures |c.spans| - |seen| == |Unreachable(c)|
  {
    forall v | 0 <= v < |c.spans| && Connected(c, v)
      ensures v in seen
    {
      var w :| Path(c, w) && w[0] == 0 && w[|w| - 1] == v;
      ClosedHoldsPath(c, seen, w, |w| - 1);
    }
    var all := Below(|c.spans|);
    assert seen + Unreachable(c) == all && seen !! Unreachable(c);
  }

  lemma {:induction false} SeenBound(c: Capture, seen: set<nat>)
    requires forall v :: v in seen ==> v < |c.spans|
    ensures |seen| <= |c.spans|
  {
    var all := Below(|c.spans|);
    assert seen <= all;
    assert |all - seen| == |all| - |seen|;
  }

  /** The popped span's neighbours before the `k`-th are dealt with. */
  ghost predicate PopInv(c: Capture, seen: set<nat>, todo: seq<nat>, i: nat, done: seq<nat>)
  {
    && SearchInv(c, seen, todo + [i])
    && (forall m :: 0 <= m < |done| ==> done[m] in seen)
  }

  lemma {:induction false} See(c: Capture, seen: set<nat>, todo: seq<nat>, i: nat, done: seq<nat>, p: nat)
    requires PopInv(c, seen, todo, i, done) && Linked(c, i, p)
    ensures PopInv(c, seen + {p}, if p in seen then todo else todo + [p], i, done + [p])
  {
    assert (todo + [i])[|todo|] == i;
    ConnectedStep(c, i, p);
    if p in seen {
      assert seen + {p} == seen;
    } else {
      var next := todo + [p] + [i];
      forall x: nat | x in todo + [i] || x == p
        ensures x in next
      {
        assert next[|todo|] == p && next[|todo| + 1] == i;
        if x in todo {
          var k :| 0 <= k < |todo| && todo[k] == x;
          assert next[k] == x;
        }
      }
      forall k | 0 <= k < |next|
        ensures next[k] in seen + {p}
      {
        if k < |todo| {
          assert (todo + [i])[k] == next[k];
        }
      }
    }
  }

  /** The next neighbour of the popped span, by its place in the list. */
  lemma {:induction false} SeeNext(c: Capture, seen: set<nat>, todo: seq<nat>, i: nat, next: seq<nat>, k: nat)
    requires k < |next| && PopInv(c, seen, todo, i, next[..k]) && forall q: nat :: q in next <==> Linked(c, i, q)
    ensures PopInv(c, seen + {next[k]}, if next[k] in seen then todo else todo + [next[k]], i, next[..k + 1])
    ensures next[k] in seen ==> seen + {next[k]} == seen
  {
    assert next[k] in next;
    See(c, seen, todo, i, next[..k], next[k]);
    assert next[..k] + [next[k]] == next[..k + 1];
  }

  lemma {:induction false} Pop(c: Capture, seen: set<nat>, todo: seq<nat>, next: seq<nat>)
    requires todo != [] && SearchInv(c, seen, todo)
    ensures PopInv(c, seen, todo[..|todo| - 1], todo[|todo| - 1], next[..0])
    ensures todo[|todo| - 1] < |c.spans|
  {
    assert todo == todo[..|todo| - 1] + [todo[|todo| - 1]];
  }

  lemma {:induction false} Popped(c: Capture, seen: set<nat>, todo: seq<nat>, i: nat, done: seq<nat>)
    requires PopInv(c, seen, todo, i, done)
    requires forall q: nat :: Linked(c, i, q) ==> q in done
    ensures SearchInv(c, seen, todo)
  {
    assert forall k :: 0 <= k < |todo| ==> (todo + [i])[k] == todo[k];
  }

  /** The disconnected failure is reported exactly when some span cannot be reached
      from the first one, and its count is the number of such spans. */
  method CountDisconnected(c: Capture) returns (count: int)
    requires c.Valid() && c.spans != []
    ensures count == |Unreachable(c)|
  {
    var lists := BuildAdjacency(c);
    var adj := lists[..];
    var seen: set<nat> := {0};
    var todo := [0];
    assert Path(c, [0]);
    while |todo| > 0
      invariant SearchInv(c, seen, todo)
      decreases |c.spans| - |seen|, |todo|
    {
      Pop(c, seen, todo, []);
      var i := todo[|todo| - 1];
      todo := todo[..|todo| - 1];
      var next := adj[i];
      ghost var before, height := |seen|, |todo|;
      for k := 0 to |next|
        invariant PopInv(c, seen, todo, i, next[..k])
        invariant |seen| > before || (|seen| == before && |todo| == height)
      {
        SeeNext(c, seen, todo, i, next, k);
        if next[k] !in seen {
          seen := seen + {next[k]};
          todo := todo + [next[k]];
        }
      }
      assert next[..|next|] == next;
      Popped(c, seen, todo, i, next);
      SeenBound(c, seen);
    }
    SearchComplete(c, seen);
    count := |c.spans| - |seen|;
  }
}
