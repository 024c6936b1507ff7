/** Ordered ancestor paths: the memoised, work-limited search behind ancestry rules. */
module Ancestry {
  import opened TraceGraph

  const WORK_LIMIT: nat := 1_000_000

  /** A rule: `path` lists selectors from ancestor to descendant, the last one picks
      the terminal spans. Selectors are arbitrary predicates on spans. */
  datatype Rule = Rule(path: seq<Span -> bool>, minimum: nat, direct: bool, links: bool)

  predicate Matches(c: Capture, a: Rule, stage: nat, p: nat)
    requires stage < |a.path| && p < |c.spans|
  {
    a.path[stage](c.spans[p])
  }

  // ------------------------------------------------------------ meaning

  /** The vertices of `w` at the positions `marks` satisfy the selectors `stage`, ...,
      0 in this order, and `w` ends at the last of them. For a direct rule the positions
      are consecutive. */
  ghost predicate Marked(c: Capture, a: Rule, stage: int, w: seq<nat>, marks: seq<nat>)
    requires -1 <= stage < |a.path| && forall k :: 0 <= k < |w| ==> w[k] < |c.spans|
  {
    && |marks| == stage + 1
    && (forall j :: 0 <= j < |marks| ==> 0 < marks[j] < |w| && Matches(c, a, stage - j, w[marks[j]]))
    && (forall j, k :: 0 <= j < k < |marks| ==> marks[j] < marks[k])
    && (a.direct ==> forall j :: 0 <= j < |marks| ==> marks[j] == j + 1)
    && |w| - 1 == (if marks == [] then 0 else marks[|marks| - 1])
  }

  /** A walk from a span up its ancestry that satisfies the selectors. */
  ghost predicate Witness(c: Capture, a: Rule, stage: int, w: seq<nat>, marks: seq<nat>)
    requires -1 <= stage < |a.path|
  {
    Walk(c, a.links, w) && Marked(c, a, stage, w, marks)
  }

  /** Span `child` has an ordered ancestor path for the selectors up to `stage`. */
  ghost predicate HasPath(c: Capture, a: Rule, child: nat, stage: int)
    requires -1 <= stage < |a.path|
  {
    exists w, marks :: Witness(c, a, stage, w, marks) && w[0] == child
  }

  function Shift(marks: seq<nat>): (r: seq<nat>)
    ensures |r| == |marks|
    ensures forall j :: 0 <= j < |marks| ==> r[j] == marks[j] + 1
  {
    seq(|marks|, j requires 0 <= j < |marks| => marks[j] + 1)
  }

  function Unshift(marks: seq<nat>): (r: seq<nat>)
    requires forall j :: 0 <= j < |marks| ==> marks[j] > 0
    ensures |r| == |marks|
    ensures forall j :: 0 <= j < |marks| ==> r[j] == marks[j] - 1
  {
    seq(|marks|, j requires 0 <= j < |marks| => marks[j] - 1)
  }

  ghost predicate InCapture(c: Capture, w: seq<nat>)
  {
    forall k :: 0 <= k < |w| ==> w[k] < |c.spans|
  }

  lemma {:induction false} MarkedByMatch(c: Capture, a: Rule, stage: nat, child: nat, w: seq<nat>, marks: seq<nat>)
    requires InCapture(c, [child] + w) && InCapture(c, w) && stage < |a.path| && w != []
    requires Marked(c, a, stage - 1, w, marks) && Matches(c, a, stage, w[0])
    ensures Marked(c, a, stage, [child] + w, [1] + Shift(marks))
  {
    var w', marks' := [child] + w, [1] + Shift(marks);
    forall j | 0 <= j < |marks'|
      ensures 0 < marks'[j] < |w'| && Matches(c, a, stage - j, w'[marks'[j]])
    {
      if j > 0 {
        assert w'[marks'[j]] == w[marks[j - 1]];
      }
    }
  }

  lemma {:induction false} MarkedByStep(c: Capture, a: Rule, stage: nat, child: nat, w: seq<nat>, marks: seq<nat>)
    requires InCapture(c, [child] + w) && InCapture(c, w) && stage < |a.path| && w != []
    requires Marked(c, a, stage, w, marks) && !a.direct
    ensures Marked(c, a, stage, [child] + w, Shift(marks))
  {
    var w', marks' := [child] + w, Shift(marks);
    forall j | 0 <= j < |marks'|
      ensures w'[marks'[j]] == w[marks[j]]
    {
    }
  }

  /** Conversely, what is left of a marked walk after a first edge that matches. */
  lemma {:induction false} MarkedAfterMatch(c: Capture, a: Rule, stage: nat, i: nat, w: seq<nat>, marks: seq<nat>)
    requires InCapture(c, [i] + w) && InCapture(c, w) && stage < |a.path| && w != []
    requires Marked(c, a, stage, [i] + w, marks) && marks[0] == 1
    ensures Matches(c, a, stage, w[0]) && Marked(c, a, stage - 1, w, Unshift(marks[1..]))
  {
    var rest := Unshift(marks[1..]);
    forall j | 0 <= j < |rest|
      ensures w[rest[j]] == ([i] + w)[marks[j + 1]]
    {
    }
  }

  /** And after one that does not. */
  lemma {:induction false} MarkedAfterStep(c: Capture, a: Rule, stage: nat, i: nat, w: seq<nat>, marks: seq<nat>)
    requires InCapture(c, [i] + w) && InCapture(c, w) && stage < |a.path| && w != []
    requires Marked(c, a, stage, [i] + w, marks) && marks[0] != 1
    ensures !a.direct && Marked(c, a, stage, w, Unshift(marks))
  {
    var rest := Unshift(marks);
    assert marks[0] > 1;
    forall j | 0 <= j < |rest|
      ensures rest[j] > 0 && w[rest[j]] == ([i] + w)[marks[j]]
    {
      assert j > 0 ==> marks[0] < marks[j];
    }
  }

  lemma {:induction false} PathOf(c: Capture, a: Rule, stage: int, w: seq<nat>, marks: seq<nat>)
    requires -1 <= stage < |a.path| && Walk(c, a.links, w) && Marked(c, a, stage, w, marks)
    ensures HasPath(c, a, w[0], stage)
  {
    assert Witness(c, a, stage, w, marks);
  }

  /** A path from a matching parent extends to one from the child. */
  lemma {:induction false} PathByMatch(c: Capture, a: Rule, child: nat, p: nat, stage: nat)
    requires stage < |a.path| && Edge(c, a.links, child, p)
    requires Matches(c, a, stage, p) && HasPath(c, a, p, stage - 1)
    ensures HasPath(c, a, child, stage)
  {
    var w, marks :| Witness(c, a, stage - 1, w, marks) && w[0] == p;
    WalkCons(c, a.links, child, w);
    MarkedByMatch(c, a, stage, child, w, marks);
    PathOf(c, a, stage, [child] + w, [1] + Shift(marks));
  }

  /** Unless the rule is direct, a path from any parent extends to one from the child. */
  lemma {:induction false} PathByStep(c: Capture, a: Rule, child: nat, p: nat, stage: nat)
    requires stage < |a.path| && Edge(c, a.links, child, p)
    requires !a.direct && HasPath(c, a, p, stage)
    ensures HasPath(c, a, child, stage)
  {
    var w, marks :| Witness(c, a, stage, w, marks) && w[0] == p;
    WalkCons(c, a.links, child, w);
    MarkedByStep(c, a, stage, child, w, marks);
    PathOf(c, a, stage, [child] + w, Shift(marks));
  }

  lemma EmptyPath(c: Capture, a: Rule, child: nat)
    requires child < |c.spans|
    ensures HasPath(c, a, child, -1)
  {
    assert Witness(c, a, -1, [child], []) && [child][0] == child;
  }

  // ------------------------------------------------------------ failed states

  type Node = (nat, nat)

  /** Everything that state (child, stage) could go on to along its parent `p` is in
      `seen`, and none of it completes the path. */
  ghost predicate EdgeFails(c: Capture, a: Rule, seen: set<Node>, child: nat, stage: nat, p: nat)
    requires stage < |a.path| && p < |c.spans|
  {
    && (Matches(c, a, stage, p) ==> stage > 0 && (p, stage - 1) in seen)
    && (!a.direct ==> (p, stage) in seen)
  }

  ghost predicate Failed(c: Capture, a: Rule, seen: set<Node>, st: Node)
  {
    && st.0 < |c.spans| && st.1 < |a.path|
    && forall p: nat :: Edge(c, a.links, st.0, p) ==> EdgeFails(c, a, seen, st.0, st.1, p)
  }

  lemma {:induction false} WitnessAfterMatch(c: Capture, a: Rule, stage: nat, w: seq<nat>, marks: seq<nat>)
    requires stage < |a.path| && Witness(c, a, stage, w, marks) && marks[0] == 1
    ensures |w| > 1 && Edge(c, a.links, w[0], w[1]) && Matches(c, a, stage, w[1])
    ensures Witness(c, a, stage - 1, w[1..], Unshift(marks[1..]))
  {
    assert w == [w[0]] + w[1..];
    WalkTail(c, a.links, w);
    MarkedAfterMatch(c, a, stage, w[0], w[1..], marks);
  }

  lemma {:induction false} WitnessAfterStep(c: Capture, a: Rule, stage: nat, w: seq<nat>, marks: seq<nat>)
    requires stage < |a.path| && Witness(c, a, stage, w, marks) && marks[0] != 1
    ensures |w| > 1 && Edge(c, a.links, w[0], w[1]) && !a.direct
    ensures Witness(c, a, stage, w[1..], Unshift(marks))
  {
    assert w == [w[0]] + w[1..];
    WalkTail(c, a.links, w);
    MarkedAfterStep(c, a, stage, w[0], w[1..], marks);
  }

  /** The first edge of a path from a failed state leads to another state seen. */
  lemma {:induction false} PathMeetsSeen(c: Capture, a: Rule, seen: set<Node>, st: Node, w: seq<nat>, marks: seq<nat>)
    returns (stage: nat, rest: seq<nat>)
    requires st.1 < |a.path| && Failed(c, a, seen, st)
    requires Witness(c, a, st.1, w, marks) && w[0] == st.0
    ensures |w| > 1 && stage <= st.1 && (w[1], stage) in seen
    ensures Witness(c, a, stage, w[1..], rest)
  {
    if marks[0] == 1 {
      WitnessAfterMatch(c, a, st.1, w, marks);
      assert EdgeFails(c, a, seen, st.0, st.1, w[1]);
      stage, rest := st.1 - 1, Unshift(marks[1..]);
    } else {
      WitnessAfterStep(c, a, st.1, w, marks);
      assert EdgeFails(c, a, seen, st.0, st.1, w[1]);
      stage, rest := st.1, Unshift(marks);
    }
  }

  /** If every state seen has failed, none of them has a path. */
  lemma {:induction false} AllFailedNoWitness(c: Capture, a: Rule, seen: set<Node>, st: Node, w: seq<nat>,
                                              marks: seq<nat>)
    requires forall s :: s in seen ==> Failed(c, a, seen, s)
    requires st in seen && st.1 < |a.path| && w != [] && w[0] == st.0
    ensures !Witness(c, a, st.1, w, marks)
    decreases |w|
  {
    if Witness(c, a, st.1, w, marks) {
      var stage, rest := PathMeetsSeen(c, a, seen, st, w, marks);
      AllFailedNoWitness(c, a, seen, (w[1], stage), w[1..], rest);
    }
  }

  lemma {:induction false} AllFailedNoPath(c: Capture, a: Rule, seen: set<Node>, st: Node)
    requires forall s :: s in seen ==> Failed(c, a, seen, s)
    requires st in seen && st.1 < |a.path|
    ensures !HasPath(c, a, st.0, st.1)
  {
    if HasPath(c, a, st.0, st.1) {
      var w, marks :| Witness(c, a, st.1, w, marks) && w[0] == st.0;
      AllFailedNoWitness(c, a, seen, st, w, marks);
    }
  }

  /** Every state added since `before` has failed. */
  ghost predicate NewFailed(c: Capture, a: Rule, before: set<Node>, now: set<Node>)
  {
    before <= now && forall s :: s in now && s !in before ==> Failed(c, a, now, s)
  }

  /** The first `k` parents of a state lead nowhere. */
  ghost predicate ParentsFail(c: Capture, a: Rule, seen: set<Node>, st: Node, parents: seq<nat>, k: nat)
    requires st.1 < |a.path| && k <= |parents| && InCapture(c, parents)
  {
    forall m :: 0 <= m < k ==> EdgeFails(c, a, seen, st.0, st.1, parents[m])
  }

  lemma ParentFails(c: Capture, a: Rule, met: set<Node>, seen: set<Node>, st: Node, parents: seq<nat>, k: nat)
    requires st.1 < |a.path| && k < |parents| && InCapture(c, parents) && met <= seen
    requires ParentsFail(c, a, met, st, parents, k) && EdgeFails(c, a, seen, st.0, st.1, parents[k])
    ensures ParentsFail(c, a, seen, st, parents, k + 1)
  {
  }

  lemma StateFails(c: Capture, a: Rule, before: set<Node>, st: Node, seen: set<Node>, parents: seq<nat>)
    requires st.0 < |c.spans| && st.1 < |a.path| && parents == Parents(c, st.0, a.links) && InCapture(c, parents)
    requires NewFailed(c, a, before + {st}, seen) && ParentsFail(c, a, seen, st, parents, |parents|)
    ensures NewFailed(c, a, before, seen)
  {
    forall p: nat | Edge(c, a.links, st.0, p)
      ensures EdgeFails(c, a, seen, st.0, st.1, p)
    {
      var m :| 0 <= m < |parents| && parents[m] == p;
    }
  }

  lemma NewFailedTransitive(c: Capture, a: Rule, s0: set<Node>, s1: set<Node>, s2: set<Node>)
    requires NewFailed(c, a, s0, s1) && NewFailed(c, a, s1, s2)
    ensures NewFailed(c, a, s0, s2)
  {
  }

  /** Neither way on through a parent has completed the path. */
  lemma ThroughFails(c: Capture, a: Rule, before: set<Node>, met: set<Node>, seen: set<Node>,
                     child: nat, stage: nat, p: nat)
    requires stage < |a.path| && p < |c.spans|
    requires NewFailed(c, a, before, met) && NewFailed(c, a, met, seen)
    requires Matches(c, a, stage, p) ==> stage > 0 && (p, stage - 1) in met
    requires !a.direct ==> (p, stage) in seen
    ensures EdgeFails(c, a, seen, child, stage, p) && NewFailed(c, a, before, seen)
  {
    NewFailedTransitive(c, a, before, met, seen);
  }

  // ------------------------------------------------------------ the search

  ghost function AllNodes(c: Capture, a: Rule): set<Node>
  {
    Grid(|c.spans|, |a.path|)
  }

  lemma Entered(c: Capture, a: Rule, before: set<Node>, now: set<Node>, st: Node)
    requires st.0 < |c.spans| && st.1 < |a.path| && st !in before && before + {st} <= now
    ensures AllNodes(c, a) - now < AllNodes(c, a) - before
  {
    assert st in AllNodes(c, a) - before && st !in AllNodes(c, a) - now;
  }

  // ------------------------------------------------------------ the work of a search

  /** The largest number of causal parents among the spans before `n`. */
  function Degree(c: Capture, links: bool, n: nat): (d: nat)
    requires n <= |c.spans|
  {
    if n == 0 then 0
    else
      var d := Degree(c, links, n - 1);
      if |Parents(c, n - 1, links)| > d then |Parents(c, n - 1, links)| else d
  }

  /** The largest number of causal parents of any span. */
  function Fan(c: Capture, a: Rule): nat
  {
    Degree(c, a.links, |c.spans|)
  }

  lemma {:induction false} DegreeBounds(c: Capture, links: bool, n: nat, i: nat)
    requires i < n <= |c.spans|
    ensures |Parents(c, i, links)| <= Degree(c, links, n)
  {
    if i < n - 1 {
      DegreeBounds(c, links, n - 1, i);
    }
  }

  /** What `n` states cost: two calls for each parent of each state. */
  function Cost(d: nat, n: nat): nat
  {
    if n == 0 then 0 else Cost(d, n - 1) + 2 * d
  }

  lemma {:induction false} CostAdds(d: nat, m: nat, n: nat)
    ensures Cost(d, m + n) == Cost(d, m) + Cost(d, n)
  {
    if n > 0 {
      CostAdds(d, m, n - 1);
    }
  }

  lemma {:induction false} CostIsProduct(d: nat, n: nat)
    ensures Cost(d, n) == 2 * d * n
  {
    if n > 0 {
      CostIsProduct(d, n - 1);
      assert 2 * d * n == 2 * d * (n - 1) + 2 * d;
    }
  }

  /** The states entered since `before`. */
  ghost function News(before: set<Node>, now: set<Node>): nat
  {
    |now - before|
  }

  lemma NewsAdd(s0: set<Node>, s1: set<Node>, s2: set<Node>)
    requires s0 <= s1 <= s2
    ensures News(s0, s2) == News(s0, s1) + News(s1, s2)
  {
    assert s2 - s0 == (s1 - s0) + (s2 - s1);
  }

  lemma NewsOfOne(before: set<Node>, st: Node)
    requires st !in before
    ensures News(before, before + {st}) == 1
  {
    assert (before + {st}) - before == {st};
  }

  /** The work from `w0` to `w1`, `calls` calls and the states that they have entered,
      is paid for. */
  ghost predicate Spent(d: nat, w0: nat, w1: nat, calls: nat, before: set<Node>, now: set<Node>)
  {
    before <= now && w1 <= w0 + calls + Cost(d, News(before, now))
  }

  lemma {:induction false} SpentOn(d: nat, w0: nat, w1: nat, w2: nat, m: nat, n: nat, s0: set<Node>, s1: set<Node>,
                                   s2: set<Node>)
    requires Spent(d, w0, w1, m, s0, s1) && Spent(d, w1, w2, n, s1, s2)
    ensures Spent(d, w0, w2, m + n, s0, s2)
  {
    NewsAdd(s0, s1, s2);
    CostAdds(d, News(s0, s1), News(s1, s2));
  }

  /** The calls made through the parents of a state are paid for by entering it. */
  lemma {:induction false} SpentInside(c: Capture, a: Rule, w0: nat, w1: nat, calls: nat, before: set<Node>, st: Node,
                                       now: set<Node>)
    requires st.0 < |c.spans| && st !in before && calls <= 2 * |Parents(c, st.0, a.links)|
    requires Spent(Fan(c, a), w0 + 1, w1, calls, before + {st}, now)
    ensures Spent(Fan(c, a), w0, w1, 1, before, now)
  {
    var d := Fan(c, a);
    DegreeBounds(c, a.links, |c.spans|, st.0);
    NewsOfOne(before, st);
    NewsAdd(before, before + {st}, now);
    assert Cost(d, News(before, now)) == Cost(d, News(before + {st}, now)) + 2 * d;
  }

  lemma SpentNothing(d: nat, w: nat, seen: set<Node>)
    ensures Spent(d, w, w, 0, seen, seen)
    ensures Spent(d, w, w + 1, 1, seen, seen)
  {
    assert seen - seen == {};
  }

  function Times(n: nat, m: nat): nat
  {
    if n == 0 then 0 else Times(n - 1, m) + m
  }

  lemma {:induction false} TimesIsProduct(n: nat, m: nat)
    ensures Times(n, m) == n * m
  {
    if n > 0 {
      TimesIsProduct(n - 1, m);
      assert n * m == (n - 1) * m + m;
    }
  }

  /** A state is entered: nothing has been tried through it yet. */
  lemma {:induction false} Entering(c: Capture, a: Rule, before: set<Node>, st: Node, d: nat, w: nat)
    requires before <= AllNodes(c, a) && st.0 < |c.spans| && st.1 < |a.path|
    ensures var seen := before + {st};
      && seen <= AllNodes(c, a) && Spent(d, w, w, 0, seen, seen) && NewFailed(c, a, seen, seen)
  {
    SpentNothing(d, w, before + {st});
  }

  /** The work of one search at most, and of all the searches of a rule. */
  function SearchBound(c: Capture, a: Rule): nat
  {
    1 + Cost(Fan(c, a), Times(|c.spans|, |a.path|))
  }

  function RuleBound(c: Capture, a: Rule): nat
  {
    Searches(c, a, |c.spans|)
  }

  /** The work of `n` searches. */
  function Searches(c: Capture, a: Rule, n: nat): nat
  {
    Times(n, SearchBound(c, a))
  }

  /** Spans times twice the fan-out times spans times selectors, and one for each span. */
  lemma {:induction false} RuleBoundIsProduct(c: Capture, a: Rule)
    ensures RuleBound(c, a) == |c.spans| * (1 + 2 * Fan(c, a) * (|c.spans| * |a.path|))
  {
    TimesIsProduct(|c.spans|, |a.path|);
    CostIsProduct(Fan(c, a), |c.spans| * |a.path|);
    TimesIsProduct(|c.spans|, SearchBound(c, a));
  }

  lemma SearchesNext(c: Capture, a: Rule, n: nat)
    ensures Searches(c, a, n + 1) == Searches(c, a, n) + SearchBound(c, a)
  {
  }

  lemma {:induction false} SearchesGrow(c: Capture, a: Rule, m: nat, n: nat)
    requires m <= n
    ensures Searches(c, a, m) <= Searches(c, a, n)
  {
    if m < n {
      SearchesGrow(c, a, m, n - 1);
      SearchesNext(c, a, n - 1);
    }
  }

  ghost function Row(i: nat, m: nat): (r: set<Node>)
    ensures |r| == m
    ensures forall x: Node :: x in r <==> x.0 == i && x.1 < m
  {
    if m == 0 then {} else Row(i, m - 1) + {(i, m - 1)}
  }

  /** All pairs of a number below `n` and one below `m`. */
  ghost function Grid(n: nat, m: nat): (r: set<Node>)
    ensures |r| == Times(n, m)
    ensures forall x: Node :: x in r <==> x.0 < n && x.1 < m
  {
    if n == 0 then {}
    else
      assert Grid(n - 1, m) !! Row(n - 1, m);
      Grid(n - 1, m) + Row(n - 1, m)
  }

  lemma {:induction false} CostGrows(d: nat, m: nat, n: nat)
    requires m <= n
    ensures Cost(d, m) <= Cost(d, n)
  {
    if m < n {
      CostGrows(d, m, n - 1);
    }
  }

  lemma SmallerSet(a: set<Node>, b: set<Node>)
    requires a <= b
    ensures |a| <= |b|
  {
    assert b == a + (b - a);
  }

  /** A search that starts with nothing visited keeps within its bound. */
  lemma {:induction false} SearchWithinBound(c: Capture, a: Rule, w0: nat, w1: nat, seen: set<Node>)
    requires seen <= AllNodes(c, a) && Spent(Fan(c, a), w0, w1, 1, {}, seen)
    ensures w1 <= w0 + SearchBound(c, a)
  {
    assert seen - {} == seen;
    SmallerSet(seen, AllNodes(c, a));
    CostGrows(Fan(c, a), |seen|, Times(|c.spans|, |a.path|));
  }

  /** The state shared by the searches of one rule: the states visited for the terminal
      span at hand, and the work done for all of them so far. */
  class Search {
    const c: Capture
    const a: Rule
    var seen: set<Node>
    var work: nat
    var exhausted: bool

    ghost predicate Valid()
      reads this
    {
      c.Valid() && (exhausted <==> work > WORK_LIMIT) && seen <= AllNodes(c, a)
    }

    constructor (c: Capture, a: Rule)
      requires c.Valid()
      ensures this.c == c && this.a == a
      ensures Valid() && seen == {} && work == 0 && !exhausted
    {
      this.c, this.a := c, a;
      seen, work, exhausted := {}, 0, false;
    }

    /** Looks for a path from `child`. A state met again is not searched again, whether
        its search failed or is still under way, so the work is paid for by the states
        entered. Once the work limit is hit, nothing succeeds any more. */
    method Find(child: nat, stage: int) returns (ok: bool)
      requires Valid() && child < |c.spans| && -1 <= stage < |a.path|
      modifies this
      ensures Valid() && work > old(work)
      ensures Spent(Fan(c, a), old(work), work, 1, old(seen), seen)
      ensures ok ==> HasPath(c, a, child, stage)
      ensures exhausted ==> !ok
      ensures !ok && !exhausted ==> stage >= 0 && (child, stage) in seen && NewFailed(c, a, old(seen), seen)
      ensures old(seen) <= seen
      decreases AllNodes(c, a) - seen, 0
    {
      ghost var d := Fan(c, a);
      SpentNothing(d, work, seen);
      work := work + 1;
      if work > WORK_LIMIT {
        exhausted := true;
        return false;
      }
      if stage < 0 {
        EmptyPath(c, a, child);
        return true;
      }
      var st := (child, stage as nat);
      if st in seen {
        return false;
      }
      ghost var before := seen;
      seen := seen + {st};
      ghost var entered := seen;
      Entering(c, a, before, st, d, work);
      var parents := Parents(c, child, a.links);
      ParentsInRange(c, child, a.links);
      for k := 0 to |parents|
        invariant Valid() && work > old(work) && Spent(d, old(work) + 1, work, 2 * k, entered, seen)
        invariant !exhausted ==> NewFailed(c, a, entered, seen)
        invariant !exhausted ==> ParentsFail(c, a, seen, st, parents, k)
      {
        Entered(c, a, before, seen, st);
        ghost var met, spent := seen, work;
        ok := Through(child, stage, parents[k]);
        SpentOn(d, old(work) + 1, spent, work, 2 * k, 2, entered, met, seen);
        if ok {
          SpentInside(c, a, old(work), work, 2 * k + 2, before, st, seen);
          return true;
        }
        if !exhausted {
          NewFailedTransitive(c, a, entered, met, seen);
          ParentFails(c, a, met, seen, st, parents, k);
        }
      }
      SpentInside(c, a, old(work), work, 2 * |parents|, before, st, seen);
      if !exhausted {
        StateFails(c, a, before, st, seen, parents);
      }
      return false;
    }

    /** A search of its own for each terminal span, on the work left by the others. */
    method Start(terminal: nat) returns (ok: bool)
      requires Valid() && terminal < |c.spans| && |a.path| >= 2
      modifies this
      ensures Valid() && old(work) < work <= old(work) + SearchBound(c, a)
      ensures exhausted ==> !ok
      ensures !exhausted ==> (ok <==> HasPath(c, a, terminal, |a.path| - 2))
    {
      seen := {};
      ok := Find(terminal, |a.path| - 2);
      SearchWithinBound(c, a, old(work), work, seen);
      if !ok && !exhausted {
        AllFailedNoPath(c, a, seen, (terminal, |a.path| - 2));
      }
    }

    /** The loop body of Find: goes on through one parent of `child`. */
    method Through(child: nat, stage: nat, p: nat) returns (ok: bool)
      requires Valid() && stage < |a.path| && Edge(c, a.links, child, p)
      modifies this
      ensures Valid() && work >= old(work)
      ensures Spent(Fan(c, a), old(work), work, 2, old(seen), seen)
      ensures ok ==> HasPath(c, a, child, stage)
      ensures exhausted ==> !ok
      ensures !ok && !exhausted ==> EdgeFails(c, a, seen, child, stage, p) && NewFailed(c, a, old(seen), seen)
      ensures old(seen) <= seen
      decreases AllNodes(c, a) - seen, 1
    {
      ok := false;
      ghost var d := Fan(c, a);
      SpentNothing(d, work, seen);
      if Matches(c, a, stage, p) {
        ok := Find(p, stage - 1);
        if ok {
          PathByMatch(c, a, child, p, stage);
          return true;
        }
      }
      ghost var met, spent := seen, work;
      if !a.direct {
        ok := Find(p, stage);
        SpentOn(d, old(work), spent, work, 1, 1, old(seen), met, seen);
        if ok {
          PathByStep(c, a, child, p, stage);
          return true;
        }
      }
      if !exhausted {
        ThroughFails(c, a, old(seen), met, seen, child, stage, p);
      }
    }
  }

  // ------------------------------------------------------------ the rule

  predicate Ends(c: Capture, a: Rule, i: nat)
    requires |a.path| > 0 && i < |c.spans|
  {
    Matches(c, a, |a.path| - 1, i)
  }

  function KeyAt(c: Capture, i: nat): string
    requires i < |c.spans|
  {
    c.spans[i].Key()
  }

  /** Span `i` is a terminal: the first with its key that the last selector picks. */
  ghost predicate Terminal(c: Capture, a: Rule, i: nat)
    requires |a.path| > 0 && i < |c.spans|
  {
    Ends(c, a, i) && forall j: nat :: j < i && Ends(c, a, j) ==> KeyAt(c, j) != KeyAt(c, i)
  }

  /** How many terminals before `n` have (or lack) an ordered ancestor path. */
  ghost function Terminals(c: Capture, a: Rule, n: nat, withPath: bool): nat
    requires |a.path| > 0 && n <= |c.spans|
  {
    if n == 0 then 0
    else Terminals(c, a, n - 1, withPath)
         + if Terminal(c, a, n - 1) && HasPath(c, a, n - 1, |a.path| - 2) == withPath then 1 else 0
  }

  datatype RuleFailure = MissingAncestry(count: nat) | BrokenAncestry(count: nat) | WorkLimit(count: nat)

  /** The keys of the spans before `n` that the last selector picks. */
  ghost predicate KeysMet(c: Capture, a: Rule, n: nat, keys: set<string>)
    requires |a.path| > 0 && n <= |c.spans|
  {
    && (forall j: nat :: j < n && Ends(c, a, j) ==> KeyAt(c, j) in keys)
    && (forall k :: k in keys ==> exists j: nat :: j < n && Ends(c, a, j) && KeyAt(c, j) == k)
  }

  lemma {:induction false} KeysMetNext(c: Capture, a: Rule, n: nat, keys: set<string>)
    requires |a.path| > 0 && n < |c.spans| && KeysMet(c, a, n, keys)
    ensures Terminal(c, a, n) <==> Ends(c, a, n) && KeyAt(c, n) !in keys
    ensures KeysMet(c, a, n + 1, if Ends(c, a, n) then keys + {KeyAt(c, n)} else keys)
  {
    var next := if Ends(c, a, n) then keys + {KeyAt(c, n)} else keys;
    forall k | k in next
      ensures exists j: nat :: j < n + 1 && Ends(c, a, j) && KeyAt(c, j) == k
    {
      if k in keys {
        var j: nat :| j < n && Ends(c, a, j) && KeyAt(c, j) == k;
      } else {
        assert n < n + 1 && Ends(c, a, n) && KeyAt(c, n) == k;
      }
    }
  }

  /** The counts over the spans before `n`, and the bound of the work for them. */
  ghost predicate Tally(c: Capture, a: Rule, n: nat, keys: set<string>, matched: nat, bad: nat, work: nat)
    requires |a.path| > 0 && n <= |c.spans|
  {
    && KeysMet(c, a, n, keys) && work <= Searches(c, a, n)
    && matched == Terminals(c, a, n, true) && bad == Terminals(c, a, n, false)
  }

  /** Span `n` is no terminal. */
  lemma {:induction false} TallySkips(c: Capture, a: Rule, n: nat, keys: set<string>, matched: nat, bad: nat,
                                      work: nat)
    requires |a.path| > 0 && n < |c.spans| && Tally(c, a, n, keys, matched, bad, work)
    requires !Ends(c, a, n) || KeyAt(c, n) in keys
    ensures Tally(c, a, n + 1, keys, matched, bad, work)
  {
    SearchesNext(c, a, n);
    KeysMetNext(c, a, n, keys);
    if KeyAt(c, n) in keys {
      assert keys + {KeyAt(c, n)} == keys;
    }
  }

  /** Span `n` is a terminal, and `found` says whether it has a path. */
  lemma {:induction false} TallyCounts(c: Capture, a: Rule, n: nat, keys: set<string>, matched: nat, bad: nat,
                                       work: nat, found: bool, work': nat)
    requires |a.path| > 0 && n < |c.spans| && Tally(c, a, n, keys, matched, bad, work)
    requires Ends(c, a, n) && KeyAt(c, n) !in keys && found == HasPath(c, a, n, |a.path| - 2)
    requires work' <= work + SearchBound(c, a)
    ensures Tally(c, a, n + 1, keys + {KeyAt(c, n)},
                  if found then matched + 1 else matched, if found then bad else bad + 1, work')
  {
    SearchesNext(c, a, n);
    KeysMetNext(c, a, n, keys);
  }

  /** What the counts before span `n` say if its search is the last. */
  lemma {:induction false} CutCounts(c: Capture, a: Rule, n: nat, keys: set<string>, matched: nat, bad: nat,
                                     work: nat)
    requires |a.path| > 0 && n < |c.spans| && Tally(c, a, n, keys, matched, bad, work)
    ensures matched <= Terminals(c, a, |c.spans|, true)
    ensures work + SearchBound(c, a) <= RuleBound(c, a)
  {
    SearchesNext(c, a, n);
    SearchesGrow(c, a, n + 1, |c.spans|);
    TerminalsGrow(c, a, n, |c.spans|, true);
  }

  function Verdict(a: Rule, matched: nat, bad: nat, exhausted: bool, work: nat): seq<RuleFailure>
  {
    (if matched < a.minimum then [MissingAncestry(matched)] else [])
    + (if bad > 0 then [BrokenAncestry(bad)] else [])
    + (if exhausted then [WorkLimit(work)] else [])
  }

  lemma {:induction false} NoneBad(c: Capture, a: Rule, n: nat, i: nat)
    requires |a.path| >= 2 && n <= |c.spans| && Terminals(c, a, n, false) == 0
    requires i < n && Terminal(c, a, i)
    ensures HasPath(c, a, i, |a.path| - 2)
  {
    if i < n - 1 {
      NoneBad(c, a, n - 1, i);
    }
  }

  /** Each failure says its own count, under its own condition. */
  lemma {:induction false} VerdictSays(a: Rule, matched: nat, bad: nat, exhausted: bool, work: nat)
    ensures forall f :: f in Verdict(a, matched, bad, exhausted, work) <==>
      || (f == MissingAncestry(matched) && matched < a.minimum)
      || (f == BrokenAncestry(bad) && bad > 0)
      || (f == WorkLimit(work) && exhausted)
    ensures Verdict(a, matched, bad, exhausted, work) == [] <==> matched >= a.minimum && bad == 0 && !exhausted
  {
    var missing := if matched < a.minimum then [MissingAncestry(matched)] else [];
    var broken := if bad > 0 then [BrokenAncestry(bad)] else [];
    var limit := if exhausted then [WorkLimit(work)] else [];
    assert Verdict(a, matched, bad, exhausted, work) == missing + broken + limit;
    assert forall f :: f in missing + broken + limit <==> f in missing || f in broken || f in limit;
  }

  lemma {:induction false} TerminalsGrow(c: Capture, a: Rule, m: nat, n: nat, withPath: bool)
    requires |a.path| > 0 && m <= n <= |c.spans|
    ensures Terminals(c, a, m, withPath) <= Terminals(c, a, n, withPath)
  {
    if m < n {
      TerminalsGrow(c, a, m, n - 1, withPath);
    }
  }

  /** The failures of a rule whose search hit the limit: they say so, they count the
      terminal at hand as one without a path, and no more terminals with one than
      there are. */
  ghost predicate CutShort(c: Capture, a: Rule, failures: seq<RuleFailure>)
    requires |a.path| >= 2
  {
    exists matched: nat, bad: nat, n: nat :: CutShortWith(c, a, failures, matched, bad, n)
  }

  ghost predicate CutShortWith(c: Capture, a: Rule, failures: seq<RuleFailure>, matched: nat, bad: nat, n: nat)
    requires |a.path| >= 2
  {
    && failures == Verdict(a, matched, bad, true, n)
    && WorkLimit(n) in failures && BrokenAncestry(bad) in failures
    && (MissingAncestry(matched) in failures <==> matched < a.minimum)
    && matched <= Terminals(c, a, |c.spans|, true) && bad > 0
    && WORK_LIMIT < n <= RuleBound(c, a)
  }

  /** Searches from every terminal in turn, until the work limit is hit. */
  method CountTerminals(c: Capture, a: Rule) returns (matched: nat, bad: nat, exhausted: bool, work: nat)
    requires c.Valid() && |a.path| >= 2
    ensures (exhausted <==> work > WORK_LIMIT) && work <= RuleBound(c, a)
    ensures !exhausted ==> matched == Terminals(c, a, |c.spans|, true) && bad == Terminals(c, a, |c.spans|, false)
    ensures exhausted ==> matched <= Terminals(c, a, |c.spans|, true) && bad > 0
  {
    matched, bad := 0, 0;
    var keys: set<string> := {};
    var search := new Search(c, a);
    for i := 0 to |c.spans|
      invariant fresh(search) && search.Valid() && search.c == c && search.a == a && !search.exhausted
      invariant Tally(c, a, i, keys, matched, bad, search.work)
    {
      if Ends(c, a, i) && KeyAt(c, i) !in keys {
        ghost var with, without, spent := matched, bad, search.work;
        var found := search.Start(i);
        matched, bad := if found then matched + 1 else matched, if found then bad else bad + 1;
        if search.exhausted {
          CutCounts(c, a, i, keys, with, without, spent);
          return matched, bad, true, search.work;
        }
        TallyCounts(c, a, i, keys, with, without, spent, found, search.work);
        keys := keys + {KeyAt(c, i)};
      } else {
        TallySkips(c, a, i, keys, matched, bad, search.work);
      }
    }
    return matched, bad, false, search.work;
  }

  /** An ancestry rule over the whole capture. Within the work limit its verdict is
      exact; beyond it the rule always fails, so a capture never passes falsely, and says
      so. A capture whose size and fan-out keep the bound within the limit is never cut
      short. */
  method CheckRule(c: Capture, a: Rule) returns (failures: seq<RuleFailure>, exhausted: bool)
    requires c.Valid() && |a.path| >= 2
    ensures exhausted ==> CutShort(c, a, failures)
    ensures RuleBound(c, a) <= WORK_LIMIT ==> !exhausted
    ensures !exhausted ==>
      failures == Verdict(a, Terminals(c, a, |c.spans|, true), Terminals(c, a, |c.spans|, false), false, 0)
    ensures !exhausted ==> forall f :: f in failures <==>
      || (f.MissingAncestry? && f.count == Terminals(c, a, |c.spans|, true) < a.minimum)
      || (f.BrokenAncestry? && f.count == Terminals(c, a, |c.spans|, false) > 0)
    ensures failures == [] ==> Terminals(c, a, |c.spans|, true) >= a.minimum
    ensures failures == [] ==> forall i: nat :: i < |c.spans| && Terminal(c, a, i) ==> HasPath(c, a, i, |a.path| - 2)
  {
    var matched, bad, cut, work := CountTerminals(c, a);
    exhausted := cut;
    failures := Verdict(a, matched, bad, cut, if cut then work else 0);
    VerdictSays(a, matched, bad, cut, if cut then work else 0);
    if cut {
      assert CutShortWith(c, a, failures, matched, bad, work);
    } else if bad == 0 {
      forall i: nat | i < |c.spans| && Terminal(c, a, i)
        ensures HasPath(c, a, i, |a.path| - 2)
      {
        NoneBad(c, a, |c.spans|, i);
      }
    }
  }
}
