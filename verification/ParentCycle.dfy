/** The three-colour search for a cycle of parent edges. */
module ParentCycle {
  import opened TraceGraph

  const WHITE: nat := 0
  const GREY: nat := 1
  const BLACK: nat := 2

  /** A closed walk with at least one edge. */
  ghost predicate OnCycle(c: Capture, v: nat)
  {
    exists w :: Walk(c, false, w) && |w| > 1 && w[0] == v && w[|w| - 1] == v
  }

  /** A walk with at least one edge. */
  ghost predicate Leads(c: Capture, g: nat, v: nat)
  {
    exists w :: Walk(c, false, w) && |w| > 1 && w[0] == g && w[|w| - 1] == v
  }

  ghost predicate BlackClosed(c: Capture, colors: seq<nat>)
    requires |colors| == |c.spans|
  {
    forall v: nat, p: nat :: v < |colors| && colors[v] == BLACK && Edge(c, false, v, p) ==> colors[p] == BLACK
  }

  /** What holds between calls: black spans lead to black spans only, and lie on no
      cycle. */
  ghost predicate Sound(c: Capture, colors: seq<nat>)
  {
    && |colors| == |c.spans|
    && BlackClosed(c, colors)
    && (forall v :: 0 <= v < |colors| && colors[v] == BLACK ==> !OnCycle(c, v))
  }

  ghost function White(colors: seq<nat>): set<nat>
  {
    set v | 0 <= v < |colors| && colors[v] == WHITE
  }

  lemma {:induction false} BlackWalk(c: Capture, colors: seq<nat>, w: seq<nat>, k: nat)
    requires |colors| == |c.spans| && BlackClosed(c, colors)
    requires Walk(c, false, w) && k < |w| && colors[w[0]] == BLACK
    ensures colors[w[k]] == BLACK
  {
    if k > 0 {
      BlackWalk(c, colors, w, k - 1);
      assert Edge(c, false, w[k - 1], w[k]);
    }
  }

  /** A span whose parents are all black, and which is not, lies on no cycle. */
  lemma {:induction false} FinishedNotOnCycle(c: Capture, colors: seq<nat>, i: nat)
    requires Sound(c, colors) && i < |colors| && colors[i] != BLACK
    requires forall p: nat :: Edge(c, false, i, p) ==> colors[p] == BLACK
    ensures !OnCycle(c, i)
  {
    if OnCycle(c, i) {
      var w :| Walk(c, false, w) && |w| > 1 && w[0] == i && w[|w| - 1] == i;
      assert Edge(c, false, w[0], w[1]);
      WalkTail(c, false, w);
      BlackWalk(c, colors, w[1..], |w| - 2);
    }
  }

  lemma LeadsOn(c: Capture, g: nat, i: nat, p: nat)
    requires Edge(c, false, i, p) && (g == i || Leads(c, g, i))
    ensures Leads(c, g, p)
  {
    if Leads(c, g, i) {
      var w :| Walk(c, false, w) && |w| > 1 && w[0] == g && w[|w| - 1] == i;
      WalkSnoc(c, false, w, p);
      assert (w + [p])[0] == g;
    } else {
      assert Walk(c, false, [i, p]);
    }
  }

  /** From `before` to `now`, spans have only been turned from white to black. */
  ghost predicate Advances(before: seq<nat>, now: seq<nat>)
  {
    && |now| == |before|
    && forall g :: 0 <= g < |now| ==> now[g] == before[g] || (before[g] == WHITE && now[g] == BLACK)
  }

  ghost predicate Colors(colors: seq<nat>)
  {
    forall g :: 0 <= g < |colors| ==> colors[g] <= BLACK
  }

  /** Grey spans are those whose search is under way: each leads to `i`. */
  ghost predicate GreyLeads(c: Capture, colors: seq<nat>, i: nat)
  {
    forall g :: 0 <= g < |colors| && colors[g] == GREY ==> Leads(c, g, i)
  }

  lemma GreyOnCycle(c: Capture, colors: seq<nat>, i: nat)
    requires GreyLeads(c, colors, i) && i < |colors| && colors[i] == GREY
    ensures OnCycle(c, i)
  {
    assert Leads(c, i, i);
  }

  lemma WhiteShrinks(before: seq<nat>, i: nat, now: seq<nat>)
    requires i < |before| && before[i] == WHITE && Advances(before[i := GREY], now)
    ensures White(now) < White(before)
  {
    assert i in White(before) && i !in White(now);
  }

  lemma GreySound(c: Capture, colors: seq<nat>, i: nat)
    requires Sound(c, colors) && i < |colors| && colors[i] == WHITE
    ensures Sound(c, colors[i := GREY])
  {
  }

  lemma ParentGreyLeads(c: Capture, before: seq<nat>, i: nat, now: seq<nat>, p: nat)
    requires |before| == |c.spans| && i < |before| && GreyLeads(c, before, i)
    requires Advances(before[i := GREY], now) && Edge(c, false, i, p)
    ensures GreyLeads(c, now, p)
  {
    forall g | 0 <= g < |now| && now[g] == GREY
      ensures Leads(c, g, p)
    {
      LeadsOn(c, g, i, p);
    }
  }

  lemma Blacken(c: Capture, colors: seq<nat>, i: nat)
    requires Sound(c, colors) && i < |colors| && colors[i] == GREY
    requires forall p: nat :: Edge(c, false, i, p) ==> colors[p] == BLACK
    ensures Sound(c, colors[i := BLACK])
  {
    FinishedNotOnCycle(c, colors, i);
  }

  lemma BlackenAdvances(before: seq<nat>, i: nat, now: seq<nat>)
    requires i < |before| && before[i] == WHITE && Advances(before[i := GREY], now)
    ensures Advances(before, now[i := BLACK])
  {
  }

  /** Searches from span `i` and blackens everything it leads to, or finds a cycle. */
  method Cycle(c: Capture, colors: array<nat>, i: nat) returns (found: bool)
    requires c.Valid() && i < |c.spans|
    requires Sound(c, colors[..]) && Colors(colors[..]) && GreyLeads(c, colors[..], i)
    modifies colors
    ensures found ==> exists v: nat :: OnCycle(c, v)
    ensures !found ==> Sound(c, colors[..]) && colors[i] == BLACK && Advances(old(colors[..]), colors[..])
    decreases White(colors[..])
  {
    ghost var before := colors[..];
    if colors[i] == GREY {
      GreyOnCycle(c, before, i);
      return true;
    }
    if colors[i] == BLACK {
      return false;
    }
    GreySound(c, before, i);
    colors[i] := GREY;
    assert colors[..] == before[i := GREY];
    var parents := Parents(c, i, false);
    ParentsInRange(c, i, false);
    for k := 0 to |parents|
      invariant Sound(c, colors[..]) && Advances(before[i := GREY], colors[..])
      invariant forall m :: 0 <= m < k ==> colors[parents[m]] == BLACK
    {
      WhiteShrinks(before, i, colors[..]);
      ParentGreyLeads(c, before, i, colors[..], parents[k]);
      found := Cycle(c, colors, parents[k]);
      if found {
        return true;
      }
    }
    Blacken(c, colors[..], i);
    ghost var now := colors[..];
    BlackenAdvances(before, i, now);
    colors[i] := BLACK;
    assert colors[..] == now[i := BLACK];
    return false;
  }

  lemma OnlySpansOnCycles(c: Capture, v: nat)
    ensures OnCycle(c, v) ==> v < |c.spans|
  {
  }

  lemma AllBlackNoCycle(c: Capture, colors: seq<nat>)
    requires Sound(c, colors) && forall g :: 0 <= g < |colors| ==> colors[g] == BLACK
    ensures forall v: nat :: !OnCycle(c, v)
  {
    forall v: nat
      ensures !OnCycle(c, v)
    {
      OnlySpansOnCycles(c, v);
    }
  }

  /** Between two searches no span is grey, and the first `n` are black. */
  ghost predicate Searched(colors: seq<nat>, n: nat)
  {
    && (forall g :: 0 <= g < |colors| ==> colors[g] == WHITE || colors[g] == BLACK)
    && (forall g :: 0 <= g < n && g < |colors| ==> colors[g] == BLACK)
  }

  lemma SearchStarts(c: Capture, colors: seq<nat>, i: nat)
    requires Searched(colors, i)
    ensures Colors(colors) && GreyLeads(c, colors, i)
  {
  }

  lemma SearchEnds(before: seq<nat>, now: seq<nat>, i: nat)
    requires Searched(before, i) && Advances(before, now) && i < |now| && now[i] == BLACK
    ensures Searched(now, i + 1)
  {
  }

  /** The parent_cycle failure is reported exactly when the parent edges have a cycle. */
  method HasParentCycle(c: Capture) returns (found: bool)
    requires c.Valid()
    ensures found <==> exists v: nat :: OnCycle(c, v)
  {
    var colors := new nat[|c.spans|](_ => WHITE);
    for i := 0 to |c.spans|
      invariant Sound(c, colors[..]) && Searched(colors[..], i)
    {
      ghost var before := colors[..];
      SearchStarts(c, before, i);
      found := Cycle(c, colors, i);
      if found {
        return true;
      }
      SearchEnds(before, colors[..], i);
    }
    AllBlackNoCycle(c, colors[..]);
    return false;
  }
}
