/** The causal graph of a span capture: the span index and its parent edges. */
module TraceGraph {
  import opened Wrappers

  datatype Link = Link(traceId: string, spanId: string)

  datatype Span = Span(traceId: string, spanId: string, parentSpanId: string,
                       serviceName: string, name: string, attributes: map<string, string>,
                       links: seq<Link>)
  {
    function Key(): string
    {
      KeyOf(traceId, spanId)
    }

    predicate Valid()
    {
      ValidId(traceId, 32) && ValidId(spanId, 16) && (parentSpanId != "" ==> ValidId(parentSpanId, 16))
    }
  }

  function KeyOf(traceId: string, spanId: string): string
  {
    traceId + "/" + spanId
  }

  predicate HexDigit(c: char)
  {
    '0' <= c <= '9' || 'a' <= c <= 'f'
  }

  /** A non-zero lower-case hexadecimal identifier of `n` digits. */
  predicate ValidId(id: string, n: nat)
  {
    && |id| == n
    && (forall i :: 0 <= i < |id| ==> HexDigit(id[i]))
    && (exists i :: 0 <= i < |id| && id[i] != '0')
  }

  /** The value of a hexadecimal digit of either case. */
  function Nibble(c: char): Option<nat>
  {
    if '0' <= c <= '9' then Some(c as int - '0' as int)
    else if 'a' <= c <= 'f' then Some(10 + c as int - 'a' as int)
    else if 'A' <= c <= 'F' then Some(10 + c as int - 'A' as int)
    else None
  }

  /** Whether an identifier is well formed: it is decoded into bytes, and one of them must
      not be zero. */
  method IsValidId(id: string, n: nat) returns (ok: bool)
    ensures ok <==> n % 2 == 0 && ValidId(id, n)
  {
    if |id| != n || n % 2 != 0 || exists i :: 0 <= i < |id| && 'A' <= id[i] <= 'Z' {
      return false;
    }
    var bytes: seq<nat> := [];
    for k := 0 to n / 2
      invariant |bytes| == k
      invariant forall j :: 0 <= j < 2 * k ==> HexDigit(id[j])
      invariant forall j :: 0 <= j < k ==> (bytes[j] == 0 <==> id[2 * j] == '0' == id[2 * j + 1])
    {
      match (Nibble(id[2 * k]), Nibble(id[2 * k + 1])) {
        case (Some(high), Some(low)) => bytes := bytes + [16 * high + low];
        case _ => return false;
      }
    }
    for k := 0 to n / 2
      invariant forall j :: 0 <= j < 2 * k ==> id[j] == '0'
    {
      if bytes[k] != 0 {
        return true;
      }
    }
    return false;
  }

  type Index = map<string, nat>

  /** The index names, for each key of a valid span, its first valid occurrence. */
  ghost predicate Indexes(spans: seq<Span>, index: Index)
  {
    && (forall k :: k in index ==>
          && index[k] < |spans| && spans[index[k]].Valid() && spans[index[k]].Key() == k
          && forall j :: 0 <= j < index[k] && spans[j].Valid() ==> spans[j].Key() != k)
    && (forall i :: 0 <= i < |spans| && spans[i].Valid() ==> spans[i].Key() in index)
  }

  datatype IdFailure = InvalidId | DuplicateSpanId

  ghost predicate AllValid(spans: seq<Span>)
  {
    forall i :: 0 <= i < |spans| ==> spans[i].Valid()
  }

  ghost predicate KeysDistinct(spans: seq<Span>)
  {
    forall i, j :: 0 <= j < i < |spans| ==> spans[j].Key() != spans[i].Key()
  }

  /** Some well-formed span has this key. */
  ghost predicate KeyTaken(spans: seq<Span>, key: string)
  {
    exists j :: 0 <= j < |spans| && spans[j].Valid() && spans[j].Key() == key
  }

  /** The failures that the identifiers of a capture deserve: one for each malformed span
      and, if duplicates are not allowed, for each whose key an earlier one has taken. */
  ghost function IdFailures(spans: seq<Span>, noDuplicates: bool): seq<IdFailure>
  {
    if spans == [] then []
    else
      var before, s := spans[..|spans| - 1], spans[|spans| - 1];
      IdFailures(before, noDuplicates)
      + if !s.Valid() then [InvalidId]
        else if noDuplicates && KeyTaken(before, s.Key()) then [DuplicateSpanId]
        else []
  }

  lemma TakenIffIndexed(spans: seq<Span>, index: Index, key: string)
    requires Indexes(spans, index)
    ensures KeyTaken(spans, key) <==> key in index
  {
    if key in index {
      assert spans[index[key]].Valid() && spans[index[key]].Key() == key;
    }
  }

  lemma CleanSnoc(spans: seq<Span>, s: Span)
    requires AllValid(spans)
    ensures AllValid(spans + [s]) <==> s.Valid()
    ensures KeysDistinct(spans + [s]) <==> KeysDistinct(spans) && !KeyTaken(spans, s.Key())
  {
    var all := spans + [s];
    assert all[|spans|] == s && forall i :: 0 <= i < |spans| ==> all[i] == spans[i];
    if KeyTaken(spans, s.Key()) {
      var j :| 0 <= j < |spans| && spans[j].Valid() && spans[j].Key() == s.Key();
      assert all[j].Key() == all[|spans|].Key();
    }
    if KeysDistinct(all) {
      assert forall i, j :: 0 <= j < i < |spans| ==> all[j].Key() != all[i].Key();
    }
  }

  /** No identifier fails exactly if all are well formed and, if asked for, distinct. */
  lemma {:induction false} NoIdFailures(spans: seq<Span>, noDuplicates: bool)
    ensures IdFailures(spans, noDuplicates) == [] <==> AllValid(spans) && (noDuplicates ==> KeysDistinct(spans))
  {
    if spans != [] {
      var before, s := spans[..|spans| - 1], spans[|spans| - 1];
      NoIdFailures(before, noDuplicates);
      assert spans == before + [s];
      if AllValid(before) {
        CleanSnoc(before, s);
      } else {
        var i :| 0 <= i < |before| && !before[i].Valid();
        assert !spans[i].Valid();
      }
    }
  }

  function Indexed(index: Index, s: Span, i: nat): Index
  {
    if s.Valid() && s.Key() !in index then index[s.Key() := i] else index
  }

  lemma IndexesSnoc(spans: seq<Span>, s: Span, index: Index)
    requires Indexes(spans, index)
    ensures Indexes(spans + [s], Indexed(index, s, |spans|))
  {
  }

  /** The index and the failures of the spans before `i`. */
  ghost predicate IndexState(spans: seq<Span>, i: nat, noDuplicates: bool, index: Index, failures: seq<IdFailure>)
    requires i <= |spans|
  {
    Indexes(spans[..i], index) && failures == IdFailures(spans[..i], noDuplicates)
  }

  function FailureOf(index: Index, s: Span, noDuplicates: bool): seq<IdFailure>
  {
    if !s.Valid() then [InvalidId]
    else if noDuplicates && s.Key() in index then [DuplicateSpanId]
    else []
  }

  lemma IndexStep(spans: seq<Span>, i: nat, noDuplicates: bool, index: Index, failures: seq<IdFailure>)
    requires i < |spans| && IndexState(spans, i, noDuplicates, index, failures)
    ensures IndexState(spans, i + 1, noDuplicates, Indexed(index, spans[i], i),
                       failures + FailureOf(index, spans[i], noDuplicates))
  {
    assert spans[..i + 1] == spans[..i] + [spans[i]];
    IndexesSnoc(spans[..i], spans[i], index);
    TakenIffIndexed(spans[..i], index, spans[i].Key());
  }

  method BuildIndex(spans: seq<Span>, noDuplicates: bool) returns (index: Index, failures: seq<IdFailure>)
    ensures Indexes(spans, index)
    ensures failures == IdFailures(spans, noDuplicates)
  {
    index, failures := map[], [];
    for i := 0 to |spans|
      invariant IndexState(spans, i, noDuplicates, index, failures)
    {
      IndexStep(spans, i, noDuplicates, index, failures);
      ghost var nextIndex, nextFailures :=
        Indexed(index, spans[i], i), failures + FailureOf(index, spans[i], noDuplicates);
      var s := spans[i];
      var trace := IsValidId(s.traceId, 32);
      var id := IsValidId(s.spanId, 16);
      var parent := s.parentSpanId == "";
      if !parent {
        parent := IsValidId(s.parentSpanId, 16);
      }
      if !trace || !id || !parent {
        failures := failures + [InvalidId];
      } else if s.Key() in index {
        if noDuplicates {
          failures := failures + [DuplicateSpanId];
        }
      } else {
        index := index[s.Key() := i];
      }
      assert index == nextIndex && failures == nextFailures;
    }
    assert spans[..|spans|] == spans;
  }

  /** A capture with its index. */
  datatype Capture = Capture(spans: seq<Span>, index: Index)
  {
    ghost predicate Valid()
    {
      Indexes(spans, index)
    }
  }

  function LinkTargets(index: Index, links: seq<Link>): seq<nat>
  {
    if links == [] then []
    else
      var key := KeyOf(links[0].traceId, links[0].spanId);
      (if key in index then [index[key]] else []) + LinkTargets(index, links[1..])
  }

  /** The resolved causal parents of span `i`: its parent in the same trace, if
      captured, and on request the targets of its links. */
  function Parents(c: Capture, i: nat, links: bool): seq<nat>
    requires i < |c.spans|
  {
    var s := c.spans[i];
    var key := KeyOf(s.traceId, s.parentSpanId);
    (if s.parentSpanId != "" && key in c.index then [c.index[key]] else [])
    + (if links then LinkTargets(c.index, s.links) else [])
  }

  lemma {:induction false} LinkTargetsInRange(c: Capture, links: seq<Link>)
    requires c.Valid()
    ensures forall k :: 0 <= k < |LinkTargets(c.index, links)| ==> LinkTargets(c.index, links)[k] < |c.spans|
  {
    if links != [] {
      LinkTargetsInRange(c, links[1..]);
    }
  }

  lemma {:induction false} ParentsInRange(c: Capture, i: nat, links: bool)
    requires c.Valid() && i < |c.spans|
    ensures forall k :: 0 <= k < |Parents(c, i, links)| ==> Parents(c, i, links)[k] < |c.spans|
    ensures forall p :: p in Parents(c, i, links) ==> p < |c.spans|
  {
    LinkTargetsInRange(c, c.spans[i].links);
  }

  /** `p` is the first valid span with these identifiers. */
  ghost predicate Resolves(spans: seq<Span>, traceId: string, spanId: string, p: nat)
  {
    && p < |spans| && Carries(spans[p], traceId, spanId)
    && forall j :: 0 <= j < p ==> !Carries(spans[j], traceId, spanId)
  }

  ghost predicate Carries(s: Span, traceId: string, spanId: string)
  {
    s.Valid() && s.traceId == traceId && s.spanId == spanId
  }

  lemma {:induction false} SlashAfterTrace(traceId: string, spanId: string)
    ensures KeyOf(traceId, spanId)[|traceId|] == '/'
    ensures KeyOf(traceId, spanId)[..|traceId|] == traceId
    ensures KeyOf(traceId, spanId)[|traceId| + 1..] == spanId
  {
  }

  /** A well-formed key is made of digits but for the slash. */
  lemma {:induction false} ValidKeyDigits(s: Span, i: nat)
    requires s.Valid() && i < |s.Key()| && i != |s.traceId|
    ensures HexDigit(s.Key()[i])
  {
    if i < |s.traceId| {
      assert s.Key()[i] == s.traceId[i];
    } else {
      assert s.Key()[i] == s.spanId[i - |s.traceId| - 1];
    }
  }

  /** It has 49 characters with the slash after the 32 digits of the trace; the identifier
      of a parent, if there is one, has 16 digits. */
  lemma {:induction false} ValidSpanShape(s: Span)
    requires s.Valid()
    ensures |s.Key()| == 49 && s.Key()[32] == '/'
    ensures forall i :: 0 <= i < 49 && i != 32 ==> s.Key()[i] in "0123456789abcdef"
    ensures s.parentSpanId != "" ==>
      |s.parentSpanId| == 16 && forall i :: 0 <= i < 16 ==> s.parentSpanId[i] in "0123456789abcdef"
  {
    SlashAfterTrace(s.traceId, s.spanId);
    forall i | 0 <= i < 49 && i != 32
      ensures s.Key()[i] in "0123456789abcdef"
    {
      ValidKeyDigits(s, i);
      DigitIsOneOf(s.Key()[i]);
    }
    if s.parentSpanId != "" {
      forall i | 0 <= i < 16
        ensures s.parentSpanId[i] in "0123456789abcdef"
      {
        DigitIsOneOf(s.parentSpanId[i]);
      }
    }
  }

  lemma DigitIsOneOf(c: char)
    ensures HexDigit(c) <==> c in "0123456789abcdef"
  {
    var digits := "0123456789abcdef";
    if '0' <= c <= '9' {
      assert digits[c as int - '0' as int] == c;
    } else if 'a' <= c <= 'f' {
      assert digits[10 + c as int - 'a' as int] == c;
    }
  }

  /** The key of a well-formed span determines both of its identifiers, although keys are
      concatenations and the identifiers looked up need not be well formed. */
  lemma {:induction false} KeyDetermines(s: Span, traceId: string, spanId: string)
    requires s.Valid()
    ensures s.Key() == KeyOf(traceId, spanId) <==> s.traceId == traceId && s.spanId == spanId
  {
    if s.Key() == KeyOf(traceId, spanId) {
      SlashAfterTrace(traceId, spanId);
      SlashAfterTrace(s.traceId, s.spanId);
      if |traceId| != |s.traceId| {
        ValidKeyDigits(s, |traceId|);
        assert false;
      }
    }
  }

  lemma {:induction false} IndexResolves(c: Capture, traceId: string, spanId: string, p: nat)
    requires c.Valid()
    ensures var key := KeyOf(traceId, spanId);
      Resolves(c.spans, traceId, spanId, p) <==> key in c.index && c.index[key] == p
  {
    var key := KeyOf(traceId, spanId);
    forall j | 0 <= j < |c.spans|
      ensures Carries(c.spans[j], traceId, spanId) <==> c.spans[j].Valid() && c.spans[j].Key() == key
    {
      if c.spans[j].Valid() {
        KeyDetermines(c.spans[j], traceId, spanId);
      }
    }
    if key in c.index && Resolves(c.spans, traceId, spanId, p) {
      var q := c.index[key];
      assert Carries(c.spans[q], traceId, spanId);
      assert !(q < p) && !(p < q);
    }
  }

  lemma {:induction false} LinkTargetsExact(c: Capture, links: seq<Link>, p: nat)
    requires c.Valid()
    ensures p in LinkTargets(c.index, links) <==>
      exists k :: 0 <= k < |links| && Resolves(c.spans, links[k].traceId, links[k].spanId, p)
  {
    if links != [] {
      LinkTargetsExact(c, links[1..], p);
      IndexResolves(c, links[0].traceId, links[0].spanId, p);
      var rest := links[1..];
      if k :| 0 <= k < |links| && Resolves(c.spans, links[k].traceId, links[k].spanId, p) {
        if k > 0 {
          assert rest[k - 1] == links[k];
        }
      }
      if k :| 0 <= k < |rest| && Resolves(c.spans, rest[k].traceId, rest[k].spanId, p) {
        assert links[k + 1] == rest[k];
      }
    }
  }

  /** The causal parents are exactly the captured span that the parent identifier names
      in the same trace, and on request those that the links name in any trace. */
  lemma ParentsExact(c: Capture, i: nat, links: bool, p: nat)
    requires c.Valid() && i < |c.spans|
    ensures var s := c.spans[i];
      p in Parents(c, i, links) <==>
        || (s.parentSpanId != "" && Resolves(c.spans, s.traceId, s.parentSpanId, p))
        || (links && exists k :: 0 <= k < |s.links| && Resolves(c.spans, s.links[k].traceId, s.links[k].spanId, p))
    ensures |Parents(c, i, false)| <= 1
  {
    var s := c.spans[i];
    IndexResolves(c, s.traceId, s.parentSpanId, p);
    LinkTargetsExact(c, s.links, p);
  }

  ghost predicate Edge(c: Capture, links: bool, i: nat, p: nat)
  {
    i < |c.spans| && p < |c.spans| && p in Parents(c, i, links)
  }

  /** A walk along causal edges, from a span towards its ancestors. */
  ghost predicate Walk(c: Capture, links: bool, w: seq<nat>)
  {
    && w != []
    && (forall k :: 0 <= k < |w| ==> w[k] < |c.spans|)
    && (forall k :: 0 <= k < |w| - 1 ==> Edge(c, links, w[k], w[k + 1]))
  }

  lemma WalkTail(c: Capture, links: bool, w: seq<nat>)
    requires Walk(c, links, w) && |w| > 1
    ensures Walk(c, links, w[1..])
  {
    assert forall k :: 0 <= k < |w| - 1 ==> w[1..][k] == w[k + 1];
  }

  lemma WalkCons(c: Capture, links: bool, i: nat, w: seq<nat>)
    requires Walk(c, links, w) && Edge(c, links, i, w[0])
    ensures Walk(c, links, [i] + w)
  {
    var v := [i] + w;
    assert forall k :: 1 <= k < |v| ==> v[k] == w[k - 1];
  }

  lemma {:induction false} WalkSnoc(c: Capture, links: bool, w: seq<nat>, p: nat)
    requires Walk(c, links, w) && Edge(c, links, w[|w| - 1], p)
    ensures Walk(c, links, w + [p])
  {
    var v := w + [p];
    assert forall k :: 0 <= k < |w| ==> v[k] == w[k];
  }

  /** The numbers below `n`. */
  function Below(n: nat): (r: set<nat>)
    ensures |r| == n
    ensures forall v: nat :: v in r <==> v < n
  {
    if n == 0 then {} else Below(n - 1) + {n - 1}
  }
}
