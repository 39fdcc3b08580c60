/** The steps that lie before a step, by the backward search of the binding dialog. */
module Ancestors {
  import opened Basics
  import opened Graphs
  import opened Schemas

  /** `a` leads to `b` over `k` control edges. */
  ghost predicate Leads(es: seq<SchemaEdge>, a: NodeId, b: NodeId, k: nat)
    decreases k
  {
    if k == 0 then a == b else exists c :: HasEdge(es, a, c) && Leads(es, c, b, k - 1)
  }

  ghost predicate Precedes(es: seq<SchemaEdge>, a: NodeId, b: NodeId) {
    exists k: nat :: k > 0 && Leads(es, a, b, k)
  }

  /** Whatever enters `x` is found or waits in the queue. */
  ghost predicate Known(es: seq<SchemaEdge>, seen: set<NodeId>, queue: seq<NodeId>, x: NodeId) {
    forall p :: HasEdge(es, p, x) ==> p in seen || p in queue
  }

  ghost predicate AllKnown(es: seq<SchemaEdge>, n: NodeId, seen: set<NodeId>, queue: seq<NodeId>) {
    Known(es, seen, queue, n) && forall x :: x in seen ==> Known(es, seen, queue, x)
  }

  ghost predicate AllPrecede(es: seq<SchemaEdge>, n: NodeId, seen: set<NodeId>, queue: seq<NodeId>) {
    (forall x :: x in seen ==> Precedes(es, x, n)) && (forall i :: 0 <= i < |queue| ==> Precedes(es, queue[i], n))
  }

  ghost function AllEnds(es: seq<SchemaEdge>): set<NodeId> {
    set i | 0 <= i < |es| :: es[i].source
  }

  /** All nodes from which control can come to `n`, and no others; on cycles the search ends as
      well. */
  method AncestorsOf(s: Schema, n: NodeId) returns (seen: set<NodeId>)
    ensures forall x :: x in seen <==> Precedes(ControlEdges(s.edges), x, n)
  {
    var es := ControlEdges(s.edges);
    var queue := AllSources(es, n);
    seen := {};
    StartKnown(es, n, queue);
    while queue != []
      invariant AllKnown(es, n, seen, queue) && AllPrecede(es, n, seen, queue) && seen <= AllEnds(es)
      decreases |AllEnds(es) - seen|, |queue|
    {
      var id := queue[|queue| - 1];
      var rest := queue[..|queue| - 1];
      LastApart(queue);
      if id in seen {
        DropKnown(es, n, seen, rest, id);
        queue := rest;
        continue;
      }
      var more := Unseen(AllSources(es, id), seen + {id});
      TakeKnown(es, n, seen, rest, id, more);
      OneLess(AllEnds(es), seen, id);
      seen := seen + {id};
      queue := rest + more;
    }
    forall x | Precedes(es, x, n) ensures x in seen {
      var k: nat :| k > 0 && Leads(es, x, n, k);
      Closed(es, n, seen, x, k);
    }
  }

  lemma LastApart(s: seq<NodeId>)
    requires s != []
    ensures s == s[..|s| - 1] + [s[|s| - 1]]
  {
  }

  lemma DropKnown(es: seq<SchemaEdge>, n: NodeId, seen: set<NodeId>, rest: seq<NodeId>, id: NodeId)
    requires AllKnown(es, n, seen, rest + [id]) && AllPrecede(es, n, seen, rest + [id]) && id in seen
    ensures AllKnown(es, n, seen, rest) && AllPrecede(es, n, seen, rest)
  {
    var queue := rest + [id];
    forall x, p | (x == n || x in seen) && HasEdge(es, p, x) ensures p in seen || p in rest {
      assert Known(es, seen, queue, x);
    }
    forall i | 0 <= i < |rest| ensures Precedes(es, rest[i], n) {
      assert queue[i] == rest[i];
    }
  }

  function Unseen(ps: seq<NodeId>, seen: set<NodeId>): (r: seq<NodeId>)
    ensures forall x :: x in r <==> x in ps && x !in seen
  {
    if ps == [] then []
    else
      assert ps == [ps[0]] + ps[1..];
      (if ps[0] in seen then [] else [ps[0]]) + Unseen(ps[1..], seen)
  }

  lemma OneMore(es: seq<SchemaEdge>, p: NodeId, x: NodeId, n: NodeId)
    requires HasEdge(es, p, x) && (x == n || Precedes(es, x, n))
    ensures Precedes(es, p, n)
  {
    var k: nat :| Leads(es, x, n, k) by {
      if x == n {
        assert Leads(es, x, n, 0);
      }
    }
    assert Leads(es, p, n, k + 1);
  }

  lemma StartKnown(es: seq<SchemaEdge>, n: NodeId, queue: seq<NodeId>)
    requires queue == AllSources(es, n)
    ensures AllKnown(es, n, {}, queue) && AllPrecede(es, n, {}, queue)
  {
    forall p ensures p in queue <==> HasEdge(es, p, n) {
      AllSourcesAreEdges(es, p, n);
    }
    forall i | 0 <= i < |queue| ensures Precedes(es, queue[i], n) {
      assert queue[i] in queue;
      OneMore(es, queue[i], n, n);
    }
  }

  lemma TakeKnown(es: seq<SchemaEdge>, n: NodeId, seen: set<NodeId>, rest: seq<NodeId>, id: NodeId, more: seq<NodeId>)
    requires AllKnown(es, n, seen, rest + [id]) && AllPrecede(es, n, seen, rest + [id])
    requires more == Unseen(AllSources(es, id), seen + {id})
    ensures AllKnown(es, n, seen + {id}, rest + more) && AllPrecede(es, n, seen + {id}, rest + more)
    ensures id in AllEnds(es)
  {
    var queue := rest + [id];
    assert queue[|rest|] == id;
    forall p ensures p in more <==> HasEdge(es, p, id) && p !in seen + {id} {
      AllSourcesAreEdges(es, p, id);
    }
    forall x, p | (x == n || x in seen) && HasEdge(es, p, x) ensures p in seen + {id} || p in rest + more {
      assert Known(es, seen, queue, x);
    }
    forall i | 0 <= i < |rest + more| ensures Precedes(es, (rest + more)[i], n) {
      if i < |rest| {
        assert queue[i] == rest[i];
      } else {
        assert more[i - |rest|] in more;
        OneMore(es, more[i - |rest|], id, n);
      }
    }
    var k: nat :| k > 0 && Leads(es, id, n, k);
    var c :| HasEdge(es, id, c) && Leads(es, c, n, k - 1);
    var e :| e in es && e.source == id && e.target == c;
    var i :| 0 <= i < |es| && es[i] == e;
  }

  lemma {:induction false} Closed(es: seq<SchemaEdge>, n: NodeId, seen: set<NodeId>, x: NodeId, k: nat)
    requires AllKnown(es, n, seen, []) && k > 0 && Leads(es, x, n, k)
    ensures x in seen
    decreases k
  {
    var c :| HasEdge(es, x, c) && Leads(es, c, n, k - 1);
    if k > 1 {
      Closed(es, n, seen, c, k - 1);
    }
    assert Known(es, seen, [], c);
  }
}
