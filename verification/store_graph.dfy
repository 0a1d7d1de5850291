// The membership graph of one attribute: paths, reachability, and why checking only the added
// targets against the graph before a write keeps the graph acyclic.
module StoreGraph {
  import opened StoreTypes

  // The zero entry of a missing id has no links.
  function TargetsAt(es: Entries, attribute: string, id: Id): seq<Id> {
    if id in es then TargetsOf(es[id].links, attribute) else []
  }

  ghost predicate HardEdge(es: Entries, attribute: string, s: Id, t: Id) {
    s in es && exists l :: l in es[s].links && l.attribute == attribute && !l.soft && t in l.targets
  }

  ghost predicate Path(es: Entries, attribute: string, p: seq<Id>) {
    |p| > 0 && forall i :: 0 < i < |p| ==> p[i] in TargetsAt(es, attribute, p[i - 1])
  }

  ghost predicate HardPath(es: Entries, attribute: string, p: seq<Id>) {
    |p| > 0 && forall i :: 0 < i < |p| ==> HardEdge(es, attribute, p[i - 1], p[i])
  }

  ghost predicate Connects(es: Entries, attribute: string, from: Id, goal: Id, p: seq<Id>) {
    Path(es, attribute, p) && p[0] == from && p[|p| - 1] == goal
  }

  // Following links of this attribute, of any softness, leads from one id to the other.
  ghost predicate Reaches(es: Entries, attribute: string, from: Id, goal: Id) {
    exists p :: Connects(es, attribute, from, goal, p)
  }

  ghost predicate Acyclic(es: Entries) {
    forall attribute, p :: HardPath(es, attribute, p) && |p| > 1 ==> p[0] != p[|p| - 1]
  }

  lemma ReachesSelf(es: Entries, attribute: string, id: Id)
    ensures Reaches(es, attribute, id, id)
  {
    assert Connects(es, attribute, id, id, [id]);
  }

  lemma ReachesStep(es: Entries, attribute: string, from: Id, mid: Id, next: Id)
    requires Reaches(es, attribute, from, mid)
    requires next in TargetsAt(es, attribute, mid)
    ensures Reaches(es, attribute, from, next)
  {
    var p :| Connects(es, attribute, from, mid, p);
    assert Connects(es, attribute, from, next, p + [next]);
  }

  // A set of ids closed under the links, without the goal, cuts the start off from the goal.
  lemma {:induction false} ClosedSetBlocks(es: Entries, attribute: string, closed: set<Id>, goal: Id, p: seq<Id>)
    requires forall id, t :: id in closed && t in TargetsAt(es, attribute, id) ==> t in closed
    requires goal !in closed
    requires Path(es, attribute, p) && p[0] in closed
    ensures p[|p| - 1] in closed && p[|p| - 1] != goal
  {
    if |p| > 1 {
      assert p[1] in TargetsAt(es, attribute, p[0]);
      assert Path(es, attribute, p[1..]) by {
        forall i | 0 < i < |p[1..]| ensures p[1..][i] in TargetsAt(es, attribute, p[1..][i - 1]) {
          assert p[i + 1] in TargetsAt(es, attribute, p[i]);
        }
      }
      ClosedSetBlocks(es, attribute, closed, goal, p[1..]);
    }
  }

  // es' keeps or drops every hard edge of es except those that leave source.
  ghost predicate OnlyAddsFrom(es: Entries, es': Entries, source: Id) {
    forall a, s, t :: s != source && HardEdge(es', a, s, t) ==> HardEdge(es, a, s, t)
  }

  lemma HardEdgeIsEdge(es: Entries, attribute: string, s: Id, t: Id)
    requires HardEdge(es, attribute, s, t) && DistinctNames(es[s].links)
    ensures t in TargetsAt(es, attribute, s)
  {
    TargetsOfIff(es[s].links, attribute, t);
  }

  // A path of the new graph that ends at source was already there before, up to its first visit of source.
  lemma {:induction false} PathToSource(es: Entries, es': Entries, a: string, source: Id, p: seq<Id>)
    returns (q: seq<Id>)
    requires OnlyAddsFrom(es, es', source)
    requires HardPath(es', a, p) && p[|p| - 1] == source
    ensures HardPath(es, a, q) && q[0] == p[0] && q[|q| - 1] == source
  {
    if p[0] == source {
      q := [source];
    } else {
      assert HardEdge(es', a, p[0], p[1]);
      assert HardPath(es', a, p[1..]) by { DropFirst(es', a, p); }
      var rest := PathToSource(es, es', a, source, p[1..]);
      q := [p[0]] + rest;
      forall i | 0 < i < |q| ensures HardEdge(es, a, q[i - 1], q[i]) {
        if i > 1 {
          assert HardEdge(es, a, rest[i - 2], rest[i - 1]);
        }
      }
    }
  }

  lemma DropFirst(es: Entries, a: string, p: seq<Id>)
    requires HardPath(es, a, p) && |p| > 1
    ensures HardPath(es, a, p[1..])
  {
    forall i | 0 < i < |p[1..]| ensures HardEdge(es, a, p[1..][i - 1], p[1..][i]) {
      assert HardEdge(es, a, p[i], p[i + 1]);
    }
  }

  lemma HardPathIsPath(es: Entries, a: string, p: seq<Id>)
    requires forall id :: id in es ==> DistinctNames(es[id].links)
    requires HardPath(es, a, p)
    ensures Path(es, a, p)
  {
    forall i | 0 < i < |p| ensures p[i] in TargetsAt(es, a, p[i - 1]) {
      assert HardEdge(es, a, p[i - 1], p[i]);
      HardEdgeIsEdge(es, a, p[i - 1], p[i]);
    }
  }

  // Either a closed path avoids source throughout, or one visit of source can be moved to its end.
  lemma {:induction false} AvoidsSource(es: Entries, es': Entries, a: string, source: Id, p: seq<Id>)
    requires OnlyAddsFrom(es, es', source)
    requires HardPath(es', a, p)
    requires forall i :: 0 <= i < |p| ==> p[i] != source
    ensures HardPath(es, a, p)
  {
    forall i | 0 < i < |p| ensures HardEdge(es, a, p[i - 1], p[i]) {
      assert HardEdge(es', a, p[i - 1], p[i]);
    }
  }

  lemma Rotate(es: Entries, a: string, p: seq<Id>, k: nat) returns (q: seq<Id>)
    requires HardPath(es, a, p) && |p| > 1 && p[0] == p[|p| - 1] && k < |p|
    ensures HardPath(es, a, q) && |q| > 1 && q[0] == p[k] && q[|q| - 1] == p[k]
  {
    q := p[k..] + p[1..k + 1];
    var n := |p| - k;
    forall i | 0 < i < |q| ensures HardEdge(es, a, q[i - 1], q[i]) {
      if i < n {
        assert HardEdge(es, a, p[k + i - 1], p[k + i]);
      } else if i == n {
        assert q[i - 1] == p[|p| - 1] == p[0] && q[i] == p[1];
        assert HardEdge(es, a, p[0], p[1]);
      } else {
        assert q[i] == p[1 + i - n] && q[i - 1] == p[i - n];
        assert HardEdge(es, a, p[i - n], p[i - n + 1]);
      }
    }
  }

  // A closed path of the new graph through source closes a path of the old graph.
  lemma ClosesOldCycle(es: Entries, es': Entries, source: Id, a: string, p: seq<Id>, k: nat) returns (cycle: seq<Id>)
    requires OnlyAddsFrom(es, es', source)
    requires forall id :: id in es ==> DistinctNames(es[id].links)
    requires forall a, t :: HardEdge(es', a, source, t) ==>
               HardEdge(es, a, source, t) || !Reaches(es, a, t, source)
    requires HardPath(es', a, p) && |p| > 1 && p[0] == p[|p| - 1] && k < |p| && p[k] == source
    ensures HardPath(es, a, cycle) && |cycle| > 1 && cycle[0] == cycle[|cycle| - 1]
  {
    var q := Rotate(es', a, p, k);
    assert HardEdge(es', a, q[0], q[1]);
    DropFirst(es', a, q);
    var back := PathToSource(es, es', a, source, q[1..]);
    HardPathIsPath(es, a, back);
    assert Connects(es, a, q[1], source, back);
    cycle := [source] + back;
    forall i | 0 < i < |cycle| ensures HardEdge(es, a, cycle[i - 1], cycle[i]) {
      if i > 1 {
        assert HardEdge(es, a, back[i - 2], back[i - 1]);
      }
    }
  }

  // The step of acyclicity: every edge out of source in the new graph was there before, or its target could
  // not reach source.
  lemma AcyclicStep(es: Entries, es': Entries, source: Id)
    requires Acyclic(es) && OnlyAddsFrom(es, es', source)
    requires forall id :: id in es ==> DistinctNames(es[id].links)
    requires forall a, t :: HardEdge(es', a, source, t) ==>
               HardEdge(es, a, source, t) || !Reaches(es, a, t, source)
    ensures Acyclic(es')
  {
    forall a, p | HardPath(es', a, p) && |p| > 1 ensures p[0] != p[|p| - 1] {
      if p[0] == p[|p| - 1] {
        if k :| 0 <= k < |p| && p[k] == source {
          var cycle := ClosesOldCycle(es, es', source, a, p, k);
        } else {
          AvoidsSource(es, es', a, source, p);
        }
      }
    }
  }

  // Removing edges keeps the graph acyclic.
  lemma AcyclicSubgraph(es: Entries, es': Entries)
    requires Acyclic(es)
    requires forall a, s, t :: HardEdge(es', a, s, t) ==> HardEdge(es, a, s, t)
    ensures Acyclic(es')
  {
    forall a, p | HardPath(es', a, p) && |p| > 1 ensures p[0] != p[|p| - 1] {
      forall i | 0 < i < |p| ensures HardEdge(es, a, p[i - 1], p[i]) {
        assert HardEdge(es', a, p[i - 1], p[i]);
      }
      assert HardPath(es, a, p);
    }
  }
}
