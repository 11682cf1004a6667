/** Which occurrence of a shared object redaction copies: the first that a depth-first walk meets. */
module RedactionOrder {
  import opened Redaction

  /** An occurrence of an object, in the order of the walk, and whether it was copied there. */
  datatype Visit = Visit(id: Id, copied: bool)

  /** The occurrences that a copy walks through, its own first and then those in its parts. */
  function Visits<P>(g: Graph<P>, v: Value<P>, t: Tree<P>): seq<Visit>
    decreases t
  {
    if v.Prim? then []
    else if t.Circular? then [Visit(v.id, false)]
    else if t.ArrayCopy? && v.id in g && g[v.id].ArrayNode? then
      [Visit(v.id, true)] + ItemVisits(g, g[v.id].items, t.items)
    else if t.ObjectCopy? && v.id in g && g[v.id].ObjectNode? then
      [Visit(v.id, true)] + FieldVisits(g, g[v.id].fields, t.written)
    else []
  }

  function ItemVisits<P>(g: Graph<P>, vs: seq<Value<P>>, ts: seq<Tree<P>>): seq<Visit>
    decreases ts
  {
    if vs == [] || ts == [] then []
    else Visits(g, vs[0], ts[0]) + ItemVisits(g, vs[1..], ts[1..])
  }

  /** A sensitive entry is not walked into. */
  function FieldVisits<P>(
    g: Graph<P>, fs: seq<Field<Value<P>>>, ts: seq<Field<Tree<P>>>): seq<Visit>
    decreases ts
  {
    if fs == [] || ts == [] then []
    else
      (if ts[0].value.Redacted? then [] else Visits(g, fs[0].value, ts[0].value))
      + FieldVisits(g, fs[1..], ts[1..])
  }

  function Visited(visits: seq<Visit>): set<Id> {
    set x | x in visits :: x.id
  }

  predicate Earlier(visits: seq<Visit>, i: nat)
    requires i < |visits|
  {
    exists j | 0 <= j < i :: visits[j].id == visits[i].id
  }

  /** An object is copied at its first occurrence, if it was not seen before, and nowhere else. */
  predicate FirstIsCopied(visits: seq<Visit>, seen: set<Id>) {
    forall i | 0 <= i < |visits| ::
      visits[i].copied <==> visits[i].id !in seen && !Earlier(visits, i)
  }

  lemma VisitedConcat(a: seq<Visit>, b: seq<Visit>)
    ensures Visited(a + b) == Visited(a) + Visited(b)
  {
    assert forall x :: x in a + b <==> x in a || x in b;
  }

  lemma EarlierInConcat(a: seq<Visit>, b: seq<Visit>, i: nat)
    requires i < |b|
    ensures Earlier(a + b, |a| + i) <==> b[i].id in Visited(a) || Earlier(b, i)
  {
    var all := a + b;
    if Earlier(all, |a| + i) {
      var j :| 0 <= j < |a| + i && all[j].id == all[|a| + i].id;
      if j < |a| {
        assert a[j] in a;
      } else {
        assert b[j - |a|].id == b[i].id;
      }
    }
    if b[i].id in Visited(a) {
      var x :| x in a && x.id == b[i].id;
      var j :| 0 <= j < |a| && a[j] == x;
      assert all[j].id == all[|a| + i].id;
    }
    if Earlier(b, i) {
      var j :| 0 <= j < i && b[j].id == b[i].id;
      assert all[|a| + j].id == all[|a| + i].id;
    }
  }

  lemma FirstOfConcat(a: seq<Visit>, b: seq<Visit>, seen: set<Id>)
    requires FirstIsCopied(a, seen) && FirstIsCopied(b, seen + Visited(a))
    ensures FirstIsCopied(a + b, seen)
    ensures Visited(a + b) == Visited(a) + Visited(b)
  {
    var all := a + b;
    VisitedConcat(a, b);
    forall i | 0 <= i < |all|
      ensures all[i].copied <==> all[i].id !in seen && !Earlier(all, i)
    {
      if i < |a| {
        assert Earlier(all, i) <==> Earlier(a, i) by {
          assert forall j | 0 <= j <= i :: all[j] == a[j];
        }
      } else {
        EarlierInConcat(a, b, i - |a|);
        assert all[i] == b[i - |a|];
      }
    }
  }

  lemma OneVisit(id: Id, copied: bool, seen: set<Id>)
    requires copied <==> id !in seen
    ensures FirstIsCopied([Visit(id, copied)], seen) && Visited([Visit(id, copied)]) == {id}
  {
    assert Visit(id, copied) in [Visit(id, copied)];
  }

  /**
   * Of every object, the first occurrence in depth-first order is copied, unless it was seen
   * before, and all later ones are markers; what is seen afterwards is what was met.
   */
  lemma {:induction false} FirstOccurrenceCopied<P>(g: Graph<P>, v: Value<P>, seen: set<Id>)
    requires Closed(g) && InGraph(g, v) && seen <= g.Keys
    ensures var (t, after) := Redact(g, v, seen);
            FirstIsCopied(Visits(g, v, t), seen) && after == seen + Visited(Visits(g, v, t))
    decreases g.Keys - seen, 0
  {
    if v.Ref? {
      var id := v.id;
      OneVisit(id, id !in seen, seen);
      if id !in seen {
        assert ClosedNode(g, g[id]);
        match g[id]
        case ArrayNode(items) =>
          ItemsFirstCopied(g, items, seen + {id});
          var copies := RedactItems(g, items, seen + {id}).0;
          FirstOfConcat([Visit(id, true)], ItemVisits(g, items, copies), seen);
        case ObjectNode(fields) =>
          FieldsFirstCopied(g, fields, seen + {id});
          var copies := RedactFields(g, fields, seen + {id}).0;
          FirstOfConcat([Visit(id, true)], FieldVisits(g, fields, copies), seen);
      }
    }
  }

  lemma {:induction false} ItemsFirstCopied<P>(g: Graph<P>, items: seq<Value<P>>, seen: set<Id>)
    requires Closed(g) && (forall v | v in items :: InGraph(g, v)) && seen <= g.Keys
    ensures var (ts, after) := RedactItems(g, items, seen);
            && FirstIsCopied(ItemVisits(g, items, ts), seen)
            && after == seen + Visited(ItemVisits(g, items, ts))
    decreases g.Keys - seen, |items|
  {
    if items != [] {
      var (first, middle) := Redact(g, items[0], seen);
      var (rest, after) := RedactItems(g, items[1..], middle);
      FirstOccurrenceCopied(g, items[0], seen);
      ItemsFirstCopied(g, items[1..], middle);
      assert ([first] + rest)[1..] == rest;
      FirstOfConcat(Visits(g, items[0], first), ItemVisits(g, items[1..], rest), seen);
    }
  }

  lemma {:induction false} FieldsFirstCopied<P>(
      g: Graph<P>, fields: seq<Field<Value<P>>>, seen: set<Id>)
    requires Closed(g) && (forall f | f in fields :: InGraph(g, f.value)) && seen <= g.Keys
    ensures var (ts, after) := RedactFields(g, fields, seen);
            && FirstIsCopied(FieldVisits(g, fields, ts), seen)
            && after == seen + Visited(FieldVisits(g, fields, ts))
    decreases g.Keys - seen, |fields|
  {
    if fields != [] {
      var Field(key, value) := fields[0];
      var (first, middle) := if Sensitive(key) then (Redacted, seen) else Redact(g, value, seen);
      var (rest, after) := RedactFields(g, fields[1..], middle);
      FieldsFirstCopied(g, fields[1..], middle);
      var head := if first.Redacted? then [] else Visits(g, value, first);
      if !Sensitive(key) {
        FirstOccurrenceCopied(g, value, seen);
      }
      assert ([Field(key, first)] + rest)[1..] == rest;
      FirstOfConcat(head, FieldVisits(g, fields[1..], rest), seen);
    }
  }
}
