/** Redaction of sensitive fields in a possibly cyclic object graph. */
module Redaction {

  type Id = nat

  datatype Field<+V> = Field(key: string, value: V)

  /** A JavaScript value: a primitive, or a reference to an object. */
  datatype Value<+P> = Prim(p: P) | Ref(id: Id)

  /** An object: an array, or its own enumerable entries in order. */
  datatype Node<+P> = ArrayNode(items: seq<Value<P>>) | ObjectNode(fields: seq<Field<Value<P>>>)

  type Graph<P> = map<Id, Node<P>>

  /**
   * What redaction returns. A copied array or object carries the identity of its source;
   * `written` lists the assignments made to the result object, in order.
   */
  datatype Tree<+P> =
    | Leaf(p: P)
    | Circular
    | Redacted
    | ArrayCopy(origin: Id, items: seq<Tree<P>>)
    | ObjectCopy(origin: Id, written: seq<Field<Tree<P>>>)

  const SENSITIVE_FIELD_NAMES: seq<string> := [
    "password", "token", "accessToken", "refreshToken", "authorization", "cardNumber", "cvv",
    "secret", "apiKey", "secretKey", "webhookSecret"]

  predicate Sensitive(key: string) {
    key in SENSITIVE_FIELD_NAMES
  }

  predicate InGraph<P>(g: Graph<P>, v: Value<P>) {
    v.Ref? ==> v.id in g
  }

  ghost predicate ClosedNode<P>(g: Graph<P>, n: Node<P>) {
    match n
    case ArrayNode(items) => forall v | v in items :: InGraph(g, v)
    case ObjectNode(fields) => forall f | f in fields :: InGraph(g, f.value)
  }

  /** Every reference leads to an object of the graph. */
  ghost predicate Closed<P>(g: Graph<P>) {
    forall id | id in g :: ClosedNode(g, g[id])
  }

  /** The copy of a value, and the objects seen once it is made. */
  function Redact<P>(g: Graph<P>, v: Value<P>, seen: set<Id>): (r: (Tree<P>, set<Id>))
    requires Closed(g) && InGraph(g, v) && seen <= g.Keys
    ensures seen <= r.1 <= g.Keys
    decreases g.Keys - seen, 0
  {
    match v
    case Prim(p) => (Leaf(p), seen)
    case Ref(id) =>
      if id in seen then (Circular, seen)
      else
        assert ClosedNode(g, g[id]);
        match g[id]
        case ArrayNode(items) =>
          var (copies, after) := RedactItems(g, items, seen + {id});
          (ArrayCopy(id, copies), after)
        case ObjectNode(fields) =>
          var (copies, after) := RedactFields(g, fields, seen + {id});
          (ObjectCopy(id, copies), after)
  }

  function RedactItems<P>(g: Graph<P>, items: seq<Value<P>>, seen: set<Id>)
    : (r: (seq<Tree<P>>, set<Id>))
    requires Closed(g) && (forall v | v in items :: InGraph(g, v)) && seen <= g.Keys
    ensures seen <= r.1 <= g.Keys
    ensures |r.0| == |items|
    decreases g.Keys - seen, |items|
  {
    if items == [] then ([], seen)
    else
      var (first, middle) := Redact(g, items[0], seen);
      var (rest, after) := RedactItems(g, items[1..], middle);
      ([first] + rest, after)
  }

  function RedactFields<P>(g: Graph<P>, fields: seq<Field<Value<P>>>, seen: set<Id>)
    : (r: (seq<Field<Tree<P>>>, set<Id>))
    requires Closed(g) && (forall f | f in fields :: InGraph(g, f.value)) && seen <= g.Keys
    ensures seen <= r.1 <= g.Keys
    ensures |r.0| == |fields|
    decreases g.Keys - seen, |fields|
  {
    if fields == [] then ([], seen)
    else
      var Field(key, value) := fields[0];
      var (first, middle) := if Sensitive(key) then (Redacted, seen) else Redact(g, value, seen);
      var (rest, after) := RedactFields(g, fields[1..], middle);
      ([Field(key, first)] + rest, after)
  }

  // ---------------------------------------------------------------- the recursive procedure

  class WeakSet {
    var members: set<Id>

    constructor ()
      ensures members == {}
    {
      members := {};
    }
  }

  /** The procedure: it marks objects in the shared set and fills its result in a loop. */
  method RedactValue<P>(g: Graph<P>, v: Value<P>, seen: WeakSet) returns (t: Tree<P>)
    requires Closed(g) && InGraph(g, v) && seen.members <= g.Keys
    modifies seen
    ensures seen.members <= g.Keys
    ensures (t, seen.members) == Redact(g, v, old(seen.members))
    decreases g.Keys - seen.members
  {
    if v.Prim? {
      return Leaf(v.p);
    }
    if v.id in seen.members {
      return Circular;
    }
    seen.members := seen.members + {v.id};
    assert ClosedNode(g, g[v.id]);
    match g[v.id]
    case ArrayNode(items) =>
      var copies := [];
      var i := 0;
      ghost var start := seen.members;
      assert items[0..] == items;
      PrependNothing(RedactItems(g, items, start));
      while i < |items|
        invariant 0 <= i <= |items|
        invariant start <= seen.members <= g.Keys
        invariant RedactItems(g, items, start)
               == Prepend(copies, RedactItems(g, items[i..], seen.members))
      {
        ItemStep(g, items, i, seen.members, copies);
        var copy := RedactValue(g, items[i], seen);
        copies := copies + [copy];
        i := i + 1;
      }
      assert items[i..] == [] && copies + [] == copies;
      t := ArrayCopy(v.id, copies);
    case ObjectNode(fields) =>
      var copies := [];
      var i := 0;
      ghost var start := seen.members;
      assert fields[0..] == fields;
      PrependNothing(RedactFields(g, fields, start));
      while i < |fields|
        invariant 0 <= i <= |fields|
        invariant start <= seen.members <= g.Keys
        invariant RedactFields(g, fields, start)
               == Prepend(copies, RedactFields(g, fields[i..], seen.members))
      {
        FieldStep(g, fields, i, seen.members, copies);
        var Field(key, value) := fields[i];
        var copy := Redacted;
        if !Sensitive(key) {
          copy := RedactValue(g, value, seen);
        }
        copies := copies + [Field(key, copy)];
        i := i + 1;
      }
      assert fields[i..] == [] && copies + [] == copies;
      t := ObjectCopy(v.id, copies);
  }

  ghost function Prepend<T>(front: seq<T>, r: (seq<T>, set<Id>)): (seq<T>, set<Id>) {
    (front + r.0, r.1)
  }

  lemma PrependNothing<T>(r: (seq<T>, set<Id>))
    ensures Prepend([], r) == r
  {
    assert [] + r.0 == r.0;
  }

  lemma ItemStep<P>(g: Graph<P>, items: seq<Value<P>>, i: nat, seen: set<Id>, front: seq<Tree<P>>)
    requires Closed(g) && (forall v | v in items :: InGraph(g, v)) && seen <= g.Keys
    requires i < |items|
    ensures var (copy, after) := Redact(g, items[i], seen);
            Prepend(front, RedactItems(g, items[i..], seen))
            == Prepend(front + [copy], RedactItems(g, items[i + 1..], after))
  {
    assert items[i..][0] == items[i] && items[i..][1..] == items[i + 1..];
    var (copy, after) := Redact(g, items[i], seen);
    var rest := RedactItems(g, items[i + 1..], after);
    assert RedactItems(g, items[i..], seen) == ([copy] + rest.0, rest.1);
    assert front + ([copy] + rest.0) == (front + [copy]) + rest.0;
  }

  lemma FieldStep<P>(
      g: Graph<P>, fields: seq<Field<Value<P>>>, i: nat, seen: set<Id>, front: seq<Field<Tree<P>>>)
    requires Closed(g) && (forall f | f in fields :: InGraph(g, f.value)) && seen <= g.Keys
    requires i < |fields|
    ensures var Field(key, value) := fields[i];
            var (copy, after) := if Sensitive(key) then (Redacted, seen) else Redact(g, value, seen);
            Prepend(front, RedactFields(g, fields[i..], seen))
            == Prepend(front + [Field(key, copy)], RedactFields(g, fields[i + 1..], after))
  {
    assert fields[i..][0] == fields[i] && fields[i..][1..] == fields[i + 1..];
    var Field(key, value) := fields[i];
    var (copy, after) := if Sensitive(key) then (Redacted, seen) else Redact(g, value, seen);
    var rest := RedactFields(g, fields[i + 1..], after);
    assert RedactFields(g, fields[i..], seen) == ([Field(key, copy)] + rest.0, rest.1);
    assert front + ([Field(key, copy)] + rest.0) == (front + [Field(key, copy)]) + rest.0;
  }

  // ---------------------------------------------------------------- what a copy is

  /**
   * `t` copies `v`: a primitive is kept, an object is copied field by field with the value
   * of every sensitive key replaced, or marked as met before.
   */
  ghost predicate Copies<P>(g: Graph<P>, v: Value<P>, t: Tree<P>)
    decreases t
  {
    match v
    case Prim(p) => t == Leaf(p)
    case Ref(id) =>
      t == Circular
      || (id in g && g[id].ArrayNode? && t.ArrayCopy? && t.origin == id
          && |t.items| == |g[id].items|
          && forall i | 0 <= i < |t.items| :: Copies(g, g[id].items[i], t.items[i]))
      || (id in g && g[id].ObjectNode? && t.ObjectCopy? && t.origin == id
          && |t.written| == |g[id].fields|
          && forall i | 0 <= i < |t.written| ::
               var source, target := g[id].fields[i], t.written[i];
               && target.key == source.key
               && if source.key in SENSITIVE_FIELD_NAMES then target.value == Redacted
                  else Copies(g, source.value, target.value))
  }

  lemma {:induction false} RedactCopies<P>(g: Graph<P>, v: Value<P>, seen: set<Id>)
    requires Closed(g) && InGraph(g, v) && seen <= g.Keys
    ensures Copies(g, v, Redact(g, v, seen).0)
    decreases g.Keys - seen, 0
  {
    if v.Ref? && v.id !in seen {
      assert ClosedNode(g, g[v.id]);
      match g[v.id]
      case ArrayNode(items) => ItemsCopied(g, items, seen + {v.id});
      case ObjectNode(fields) => FieldsCopied(g, fields, seen + {v.id});
    }
  }

  lemma {:induction false} ItemsCopied<P>(g: Graph<P>, items: seq<Value<P>>, seen: set<Id>)
    requires Closed(g) && (forall v | v in items :: InGraph(g, v)) && seen <= g.Keys
    ensures var copies := RedactItems(g, items, seen).0;
            forall i | 0 <= i < |items| :: Copies(g, items[i], copies[i])
    decreases g.Keys - seen, |items|
  {
    if items != [] {
      RedactCopies(g, items[0], seen);
      ItemsCopied(g, items[1..], Redact(g, items[0], seen).1);
    }
  }

  lemma {:induction false} FieldsCopied<P>(g: Graph<P>, fields: seq<Field<Value<P>>>, seen: set<Id>)
    requires Closed(g) && (forall f | f in fields :: InGraph(g, f.value)) && seen <= g.Keys
    ensures var copies := RedactFields(g, fields, seen).0;
            forall i | 0 <= i < |fields| :: FieldCopied(g, fields[i], copies[i])
    decreases g.Keys - seen, |fields|
  {
    if fields != [] {
      var Field(key, value) := fields[0];
      assert fields[0] in fields && forall f | f in fields[1..] :: f in fields;
      if Sensitive(key) {
        FieldsCopied(g, fields[1..], seen);
      } else {
        RedactCopies(g, value, seen);
        FieldsCopied(g, fields[1..], Redact(g, value, seen).1);
      }
    }
  }

  ghost predicate FieldCopied<P>(g: Graph<P>, source: Field<Value<P>>, target: Field<Tree<P>>) {
    && target.key == source.key
    && if Sensitive(source.key) then target.value == Redacted
       else Copies(g, source.value, target.value)
  }

  // ---------------------------------------------------------------- each object is copied once

  /** The sources of all copies in a tree, with multiplicity. */
  function Origins<P>(t: Tree<P>): multiset<Id>
    decreases t, 0
  {
    match t
    case ArrayCopy(origin, items) => multiset{origin} + ItemOrigins(items)
    case ObjectCopy(origin, written) => multiset{origin} + FieldOrigins(written)
    case _ => multiset{}
  }

  function ItemOrigins<P>(ts: seq<Tree<P>>): multiset<Id> {
    if ts == [] then multiset{} else Origins(ts[0]) + ItemOrigins(ts[1..])
  }

  function FieldOrigins<P>(fs: seq<Field<Tree<P>>>): multiset<Id> {
    if fs == [] then multiset{} else Origins(fs[0].value) + FieldOrigins(fs[1..])
  }

  /** The copies made are those of the newly seen objects, one each. */
  lemma {:induction false} CopiedOnce<P>(g: Graph<P>, v: Value<P>, seen: set<Id>)
    requires Closed(g) && InGraph(g, v) && seen <= g.Keys
    ensures var (t, after) := Redact(g, v, seen);
            Origins(t) == multiset(after - seen)
    decreases g.Keys - seen, 0
  {
    var after := Redact(g, v, seen).1;
    if v.Ref? && v.id !in seen {
      assert ClosedNode(g, g[v.id]);
      match g[v.id]
      case ArrayNode(items) => ItemsCopiedOnce(g, items, seen + {v.id});
      case ObjectNode(fields) => FieldsCopiedOnce(g, fields, seen + {v.id});
      Telescope(seen, seen + {v.id}, after);
      assert seen + {v.id} - seen == {v.id};
    } else {
      assert after - seen == {};
    }
  }

  /** Newly seen in two stages. */
  lemma Telescope(a: set<Id>, b: set<Id>, c: set<Id>)
    requires a <= b <= c
    ensures multiset(b - a) + multiset(c - b) == multiset(c - a)
  {
  }

  lemma {:induction false} ItemsCopiedOnce<P>(g: Graph<P>, items: seq<Value<P>>, seen: set<Id>)
    requires Closed(g) && (forall v | v in items :: InGraph(g, v)) && seen <= g.Keys
    ensures var (ts, after) := RedactItems(g, items, seen);
            ItemOrigins(ts) == multiset(after - seen)
    decreases g.Keys - seen, |items|
  {
    var (ts, after) := RedactItems(g, items, seen);
    if items == [] {
      assert after - seen == {};
    } else {
      var middle := Redact(g, items[0], seen).1;
      CopiedOnce(g, items[0], seen);
      ItemsCopiedOnce(g, items[1..], middle);
      assert ts[1..] == RedactItems(g, items[1..], middle).0;
      Telescope(seen, middle, after);
    }
  }

  lemma {:induction false} FieldsCopiedOnce<P>(g: Graph<P>, fields: seq<Field<Value<P>>>, seen: set<Id>)
    requires Closed(g) && (forall f | f in fields :: InGraph(g, f.value)) && seen <= g.Keys
    ensures var (fs, after) := RedactFields(g, fields, seen);
            FieldOrigins(fs) == multiset(after - seen)
    decreases g.Keys - seen, |fields|
  {
    var (fs, after) := RedactFields(g, fields, seen);
    if fields == [] {
      assert after - seen == {};
    } else if Sensitive(fields[0].key) {
      FieldsCopiedOnce(g, fields[1..], seen);
      assert fs[1..] == RedactFields(g, fields[1..], seen).0;
    } else {
      var middle := Redact(g, fields[0].value, seen).1;
      CopiedOnce(g, fields[0].value, seen);
      FieldsCopiedOnce(g, fields[1..], middle);
      assert fs[1..] == RedactFields(g, fields[1..], middle).0;
      Telescope(seen, middle, after);
    }
  }

  // ---------------------------------------------------------------- which objects are copied

  /** An edge that redaction follows: an array item, or the value of a key that is not sensitive. */
  ghost predicate Edge<P>(g: Graph<P>, from: Id, to: Id) {
    from in g
    && match g[from]
       case ArrayNode(items) => Ref(to) in items
       case ObjectNode(fields) => exists f | f in fields :: !Sensitive(f.key) && f.value == Ref(to)
  }

  /** A path along such edges. */
  ghost predicate Path<P>(g: Graph<P>, path: seq<Id>) {
    |path| > 0 && forall i | 0 <= i < |path| - 1 :: Edge(g, path[i], path[i + 1])
  }

  ghost predicate Reaches<P>(g: Graph<P>, from: Id, to: Id) {
    exists path :: Path(g, path) && path[0] == from && path[|path| - 1] == to
  }

  lemma ReachesItself<P>(g: Graph<P>, a: Id)
    ensures Reaches(g, a, a)
  {
    assert Path(g, [a]);
  }

  lemma ReachesThrough<P>(g: Graph<P>, a: Id, b: Id, c: Id)
    requires Edge(g, a, b) && Reaches(g, b, c)
    ensures Reaches(g, a, c)
  {
    var path :| Path(g, path) && path[0] == b && path[|path| - 1] == c;
    var longer := [a] + path;
    forall i | 0 <= i < |longer| - 1 ensures Edge(g, longer[i], longer[i + 1]) {
      if i > 0 {
        assert Edge(g, path[i - 1], path[i]);
      }
    }
    assert Path(g, longer);
  }

  /** The value starts a path to `n`. */
  ghost predicate Leads<P>(g: Graph<P>, v: Value<P>, n: Id) {
    v.Ref? && Reaches(g, v.id, n)
  }

  /** Every newly seen object is reached from the value. */
  lemma {:induction false} SeenIsReached<P>(g: Graph<P>, v: Value<P>, seen: set<Id>, n: Id)
    requires Closed(g) && InGraph(g, v) && seen <= g.Keys
    requires n in Redact(g, v, seen).1 - seen
    ensures Leads(g, v, n)
    decreases g.Keys - seen, 0
  {
    assert v.Ref? && v.id !in seen;
    if n == v.id {
      ReachesItself(g, n);
    } else {
      assert ClosedNode(g, g[v.id]);
      match g[v.id]
      case ArrayNode(items) =>
        var w := SeenFromItems(g, items, seen + {v.id}, n);
        ReachesThrough(g, v.id, w.id, n);
      case ObjectNode(fields) =>
        var f := SeenFromFields(g, fields, seen + {v.id}, n);
        ReachesThrough(g, v.id, f.value.id, n);
    }
  }

  lemma {:induction false} SeenFromItems<P>(g: Graph<P>, items: seq<Value<P>>, seen: set<Id>, n: Id)
    returns (w: Value<P>)
    requires Closed(g) && (forall v | v in items :: InGraph(g, v)) && seen <= g.Keys
    requires n in RedactItems(g, items, seen).1 - seen
    ensures w in items && Leads(g, w, n)
    decreases g.Keys - seen, |items|
  {
    var middle := Redact(g, items[0], seen).1;
    if n in middle {
      SeenIsReached(g, items[0], seen, n);
      w := items[0];
    } else {
      w := SeenFromItems(g, items[1..], middle, n);
    }
  }

  lemma {:induction false} SeenFromFields<P>(
      g: Graph<P>, fields: seq<Field<Value<P>>>, seen: set<Id>, n: Id)
    returns (f: Field<Value<P>>)
    requires Closed(g) && (forall f | f in fields :: InGraph(g, f.value)) && seen <= g.Keys
    requires n in RedactFields(g, fields, seen).1 - seen
    ensures f in fields && !Sensitive(f.key) && Leads(g, f.value, n)
    decreases g.Keys - seen, |fields|
  {
    if Sensitive(fields[0].key) {
      f := SeenFromFields(g, fields[1..], seen, n);
    } else {
      var middle := Redact(g, fields[0].value, seen).1;
      if n in middle {
        SeenIsReached(g, fields[0].value, seen, n);
        f := fields[0];
      } else {
        f := SeenFromFields(g, fields[1..], middle, n);
      }
    }
  }

  ghost predicate Contains<P>(seen: set<Id>, v: Value<P>) {
    v.Ref? ==> v.id in seen
  }

  /** The edges out of an object lead into a set. */
  ghost predicate EdgesInto<P>(g: Graph<P>, n: Id, seen: set<Id>) {
    forall m | Edge(g, n, m) :: m in seen
  }

  /** What was seen in between, and led into what was seen then, still does. */
  lemma StillInto<P>(g: Graph<P>, seen: set<Id>, middle: set<Id>, after: set<Id>)
    requires seen <= middle <= after
    requires forall n | n in middle - seen :: EdgesInto(g, n, middle)
    requires forall n | n in after - middle :: EdgesInto(g, n, after)
    ensures forall n | n in after - seen :: EdgesInto(g, n, after)
  {
    forall n | n in after - seen ensures EdgesInto(g, n, after) {
      if n in middle {
        assert EdgesInto(g, n, middle);
      }
    }
  }

  /** The edges of every newly seen object lead to seen objects. */
  lemma {:induction false} SeenIsClosed<P>(g: Graph<P>, v: Value<P>, seen: set<Id>)
    requires Closed(g) && InGraph(g, v) && seen <= g.Keys
    ensures var after := Redact(g, v, seen).1;
            Contains(after, v) && forall n | n in after - seen :: EdgesInto(g, n, after)
    decreases g.Keys - seen, 0
  {
    if v.Ref? && v.id !in seen {
      var after := Redact(g, v, seen).1;
      assert ClosedNode(g, g[v.id]);
      match g[v.id] {
        case ArrayNode(items) =>
          ItemsSeenClosed(g, items, seen + {v.id});
          assert after == RedactItems(g, items, seen + {v.id}).1;
          forall m | Edge(g, v.id, m) ensures m in after {
            assert Contains(after, Value<P>.Ref(m));
          }
        case ObjectNode(fields) =>
          FieldsSeenClosed(g, fields, seen + {v.id});
          assert after == RedactFields(g, fields, seen + {v.id}).1;
      }
      assert EdgesInto(g, v.id, after);
    }
  }

  lemma {:induction false} ItemsSeenClosed<P>(g: Graph<P>, items: seq<Value<P>>, seen: set<Id>)
    requires Closed(g) && (forall v | v in items :: InGraph(g, v)) && seen <= g.Keys
    ensures var after := RedactItems(g, items, seen).1;
            && (forall v | v in items :: Contains(after, v))
            && forall n | n in after - seen :: EdgesInto(g, n, after)
    decreases g.Keys - seen, |items|
  {
    if items != [] {
      assert items[0] in items && forall v | v in items[1..] :: v in items;
      var middle := Redact(g, items[0], seen).1;
      var after := RedactItems(g, items[1..], middle).1;
      SeenIsClosed(g, items[0], seen);
      ItemsSeenClosed(g, items[1..], middle);
      StillInto(g, seen, middle, after);
      assert forall v | v in items :: v == items[0] || v in items[1..];
    }
  }

  lemma {:induction false} FieldsSeenClosed<P>(g: Graph<P>, fields: seq<Field<Value<P>>>, seen: set<Id>)
    requires Closed(g) && (forall f | f in fields :: InGraph(g, f.value)) && seen <= g.Keys
    ensures var after := RedactFields(g, fields, seen).1;
            && (forall f | f in fields && !Sensitive(f.key) :: Contains(after, f.value))
            && forall n | n in after - seen :: EdgesInto(g, n, after)
    decreases g.Keys - seen, |fields|
  {
    if fields != [] {
      assert fields[0] in fields && forall f | f in fields[1..] :: f in fields;
      assert forall f | f in fields :: f == fields[0] || f in fields[1..];
      if Sensitive(fields[0].key) {
        FieldsSeenClosed(g, fields[1..], seen);
      } else {
        var middle := Redact(g, fields[0].value, seen).1;
        var after := RedactFields(g, fields[1..], middle).1;
        SeenIsClosed(g, fields[0].value, seen);
        FieldsSeenClosed(g, fields[1..], middle);
        StillInto(g, seen, middle, after);
      }
    }
  }

  /** A set closed under edges holds everything its members reach. */
  lemma {:induction false} ClosedUnderPaths<P>(g: Graph<P>, seen: set<Id>, path: seq<Id>)
    requires forall n | n in seen :: EdgesInto(g, n, seen)
    requires Path(g, path) && path[0] in seen
    ensures path[|path| - 1] in seen
  {
    if |path| > 1 {
      assert Edge(g, path[0], path[1]);
      forall i | 0 <= i < |path[1..]| - 1 ensures Edge(g, path[1..][i], path[1..][i + 1]) {
        assert Edge(g, path[i + 1], path[i + 2]);
      }
      ClosedUnderPaths(g, seen, path[1..]);
    }
  }

  // ---------------------------------------------------------------- the whole call

  /**
   * On any graph, cyclic or shared: the result copies the value with every sensitive key's
   * value replaced; and the objects copied, once each, are exactly those that the value
   * reaches without going through a sensitive key.
   */
  lemma RedactExact<P>(g: Graph<P>, v: Value<P>)
    requires Closed(g) && InGraph(g, v)
    ensures var (t, seen) := Redact(g, v, {});
            && Copies(g, v, t)
            && Origins(t) == multiset(seen)
            && forall n :: n in seen <==> Leads(g, v, n)
  {
    var (t, seen) := Redact(g, v, {});
    RedactCopies(g, v, {});
    CopiedOnce(g, v, {});
    assert seen - {} == seen;
    SeenIsClosed(g, v, {});
    forall n ensures n in seen <==> Leads(g, v, n) {
      if n in seen {
        SeenIsReached(g, v, {}, n);
      }
      if Leads(g, v, n) {
        var path :| Path(g, path) && path[0] == v.id && path[|path| - 1] == n;
        ClosedUnderPaths(g, seen, path);
      }
    }
  }

  // ---------------------------------------------------------------- at every depth

  /** `u` occurs in `t`. */
  ghost predicate Within<P>(u: Tree<P>, t: Tree<P>)
    decreases t
  {
    u == t
    || (t.ArrayCopy? && exists i | 0 <= i < |t.items| :: Within(u, t.items[i]))
    || (t.ObjectCopy? && exists i | 0 <= i < |t.written| :: Within(u, t.written[i].value))
  }

  ghost predicate IsCopy<P>(t: Tree<P>) {
    t.ArrayCopy? || t.ObjectCopy?
  }

  /** Every copy inside a tree copies its source, so sensitive keys are replaced at every depth. */
  lemma {:induction false} CopiesAtEveryDepth<P>(g: Graph<P>, v: Value<P>, t: Tree<P>, u: Tree<P>)
    requires Copies(g, v, t) && Within(u, t) && IsCopy(u)
    ensures Copies(g, Ref(u.origin), u)
    decreases t
  {
    if u != t {
      if t.ArrayCopy? {
        var i :| 0 <= i < |t.items| && Within(u, t.items[i]);
        CopiesAtEveryDepth(g, g[t.origin].items[i], t.items[i], u);
      } else {
        var i :| 0 <= i < |t.written| && Within(u, t.written[i].value);
        var source := g[t.origin].fields[i];
        if !Sensitive(source.key) {
          CopiesAtEveryDepth(g, source.value, t.written[i].value, u);
        }
      }
    }
  }

  /** Each counted source has its copy inside the tree. */
  lemma {:induction false} OriginIsWithin<P>(t: Tree<P>, n: Id) returns (u: Tree<P>)
    requires n in Origins(t)
    ensures Within(u, t) && IsCopy(u) && u.origin == n
    decreases t, 0
  {
    if t.origin == n {
      u := t;
    } else if t.ArrayCopy? {
      var i := ItemWithOrigin(t.items, n);
      u := OriginIsWithin(t.items[i], n);
    } else {
      var i := FieldWithOrigin(t.written, n);
      u := OriginIsWithin(t.written[i].value, n);
    }
  }

  lemma {:induction false} ItemWithOrigin<P>(ts: seq<Tree<P>>, n: Id) returns (i: nat)
    requires n in ItemOrigins(ts)
    ensures i < |ts| && n in Origins(ts[i])
  {
    if n in Origins(ts[0]) {
      i := 0;
    } else {
      var j := ItemWithOrigin(ts[1..], n);
      i := j + 1;
    }
  }

  lemma {:induction false} FieldWithOrigin<P>(fs: seq<Field<Tree<P>>>, n: Id) returns (i: nat)
    requires n in FieldOrigins(fs)
    ensures i < |fs| && n in Origins(fs[i].value)
  {
    if n in Origins(fs[0].value) {
      i := 0;
    } else {
      var j := FieldWithOrigin(fs[1..], n);
      i := j + 1;
    }
  }

  // ---------------------------------------------------------------- own properties

  /**
   * The result as its own properties give it. Assigning to `__proto__` adds no property: an
   * object becomes the prototype, and anything else is ignored.
   */
  function Own<P>(t: Tree<P>): Tree<P>
    decreases t, 0
  {
    match t
    case ArrayCopy(origin, items) => ArrayCopy(origin, OwnItems(items))
    case ObjectCopy(origin, written) => ObjectCopy(origin, OwnFields(written))
    case _ => t
  }

  function OwnItems<P>(ts: seq<Tree<P>>): (r: seq<Tree<P>>)
    ensures |r| == |ts|
  {
    if ts == [] then [] else [Own(ts[0])] + OwnItems(ts[1..])
  }

  function OwnFields<P>(fs: seq<Field<Tree<P>>>): seq<Field<Tree<P>>> {
    if fs == [] then []
    else
      (if fs[0].key == "__proto__" then [] else [Field(fs[0].key, Own(fs[0].value))])
      + OwnFields(fs[1..])
  }

  lemma {:induction false} OwnItemAt<P>(ts: seq<Tree<P>>, i: nat)
    requires i < |ts|
    ensures OwnItems(ts)[i] == Own(ts[i])
  {
    if i > 0 {
      OwnItemAt(ts[1..], i - 1);
    }
  }

  /** A field of the result comes from an assignment to another key than `__proto__`. */
  lemma {:induction false} OwnFieldFrom<P>(fs: seq<Field<Tree<P>>>, j: nat) returns (i: nat)
    requires j < |OwnFields(fs)|
    ensures i < |fs| && fs[i].key != "__proto__"
    ensures OwnFields(fs)[j] == Field(fs[i].key, Own(fs[i].value))
  {
    if fs[0].key == "__proto__" {
      var k := OwnFieldFrom(fs[1..], j);
      i := k + 1;
    } else if j == 0 {
      i := 0;
    } else {
      var k := OwnFieldFrom(fs[1..], j - 1);
      i := k + 1;
    }
  }

  /** Every assignment to another key is a field of the result. */
  lemma {:induction false} OwnFieldOf<P>(fs: seq<Field<Tree<P>>>, i: nat) returns (j: nat)
    requires i < |fs| && fs[i].key != "__proto__"
    ensures j < |OwnFields(fs)| && OwnFields(fs)[j] == Field(fs[i].key, Own(fs[i].value))
  {
    if i == 0 {
      j := 0;
    } else {
      var k := OwnFieldOf(fs[1..], i - 1);
      j := if fs[0].key == "__proto__" then k else k + 1;
    }
  }

  /** No copy has been put in the place of a prototype. */
  ghost predicate NoPrototypes<P>(t: Tree<P>)
    decreases t
  {
    match t
    case ArrayCopy(_, items) => forall i | 0 <= i < |items| :: NoPrototypes(items[i])
    case ObjectCopy(_, written) =>
      forall i | 0 <= i < |written| ::
        && (written[i].key == "__proto__" ==> !IsCopy(written[i].value))
        && NoPrototypes(written[i].value)
    case _ => true
  }

  /** Then every copy made is part of the result. */
  lemma {:induction false} OwnWithin<P>(u: Tree<P>, t: Tree<P>)
    requires Within(u, t) && IsCopy(u) && NoPrototypes(t)
    ensures Within(Own(u), Own(t))
    decreases t
  {
    if u != t {
      if t.ArrayCopy? {
        var i :| 0 <= i < |t.items| && Within(u, t.items[i]);
        OwnWithin(u, t.items[i]);
        OwnItemAt(t.items, i);
        WithinItem(Own(u), Own(t), i);
      } else {
        var i :| 0 <= i < |t.written| && Within(u, t.written[i].value);
        OwnWithin(u, t.written[i].value);
        var j := OwnFieldOf(t.written, i);
        WithinField(Own(u), Own(t), j);
      }
    }
  }

  lemma WithinItem<P>(u: Tree<P>, t: Tree<P>, i: nat)
    requires t.ArrayCopy? && i < |t.items| && Within(u, t.items[i])
    ensures Within(u, t)
  {
  }

  lemma WithinField<P>(u: Tree<P>, t: Tree<P>, i: nat)
    requires t.ObjectCopy? && i < |t.written| && Within(u, t.written[i].value)
    ensures Within(u, t)
  {
  }

  /** Every part of the result is the own form of a part that was made. */
  lemma {:induction false} OwnFrom<P>(w: Tree<P>, t: Tree<P>) returns (u: Tree<P>)
    requires Within(w, Own(t)) && IsCopy(w)
    ensures Within(u, t) && w == Own(u)
    decreases t
  {
    if w == Own(t) {
      u := t;
    } else if t.ArrayCopy? {
      var i :| 0 <= i < |t.items| && Within(w, OwnItems(t.items)[i]);
      OwnItemAt(t.items, i);
      u := OwnFrom(w, t.items[i]);
      WithinItem(u, t, i);
    } else {
      var j :| 0 <= j < |OwnFields(t.written)| && Within(w, OwnFields(t.written)[j].value);
      var i := OwnFieldFrom(t.written, j);
      u := OwnFrom(w, t.written[i].value);
      WithinField(u, t, i);
    }
  }

  // ---------------------------------------------------------------- what the result shows

  /** The value at a place: sensitive ones replaced, primitives kept, objects shown elsewhere. */
  ghost predicate ShowsValue<P>(v: Value<P>, t: Tree<P>) {
    match v
    case Prim(p) => t == Leaf(p)
    case Ref(id) => t == Circular || (IsCopy(t) && t.origin == id)
  }

  /** The result's object shows the whole node: every item, or every entry in order. */
  ghost predicate ShowsNode<P>(n: Node<P>, t: Tree<P>) {
    match n
    case ArrayNode(items) =>
      && t.ArrayCopy? && |t.items| == |items|
      && forall i | 0 <= i < |items| :: ShowsValue(items[i], t.items[i])
    case ObjectNode(fields) =>
      && t.ObjectCopy? && |t.written| == |fields|
      && forall i | 0 <= i < |fields| ::
           && t.written[i].key == fields[i].key
           && if Sensitive(fields[i].key) then t.written[i].value == Redacted
              else ShowsValue(fields[i].value, t.written[i].value)
  }

  /** Every reached object is in the result, with every item and entry it has. */
  ghost predicate ShowsAll<P(!new)>(g: Graph<P>, v: Value<P>)
    requires Closed(g) && InGraph(g, v)
  {
    forall n | n in g && Leads(g, v, n) ::
      exists u :: Within(u, Own(Redact(g, v, {}).0)) && IsCopy(u) && u.origin == n && ShowsNode(g[n], u)
  }

  ghost predicate HasProto<P>(n: Node<P>) {
    n.ObjectNode? && exists f | f in n.fields :: f.key == "__proto__"
  }

  /** The node keeps an object under `__proto__`. */
  ghost predicate ProtoHoldsObject<P>(n: Node<P>) {
    n.ObjectNode? && exists f | f in n.fields :: f.key == "__proto__" && f.value.Ref?
  }

  /** The sources of copies are reached. */
  lemma {:induction false} WithinOrigin<P>(u: Tree<P>, t: Tree<P>)
    requires Within(u, t) && IsCopy(u)
    ensures u.origin in Origins(t)
    decreases t
  {
    if u != t {
      if t.ArrayCopy? {
        var i :| 0 <= i < |t.items| && Within(u, t.items[i]);
        WithinOrigin(u, t.items[i]);
        OriginOfItem(t.items, i, u.origin);
      } else {
        var i :| 0 <= i < |t.written| && Within(u, t.written[i].value);
        WithinOrigin(u, t.written[i].value);
        OriginOfField(t.written, i, u.origin);
      }
    }
  }

  lemma {:induction false} OriginOfItem<P>(ts: seq<Tree<P>>, i: nat, n: Id)
    requires i < |ts| && n in Origins(ts[i])
    ensures n in ItemOrigins(ts)
  {
    if i > 0 {
      OriginOfItem(ts[1..], i - 1, n);
    }
  }

  lemma {:induction false} OriginOfField<P>(fs: seq<Field<Tree<P>>>, i: nat, n: Id)
    requires i < |fs| && n in Origins(fs[i].value)
    ensures n in FieldOrigins(fs)
  {
    if i > 0 {
      OriginOfField(fs[1..], i - 1, n);
    }
  }

  /** A copy inside the redacted value has a reached source in the graph. */
  lemma CopyOfReached<P>(g: Graph<P>, v: Value<P>, u: Tree<P>)
    requires Closed(g) && InGraph(g, v)
    requires Within(u, Redact(g, v, {}).0) && IsCopy(u)
    ensures u.origin in g && Leads(g, v, u.origin) && Copies(g, Ref(u.origin), u)
  {
    var t := Redact(g, v, {}).0;
    RedactExact(g, v);
    WithinOrigin(u, t);
    CopiesAtEveryDepth(g, v, t, u);
  }

  /** Without objects under `__proto__` in what is reached, no copy is put there. */
  lemma {:induction false} PrototypesFromGraph<P>(g: Graph<P>, v: Value<P>, t: Tree<P>)
    requires Closed(g) && InGraph(g, v) && Within(t, Redact(g, v, {}).0)
    requires forall n | n in g && Leads(g, v, n) :: !ProtoHoldsObject(g[n])
    ensures NoPrototypes(t)
    decreases t
  {
    if IsCopy(t) {
      var whole := Redact(g, v, {}).0;
      CopyOfReached(g, v, t);
      assert !ProtoHoldsObject(g[t.origin]);
      if t.ArrayCopy? {
        forall i | 0 <= i < |t.items| ensures NoPrototypes(t.items[i]) {
          WithinTransitive(t.items[i], t, whole);
          PrototypesFromGraph(g, v, t.items[i]);
        }
      } else {
        forall i | 0 <= i < |t.written|
          ensures NoPrototypes(t.written[i].value)
          ensures t.written[i].key == "__proto__" ==> !IsCopy(t.written[i].value)
        {
          WithinTransitive(t.written[i].value, t, whole);
          PrototypesFromGraph(g, v, t.written[i].value);
          assert g[t.origin].fields[i] in g[t.origin].fields;
        }
      }
    }
  }

  lemma {:induction false} WithinTransitive<P>(a: Tree<P>, b: Tree<P>, c: Tree<P>)
    requires Within(a, b) && Within(b, c)
    ensures Within(a, c)
    decreases c
  {
    if b != c {
      if c.ArrayCopy? {
        var i :| 0 <= i < |c.items| && Within(b, c.items[i]);
        WithinTransitive(a, b, c.items[i]);
      } else {
        var i :| 0 <= i < |c.written| && Within(b, c.written[i].value);
        WithinTransitive(a, b, c.written[i].value);
      }
    }
  }

  /** Then the copy of each reached object is in the result, less its `__proto__` entry. */
  lemma ReachedIsShown<P>(g: Graph<P>, v: Value<P>, n: Id) returns (u: Tree<P>)
    requires Closed(g) && InGraph(g, v) && n in g && Leads(g, v, n)
    requires forall m | m in g && Leads(g, v, m) :: !ProtoHoldsObject(g[m])
    ensures IsCopy(u) && u.origin == n && Copies(g, Ref(n), u)
    ensures Within(Own(u), Own(Redact(g, v, {}).0))
  {
    var t := Redact(g, v, {}).0;
    RedactExact(g, v);
    u := OriginIsWithin(t, n);
    CopiesAtEveryDepth(g, v, t, u);
    PrototypesFromGraph(g, v, t);
    OwnWithin(u, t);
  }

  // ---------------------------------------------------------------- when nothing is lost

  lemma {:induction false} OwnFieldsAll<P>(fs: seq<Field<Tree<P>>>)
    requires forall f | f in fs :: f.key != "__proto__"
    ensures |OwnFields(fs)| == |fs|
    ensures forall i | 0 <= i < |fs| :: OwnFields(fs)[i] == Field(fs[i].key, Own(fs[i].value))
  {
    if fs != [] {
      assert fs[0] in fs && forall f | f in fs[1..] :: f in fs;
      OwnFieldsAll(fs[1..]);
    }
  }

  lemma OwnShowsValue<P>(g: Graph<P>, v: Value<P>, t: Tree<P>)
    requires Copies(g, v, t)
    ensures ShowsValue(v, Own(t))
  {
  }

  lemma OwnShowsNode<P>(g: Graph<P>, n: Id, u: Tree<P>)
    requires n in g && IsCopy(u) && u.origin == n && Copies(g, Ref(n), u) && !HasProto(g[n])
    ensures ShowsNode(g[n], Own(u))
  {
    match g[n]
    case ArrayNode(items) =>
      forall i | 0 <= i < |items| ensures ShowsValue(items[i], Own(u).items[i]) {
        OwnItemAt(u.items, i);
        OwnShowsValue(g, items[i], u.items[i]);
      }
    case ObjectNode(fields) =>
      forall f | f in u.written ensures f.key != "__proto__" {
        var i :| 0 <= i < |u.written| && u.written[i] == f;
        assert fields[i] in fields;
      }
      OwnFieldsAll(u.written);
      forall i | 0 <= i < |fields|
        ensures Own(u).written[i].key == fields[i].key
        ensures if Sensitive(fields[i].key) then Own(u).written[i].value == Redacted
                else ShowsValue(fields[i].value, Own(u).written[i].value)
      {
        if !Sensitive(fields[i].key) {
          OwnShowsValue(g, fields[i].value, u.written[i].value);
        }
      }
  }

  /**
   * Nothing is lost, on any graph: every object reached without a sensitive key is in the
   * result with every item and entry, exactly when none of them has an entry named `__proto__`.
   */
  lemma ShowsAllExactly<P(!new)>(g: Graph<P>, v: Value<P>)
    requires Closed(g) && InGraph(g, v)
    ensures ShowsAll(g, v) <==> forall n | n in g && Leads(g, v, n) :: !HasProto(g[n])
  {
    if forall n | n in g && Leads(g, v, n) :: !HasProto(g[n]) {
      forall n | n in g && Leads(g, v, n)
        ensures exists u :: Within(u, Own(Redact(g, v, {}).0)) && IsCopy(u) && u.origin == n
                            && ShowsNode(g[n], u)
      {
        var u := ReachedIsShown(g, v, n);
        OwnShowsNode(g, n, u);
        assert IsCopy(Own(u)) && Own(u).origin == n;
      }
    } else {
      var n :| n in g && Leads(g, v, n) && HasProto(g[n]);
      forall u | Within(u, Own(Redact(g, v, {}).0)) && IsCopy(u) && u.origin == n
        ensures !ShowsNode(g[n], u)
      {
        ProtoIsLost(g, v, n, u);
      }
    }
  }

  /** No object of the result has an entry named `__proto__`. */
  lemma ProtoIsLost<P>(g: Graph<P>, v: Value<P>, n: Id, u: Tree<P>)
    requires Closed(g) && InGraph(g, v) && n in g && HasProto(g[n])
    requires Within(u, Own(Redact(g, v, {}).0)) && IsCopy(u)
    ensures u.ObjectCopy? ==> forall f | f in u.written :: f.key != "__proto__"
    ensures !ShowsNode(g[n], u)
  {
    var w := OwnFrom(u, Redact(g, v, {}).0);
    var f :| f in g[n].fields && f.key == "__proto__";
    var i :| 0 <= i < |g[n].fields| && g[n].fields[i] == f;
    if u.ObjectCopy? {
      forall h | h in u.written ensures h.key != "__proto__" {
        var j :| 0 <= j < |u.written| && u.written[j] == h;
        var k := OwnFieldFrom(w.written, j);
      }
      assert i < |u.written| ==> u.written[i] in u.written;
    }
  }

  /** A primitive that an object holds in an array, or under a key that is not sensitive. */
  ghost predicate Holds<P>(n: Node<P>, i: nat, p: P) {
    match n
    case ArrayNode(items) => i < |items| && items[i] == Prim(p)
    case ObjectNode(fields) =>
      i < |fields| && !Sensitive(fields[i].key) && fields[i].value == Prim(p)
  }

  /** The result shows the primitive of place `i` of a node, at that index or under that key. */
  ghost predicate Shows<P>(n: Node<P>, i: nat, t: Tree<P>, p: P) {
    match n
    case ArrayNode(items) => t.ArrayCopy? && i < |t.items| && t.items[i] == Leaf(p)
    case ObjectNode(fields) =>
      t.ObjectCopy? && i < |fields| && Field(fields[i].key, Leaf(p)) in t.written
  }

  /**
   * As long as no reached object keeps an object under `__proto__`: a primitive is shown by
   * the result's object for its holder, exactly when it is not itself under `__proto__`.
   */
  lemma PrimitivesKept<P>(g: Graph<P>, v: Value<P>, n: Id, i: nat, p: P)
    requires Closed(g) && InGraph(g, v) && n in g && Leads(g, v, n) && Holds(g[n], i, p)
    requires forall m | m in g && Leads(g, v, m) :: !ProtoHoldsObject(g[m])
    ensures (exists u :: Within(u, Own(Redact(g, v, {}).0)) && IsCopy(u) && u.origin == n
                         && Shows(g[n], i, u, p))
            <==> (g[n].ObjectNode? ==> g[n].fields[i].key != "__proto__")
  {
    var t := Redact(g, v, {}).0;
    if g[n].ObjectNode? && g[n].fields[i].key == "__proto__" {
      forall u | Within(u, Own(t)) && IsCopy(u) ensures !Shows(g[n], i, u, p) {
        assert g[n].fields[i] in g[n].fields;
        ProtoIsLost(g, v, n, u);
      }
    } else {
      var u := ReachedIsShown(g, v, n);
      match g[n] {
        case ArrayNode(items) =>
          OwnItemAt(u.items, i);
        case ObjectNode(fields) =>
          var j := OwnFieldOf(u.written, i);
      }
      assert Shows(g[n], i, Own(u), p);
      assert IsCopy(Own(u)) && Own(u).origin == n;
    }
  }

  /** The parsed text `{"__proto__": 5}`: redacting it gives an object without properties. */
  lemma ProtoEntryVanishes()
    ensures var g: Graph<int> := map[0 := ObjectNode([Field("__proto__", Prim(5))])];
            && Closed(g) && Own(Redact(g, Ref(0), {}).0) == ObjectCopy(0, [])
  {
    var fields: seq<Field<Value<int>>> := [Field("__proto__", Prim(5))];
    var g: Graph<int> := map[0 := ObjectNode(fields)];
    assert Closed(g);
    assert fields[1..] == [];
    assert !Sensitive("__proto__") by {
      NotSensitive();
    }
    assert RedactFields(g, fields, {0}).0 == [Field("__proto__", Leaf(5))];
    var written: seq<Field<Tree<int>>> := [Field("__proto__", Leaf(5))];
    assert written[1..] == [];
    var none: set<Id> := {};
    assert none + {0} == {0};
    assert Redact(g, Ref(0), none).0 == ObjectCopy(0, written);
  }

  lemma NotSensitive()
    ensures !Sensitive("__proto__")
  {
    forall i | 0 <= i < |SENSITIVE_FIELD_NAMES| ensures SENSITIVE_FIELD_NAMES[i] != "__proto__" {
      assert "__proto__"[0] == '_';
      assert SENSITIVE_FIELD_NAMES[i][0] != '_';
    }
  }
}
