/** The cache key of a list of role codes, and the query it stands for. */
module PermissionCacheKey {
  import opened Common
  import Sorting

  type Permission = string

  /** Which permissions each role grants: the joined role tables. */
  type Grants = map<string, set<Permission>>

  /** The rows of the `SELECT DISTINCT … WHERE r.code IN (…)`. */
  function Answer(grants: Grants, roleCodes: seq<string>): set<Permission> {
    set code, p | code in roleCodes && code in grants && p in grants[code] :: p
  }

  /** One of the listed roles has a row that grants the permission. */
  predicate SomeRoleGrants(grants: Grants, roleCodes: seq<string>, p: Permission) {
    exists i | 0 <= i < |roleCodes| :: roleCodes[i] in grants && p in grants[roleCodes[i]]
  }

  /** The query answers with the union of what its roles grant. */
  lemma AnswerExact(grants: Grants, roleCodes: seq<string>)
    ensures forall p :: p in Answer(grants, roleCodes) <==> SomeRoleGrants(grants, roleCodes, p)
  {
    forall p ensures p in Answer(grants, roleCodes) <==> SomeRoleGrants(grants, roleCodes, p) {
      if SomeRoleGrants(grants, roleCodes, p) {
        var i :| 0 <= i < |roleCodes| && roleCodes[i] in grants && p in grants[roleCodes[i]];
        assert roleCodes[i] in roleCodes;
      }
    }
  }

  /** So the answer for two lists is the union of their answers. */
  lemma AnswerConcat(grants: Grants, xs: seq<string>, ys: seq<string>)
    ensures Answer(grants, xs + ys) == Answer(grants, xs) + Answer(grants, ys)
  {
    forall p
      ensures p in Answer(grants, xs + ys) <==> p in Answer(grants, xs) + Answer(grants, ys)
    {
      assert forall code :: code in xs + ys <==> code in xs || code in ys;
    }
  }

  lemma AnswerOne(grants: Grants, code: string)
    ensures Answer(grants, [code]) == if code in grants then grants[code] else {}
  {
    assert forall c :: c in [code] <==> c == code;
  }

  function Join(parts: seq<string>): string {
    if parts == [] then ""
    else if |parts| == 1 then parts[0]
    else parts[0] + "," + Join(parts[1..])
  }

  function CacheKey(roleCodes: seq<string>): string {
    "cache:permissions:" + Join(Sorting.Sort(LexLeq, roleCodes))
  }

  ghost predicate CommaFree(roleCodes: seq<string>) {
    forall code | code in roleCodes :: ',' !in code
  }

  lemma LexLeqOrders()
    ensures Sorting.TotalPreorder(LexLeq) && Sorting.Antisymmetric(LexLeq)
  {
    forall x, y
      ensures LexLeq(x, y) || LexLeq(y, x)
      ensures LexLeq(x, y) && LexLeq(y, x) ==> x == y
    {
      LexTrichotomy(x, y);
    }
    forall x, y, z | LexLeq(x, y) && LexLeq(y, z) ensures LexLeq(x, z) {
      if x != y && y != z {
        LexTransitive(x, y, z);
      }
    }
  }

  /** A comma-free head is cut off at the first comma, or is the whole string. */
  lemma {:induction false} HeadsAgree(a: string, b: string, s: string, t: string)
    requires ',' !in a && ',' !in b && a + s == b + t
    requires (s == "" || s[0] == ',') && (t == "" || t[0] == ',')
    ensures a == b && s == t
  {
    if a == "" || b == "" {
      assert "" + s == s && "" + t == t;
    } else {
      assert a[0] == (a + s)[0] == (b + t)[0] == b[0];
      assert (a + s)[1..] == a[1..] + s && (b + t)[1..] == b[1..] + t;
      HeadsAgree(a[1..], b[1..], s, t);
      assert a == [a[0]] + a[1..] && b == [b[0]] + b[1..];
    }
  }

  /** What follows the first part in a joined string. */
  function Rest(parts: seq<string>): string
    requires parts != []
  {
    if |parts| == 1 then "" else "," + Join(parts[1..])
  }

  lemma JoinHead(parts: seq<string>)
    requires parts != []
    ensures Join(parts) == parts[0] + Rest(parts)
    ensures Rest(parts) == "" || Rest(parts)[0] == ','
    ensures |parts| > 1 ==> Rest(parts)[1..] == Join(parts[1..])
  {
    if |parts| == 1 {
      assert parts[0] + "" == parts[0];
    } else {
      assert parts[0] + "," + Join(parts[1..]) == parts[0] + ("," + Join(parts[1..]));
    }
  }

  lemma {:induction false} JoinInjective(xs: seq<string>, ys: seq<string>)
    requires xs != [] && ys != [] && CommaFree(xs) && CommaFree(ys) && Join(xs) == Join(ys)
    ensures xs == ys
  {
    JoinHead(xs);
    JoinHead(ys);
    assert xs[0] in xs && ys[0] in ys;
    HeadsAgree(xs[0], ys[0], Rest(xs), Rest(ys));
    assert xs == [xs[0]] + xs[1..] && ys == [ys[0]] + ys[1..];
    if |xs| > 1 && |ys| > 1 {
      assert forall code | code in xs[1..] :: code in xs;
      assert forall code | code in ys[1..] :: code in ys;
      JoinInjective(xs[1..], ys[1..]);
    }
  }

  /** Non-empty lists of comma-free codes share a key exactly when they are permutations. */
  lemma KeyIsTheMultiset(xs: seq<string>, ys: seq<string>)
    requires xs != [] && ys != [] && CommaFree(xs) && CommaFree(ys)
    ensures CacheKey(xs) == CacheKey(ys) <==> multiset(xs) == multiset(ys)
  {
    var s, t := Sorting.Sort(LexLeq, xs), Sorting.Sort(LexLeq, ys);
    LexLeqOrders();
    Sorting.SortForgetsOrder(LexLeq, xs, ys);
    SameElements(xs, s);
    SameElements(ys, t);
    if CacheKey(xs) == CacheKey(ys) {
      PrefixCancels("cache:permissions:", Join(s), Join(t));
      JoinInjective(s, t);
    }
  }

  lemma PrefixCancels(p: string, a: string, b: string)
    requires p + a == p + b
    ensures a == b
  {
    assert (p + a)[|p|..] == a && (p + b)[|p|..] == b;
  }

  lemma SameElements(xs: seq<string>, ys: seq<string>)
    requires multiset(xs) == multiset(ys)
    ensures forall x :: x in xs <==> x in ys
    ensures |xs| == |ys|
  {
    assert |multiset(xs)| == |xs| && |multiset(ys)| == |ys|;
    assert forall x :: x in xs <==> x in multiset(xs);
    assert forall x :: x in ys <==> x in multiset(ys);
  }

  /** So an entry filed under one list answers the query of any list with its key. */
  lemma SameKeySameAnswer(grants: Grants, xs: seq<string>, ys: seq<string>)
    requires xs != [] && ys != [] && CommaFree(xs) && CommaFree(ys)
    requires CacheKey(xs) == CacheKey(ys)
    ensures Answer(grants, xs) == Answer(grants, ys)
  {
    KeyIsTheMultiset(xs, ys);
    SameElements(xs, ys);
  }

  /** The order of the codes never matters, commas or not. */
  lemma OrderNeverMatters(xs: seq<string>, ys: seq<string>)
    requires multiset(xs) == multiset(ys)
    ensures CacheKey(xs) == CacheKey(ys)
  {
    LexLeqOrders();
    Sorting.SortForgetsOrder(LexLeq, xs, ys);
  }

  /** The key as it is written to Redis, for one code and for two of them in order. */
  lemma KeySpelled(a: string, b: string)
    requires LexLeq(a, b)
    ensures CacheKey([a]) == "cache:permissions:" + a
    ensures CacheKey([a, b]) == "cache:permissions:" + (a + "," + b)
  {
    assert [a, b][1..] == [b] && [b][1..] == [] && [a][1..] == [];
    assert Sorting.Sort(LexLeq, [a]) == [a] && Sorting.Sort(LexLeq, [b]) == [b];
    assert Sorting.Sort(LexLeq, [a, b]) == [a] + [b];
    assert [a, b] == [a] + [b];
    assert Join([a, b]) == a + "," + b;
  }

  /** A code spelled as two ordered codes with a comma takes their key, and another's answer. */
  lemma CommaCollides(a: string, b: string, p: Permission)
    requires LexLeq(a, b)
    ensures CacheKey([a + "," + b]) == CacheKey([a, b])
    ensures exists grants: Grants :: Answer(grants, [a + "," + b]) != Answer(grants, [a, b])
  {
    var c := a + "," + b;
    LexLeqOrders();
    KeySpelled(a, b);
    KeySpelled(c, c);
    var grants: Grants := map[c := {p}];
    AnswerOne(grants, c);
    assert |c| > |a| && |c| > |b|;
    assert p !in Answer(grants, [a, b]);
  }
}
