/**
 * Ordering the structures of a schema so that each comes after everything
 * it contains, and refusing schemas for which there is no such order.
 */
module SchemaOrder {

  type Name = string

  datatype Basic = U32 | Float | U64 | Byte

  // A member's type is a basic C type or the name of another type.
  datatype Type = Plain(basic: Basic) | Named(name: Name)

  datatype Dimension = Scalar | Array(length: nat)

  datatype Member = Member(kind: Type, dimension: Dimension, nullTerminated: bool)

  type Schema = map<Name, seq<Member>>

  // ---------------------------------------------------------------- what can be ordered

  // Following contained structures from name ends within n levels, and every name is a structure.
  ghost predicate FiniteAt(schema: Schema, name: Name, n: nat)
    decreases n
  {
    && n > 0 && name in schema
    && forall m :: m in schema[name] && m.kind.Named? ==> FiniteAt(schema, m.kind.name, n - 1)
  }

  ghost predicate Finite(schema: Schema, name: Name) {
    exists n: nat :: FiniteAt(schema, name, n)
  }

  ghost predicate Contains(schema: Schema, a: Name, b: Name) {
    a in schema && exists m :: m in schema[a] && m.kind == Named(b)
  }

  // b is inside a, n levels down.
  ghost predicate Inside(schema: Schema, a: Name, b: Name, n: nat)
    decreases n
  {
    if n == 0 then a == b else exists c :: Contains(schema, a, c) && Inside(schema, c, b, n - 1)
  }

  lemma {:induction false} FiniteInside(schema: Schema, a: Name, b: Name, k: nat, n: nat)
    requires FiniteAt(schema, a, n) && Inside(schema, a, b, k)
    ensures k < n && FiniteAt(schema, b, n - k)
    decreases k
  {
    if k > 0 {
      var c :| Contains(schema, a, c) && Inside(schema, c, b, k - 1);
      var m :| m in schema[a] && m.kind == Named(c);
      FiniteInside(schema, c, b, k - 1, n - 1);
    }
  }

  // A structure inside itself is not finite.
  lemma {:induction false} CycleIsNotFinite(schema: Schema, a: Name, k: nat, n: nat)
    requires k > 0 && Inside(schema, a, a, k)
    ensures !FiniteAt(schema, a, n)
    decreases n
  {
    if FiniteAt(schema, a, n) {
      FiniteInside(schema, a, a, k, n);
      CycleIsNotFinite(schema, a, k, n - k);
    }
  }

  ghost predicate StrictlyInside(schema: Schema, a: Name, b: Name) {
    exists k: nat :: k > 0 && Inside(schema, a, b, k)
  }

  // Inside a, at some depth, is a name that is no structure or a structure that contains itself.
  ghost predicate Broken(schema: Schema, a: Name) {
    exists b, k: nat :: Inside(schema, a, b, k) && (b !in schema || StrictlyInside(schema, b, b))
  }

  lemma {:induction false} InsideExtends(schema: Schema, a: Name, b: Name, c: Name, n: nat)
    requires Inside(schema, a, b, n) && Contains(schema, b, c)
    ensures Inside(schema, a, c, n + 1)
    decreases n
  {
    if n == 0 {
      assert Inside(schema, c, c, 0);
    } else {
      var d :| Contains(schema, a, d) && Inside(schema, d, b, n - 1);
      InsideExtends(schema, d, b, c, n - 1);
    }
  }

  lemma PartBreaksWhole(schema: Schema, a: Name, b: Name)
    requires Contains(schema, a, b) && Broken(schema, b)
    ensures Broken(schema, a)
  {
    var c, k: nat :| Inside(schema, b, c, k) && (c !in schema || StrictlyInside(schema, c, c));
    assert Inside(schema, a, c, k + 1);
  }

  lemma {:induction false} CommonDepth(schema: Schema, members: seq<Member>) returns (n: nat)
    requires forall m :: m in members && m.kind.Named? ==> Finite(schema, m.kind.name)
    ensures forall m :: m in members && m.kind.Named? ==> FiniteAt(schema, m.kind.name, n)
  {
    n := 0;
    if members != [] {
      var rest := CommonDepth(schema, members[1..]);
      n := rest;
      if members[0].kind.Named? {
        assert members[0] in members;
        var first: nat :| FiniteAt(schema, members[0].kind.name, first);
        n := if first > rest then first else rest;
        Deeper(schema, members[0].kind.name, first, n);
      }
      forall m | m in members[1..] && m.kind.Named? ensures FiniteAt(schema, m.kind.name, n) {
        Deeper(schema, m.kind.name, rest, n);
      }
    }
  }

  // Going down from name without meeting anything twice uses up the schema.
  lemma {:induction false} UnbrokenIsFinite(schema: Schema, above: set<Name>, name: Name)
    requires above <= schema.Keys && forall v :: v in above ==> StrictlyInside(schema, v, name)
    requires !Broken(schema, name)
    ensures Finite(schema, name)
    decreases |schema.Keys - above|
  {
    assert Inside(schema, name, name, 0);
    assert name in schema && name !in above;
    assert schema.Keys - (above + {name}) == (schema.Keys - above) - {name};
    forall m | m in schema[name] && m.kind.Named? ensures Finite(schema, m.kind.name) {
      assert Contains(schema, name, m.kind.name);
      if Broken(schema, m.kind.name) { PartBreaksWhole(schema, name, m.kind.name); }
      ChildrenAreOnTheWay(schema, above, name, m.kind.name);
      UnbrokenIsFinite(schema, above + {name}, m.kind.name);
    }
    var n := CommonDepth(schema, schema[name]);
    assert FiniteAt(schema, name, n + 1);
  }

  // A structure has a finite layout exactly when nothing inside it is unknown or contains itself.
  lemma FiniteUnlessBroken(schema: Schema, a: Name)
    ensures Finite(schema, a) <==> !Broken(schema, a)
  {
    if Finite(schema, a) && Broken(schema, a) {
      var n: nat :| FiniteAt(schema, a, n);
      var b, k: nat :| Inside(schema, a, b, k) && (b !in schema || StrictlyInside(schema, b, b));
      FiniteInside(schema, a, b, k, n);
      var j: nat :| j > 0 && Inside(schema, b, b, j);
      CycleIsNotFinite(schema, b, j, n - k);
    }
    if !Broken(schema, a) { UnbrokenIsFinite(schema, {}, a); }
  }

  lemma ChildrenAreOnTheWay(schema: Schema, before: set<Name>, name: Name, child: Name)
    requires forall v :: v in before ==> StrictlyInside(schema, v, name)
    requires Contains(schema, name, child)
    ensures forall v :: v in before + {name} ==> StrictlyInside(schema, v, child)
  {
    assert Inside(schema, name, name, 0);
    InsideExtends(schema, name, name, child, 0);
    forall v | v in before ensures StrictlyInside(schema, v, child) {
      var k: nat :| k > 0 && Inside(schema, v, name, k);
      InsideExtends(schema, v, name, child, k);
    }
  }

  // ---------------------------------------------------------------- the order

  predicate After(schema: Schema, ordered: seq<Name>, i: nat)
    requires i < |ordered|
  {
    ordered[i] in schema && forall m :: m in schema[ordered[i]] && m.kind.Named? ==> m.kind.name in ordered[..i]
  }

  // Every structure comes once, after all it contains.
  ghost predicate Ordered(schema: Schema, ordered: seq<Name>) {
    && (forall i :: 0 <= i < |ordered| ==> After(schema, ordered, i))
    && (forall i, j :: 0 <= i < j < |ordered| ==> ordered[i] != ordered[j])
  }

  lemma {:induction false} OrderedIsFinite(schema: Schema, ordered: seq<Name>, i: nat)
    requires Ordered(schema, ordered) && i < |ordered|
    ensures FiniteAt(schema, ordered[i], i + 1)
  {
    assert After(schema, ordered, i);
    forall m | m in schema[ordered[i]] && m.kind.Named? ensures FiniteAt(schema, m.kind.name, i) {
      var j :| 0 <= j < i && ordered[j] == m.kind.name;
      OrderedIsFinite(schema, ordered, j);
      Deeper(schema, m.kind.name, j + 1, i);
    }
  }

  lemma {:induction false} Deeper(schema: Schema, name: Name, n: nat, k: nat)
    requires FiniteAt(schema, name, n) && n <= k
    ensures FiniteAt(schema, name, k)
    decreases n
  {
    forall m | m in schema[name] && m.kind.Named? ensures FiniteAt(schema, m.kind.name, k - 1) {
      Deeper(schema, m.kind.name, n - 1, k - 1);
    }
  }

  class Orderer {
    const schema: Schema
    var ordered: seq<Name>
    var visiting: set<Name>

    ghost predicate Valid()
      reads this
    {
      Ordered(schema, ordered) && visiting <= schema.Keys && forall v :: v in visiting ==> v !in ordered
    }

    constructor (schema: Schema)
      ensures Valid() && this.schema == schema && ordered == [] && visiting == {}
    {
      this.schema := schema;
      ordered, visiting := [], {};
    }

    // Every structure being visited has name inside it.
    ghost predicate OnTheWay(name: Name)
      reads this
    {
      forall v :: v in visiting ==> StrictlyInside(schema, v, name)
    }

    // Appends name and everything inside it, or refuses because that is impossible.
    method Visit(name: Name) returns (ok: bool)
      requires Valid() && OnTheWay(name)
      modifies this
      ensures |old(ordered)| <= |ordered| && ordered[..|old(ordered)|] == old(ordered)
      ensures ok ==> Valid() && visiting == old(visiting) && name in ordered
      ensures !ok ==> Broken(schema, name)
      decreases |schema.Keys - visiting|
    {
      if name in ordered {
        return true;
      }
      if name in visiting || name !in schema {
        assert Inside(schema, name, name, 0);
        return false;
      }
      ghost var before, start := visiting, ordered;
      visiting := visiting + {name};
      assert schema.Keys - visiting == (schema.Keys - before) - {name};
      assert name in schema.Keys - before;
      var members := schema[name];
      for i := 0 to |members|
        invariant Valid() && visiting == before + {name}
        invariant |start| <= |ordered| && ordered[..|start|] == start
        invariant forall k :: 0 <= k < i && members[k].kind.Named? ==> members[k].kind.name in ordered
      {
        if members[i].kind.Named? {
          var child := members[i].kind.name;
          ChildrenAreOnTheWay(schema, before, name, child);
          ghost var earlier := ordered;
          ok := Visit(child);
          if !ok {
            PartBreaksWhole(schema, name, child);
            return;
          }
          PrefixIsKept(start, earlier, ordered);
        }
      }
      OrderGrows(schema, ordered, name);
      visiting := visiting - {name};
      assert visiting == before;
      ordered := ordered + [name];
      ok := true;
    }
  }

  lemma PrefixIsKept(start: seq<Name>, earlier: seq<Name>, ordered: seq<Name>)
    requires |start| <= |earlier| <= |ordered| && earlier[..|start|] == start && ordered[..|earlier|] == earlier
    ensures ordered[..|start|] == start
    ensures forall x :: x in earlier ==> x in ordered
  {
  }

  lemma OrderGrows(schema: Schema, ordered: seq<Name>, name: Name)
    requires Ordered(schema, ordered) && name in schema && name !in ordered
    requires forall k :: 0 <= k < |schema[name]| && schema[name][k].kind.Named? ==> schema[name][k].kind.name in ordered
    ensures Ordered(schema, ordered + [name])
  {
    var next := ordered + [name];
    forall i | 0 <= i < |next| ensures After(schema, next, i) {
      assert next[..i] == if i < |ordered| then ordered[..i] else ordered;
      assert i < |ordered| ==> After(schema, ordered, i);
    }
  }

  // The order of everything the roots need: it exists exactly when nothing inside a root, the root
  // included, is unknown or contains itself, and then it holds every root after all its parts.
  method Order(schema: Schema, roots: seq<Name>) returns (ok: bool, ordered: seq<Name>)
    ensures ok <==> forall i :: 0 <= i < |roots| ==> !Broken(schema, roots[i])
    ensures ok ==> Ordered(schema, ordered) && forall i :: 0 <= i < |roots| ==> roots[i] in ordered
  {
    var orderer := new Orderer(schema);
    ordered := [];
    for i := 0 to |roots|
      invariant fresh(orderer) && orderer.Valid() && orderer.schema == schema && orderer.visiting == {}
      invariant forall k :: 0 <= k < i ==> roots[k] in orderer.ordered
    {
      ghost var earlier := orderer.ordered;
      ok := orderer.Visit(roots[i]);
      if !ok {
        return;
      }
      assert forall x :: x in earlier ==> x in orderer.ordered by {
        assert forall x :: x in earlier ==> x in orderer.ordered[..|earlier|];
      }
    }
    ok, ordered := true, orderer.ordered;
    forall i | 0 <= i < |roots| ensures !Broken(schema, roots[i]) {
      assert roots[i] in ordered;
      var j :| 0 <= j < |ordered| && ordered[j] == roots[i];
      OrderedIsFinite(schema, ordered, j);
      FiniteUnlessBroken(schema, roots[i]);
    }
  }
}
