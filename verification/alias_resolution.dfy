/**
 * Registry aliases: every command name is mapped to the real command at the
 * end of its chain of aliases.
 */
module AliasResolution {

  type Name = string

  datatype Node = Real(name: Name) | Alias(name: Name, target: Name)

  datatype Outcome = Resolved(names: map<Name, Name>) | Unresolved

  // ---------------------------------------------------------------- chains

  predicate UniqueNames(nodes: seq<Node>) {
    forall i, j :: 0 <= i < j < |nodes| ==> nodes[i].name != nodes[j].name
  }

  predicate Declared(nodes: seq<Node>, x: Name) {
    exists i :: 0 <= i < |nodes| && nodes[i].name == x
  }

  // The name n aliases further on, if the chain gets that far.
  ghost predicate ChainAt(nodes: seq<Node>, x: Name, n: nat, y: Name)
    decreases n
  {
    if n == 0 then x == y else exists t :: Alias(x, t) in nodes && ChainAt(nodes, t, n - 1, y)
  }

  // The chain from x ends at the real command r after n aliases.
  ghost predicate Reaches(nodes: seq<Node>, x: Name, r: Name, n: nat)
    decreases n
  {
    if n == 0 then x == r && Real(r) in nodes
    else exists t :: Alias(x, t) in nodes && Reaches(nodes, t, r, n - 1)
  }

  ghost predicate EndsAt(nodes: seq<Node>, x: Name, r: Name) {
    exists n :: Reaches(nodes, x, r, n)
  }

  ghost predicate Resolvable(nodes: seq<Node>, x: Name) {
    exists r :: EndsAt(nodes, x, r)
  }

  lemma OneNode(nodes: seq<Node>, a: Node, b: Node)
    requires UniqueNames(nodes) && a in nodes && b in nodes && a.name == b.name
    ensures a == b
  {
  }

  // With unique names a chain has one end only.
  lemma {:induction false} OneEnd(nodes: seq<Node>, x: Name, r: Name, n: nat, s: Name, m: nat)
    requires UniqueNames(nodes) && Reaches(nodes, x, r, n) && Reaches(nodes, x, s, m)
    ensures r == s
    decreases n
  {
    if n == 0 {
      if m > 0 {
        var t :| Alias(x, t) in nodes && Reaches(nodes, t, s, m - 1);
        OneNode(nodes, Real(x), Alias(x, t));
      }
    } else {
      var t :| Alias(x, t) in nodes && Reaches(nodes, t, r, n - 1);
      if m == 0 {
        OneNode(nodes, Real(x), Alias(x, t));
      } else {
        var u :| Alias(x, u) in nodes && Reaches(nodes, u, s, m - 1);
        OneNode(nodes, Alias(x, t), Alias(x, u));
        OneEnd(nodes, t, r, n - 1, s, m - 1);
      }
    }
  }

  // What the resolution promises: every declared name goes to the real command at the end of its
  // chain, and it fails exactly when some declared name has no such end.
  ghost predicate IsRight(nodes: seq<Node>, outcome: Outcome) {
    match outcome
    case Resolved(names) =>
      && (forall x :: x in names <==> Declared(nodes, x))
      && (forall x :: x in names ==> EndsAt(nodes, x, names[x]))
    case Unresolved => exists x :: Declared(nodes, x) && !Resolvable(nodes, x)
  }

  // The right outcome does not depend on the order of the input: there is only one.
  lemma OrderIsIrrelevant(a: seq<Node>, b: seq<Node>, ra: Outcome, rb: Outcome)
    requires UniqueNames(a) && UniqueNames(b) && forall node :: node in a <==> node in b
    requires IsRight(a, ra) && IsRight(b, rb)
    ensures ra == rb
  {
    forall x ensures Declared(a, x) <==> Declared(b, x) {
      SameDeclared(a, b, x);
      SameDeclared(b, a, x);
    }
    forall x, r ensures EndsAt(a, x, r) <==> EndsAt(b, x, r) {
      SameEnds(a, b, x, r);
      SameEnds(b, a, x, r);
    }
    if ra.Resolved? && rb.Resolved? {
      forall x | x in ra.names ensures ra.names[x] == rb.names[x] { SameEnd(a, x, ra.names[x], rb.names[x]); }
      assert ra.names == rb.names;
    }
  }

  lemma SameEnd(nodes: seq<Node>, x: Name, r: Name, s: Name)
    requires UniqueNames(nodes) && EndsAt(nodes, x, r) && EndsAt(nodes, x, s)
    ensures r == s
  {
    var n: nat :| Reaches(nodes, x, r, n);
    var m: nat :| Reaches(nodes, x, s, m);
    OneEnd(nodes, x, r, n, s, m);
  }

  lemma SameDeclared(a: seq<Node>, b: seq<Node>, x: Name)
    requires forall node :: node in a ==> node in b
    ensures Declared(a, x) ==> Declared(b, x)
  {
    if Declared(a, x) {
      var i :| 0 <= i < |a| && a[i].name == x;
      assert a[i] in b;
    }
  }

  lemma SameEnds(a: seq<Node>, b: seq<Node>, x: Name, r: Name)
    requires forall node :: node in a ==> node in b
    ensures EndsAt(a, x, r) ==> EndsAt(b, x, r)
  {
    if EndsAt(a, x, r) {
      var n: nat :| Reaches(a, x, r, n);
      SameReach(a, b, x, r, n);
    }
  }

  lemma {:induction false} SameReach(a: seq<Node>, b: seq<Node>, x: Name, r: Name, n: nat)
    requires (forall node :: node in a ==> node in b) && Reaches(a, x, r, n)
    ensures Reaches(b, x, r, n)
    decreases n
  {
    if n > 0 {
      var t :| Alias(x, t) in a && Reaches(a, t, r, n - 1);
      SameReach(a, b, t, r, n - 1);
    }
  }

  // ---------------------------------------------------------------- why a chain has no end

  // The chain arrives at a name nobody declares.
  ghost predicate Dangles(nodes: seq<Node>, x: Name) {
    exists n: nat, y :: ChainAt(nodes, x, n, y) && !Declared(nodes, y)
  }

  // The chain visits some name twice.
  ghost predicate Cycles(nodes: seq<Node>, x: Name) {
    exists n: nat, m: nat, y :: n < m && ChainAt(nodes, x, n, y) && ChainAt(nodes, x, m, y)
  }

  lemma {:induction false} ChainExtends(nodes: seq<Node>, x: Name, n: nat, y: Name, t: Name)
    requires ChainAt(nodes, x, n, y) && Alias(y, t) in nodes
    ensures ChainAt(nodes, x, n + 1, t)
    decreases n
  {
    if n == 0 {
      assert ChainAt(nodes, t, 0, t);
    } else {
      var u :| Alias(x, u) in nodes && ChainAt(nodes, u, n - 1, y);
      ChainExtends(nodes, u, n - 1, y, t);
    }
  }

  lemma {:induction false} ChainToReal(nodes: seq<Node>, x: Name, n: nat, y: Name)
    requires ChainAt(nodes, x, n, y) && Real(y) in nodes
    ensures Reaches(nodes, x, y, n)
    decreases n
  {
    if n > 0 {
      var u :| Alias(x, u) in nodes && ChainAt(nodes, u, n - 1, y);
      ChainToReal(nodes, u, n - 1, y);
    }
  }

  // The first n + 1 names of a chain that neither ends nor dangles.
  lemma {:induction false} LongChain(nodes: seq<Node>, x: Name, n: nat) returns (names: seq<Name>)
    requires Declared(nodes, x) && !Resolvable(nodes, x) && !Dangles(nodes, x)
    ensures |names| == n + 1
    ensures forall k :: 0 <= k <= n ==> ChainAt(nodes, x, k, names[k]) && Declared(nodes, names[k])
  {
    if n == 0 {
      names := [x];
    } else {
      var shorter := LongChain(nodes, x, n - 1);
      var y := shorter[n - 1];
      var i :| 0 <= i < |nodes| && nodes[i].name == y;
      if nodes[i].Real? {
        ChainToReal(nodes, x, n - 1, y);
        assert EndsAt(nodes, x, y);
      }
      var t := nodes[i].target;
      assert Alias(y, t) in nodes;
      ChainExtends(nodes, x, n - 1, y, t);
      names := shorter + [t];
    }
  }

  function NameSet(nodes: seq<Node>): (s: set<Name>)
    ensures forall x :: x in s <==> Declared(nodes, x)
    ensures |s| <= |nodes|
  {
    if nodes == [] then {}
    else
      var rest := NameSet(nodes[1..]);
      assert forall x :: Declared(nodes, x) <==> x == nodes[0].name || Declared(nodes[1..], x) by {
        forall x ensures Declared(nodes, x) <==> x == nodes[0].name || Declared(nodes[1..], x) { DeclaredCons(nodes, x); }
      }
      {nodes[0].name} + rest
  }

  lemma DeclaredCons(nodes: seq<Node>, x: Name)
    requires nodes != []
    ensures Declared(nodes, x) <==> x == nodes[0].name || Declared(nodes[1..], x)
  {
  }

  // More names than the set has members: one occurs twice.
  lemma {:induction false} Pigeonhole(names: seq<Name>, s: set<Name>)
    requires |names| > |s| && forall k :: 0 <= k < |names| ==> names[k] in s
    ensures exists i, j :: 0 <= i < j < |names| && names[i] == names[j]
  {
    var last := names[|names| - 1];
    var rest := names[..|names| - 1];
    if last in rest {
      var i :| 0 <= i < |rest| && rest[i] == last;
      assert names[i] == names[|names| - 1];
    } else {
      Pigeonhole(rest, s - {last});
      var i, j :| 0 <= i < j < |rest| && rest[i] == rest[j];
      assert names[i] == names[j];
    }
  }

  // A declared name has no end exactly when its chain is cyclic or dangling.
  lemma NoEndMeansCyclicOrDangling(nodes: seq<Node>, x: Name)
    requires UniqueNames(nodes) && Declared(nodes, x)
    ensures !Resolvable(nodes, x) <==> Dangles(nodes, x) || Cycles(nodes, x)
  {
    if !Resolvable(nodes, x) && !Dangles(nodes, x) {
      var names := LongChain(nodes, x, |nodes|);
      Pigeonhole(names, NameSet(nodes));
      var i, j :| 0 <= i < j < |names| && names[i] == names[j];
      assert ChainAt(nodes, x, i, names[i]) && ChainAt(nodes, x, j, names[i]);
    }
    if Resolvable(nodes, x) {
      var r :| EndsAt(nodes, x, r);
      var n: nat :| Reaches(nodes, x, r, n);
      EndedChain(nodes, x, r, n);
    }
  }

  // A chain that ends has one name at each distance up to the end, all declared, none beyond it,
  // and none twice.
  lemma EndedChain(nodes: seq<Node>, x: Name, r: Name, n: nat)
    requires UniqueNames(nodes) && Reaches(nodes, x, r, n)
    ensures !Dangles(nodes, x) && !Cycles(nodes, x)
  {
    forall k: nat, y | ChainAt(nodes, x, k, y) ensures k <= n && Declared(nodes, y) {
      RestOfChain(nodes, x, r, n, k, y);
    }
    forall k: nat, m: nat, y | k < m && ChainAt(nodes, x, k, y) && ChainAt(nodes, x, m, y) ensures false {
      RestOfChain(nodes, x, r, n, k, y);
      RestOfChain(nodes, x, r, n, m, y);
      OneLength(nodes, y, r, n - k, r, n - m);
    }
  }

  lemma {:induction false} RestOfChain(nodes: seq<Node>, x: Name, r: Name, n: nat, k: nat, y: Name)
    requires UniqueNames(nodes) && Reaches(nodes, x, r, n) && ChainAt(nodes, x, k, y)
    ensures k <= n && Reaches(nodes, y, r, n - k) && Declared(nodes, y)
    decreases k
  {
    if k == 0 {
      if n == 0 {
        InIsDeclared(nodes, Real(x));
      } else {
        var t :| Alias(x, t) in nodes && Reaches(nodes, t, r, n - 1);
        InIsDeclared(nodes, Alias(x, t));
      }
    } else {
      var u :| Alias(x, u) in nodes && ChainAt(nodes, u, k - 1, y);
      if n == 0 {
        OneNode(nodes, Real(x), Alias(x, u));
      } else {
        var t :| Alias(x, t) in nodes && Reaches(nodes, t, r, n - 1);
        OneNode(nodes, Alias(x, t), Alias(x, u));
        RestOfChain(nodes, u, r, n - 1, k - 1, y);
      }
    }
  }

  lemma InIsDeclared(nodes: seq<Node>, node: Node)
    requires node in nodes
    ensures Declared(nodes, node.name)
  {
  }

  lemma {:induction false} OneLength(nodes: seq<Node>, x: Name, r: Name, n: nat, s: Name, m: nat)
    requires UniqueNames(nodes) && Reaches(nodes, x, r, n) && Reaches(nodes, x, s, m)
    ensures n == m
    decreases n
  {
    if n > 0 && m > 0 {
      var t :| Alias(x, t) in nodes && Reaches(nodes, t, r, n - 1);
      var u :| Alias(x, u) in nodes && Reaches(nodes, u, s, m - 1);
      OneNode(nodes, Alias(x, t), Alias(x, u));
      OneLength(nodes, t, r, n - 1, s, m - 1);
    }
  }

  // ---------------------------------------------------------------- resolution

  function AliasesIn(nodes: seq<Node>): (pending: seq<Node>)
    ensures forall node :: node in pending <==> node in nodes && node.Alias?
  {
    if nodes == [] then []
    else
      var rest := AliasesIn(nodes[..|nodes| - 1]);
      if nodes[|nodes| - 1].Alias? then rest + [nodes[|nodes| - 1]] else rest
  }

  // Every name in the table ends where the table says, every real command is in it, and every
  // alias is in it or still pending.
  ghost predicate Progress(nodes: seq<Node>, names: map<Name, Name>, pending: seq<Node>) {
    && (forall x :: x in names ==> Declared(nodes, x) && EndsAt(nodes, x, names[x]))
    && (forall x :: Real(x) in nodes ==> x in names)
    && (forall node :: node in nodes && node.Alias? ==> node.name in names || node in pending)
    && (forall node :: node in pending ==> node in nodes && node.Alias?)
  }

  // A pass that changes nothing leaves only aliases without an end.
  lemma {:induction false} StuckHasNoEnd(nodes: seq<Node>, names: map<Name, Name>, pending: seq<Node>, x: Name, r: Name, n: nat)
    requires Progress(nodes, names, pending) && Reaches(nodes, x, r, n)
    requires forall node :: node in pending ==> node.target !in names
    ensures x in names
    decreases n
  {
    if n > 0 {
      var t :| Alias(x, t) in nodes && Reaches(nodes, t, r, n - 1);
      StuckHasNoEnd(nodes, names, pending, t, r, n - 1);
      assert Alias(x, t).target in names;
    }
  }

  lemma Extends(nodes: seq<Node>, names: map<Name, Name>, x: Name, t: Name)
    requires Alias(x, t) in nodes && t in names && EndsAt(nodes, t, names[t])
    ensures Declared(nodes, x) && EndsAt(nodes, x, names[t])
  {
    var n: nat :| Reaches(nodes, t, names[t], n);
    assert Reaches(nodes, x, names[t], n + 1);
    InIsDeclared(nodes, Alias(x, t));
  }

  // One pass over the pending aliases; names found early in the pass serve later ones.
  method Pass(ghost nodes: seq<Node>, names: map<Name, Name>, pending: seq<Node>)
    returns (found: map<Name, Name>, left: seq<Node>, changed: bool)
    requires Progress(nodes, names, pending)
    ensures Progress(nodes, found, left) && |left| <= |pending|
    ensures changed ==> |left| < |pending|
    ensures !changed ==> left == pending && forall node :: node in pending ==> node.target !in found
  {
    found, left, changed := names, [], false;
    for i := 0 to |pending|
      invariant Progress(nodes, found, left + pending[i..])
      invariant |left| <= i && (changed ==> |left| < i)
      invariant !changed ==> found == names && left == pending[..i]
      invariant !changed ==> forall k :: 0 <= k < i ==> pending[k].target !in names
    {
      var node := pending[i];
      assert pending[i..] == [node] + pending[i + 1..];
      if node.target in found {
        Extends(nodes, found, node.name, node.target);
        found := found[node.name := found[node.target]];
        changed := true;
      } else {
        assert left + pending[i..] == left + [node] + pending[i + 1..];
        left := left + [node];
      }
    }
    assert left + pending[|pending|..] == left;
  }

  method CanonicalNames(nodes: seq<Node>) returns (outcome: Outcome)
    requires UniqueNames(nodes)
    ensures IsRight(nodes, outcome)
  {
    var names: map<Name, Name> := map[];
    var pending: seq<Node> := [];
    for i := 0 to |nodes|
      invariant pending == AliasesIn(nodes[..i])
      invariant forall x :: x in names <==> Real(x) in nodes[..i]
      invariant forall x :: x in names ==> names[x] == x
    {
      assert nodes[..i + 1] == nodes[..i] + [nodes[i]];
      assert nodes[..i + 1][..i] == nodes[..i];
      if nodes[i].Real? {
        names := names[nodes[i].name := nodes[i].name];
      } else {
        pending := pending + [nodes[i]];
      }
    }
    assert nodes[..|nodes|] == nodes;
    RealsProgress(nodes, names);
    while pending != []
      invariant Progress(nodes, names, pending)
      decreases |pending|
    {
      var left, changed;
      names, left, changed := Pass(nodes, names, pending);
      if !changed {
        var node := pending[0];
        InIsDeclared(nodes, node);
        NotInWhenStuck(nodes, names, pending, node);
        return Unresolved;
      }
      pending := left;
    }
    outcome := Resolved(names);
    forall x | Declared(nodes, x) ensures x in names {
      var i :| 0 <= i < |nodes| && nodes[i].name == x;
      assert nodes[i] in nodes;
    }
  }

  lemma RealsProgress(nodes: seq<Node>, names: map<Name, Name>)
    requires forall x :: x in names <==> Real(x) in nodes
    requires forall x :: x in names ==> names[x] == x
    ensures Progress(nodes, names, AliasesIn(nodes))
  {
    forall x | x in names ensures Declared(nodes, x) && EndsAt(nodes, x, names[x]) {
      InIsDeclared(nodes, Real(x));
      assert Reaches(nodes, x, x, 0);
    }
  }

  lemma NotInWhenStuck(nodes: seq<Node>, names: map<Name, Name>, pending: seq<Node>, node: Node)
    requires UniqueNames(nodes) && Progress(nodes, names, pending) && node in pending
    requires forall other :: other in pending ==> other.target !in names
    ensures !Resolvable(nodes, node.name)
  {
    if Resolvable(nodes, node.name) {
      var r :| EndsAt(nodes, node.name, r);
      var n: nat :| Reaches(nodes, node.name, r, n);
      if n == 0 {
        OneNode(nodes, Real(node.name), node);
      } else {
        var t :| Alias(node.name, t) in nodes && Reaches(nodes, t, r, n - 1);
        OneNode(nodes, Alias(node.name, t), node);
        StuckHasNoEnd(nodes, names, pending, t, r, n - 1);
        assert false;
      }
    }
  }
}
