/**
 * The dispatch policy: measured commands are checked against the registry,
 * classified and sorted into a table, and the table is searched by name.
 */
module DispatchPolicy {
  import opened Wrappers
  import opened AliasResolution

  datatype Scope = Global | Instance | Device | Private

  datatype Support = ProbedNull | RequiredUnimplemented | Executable

  // One measured command; a missing scope stands for one that is not a known word.
  datatype Evidence = Evidence(name: Name, canonical: Option<Name>, scope: Option<Scope>, lookups: int, stages: nat)

  datatype Entry = Entry(name: Name, canonical: Name, scope: Scope, lookups: int, support: Support)

  datatype Policy = Table(entries: seq<Entry>) | Refused

  // ---------------------------------------------------------------- order of names

  predicate Less(a: Name, b: Name) {
    b != [] && (a == [] || a[0] < b[0] || (a[0] == b[0] && Less(a[1..], b[1..])))
  }

  lemma {:induction false} LessIsTransitive(a: Name, b: Name, c: Name)
    requires Less(a, b) && Less(b, c)
    ensures Less(a, c)
  {
    if a != [] && a[0] == b[0] == c[0] {
      LessIsTransitive(a[1..], b[1..], c[1..]);
    }
  }

  // Exactly one of less, equal and greater holds.
  lemma {:induction false} LessIsTotal(a: Name, b: Name)
    ensures Less(a, b) || a == b || Less(b, a)
    ensures !(Less(a, b) && Less(b, a)) && (a == b ==> !Less(a, b))
  {
    if a != [] && b != [] && a[0] == b[0] {
      LessIsTotal(a[1..], b[1..]);
      assert a == [a[0]] + a[1..] && b == [b[0]] + b[1..];
    }
  }

  // The sign of a byte-wise string comparison.
  function Compare(a: Name, b: Name): int {
    if a == [] then if b == [] then 0 else -1
    else if b == [] then 1
    else if a[0] < b[0] then -1
    else if b[0] < a[0] then 1
    else Compare(a[1..], b[1..])
  }

  lemma {:induction false} CompareIsOrder(a: Name, b: Name)
    ensures Compare(a, b) < 0 <==> Less(a, b)
    ensures Compare(a, b) == 0 <==> a == b
  {
    if a != [] && b != [] && a[0] == b[0] {
      CompareIsOrder(a[1..], b[1..]);
      assert a == [a[0]] + a[1..] && b == [b[0]] + b[1..];
    }
  }

  ghost predicate Sorted(entries: seq<Entry>) {
    forall i, j :: 0 <= i < j < |entries| ==> Less(entries[i].name, entries[j].name)
  }

  // ---------------------------------------------------------------- classification

  function NameOf(r: Evidence, registry: map<Name, Name>): Option<Name> {
    if r.scope == Some(Private) then
      if |r.name| >= 7 && r.name[..7] == "wine_vk" && r.canonical == None then Some(r.name) else None
    else if r.canonical == None then None
    else if r.name in registry && registry[r.name] == r.canonical.value then r.canonical
    else None
  }

  function SupportOf(r: Evidence, triangle: set<Name>, additional: set<Name>): Option<Support> {
    if r.name in triangle + additional then
      if r.stages == 0 || (r.name in triangle && r.scope != Some(Device)) then None else Some(Executable)
    else if r.stages != 0 then Some(RequiredUnimplemented)
    else Some(ProbedNull)
  }

  function EntryOf(r: Evidence, registry: map<Name, Name>, triangle: set<Name>, additional: set<Name>): Option<Entry> {
    if r.scope == None || r.lookups <= 0 || NameOf(r, registry) == None || SupportOf(r, triangle, additional) == None then None
    else Some(Entry(r.name, NameOf(r, registry).value, r.scope.value, r.lookups, SupportOf(r, triangle, additional).value))
  }

  // When a measured command has no entry: its scope is no known word, nobody looked it up, its
  // canonical name is not the one it must have, or a name that is to be executable was never reached
  // or, in the triangle set, is no device command.
  lemma EntryIsRefusedOnlyFor(r: Evidence, registry: map<Name, Name>, triangle: set<Name>, additional: set<Name>)
    ensures EntryOf(r, registry, triangle, additional).None? <==>
      || r.scope.None? || r.lookups <= 0
      || (if r.scope == Some(Private) then r.canonical.Some? || |r.name| < 7 || r.name[..7] != "wine_vk"
          else r.canonical.None? || r.name !in registry || registry[r.name] != r.canonical.value)
      || (r.name in triangle && (r.stages == 0 || r.scope != Some(Device)))
      || (r.name in additional && r.stages == 0)
  {
  }

  // What an entry says: the command's own name, scope and count, a private command under its own name
  // and any other under its registered one; executable if and only if it is listed, and of the rest
  // required if and only if some stage reached it.
  lemma EntryMeans(r: Evidence, registry: map<Name, Name>, triangle: set<Name>, additional: set<Name>)
    requires EntryOf(r, registry, triangle, additional).Some?
    ensures var e := EntryOf(r, registry, triangle, additional).value;
      && e.name == r.name && r.scope == Some(e.scope) && e.lookups == r.lookups > 0
      && e.canonical == (if e.scope.Private? then r.name else if r.name in registry then registry[r.name] else [])
      && (e.support == Executable <==> r.name in triangle || r.name in additional)
      && (e.support == RequiredUnimplemented <==> e.support != Executable && r.stages > 0)
      && (e.support == ProbedNull <==> e.support != Executable && r.stages == 0)
  {
  }

  ghost predicate Consistent(records: seq<Evidence>, registry: map<Name, Name>, triangle: set<Name>, additional: set<Name>) {
    && triangle !! additional
    && (forall i :: 0 <= i < |records| ==> EntryOf(records[i], registry, triangle, additional).Some?)
    && (forall i, j :: 0 <= i < j < |records| ==> records[i].name != records[j].name)
    && (forall x :: x in triangle + additional ==> Measured(records, x))
  }

  predicate Measured(records: seq<Evidence>, x: Name) {
    exists i :: 0 <= i < |records| && records[i].name == x
  }

  // The table holds the entry of every record and nothing else, in strictly ascending order.
  ghost predicate TableOf(entries: seq<Entry>, records: seq<Evidence>, registry: map<Name, Name>, triangle: set<Name>, additional: set<Name>) {
    && Sorted(entries) && |entries| == |records|
    && forall e :: e in entries <==> exists i :: 0 <= i < |records| && EntryOf(records[i], registry, triangle, additional) == Some(e)
  }

  // ---------------------------------------------------------------- generation

  function Position(entries: seq<Entry>, x: Name): (k: nat)
    ensures k <= |entries|
    ensures forall i :: 0 <= i < k ==> Less(entries[i].name, x)
    ensures k < |entries| ==> !Less(entries[k].name, x)
  {
    if entries == [] || !Less(entries[0].name, x) then 0 else 1 + Position(entries[1..], x)
  }

  lemma InsertKeepsOrder(entries: seq<Entry>, e: Entry)
    requires Sorted(entries) && forall i :: 0 <= i < |entries| ==> entries[i].name != e.name
    ensures var k := Position(entries, e.name); Sorted(entries[..k] + [e] + entries[k..])
  {
    var k := Position(entries, e.name);
    forall i | k <= i < |entries| ensures Less(e.name, entries[i].name) {
      LessIsTotal(e.name, entries[k].name);
      if i > k { LessIsTransitive(e.name, entries[k].name, entries[i].name); }
    }
    PlaceKeepsOrder(entries, e, k);
  }

  lemma PlaceKeepsOrder(entries: seq<Entry>, e: Entry, k: nat)
    requires Sorted(entries) && k <= |entries|
    requires forall i :: 0 <= i < k ==> Less(entries[i].name, e.name)
    requires forall i :: k <= i < |entries| ==> Less(e.name, entries[i].name)
    ensures Sorted(entries[..k] + [e] + entries[k..])
  {
  }

  method SortByName(unsorted: seq<Entry>) returns (entries: seq<Entry>)
    requires forall i, j :: 0 <= i < j < |unsorted| ==> unsorted[i].name != unsorted[j].name
    ensures Sorted(entries) && |entries| == |unsorted|
    ensures forall e :: e in entries <==> e in unsorted
  {
    entries := [];
    for i := 0 to |unsorted|
      invariant Sorted(entries) && |entries| == i
      invariant forall e :: e in entries <==> e in unsorted[..i]
    {
      var e := unsorted[i];
      forall k | 0 <= k < |entries| ensures entries[k].name != e.name {
        assert entries[k] in unsorted[..i];
      }
      InsertKeepsOrder(entries, e);
      var k := Position(entries, e.name);
      assert entries == entries[..k] + entries[k..];
      assert unsorted[..i + 1] == unsorted[..i] + [e];
      entries := entries[..k] + [e] + entries[k..];
    }
    assert unsorted[..|unsorted|] == unsorted;
  }

  method Classify(records: seq<Evidence>, registry: map<Name, Name>, triangle: set<Name>, additional: set<Name>)
    returns (ok: bool, entries: seq<Entry>, seen: set<Name>)
    ensures ok <==>
      && (forall i :: 0 <= i < |records| ==> EntryOf(records[i], registry, triangle, additional).Some?)
      && (forall i, j :: 0 <= i < j < |records| ==> records[i].name != records[j].name)
    ensures ok ==>
      && |entries| == |records|
      && (forall i :: 0 <= i < |records| ==> EntryOf(records[i], registry, triangle, additional) == Some(entries[i]))
      && (forall x :: x in seen <==> Measured(records, x))
  {
    entries, seen := [], {};
    for i := 0 to |records|
      invariant |entries| == i
      invariant forall k :: 0 <= k < i ==> EntryOf(records[k], registry, triangle, additional) == Some(entries[k])
      invariant forall j, k :: 0 <= j < k < i ==> records[j].name != records[k].name
      invariant forall x :: x in seen <==> exists k :: 0 <= k < i && records[k].name == x
    {
      var r := records[i];
      if r.scope == None || r.lookups <= 0 || r.name in seen {
        return false, entries, seen;
      }
      seen := seen + {r.name};
      var canonical := NameOf(r, registry);
      if canonical == None {
        return false, entries, seen;
      }
      var support := SupportOf(r, triangle, additional);
      if support == None {
        return false, entries, seen;
      }
      entries := entries + [Entry(r.name, canonical.value, r.scope.value, r.lookups, support.value)];
    }
    ok := true;
  }

  method Generate(records: seq<Evidence>, registry: map<Name, Name>, triangle: set<Name>, additional: set<Name>)
    returns (policy: Policy)
    ensures policy.Table? <==> Consistent(records, registry, triangle, additional)
    ensures policy.Table? ==> TableOf(policy.entries, records, registry, triangle, additional)
  {
    if !(triangle !! additional) {
      return Refused;
    }
    var ok, entries, seen := Classify(records, registry, triangle, additional);
    if !ok {
      return Refused;
    }
    if !(triangle + additional <= seen) {
      return Refused;
    }
    var sorted := SortByName(entries);
    policy := Table(sorted);
  }

  // ---------------------------------------------------------------- lookup

  method Lookup(entries: seq<Entry>, name: Name) returns (found: Option<Entry>)
    requires Sorted(entries)
    ensures found.Some? <==> exists i :: 0 <= i < |entries| && entries[i].name == name
    ensures found.Some? ==> found.value in entries && found.value.name == name
    ensures found.Some? ==> forall e :: e in entries && e.name == name ==> e == found.value
  {
    var lower, upper := 0, |entries|;
    while lower < upper
      invariant 0 <= lower <= upper <= |entries|
      invariant forall i :: 0 <= i < lower ==> Less(entries[i].name, name)
      invariant forall i :: upper <= i < |entries| ==> Less(name, entries[i].name)
    {
      var middle := lower + (upper - lower) / 2;
      var comparison := Compare(name, entries[middle].name);
      CompareIsOrder(name, entries[middle].name);
      if comparison == 0 {
        OnlyOneEntry(entries, middle);
        return Some(entries[middle]);
      }
      LessIsTotal(name, entries[middle].name);
      if comparison < 0 {
        forall i | middle <= i < |entries| ensures Less(name, entries[i].name) {
          if i > middle { LessIsTransitive(name, entries[middle].name, entries[i].name); }
        }
        upper := middle;
      } else {
        forall i | 0 <= i <= middle ensures Less(entries[i].name, name) {
          if i < middle { LessIsTransitive(entries[i].name, entries[middle].name, name); }
        }
        lower := middle + 1;
      }
    }
    LessIsTotal(name, name);
    found := None;
  }

  lemma OnlyOneEntry(entries: seq<Entry>, k: nat)
    requires Sorted(entries) && k < |entries|
    ensures forall e :: e in entries && e.name == entries[k].name ==> e == entries[k]
  {
    LessIsTotal(entries[k].name, entries[k].name);
  }

  // From the registry and the evidence to an answer: resolution fails exactly when an alias chain
  // has no end, generation exactly when the evidence is inconsistent with the resolved names, and
  // otherwise a name is found exactly when it was measured, with the entry of that measurement.
  method Answer(nodes: seq<Node>, records: seq<Evidence>, triangle: set<Name>, additional: set<Name>, name: Name)
    returns (outcome: Outcome, policy: Policy, found: Option<Entry>)
    requires UniqueNames(nodes)
    ensures IsRight(nodes, outcome)
    ensures outcome.Resolved? ==> (policy.Table? <==> Consistent(records, outcome.names, triangle, additional))
    ensures outcome.Resolved? && policy.Table? ==>
      match found
      case None => !Measured(records, name)
      case Some(e) => exists i :: 0 <= i < |records| && records[i].name == name && EntryOf(records[i], outcome.names, triangle, additional) == found
  {
    policy, found := Refused, None;
    outcome := CanonicalNames(nodes);
    if outcome.Resolved? {
      policy := Generate(records, outcome.names, triangle, additional);
      if policy.Table? {
        found := Lookup(policy.entries, name);
        if Measured(records, name) {
          var i :| 0 <= i < |records| && records[i].name == name;
          var e := EntryOf(records[i], outcome.names, triangle, additional).value;
          assert e in policy.entries;
        }
      }
    }
  }
}
