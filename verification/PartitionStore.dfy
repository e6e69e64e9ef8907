/**
 The partition store of internal/platform/partitions.go: which partitions exist, whether the
 platform manages them, and which nodes they should have.
 */
module PartitionStore {
  import opened Wrappers
  import opened Text
  import opened Sorting

  datatype Spec = Spec(name: string, nodes: seq<string>, managed: bool, createdAt: int, updatedAt: int)
  datatype Patch = Patch(added: seq<string>, removed: seq<string>)
  datatype Change = Change(spec: Spec, created: bool, updated: bool, patch: Patch)

  datatype Error = InvalidName | NoNodes | InvalidNode | DuplicateNode | ReadOnly | AlreadyManaged | Database

  const NO_PATCH := Patch([], [])

  predicate Forbidden(c: char) {
    c == '/' || c == '\\' || c == '\0' || c == '\r' || c == '\n' || c == '\t' || c == ' '
  }

  predicate ValidIdentifier(value: string) {
    && value != "" && Utf8Length(value) <= 64 && value != "." && value != ".." && TrimSpace(value) == value
    && forall i | 0 <= i < |value| :: !Forbidden(value[i])
  }

  // ---------------------------------------------------------------------------------------
  // Node lists.

  function Trimmed(nodes: seq<string>): seq<string> {
    seq(|nodes|, i requires 0 <= i < |nodes| => TrimSpace(nodes[i]))
  }

  /** The node lists that can be stored. */
  predicate Storable(nodes: seq<string>) {
    && (forall i | 0 <= i < |nodes| :: ValidIdentifier(TrimSpace(nodes[i])))
    && Distinct(Trimmed(nodes))
  }

  function Normalized(nodes: seq<string>): seq<string> {
    SortBy(Trimmed(nodes), StringLess)
  }

  /** A list that normalizing leaves alone. */
  predicate Normal(nodes: seq<string>) {
    Ascending(nodes, StringLess) && forall i | 0 <= i < |nodes| :: ValidIdentifier(nodes[i])
  }

  method NormalizePartitionNodes(nodes: seq<string>) returns (r: Result<seq<string>, Error>)
    ensures r.Ok? <==> Storable(nodes)
    ensures r.Ok? ==> r.value == Normalized(nodes)
  {
    var normalized: seq<string> := [];
    var seen: set<string> := {};
    for i := 0 to |nodes|
      invariant normalized == Trimmed(nodes)[..i]
      invariant seen == Elements(normalized)
      invariant forall j | 0 <= j < i :: ValidIdentifier(TrimSpace(nodes[j]))
      invariant Distinct(normalized)
    {
      var node := TrimSpace(nodes[i]);
      assert Trimmed(nodes)[i] == node;
      if !ValidIdentifier(node) {
        return Err(InvalidNode);
      }
      if node in seen {
        var j :| 0 <= j < i && normalized[j] == node;
        assert Trimmed(nodes)[j] == Trimmed(nodes)[i];
        return Err(DuplicateNode);
      }
      ghost var before := normalized;
      seen := seen + {node};
      normalized := normalized + [node];
      assert Elements(normalized) == Elements(before) + {node};
    }
    assert normalized == Trimmed(nodes);
    return Ok(SortBy(normalized, StringLess));
  }

  lemma NormalizedIsNormal(nodes: seq<string>)
    requires Storable(nodes)
    ensures Normal(Normalized(nodes))
    ensures Elements(Normalized(nodes)) == Elements(Trimmed(nodes))
    ensures nodes != [] ==> Normalized(nodes) != []
  {
    var t := Trimmed(nodes);
    StringOrder(Elements(t));
    SortBySorts(t, StringLess);
    forall i | 0 <= i < |Normalized(nodes)| ensures ValidIdentifier(Normalized(nodes)[i]) {
      assert Normalized(nodes)[i] in Elements(t);
    }
  }

  /** Reading a stored list back, which normalizes it again, gives the same list. */
  lemma NormalStaysNormal(nodes: seq<string>)
    requires Normal(nodes)
    ensures Storable(nodes) && Normalized(nodes) == nodes
  {
    assert Trimmed(nodes) == nodes;
    StringOrder(Elements(nodes));
    forall i, j | 0 <= i < j < |nodes| ensures nodes[i] != nodes[j] {
      assert StringLess(nodes[i], nodes[j]);
    }
    SortBySorts(nodes, StringLess);
    AscendingIsUnique(nodes, Normalized(nodes), StringLess);
  }

  method DiffPartitionNodes(existing: seq<string>, desired: seq<string>) returns (patch: Patch)
    ensures Elements(patch.added) == Elements(desired) - Elements(existing)
    ensures Elements(patch.removed) == Elements(existing) - Elements(desired)
    ensures patch == PatchOf(existing, desired)
  {
    var existingSet := ToSet(existing);
    var desiredSet := ToSet(desired);
    var added := Missing(desired, existingSet);
    var removed := Missing(existing, desiredSet);
    return Patch(added, removed);
  }

  method ToSet(nodes: seq<string>) returns (s: set<string>)
    ensures s == Elements(nodes)
  {
    s := {};
    for i := 0 to |nodes|
      invariant s == set k | 0 <= k < i :: nodes[k]
    {
      s := s + {nodes[i]};
    }
  }

  /** The nodes outside `present`, in their order. */
  function Outside(nodes: seq<string>, present: set<string>): seq<string> {
    if nodes == [] then []
    else Outside(nodes[..|nodes| - 1], present) + if nodes[|nodes| - 1] in present then [] else [nodes[|nodes| - 1]]
  }

  function PatchOf(existing: seq<string>, desired: seq<string>): Patch {
    Patch(Outside(desired, Elements(existing)), Outside(existing, Elements(desired)))
  }

  method Missing(nodes: seq<string>, present: set<string>) returns (missing: seq<string>)
    ensures missing == Outside(nodes, present) && Elements(missing) == Elements(nodes) - present
  {
    missing := [];
    for i := 0 to |nodes|
      invariant missing == Outside(nodes[..i], present)
    {
      assert nodes[..i + 1][..i] == nodes[..i];
      if nodes[i] !in present {
        missing := missing + [nodes[i]];
      }
    }
    assert nodes[..|nodes|] == nodes;
    OutsideElements(nodes, present);
  }

  lemma {:induction false} OutsideElements(nodes: seq<string>, present: set<string>)
    ensures Elements(Outside(nodes, present)) == Elements(nodes) - present
  {
    if nodes != [] {
      var front, last := nodes[..|nodes| - 1], nodes[|nodes| - 1];
      OutsideElements(front, present);
      assert nodes == front + [last];
      AppendedElements(front, [last]);
      AppendedElements(Outside(front, present), if last in present then [] else [last]);
    }
  }

  /** The patch leads from the existing nodes to the desired ones, and is empty exactly when the
      normalized lists are equal. */
  lemma PatchLeadsTo(existing: seq<string>, desired: seq<string>)
    requires Normal(existing) && Normal(desired)
    ensures var p := PatchOf(existing, desired);
      && Elements(existing) - Elements(p.removed) + Elements(p.added) == Elements(desired)
      && (p == NO_PATCH <==> existing == desired)
  {
    var p := PatchOf(existing, desired);
    OutsideElements(desired, Elements(existing));
    OutsideElements(existing, Elements(desired));
    EmptyElements(p.added);
    EmptyElements(p.removed);
    if p == NO_PATCH {
      StringOrder(Elements(existing));
      AscendingIsUnique(existing, desired, StringLess);
    }
  }

  // ---------------------------------------------------------------------------------------
  // The store.

  datatype Entry = Entry(managed: bool, nodes: seq<string>, createdAt: int, updatedAt: int)

  type Store = map<string, Entry>

  ghost predicate WellKept(v: Store) {
    forall name | name in v :: ValidIdentifier(name) && Normal(v[name].nodes) && v[name].nodes != []
  }

  function SpecOf(name: string, e: Entry): Spec {
    Spec(name, e.nodes, e.managed, e.createdAt, e.updatedAt)
  }

  /** Why a partition cannot be saved, if so. */
  predicate Savable(v: Store, name: string, nodes: seq<string>, managed: bool) {
    && ValidIdentifier(name) && nodes != [] && Storable(nodes)
    && (name in v ==> v[name].managed == managed)
  }

  function Saved(v: Store, name: string, nodes: seq<string>, managed: bool, now: int): Store {
    var desired := Normalized(nodes);
    if name !in v then v[name := Entry(managed, desired, now, now)]
    else if v[name].nodes == desired then v
    else v[name := v[name].(nodes := desired, updatedAt := now)]
  }

  function ChangeOf(v: Store, name: string, nodes: seq<string>, managed: bool, now: int): Change {
    var desired := Normalized(nodes);
    if name !in v then Change(Spec(name, desired, managed, now, now), true, false, NO_PATCH)
    else if v[name].nodes == desired then Change(SpecOf(name, v[name]), false, false, NO_PATCH)
    else Change(Spec(name, desired, managed, v[name].createdAt, now), false, true, PatchOf(v[name].nodes, desired))
  }

  datatype Row = Row(source: string, createdAt: int, updatedAt: int)

  class PartitionTable {
    var partitions: map<string, Row>
    var nodes: map<string, seq<string>>      // in node order

    ghost predicate Valid()
      reads this
    {
      && partitions.Keys == nodes.Keys
      && (forall name | name in partitions ::
        partitions[name].source == "managed" || partitions[name].source == "system")
      && WellKept(View())
    }

    ghost function View(): Store
      reads this
    {
      map name | name in partitions && name in nodes ::
        Entry(partitions[name].source == "managed", nodes[name], partitions[name].createdAt, partitions[name].updatedAt)
    }

    constructor ()
      ensures Valid() && View() == map[]
    {
      partitions, nodes := map[], map[];
    }

    /** `loadPartition`: the nodes are normalized again as they are read. */
    method Load(name: string) returns (spec: Option<Spec>)
      requires Valid()
      ensures spec == if name in View() then Some(SpecOf(name, View()[name])) else None
    {
      if name !in partitions {
        return None;
      }
      var row := partitions[name];
      NormalStaysNormal(View()[name].nodes);
      var read := NormalizePartitionNodes(nodes[name]);
      return Some(Spec(name, read.value, row.source == "managed", row.createdAt, row.updatedAt));
    }

    /** `fails` says that the database fails and the transaction is rolled back. */
    method Upsert(name: string, wanted: seq<string>, source: string, now: int, fails: bool)
      returns (r: Result<Change, Error>)
      requires Valid() && (source == "managed" || source == "system")
      modifies this
      ensures Valid()
      ensures r.Ok? <==> !fails && Savable(old(View()), name, wanted, source == "managed")
      ensures r.Ok? ==> r.value == ChangeOf(old(View()), name, wanted, source == "managed", now)
      ensures View() == if r.Ok? then Saved(old(View()), name, wanted, source == "managed", now) else old(View())
    {
      hide ValidIdentifier, Storable, Normal, StringLess;
      if !ValidIdentifier(name) {
        return Err(InvalidName);
      }
      if |wanted| == 0 {
        return Err(NoNodes);
      }
      var normalized := NormalizePartitionNodes(wanted);
      if normalized.Err? {
        return Err(normalized.error);
      }
      if fails {
        return Err(Database);
      }
      NormalizedIsNormal(wanted);
      var desired := normalized.value;
      var existing := Load(name);
      var managed := source == "managed";
      if existing.Some? {
        if existing.value.managed != managed {
          return Err(if managed then ReadOnly else AlreadyManaged);
        }
        PatchLeadsTo(existing.value.nodes, desired);
        var patch := DiffPartitionNodes(existing.value.nodes, desired);
        if |patch.added| == 0 && |patch.removed| == 0 {
          return Ok(Change(existing.value, false, false, NO_PATCH));
        }
        Write(name, Row(source, partitions[name].createdAt, now), desired);
        return Ok(Change(Spec(name, desired, managed, existing.value.createdAt, now), false, true, patch));
      }
      Write(name, Row(source, now, now), desired);
      return Ok(Change(Spec(name, desired, managed, now, now), true, false, NO_PATCH));
    }

    /** The statements that write the partition's row and replace its node rows. */
    method Write(name: string, row: Row, desired: seq<string>)
      requires Valid() && (row.source == "managed" || row.source == "system")
      requires ValidIdentifier(name) && Normal(desired) && desired != []
      modifies this
      ensures Valid()
      ensures View() == old(View())[name := Entry(row.source == "managed", desired, row.createdAt, row.updatedAt)]
    {
      partitions := partitions[name := row];
      var stored: seq<string> := [];
      for i := 0 to |desired|
        invariant stored == desired[..i]
      {
        stored := stored + [desired[i]];
      }
      assert stored == desired;
      nodes := nodes[name := stored];
      assert View() == old(View())[name := Entry(row.source == "managed", desired, row.createdAt, row.updatedAt)];
    }

    method DeleteManaged(name: string, fails: bool) returns (r: Result<(), Error>)
      requires Valid()
      modifies this
      ensures Valid()
      ensures r.Ok? <==> ValidIdentifier(name) && !fails && (name in old(View()) ==> old(View())[name].managed)
      ensures View() == if r.Ok? then old(View()) - {name} else old(View())
    {
      hide ValidIdentifier, Normal;
      if !ValidIdentifier(name) {
        return Err(InvalidName);
      }
      if fails {
        return Err(Database);
      }
      var existing := Load(name);
      if existing.None? {
        assert View() - {name} == View();
        return Ok(());
      }
      if !existing.value.managed {
        return Err(ReadOnly);
      }
      partitions := partitions - {name};
      nodes := nodes - {name};
      assert View() == old(View()) - {name};
      return Ok(());
    }

    /** `ListManaged`, in the order of the names. */
    method ListManaged() returns (specs: seq<Spec>)
      requires Valid()
      ensures forall i | 0 <= i < |specs| ::
        specs[i].name in View() && View()[specs[i].name].managed
          && specs[i] == SpecOf(specs[i].name, View()[specs[i].name])
      ensures forall name | name in View() && View()[name].managed ::
        exists i :: 0 <= i < |specs| && specs[i].name == name
      ensures forall i, j | 0 <= i < j < |specs| :: StringLess(specs[i].name, specs[j].name)
    {
      var names := ManagedNames();
      hide Valid, View, StringLess, SpecOf;
      specs := [];
      for i := 0 to |names|
        invariant |specs| == i
        invariant forall j | 0 <= j < i :: specs[j].name == names[j]
        invariant forall j | 0 <= j < i ::
          specs[j].name in View() && View()[specs[j].name].managed
            && specs[j] == SpecOf(specs[j].name, View()[specs[j].name])
      {
        assert names[i] in Elements(names);
        var spec := Load(names[i]);
        specs := specs + [spec.value];
      }
      forall name | name in View() && View()[name].managed
        ensures exists i :: 0 <= i < |specs| && specs[i].name == name
      {
        assert name in Elements(names);
        var i :| 0 <= i < |names| && names[i] == name;
        assert specs[i].name == name;
      }
    }

    method ManagedNames() returns (names: seq<string>)
      requires Valid()
      ensures Ascending(names, StringLess)
      ensures Elements(names) == set name | name in View() && View()[name].managed
    {
      names := [];
      var rest := partitions.Keys;
      while rest != {}
        invariant rest <= partitions.Keys
        invariant Distinct(names)
        invariant Elements(names) == set name | name in View() && name !in rest && View()[name].managed
        decreases rest
      {
        var name :| name in rest;
        rest := rest - {name};
        if partitions[name].source == "managed" {
          assert name !in Elements(names);
          ghost var before := names;
          names := names + [name];
          assert Elements(names) == Elements(before) + {name};
        }
      }
      StringOrder(Elements(names));
      SortBySorts(names, StringLess);
      names := SortBy(names, StringLess);
    }
  }

  // ---------------------------------------------------------------------------------------
  // What the store promises.

  predicate Letter(c: char) {
    'a' <= c <= 'z' || 'A' <= c <= 'Z' || '0' <= c <= '9' || c == '-' || c == '_'
  }

  predicate PlainName(s: string) {
    1 <= |s| <= 64 && forall i | 0 <= i < |s| :: Letter(s[i])
  }

  /** A new partition can be saved under every plain name with any plain and different nodes, whatever blanks are
      around these. */
  lemma PlainIsSavable(v: Store, name: string, nodes: seq<string>)
    requires PlainName(name) && name !in v && nodes != []
    requires forall i | 0 <= i < |nodes| :: PlainName(TrimSpace(nodes[i]))
    requires forall i, j | 0 <= i < j < |nodes| :: TrimSpace(nodes[i]) != TrimSpace(nodes[j])
    ensures Savable(v, name, nodes, true)
  {
    PlainIsValid(name);
    forall i | 0 <= i < |nodes| ensures ValidIdentifier(TrimSpace(nodes[i])) {
      PlainIsValid(TrimSpace(nodes[i]));
    }
    hide ValidIdentifier, TrimSpace, PlainName;
    var t := Trimmed(nodes);
    forall i, j | 0 <= i < j < |t| ensures t[i] != t[j] {
      assert t[i] == TrimSpace(nodes[i]) && t[j] == TrimSpace(nodes[j]);
    }
  }

  lemma PlainIsValid(s: string)
    requires PlainName(s)
    ensures ValidIdentifier(s)
  {
    assert Letter(s[0]) && Letter(s[|s| - 1]);
    BareIsTrimmed(s);
    AsciiLength(s);
    hide TrimSpace, Utf8Length;
  }

  /** What was saved reads back as the normalized nodes under the same source, whatever was there. */
  lemma SavedReadsBack(v: Store, name: string, nodes: seq<string>, managed: bool, now: int)
    requires WellKept(v) && Savable(v, name, nodes, managed)
    ensures var v' := Saved(v, name, nodes, managed, now);
      && name in v' && v'[name].nodes == Normalized(nodes) && v'[name].managed == managed
      && Elements(v'[name].nodes) == Elements(Trimmed(nodes))
      && v' - {name} == v - {name}
  {
    NormalizedIsNormal(nodes);
  }

  /** Saving again, at any time and in any order of the nodes, changes nothing. */
  lemma SavingAgainChangesNothing(v: Store, name: string, nodes: seq<string>, again: seq<string>, managed: bool,
                                  now: int, later: int)
    requires WellKept(v) && Savable(v, name, nodes, managed)
    requires Storable(again) && Elements(Trimmed(again)) == Elements(Trimmed(nodes))
    ensures var v' := Saved(v, name, nodes, managed, now);
      && Savable(v', name, again, managed)
      && Saved(v', name, again, managed, later) == v'
      && var c := ChangeOf(v', name, again, managed, later); !c.created && !c.updated && c.patch == NO_PATCH
  {
    NormalizedIsNormal(nodes);
    NormalizedIsNormal(again);
    StringOrder(Elements(Normalized(nodes)));
    AscendingIsUnique(Normalized(nodes), Normalized(again), StringLess);
    if again == [] {
      EmptyElements(Trimmed(again));
      EmptyElements(Trimmed(nodes));
    }
  }

  /** The patch of an update leads from the stored nodes to the wanted ones, and is never empty. */
  lemma UpdatePatches(v: Store, name: string, nodes: seq<string>, managed: bool, now: int)
    requires WellKept(v) && Savable(v, name, nodes, managed) && name in v
    ensures var c := ChangeOf(v, name, nodes, managed, now);
      && !c.created
      && Elements(v[name].nodes) - Elements(c.patch.removed) + Elements(c.patch.added) == Elements(Trimmed(nodes))
      && (c.updated <==> c.patch != NO_PATCH)
  {
    NormalizedIsNormal(nodes);
    PatchLeadsTo(v[name].nodes, Normalized(nodes));
  }

  datatype Op = Save(name: string, nodes: seq<string>, managed: bool, now: int) | Delete(name: string)

  /** One operation on the store, refused or not. */
  function Applied(v: Store, op: Op): Store {
    match op
    case Save(name, nodes, managed, now) =>
      if Savable(v, name, nodes, managed) then Saved(v, name, nodes, managed, now) else v
    case Delete(name) => if ValidIdentifier(name) && name in v && v[name].managed then v - {name} else v
  }

  function AppliedAll(v: Store, ops: seq<Op>): Store {
    if ops == [] then v else Applied(AppliedAll(v, ops[..|ops| - 1]), ops[|ops| - 1])
  }

  /** Between its creation and its deletion a partition keeps its source and its creation time;
      a system partition is never deleted at all. */
  lemma {:induction false} SourceIsFixed(v: Store, ops: seq<Op>, name: string)
    requires name in v
    requires name in AppliedAll(v, ops) && forall k | 0 <= k < |ops| :: name in AppliedAll(v, ops[..k])
    ensures AppliedAll(v, ops)[name].managed == v[name].managed
    ensures AppliedAll(v, ops)[name].createdAt == v[name].createdAt
  {
    if ops != [] {
      var front := ops[..|ops| - 1];
      forall k | 0 <= k < |front| ensures name in AppliedAll(v, front[..k]) {
        assert front[..k] == ops[..k];
      }
      SourceIsFixed(v, front, name);
    }
  }

  lemma {:induction false} SystemPartitionsStay(v: Store, ops: seq<Op>, name: string)
    requires name in v && !v[name].managed
    ensures name in AppliedAll(v, ops) && !AppliedAll(v, ops)[name].managed
  {
    if ops != [] {
      SystemPartitionsStay(v, ops[..|ops| - 1], name);
    }
  }

  /** Putting back a partition just deleted restores its nodes and its source, but it counts as
      created anew. */
  lemma RestoringADeleted(v: Store, name: string, now: int)
    requires WellKept(v) && name in v && v[name].managed
    ensures Savable(v - {name}, name, v[name].nodes, true)
    ensures Saved(v - {name}, name, v[name].nodes, true, now) == v[name := v[name].(createdAt := now, updatedAt := now)]
  {
    NormalStaysNormal(v[name].nodes);
  }
}
