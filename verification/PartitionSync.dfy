/**
 Keeping Slurm in step with the partition store: the commands of internal/slurm/partition_admin.go
 and the requests of internal/web/partitions.go, which undo a deletion that Slurm refuses.  A command
 that fails may still have taken effect.
 */
module PartitionSync {
  import opened Wrappers
  import opened Text
  import opened Sorting
  import opened PartitionStore

  datatype Outcome = Works | FailsWithEffect | FailsWithoutEffect

  // ---------------------------------------------------------------------------------------
  // Slurm.

  predicate Separator(c: char) {
    c == ',' || c == ' ' || c == '\t' || c == '\r' || c == '\n'
  }

  predicate Plain(s: string) {
    ValidDetail(s) && forall i | 0 <= i < |s| :: !Separator(s[i])
  }

  /** `validatePartitionDefinition`. */
  predicate ValidDefinition(name: string, nodes: seq<string>) {
    TrimSpace(name) != "" && nodes != [] && Plain(name) && (forall i | 0 <= i < |nodes| :: Plain(nodes[i]))
      && Distinct(nodes)
  }

  type Partitions = map<string, seq<string>>

  function ComingOf(outcomes: seq<Outcome>, i: nat): Outcome {
    if i < |outcomes| then outcomes[i] else Works
  }

  /** The outcomes that come after `k` commands. */
  function Later(outcomes: seq<Outcome>, k: nat): seq<Outcome> {
    if k <= |outcomes| then outcomes[k..] else []
  }

  lemma LaterComing(outcomes: seq<Outcome>, k: nat, i: nat)
    ensures ComingOf(Later(outcomes, k), i) == ComingOf(outcomes, k + i)
  {
  }

  lemma LaterStill(outcomes: seq<Outcome>, k: nat, m: nat)
    ensures Later(Later(outcomes, k), m) == Later(outcomes, k + m)
  {
  }

  /** Applying the definition succeeds, when command k is the first for it: the creation does, or else the
      update of a partition that is there by then. */
  predicate AppliesAt(partitions: Partitions, outcomes: seq<Outcome>, name: string, nodes: seq<string>, k: nat) {
    && ValidDefinition(name, nodes)
    && var first, second := ComingOf(outcomes, k), ComingOf(outcomes, k + 1);
    if name in partitions then second.Works? else first.Works? || (first.FailsWithEffect? && second.Works?)
  }

  /** Applying the definition takes effect, though it may be reported as failed. */
  predicate HoldsAt(partitions: Partitions, outcomes: seq<Outcome>, name: string, nodes: seq<string>, k: nat) {
    ValidDefinition(name, nodes) && !ComingOf(outcomes, if name in partitions then k + 1 else k).FailsWithoutEffect?
  }

  /** The commands that applying a valid definition takes. */
  function CommandsAt(partitions: Partitions, outcomes: seq<Outcome>, name: string, k: nat): nat {
    if name !in partitions && ComingOf(outcomes, k).Works? then 1 else 2
  }

  /** Slurm's partitions, and how the next commands will turn out. */
  class SlurmAdmin {
    var partitions: map<string, seq<string>>
    var outcomes: seq<Outcome>
    ghost var created: set<string>       // the partitions the platform has created in Slurm

    constructor (partitions: map<string, seq<string>>, outcomes: seq<Outcome>)
      ensures this.partitions == partitions && this.outcomes == outcomes && created == {}
    {
      this.partitions, this.outcomes, created := partitions, outcomes, {};
    }

    function Coming(i: nat): Outcome
      reads this`outcomes
    {
      ComingOf(outcomes, i)
    }

    method NextOutcome() returns (o: Outcome)
      modifies this`outcomes
      ensures o == old(Coming(0)) && outcomes == Later(old(outcomes), 1)
    {
      o := Coming(0);
      outcomes := if outcomes == [] then [] else outcomes[1..];
    }

    /** scontrol create: Slurm refuses a name it has. */
    method Create(name: string, nodes: seq<string>) returns (ok: bool)
      modifies this
      ensures outcomes == Later(old(outcomes), 1)
      ensures ok <==> name !in old(partitions) && old(Coming(0)).Works?
      ensures var effect := name !in old(partitions) && !old(Coming(0)).FailsWithoutEffect?;
        && partitions == (if effect then old(partitions)[name := nodes] else old(partitions))
        && created == (if effect then old(created) + {name} else old(created))
    {
      var o := NextOutcome();
      if name in partitions || o.FailsWithoutEffect? {
        return false;
      }
      partitions := partitions[name := nodes];
      created := created + {name};
      return o.Works?;
    }

    /** scontrol update: Slurm refuses a name it does not have. */
    method Update(name: string, nodes: seq<string>) returns (ok: bool)
      modifies this`partitions, this`outcomes
      ensures outcomes == Later(old(outcomes), 1)
      ensures ok <==> name in old(partitions) && old(Coming(0)).Works?
      ensures var effect := name in old(partitions) && !old(Coming(0)).FailsWithoutEffect?;
        partitions == if effect then old(partitions)[name := nodes] else old(partitions)
    {
      var o := NextOutcome();
      if name !in partitions || o.FailsWithoutEffect? {
        return false;
      }
      partitions := partitions[name := nodes];
      return o.Works?;
    }

    /** scontrol delete: Slurm refuses a name it does not have. */
    method Delete(name: string) returns (ok: bool)
      modifies this
      ensures ok <==> name in old(partitions) && old(Coming(0)).Works?
      ensures var effect := name in old(partitions) && !old(Coming(0)).FailsWithoutEffect?;
        && partitions == (if effect then old(partitions) - {name} else old(partitions))
        && created == (if effect then old(created) - {name} else old(created))
    {
      var o := NextOutcome();
      if name !in partitions || o.FailsWithoutEffect? {
        return false;
      }
      partitions := partitions - {name};
      created := created - {name};
      return o.Works?;
    }

    ghost predicate WillApply(name: string, nodes: seq<string>)
      reads this
    {
      AppliesAt(partitions, outcomes, name, nodes, 0)
    }

    /** Applying the definition will take effect, though it may be reported as failed. */
    ghost predicate WillHold(name: string, nodes: seq<string>)
      reads this
    {
      HoldsAt(partitions, outcomes, name, nodes, 0)
    }

    /** Creates the partition, or else updates it.  Nothing else changes, and an invalid definition
        never reaches Slurm. */
    method ApplyPartition(name: string, nodes: seq<string>) returns (ok: bool)
      modifies this
      ensures ok <==> old(WillApply(name, nodes))
      ensures partitions == if old(WillHold(name, nodes)) then old(partitions)[name := nodes] else old(partitions)
      ensures created ==
        if old(WillHold(name, nodes)) && name !in old(partitions) then old(created) + {name} else old(created)
      ensures ok ==> name in partitions && partitions[name] == nodes
      ensures ok || ValidDefinition(name, nodes) ==>
        outcomes == Later(old(outcomes), CommandsAt(old(partitions), old(outcomes), name, 0))
      ensures !ValidDefinition(name, nodes) ==> outcomes == old(outcomes)
    {
      hide ValidDefinition;
      LaterStill(outcomes, 1, 1);
      LaterComing(outcomes, 1, 0);
      ok := ValidatePartitionDefinition(name, nodes);
      if !ok {
        return;
      }
      ok := Create(name, nodes);
      if ok {
        return;
      }
      ok := Update(name, nodes);
    }

    predicate Deletable(name: string)
      reads this
    {
      TrimSpace(name) != "" && Plain(name) && name in partitions
    }

    method DeletePartition(name: string) returns (ok: bool)
      modifies this
      ensures ok <==> old(Deletable(name)) && old(Coming(0)).Works?
      ensures var effect := old(Deletable(name)) && !old(Coming(0)).FailsWithoutEffect?;
        && partitions == (if effect then old(partitions) - {name} else old(partitions))
        && created == (if effect then old(created) - {name} else old(created))
    {
      if TrimSpace(name) == "" || !Plain(name) {
        return false;
      }
      ok := Delete(name);
    }
  }

  method ValidatePartitionDefinition(name: string, nodes: seq<string>) returns (ok: bool)
    ensures ok <==> ValidDefinition(name, nodes)
  {
    if TrimSpace(name) == "" || |nodes| == 0 || !Plain(name) || exists i | 0 <= i < |nodes| :: !Plain(nodes[i]) {
      return false;
    }
    var seen: set<string> := {};
    for i := 0 to |nodes|
      invariant seen == set k | 0 <= k < i :: nodes[k]
      invariant forall j, k | 0 <= j < k < i :: nodes[j] != nodes[k]
    {
      if nodes[i] in seen {
        return false;
      }
      seen := seen + {nodes[i]};
    }
    return true;
  }

  function Lookup<T>(m: map<string, T>, key: string): Option<T> {
    if key in m then Some(m[key]) else None
  }

  // ---------------------------------------------------------------------------------------
  // The requests.

  datatype Reply = BadRequest | StoreFailed | SyncFailed | Saved | Deleted | Unchanged | NotAllowed

  /** A name and at least one node, all of them live. */
  predicate Chosen(name: string, selected: seq<string>, liveNodes: set<string>) {
    name != "" && selected != [] && forall i | 0 <= i < |selected| :: selected[i] in liveNodes
  }

  class Application {
    const store: PartitionTable
    const admin: SlurmAdmin

    constructor (store: PartitionTable, admin: SlurmAdmin)
      requires store.Valid()
      ensures this.store == store && this.admin == admin
    {
      this.store, this.admin := store, admin;
    }

    /** Slurm holds no partition of the platform's making that the store does not know as managed. */
    ghost predicate NoOrphans()
      reads store, admin
    {
      forall name | name in admin.created && name in admin.partitions ::
        name in store.View() && store.View()[name].managed
    }

    /** The request is well-formed and the store will take it. */
    ghost predicate WillStore(name: string, selected: seq<string>, liveNodes: set<string>, storeFails: bool)
      reads store
    {
      Chosen(name, selected, liveNodes) && !storeFails && Savable(store.View(), name, selected, true)
    }

    method SavePartition(rawName: string, selected: seq<string>, liveNodes: set<string>, now: int, storeFails: bool)
      returns (reply: Reply)
      requires store.Valid()
      modifies store, admin
      ensures store.Valid() && (old(NoOrphans()) ==> NoOrphans())
      ensures reply == BadRequest <==> !Chosen(TrimSpace(rawName), selected, liveNodes)
      ensures var name := TrimSpace(rawName);
        && var stored := old(WillStore(name, selected, liveNodes, storeFails));
        && (reply == Saved <==> stored && old(admin.WillApply(name, selected)))
        && (reply == SyncFailed <==> stored && !old(admin.WillApply(name, selected)))
        && admin.outcomes ==
           (if stored && ValidDefinition(name, selected)
            then Later(old(admin.outcomes), CommandsAt(old(admin.partitions), old(admin.outcomes), name, 0))
            else old(admin.outcomes))
        && store.View() ==
           (if stored then PartitionStore.Saved(old(store.View()), name, selected, true, now) else old(store.View()))
        && admin.partitions ==
           (if stored && old(admin.WillHold(name, selected)) then old(admin.partitions)[name := selected]
            else old(admin.partitions))
        && admin.created == (if stored && old(admin.WillHold(name, selected)) && name !in old(admin.partitions)
                             then old(admin.created) + {name} else old(admin.created))
      ensures reply == Saved ==>
        && var name := TrimSpace(rawName);
        && name in store.View() && store.View()[name].managed
          && Elements(store.View()[name].nodes) == Elements(Trimmed(selected))
        && name in admin.partitions && admin.partitions[name] == selected
    {
      hide WellKept, Normalized, Trimmed, Storable, ValidDefinition, ValidIdentifier, TrimSpace, ChangeOf;
      var name := TrimSpace(rawName);
      if name == "" || |selected| == 0 {
        return BadRequest;
      }
      for i := 0 to |selected|
        invariant forall j | 0 <= j < i :: selected[j] in liveNodes
      {
        if selected[i] !in liveNodes {
          return BadRequest;
        }
      }
      ghost var v := store.View();
      var change := store.Upsert(name, selected, "managed", now, storeFails);
      if change.Err? {
        return StoreFailed;
      }
      SavedReadsBack(v, name, selected, true, now);
      var ok := admin.ApplyPartition(name, selected);
      return if ok then Saved else SyncFailed;
    }

    /** The partition will leave the store, at least until Slurm has refused. */
    ghost predicate WillRemove(name: string, storeFails: bool)
      reads store
    {
      ValidIdentifier(name) && name in store.View() && store.View()[name].managed && !storeFails
    }

    /** Slurm will not take the partition out. */
    ghost predicate WillKeep(name: string)
      reads admin
    {
      name in admin.partitions && (!Plain(name) || admin.Coming(0).FailsWithoutEffect?)
    }

    /** `restoreFails` says that the compensating upsert fails.  A deletion is reported exactly when the
        store and Slurm both carry it out; a refused one is undone unless that fails too, and leaves an
        orphan exactly when Slurm then keeps a partition of the platform's making. */
    method DeletePartition(rawName: string, now: int, storeFails: bool, restoreFails: bool) returns (reply: Reply)
      requires store.Valid()
      modifies store, admin
      ensures store.Valid()
      ensures var name := TrimSpace(rawName);
        && var removed := old(WillRemove(name, storeFails));
        && var done := old(admin.Deletable(name)) && old(admin.Coming(0)).Works?;
        && (reply == Deleted <==> removed && done)
        && (reply == SyncFailed <==> removed && !done)
        && (old(NoOrphans()) ==>
              (NoOrphans() <==> !(removed && restoreFails && name in old(admin.created) && old(WillKeep(name)))))
        && store.View() ==
           (if !removed then old(store.View())
            else if done || restoreFails then old(store.View()) - {name}
            else old(store.View())[name := old(store.View())[name].(createdAt := now, updatedAt := now)])
        && admin.partitions ==
           (if removed && old(admin.Deletable(name)) && !old(admin.Coming(0)).FailsWithoutEffect?
            then old(admin.partitions) - {name} else old(admin.partitions))
        && admin.created ==
           (if removed && old(admin.Deletable(name)) && !old(admin.Coming(0)).FailsWithoutEffect?
            then old(admin.created) - {name} else old(admin.created))
    {
      hide WellKept, Normalized, Storable, ChangeOf, TrimSpace;
      var name := TrimSpace(rawName);
      if name == "" || !ValidIdentifier(name) {
        return BadRequest;
      }
      ghost var v := store.View();
      var spec := store.Load(name);
      if spec.None? {
        return Unchanged;
      }
      if !spec.value.managed {
        return NotAllowed;
      }
      var deleted := store.DeleteManaged(name, storeFails);
      if deleted.Err? {
        return StoreFailed;
      }
      var ok := admin.DeletePartition(name);
      if ok {
        return Deleted;
      }
      RestoringADeleted(v, name, now);
      var restored := store.Upsert(name, spec.value.nodes, "managed", now, restoreFails);
      return SyncFailed;
    }

    /** The startup sync goes through the managed partitions in the order of their names and stops at the
        first that cannot be applied; it succeeds exactly when all can. */
    method SyncStoredPartitions() returns (ok: bool, ghost specs: seq<Spec>, ghost applied: nat)
      requires store.Valid()
      modifies admin
      ensures store.Valid() && (old(NoOrphans()) ==> NoOrphans())
      ensures IsListing(specs, store.View()) && applied <= |specs|
      ensures Synced(old(admin.partitions), old(admin.outcomes), specs, applied, admin.partitions)
      ensures ok <==> applied == |specs|
      ensures ok ==>
        forall name | name in store.View() && store.View()[name].managed ::
          Lookup(admin.partitions, name) == Some(store.View()[name].nodes)
      ensures forall name | !(name in store.View() && store.View()[name].managed) ::
        Lookup(admin.partitions, name) == old(Lookup(admin.partitions, name))
    {
      hide WellKept, Normal, ValidDefinition, StringLess, Synced, SyncedSoFar, AppliesAt, HoldsAt, CommandsAt, ComingOf;
      var listed := store.ListManaged();
      specs, applied := listed, 0;
      NamedOnce(specs);
      ghost var before, outcomes := admin.partitions, admin.outcomes;
      NothingSynced(before, outcomes, specs);
      for i := 0 to |listed|
        invariant store.Valid() && (old(NoOrphans()) ==> NoOrphans())
        invariant applied == i && SyncedSoFar(before, outcomes, specs, i, admin.partitions, admin.outcomes)
      {
        ghost var p, o := admin.partitions, admin.outcomes;
        ok := admin.ApplyPartition(listed[i].name, listed[i].nodes);
        assert Turned(specs[i], p, o, admin.partitions, admin.outcomes, ok);
        if !ok {
          RefusedAt(before, outcomes, specs, i, p, o, admin.partitions, admin.outcomes);
          SyncedMeans(before, outcomes, specs, i, admin.partitions, store.View());
          return;
        }
        OneMoreSynced(before, outcomes, specs, i, p, o, admin.partitions, admin.outcomes);
        applied := i + 1;
      }
      AllSynced(before, outcomes, specs, admin.partitions, admin.outcomes);
      SyncedMeans(before, outcomes, specs, |specs|, admin.partitions, store.View());
      ok := true;
    }
  }

  /** The managed partitions, each once, in the order of the names. */
  ghost predicate IsListing(specs: seq<Spec>, v: Store) {
    && (forall i | 0 <= i < |specs| ::
          specs[i].name in v && v[specs[i].name].managed && specs[i] == SpecOf(specs[i].name, v[specs[i].name]))
    && (forall name | name in v && v[name].managed :: exists i :: 0 <= i < |specs| && specs[i].name == name)
    && (forall i, j | 0 <= i < j < |specs| :: StringLess(specs[i].name, specs[j].name))
  }

  // ---------------------------------------------------------------------------------------
  // The startup sync.

  /** The commands that applying the first `n` of these definitions takes. */
  function CommandsBefore(partitions: Partitions, outcomes: seq<Outcome>, specs: seq<Spec>, n: nat): nat
    requires n <= |specs|
  {
    if n == 0 then 0
    else
      var k := CommandsBefore(partitions, outcomes, specs, n - 1);
      k + CommandsAt(partitions, outcomes, specs[n - 1].name, k)
  }

  /** The n-th of these definitions is applied when those before it are. */
  predicate Applies(partitions: Partitions, outcomes: seq<Outcome>, specs: seq<Spec>, n: nat)
    requires n < |specs|
  {
    AppliesAt(partitions, outcomes, specs[n].name, specs[n].nodes, CommandsBefore(partitions, outcomes, specs, n))
  }

  predicate Holds(partitions: Partitions, outcomes: seq<Outcome>, specs: seq<Spec>, n: nat)
    requires n < |specs|
  {
    HoldsAt(partitions, outcomes, specs[n].name, specs[n].nodes, CommandsBefore(partitions, outcomes, specs, n))
  }

  /** Of these definitions the first `n` have been applied, the next has been refused, with or without effect,
      and Slurm has all other partitions as before. */
  ghost predicate Synced(before: Partitions, outcomes: seq<Outcome>, specs: seq<Spec>, n: nat, after: Partitions)
    requires n <= |specs|
  {
    && (forall j | 0 <= j < n ::
          Applies(before, outcomes, specs, j) && Lookup(after, specs[j].name) == Some(specs[j].nodes))
    && (n < |specs| ==> !Applies(before, outcomes, specs, n))
    && (n < |specs| && Holds(before, outcomes, specs, n) ==> Lookup(after, specs[n].name) == Some(specs[n].nodes))
    && (forall name | Untouched(before, outcomes, specs, n, name) :: Lookup(after, name) == Lookup(before, name))
  }

  ghost predicate Untouched(before: Partitions, outcomes: seq<Outcome>, specs: seq<Spec>, n: nat, name: string)
    requires n <= |specs|
  {
    && !NamedIn(specs, n, name)
    && (n < |specs| && specs[n].name == name ==> !Holds(before, outcomes, specs, n))
  }

  /** Between two turns of the loop. */
  ghost predicate SyncedSoFar(before: Partitions, outcomes: seq<Outcome>, specs: seq<Spec>, n: nat, now: Partitions,
                              left: seq<Outcome>)
    requires n <= |specs|
  {
    && (forall j | 0 <= j < n :: Applies(before, outcomes, specs, j))
    && Changed(before, specs, n, now)
    && left == Later(outcomes, CommandsBefore(before, outcomes, specs, n))
  }

  predicate NamedIn(specs: seq<Spec>, n: nat, name: string)
    requires n <= |specs|
  {
    exists j :: 0 <= j < n && specs[j].name == name
  }

  /** The first `n` have their nodes, and all other partitions are as before. */
  ghost predicate Changed(before: Partitions, specs: seq<Spec>, n: nat, now: Partitions)
    requires n <= |specs|
  {
    && (forall j | 0 <= j < n :: Lookup(now, specs[j].name) == Some(specs[j].nodes))
    && (forall name | !NamedIn(specs, n, name) :: Lookup(now, name) == Lookup(before, name))
  }

  lemma NothingSynced(before: Partitions, outcomes: seq<Outcome>, specs: seq<Spec>)
    ensures SyncedSoFar(before, outcomes, specs, 0, before, outcomes)
  {
  }

  /** One turn of the loop: the next definition is applied, or else refused with or without effect. */
  ghost predicate Turned(spec: Spec, now: Partitions, left: seq<Outcome>, next: Partitions, rest: seq<Outcome>,
                         ok: bool)
  {
    && (ok <==> AppliesAt(now, left, spec.name, spec.nodes, 0))
    && next == (if ok || HoldsAt(now, left, spec.name, spec.nodes, 0) then now[spec.name := spec.nodes] else now)
    && (ok ==> rest == Later(left, CommandsAt(now, left, spec.name, 0)))
  }

  lemma OneMoreSynced(before: Partitions, outcomes: seq<Outcome>, specs: seq<Spec>, n: nat, now: Partitions,
                      left: seq<Outcome>, next: Partitions, rest: seq<Outcome>)
    requires n < |specs| && forall i, j | 0 <= i < j < |specs| :: specs[i].name != specs[j].name
    requires SyncedSoFar(before, outcomes, specs, n, now, left) && Turned(specs[n], now, left, next, rest, true)
    ensures SyncedSoFar(before, outcomes, specs, n + 1, next, rest)
  {
    NextCommands(before, outcomes, specs, n, now, left);
    LaterStill(outcomes, CommandsBefore(before, outcomes, specs, n), CommandsAt(now, left, specs[n].name, 0));
    hide Later, AppliesAt, HoldsAt, CommandsAt, ComingOf, ValidDefinition, Applies, Holds, CommandsBefore, Changed;
    OneMoreChanged(before, specs, n, now, next);
  }

  lemma OneMoreChanged(before: Partitions, specs: seq<Spec>, n: nat, now: Partitions, next: Partitions)
    requires n < |specs| && forall i, j | 0 <= i < j < |specs| :: specs[i].name != specs[j].name
    requires Changed(before, specs, n, now) && next == now[specs[n].name := specs[n].nodes]
    ensures Changed(before, specs, n + 1, next)
  {
  }

  lemma RefusedAt(before: Partitions, outcomes: seq<Outcome>, specs: seq<Spec>, n: nat, now: Partitions,
                  left: seq<Outcome>, next: Partitions, rest: seq<Outcome>)
    requires n < |specs| && forall i, j | 0 <= i < j < |specs| :: specs[i].name != specs[j].name
    requires SyncedSoFar(before, outcomes, specs, n, now, left) && Turned(specs[n], now, left, next, rest, false)
    ensures Synced(before, outcomes, specs, n, next)
  {
    NextCommands(before, outcomes, specs, n, now, left);
    hide AppliesAt, HoldsAt, CommandsAt, ComingOf, ValidDefinition, Applies, Holds, CommandsBefore;
  }

  /** The next definition meets what it would have met from the start. */
  lemma NextCommands(before: Partitions, outcomes: seq<Outcome>, specs: seq<Spec>, n: nat, now: Partitions,
                     left: seq<Outcome>)
    requires n < |specs| && forall i, j | 0 <= i < j < |specs| :: specs[i].name != specs[j].name
    requires SyncedSoFar(before, outcomes, specs, n, now, left)
    ensures AppliesAt(now, left, specs[n].name, specs[n].nodes, 0) == Applies(before, outcomes, specs, n)
    ensures HoldsAt(now, left, specs[n].name, specs[n].nodes, 0) == Holds(before, outcomes, specs, n)
    ensures CommandsBefore(before, outcomes, specs, n + 1)
      == CommandsBefore(before, outcomes, specs, n) + CommandsAt(now, left, specs[n].name, 0)
  {
    assert !NamedIn(specs, n, specs[n].name);
    var k := CommandsBefore(before, outcomes, specs, n);
    LaterComing(outcomes, k, 0);
    LaterComing(outcomes, k, 1);
    hide ValidDefinition, ComingOf, Later;
  }

  lemma AllSynced(before: Partitions, outcomes: seq<Outcome>, specs: seq<Spec>, now: Partitions, left: seq<Outcome>)
    requires SyncedSoFar(before, outcomes, specs, |specs|, now, left)
    ensures Synced(before, outcomes, specs, |specs|, now)
  {
  }

  /** What that says of the managed partitions and of all others. */
  lemma SyncedMeans(before: Partitions, outcomes: seq<Outcome>, specs: seq<Spec>, n: nat, after: Partitions, v: Store)
    requires n <= |specs| && Synced(before, outcomes, specs, n, after) && IsListing(specs, v)
    ensures forall name | !(name in v && v[name].managed) :: Lookup(after, name) == Lookup(before, name)
    ensures n == |specs| ==>
      forall name | name in v && v[name].managed :: Lookup(after, name) == Some(v[name].nodes)
  {
    hide Applies, Holds, StringLess;
    forall name | !(name in v && v[name].managed) ensures Lookup(after, name) == Lookup(before, name) {
      assert Untouched(before, outcomes, specs, n, name);
    }
  }

  /** When every definition is valid and no command fails, nothing is refused. */
  lemma SyncSucceeds(before: Partitions, outcomes: seq<Outcome>, specs: seq<Spec>, n: nat, after: Partitions)
    requires n <= |specs| && Synced(before, outcomes, specs, n, after)
    requires forall i: nat :: ComingOf(outcomes, i).Works?
    requires forall j | 0 <= j < |specs| :: ValidDefinition(specs[j].name, specs[j].nodes)
    ensures n == |specs| && forall j | 0 <= j < |specs| :: Lookup(after, specs[j].name) == Some(specs[j].nodes)
  {
    hide ValidDefinition;
  }

  lemma NamedOnce(specs: seq<Spec>)
    requires forall i, j | 0 <= i < j < |specs| :: StringLess(specs[i].name, specs[j].name)
    ensures forall i, j | 0 <= i < j < |specs| :: specs[i].name != specs[j].name
  {
    forall i, j | 0 <= i < j < |specs| ensures specs[i].name != specs[j].name {
      StringLessIrreflexive(specs[i].name);
    }
  }

  /** Plain names are valid in Slurm too. */
  lemma PlainIsApplicable(name: string, nodes: seq<string>)
    requires PlainName(name) && nodes != [] && Distinct(nodes) && forall i | 0 <= i < |nodes| :: PlainName(nodes[i])
    ensures ValidDefinition(name, nodes)
  {
    PlainIsPlain(name);
    forall i | 0 <= i < |nodes| ensures Plain(nodes[i]) {
      PlainIsPlain(nodes[i]);
    }
  }

  lemma PlainIsPlain(s: string)
    requires PlainName(s)
    ensures Plain(s) && TrimSpace(s) == s
  {
    assert Letter(s[0]) && Letter(s[|s| - 1]);
    BareIsTrimmed(s);
    PrintableIsValid(s);
  }

  /** While no command fails, saving a new partition and deleting it again succeed and leave the store and
      Slurm as they were. */
  method SaveThenDelete(app: Application, name: string, nodes: seq<string>, liveNodes: set<string>, now: int)
    returns (saved: Reply, between: Option<seq<string>>, deleted: Reply)
    requires app.store.Valid() && app.admin.outcomes == []
    requires TrimSpace(name) == name && ValidIdentifier(name) && name !in app.store.View()
    requires name !in app.admin.partitions
    requires nodes != [] && Storable(nodes) && ValidDefinition(name, nodes)
    requires forall i | 0 <= i < |nodes| :: nodes[i] in liveNodes
    modifies app.store, app.admin
    ensures saved == Saved && between == Some(nodes) && deleted == Deleted
    ensures app.store.View() == old(app.store.View()) && app.admin.partitions == old(app.admin.partitions)
  {
    hide WellKept, Normalized, Trimmed, Storable, ValidIdentifier, TrimSpace;
    saved := app.SavePartition(name, nodes, liveNodes, now, false);
    between := Lookup(app.admin.partitions, name);
    deleted := app.DeletePartition(name, now, false, false);
    assert app.store.View() == old(app.store.View());
    assert app.admin.partitions == old(app.admin.partitions);
  }

  /** A deletion that Slurm refuses and that cannot be undone, on a partition the platform has just
      created: Slurm keeps it and the store no longer knows it. */
  method RefusedDeletionLeavesAnOrphan() returns (app: Application)
    ensures "p" in app.admin.partitions && "p" in app.admin.created && "p" !in app.store.View()
    ensures !app.NoOrphans()
  {
    var store := new PartitionTable();
    var admin := new SlurmAdmin(map[], [Works, FailsWithoutEffect]);
    app := new Application(store, admin);
    PlainExample();
    var saved := app.SavePartition("p", ["n"], {"n"}, 0, false);
    assert saved == Saved;
    admin.outcomes := [FailsWithoutEffect];
    var reply := app.DeletePartition("p", 1, false, true);
  }

  lemma PlainExample()
    ensures TrimSpace("p") == "p" && Plain("p") && ValidIdentifier("p") && Savable(map[], "p", ["n"], true)
    ensures ValidDefinition("p", ["n"])
  {
    assert TrimSpace("n") == "n";
    assert Trimmed(["n"]) == ["n"];
  }
}
