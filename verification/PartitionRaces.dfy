/**
 Requests on partitions that run at the same time.  The handlers of internal/web/partitions.go take no
 lock, so the store and Slurm steps of different requests interleave.
 */
module PartitionRaces {
  import opened Sets

  type Name = string
  type Nodes = set<string>
  type Request = nat

  /** How far a request has come: a save has written the store and is about to create the partition in
      Slurm, or has failed in that and is about to update it; a deletion has found the partition, removed
      it from the store, or been refused by Slurm. */
  datatype Phase =
    | Stored(name: Name, nodes: Nodes)
    | Updating(name: Name, nodes: Nodes)
    | Found(name: Name, nodes: Nodes)
    | Removed(name: Name, nodes: Nodes)
    | Refused(name: Name, nodes: Nodes)
    | Finished

  datatype State = State(
    store: map<Name, Nodes>,        // the managed partitions in the store
    slurm: map<Name, Nodes>,
    created: set<Name>,             // the partitions in Slurm that the platform has created
    requests: map<Request, Phase>,
    ghost overlapped: set<Name>,    // names that two requests were working on at the same time
    ghost crossed: set<Name>,       // names removed from the store while a save was about to create them
    ghost unrestored: set<Name>,    // names whose refused deletion could not be undone
    ghost unsynced: set<Name>)      // names on which the last command went wrong

  /** No request yet; Slurm may have partitions that are not the platform's. */
  function Start(foreign: map<Name, Nodes>): State {
    State(map[], foreign, {}, map[], {}, {}, {}, {})
  }

  datatype Event =
    | Save(r: Request, name: Name, nodes: Nodes)
    | Create(r: Request, ok: bool, effect: bool)
    | Update(r: Request, ok: bool, effect: bool)
    | Find(r: Request, name: Name)
    | StoreFails(r: Request)
    | Remove(r: Request)
    | Delete(r: Request, ok: bool, effect: bool)
    | Restore(r: Request, ok: bool)

  predicate On(s: State, r: Request, n: Name) {
    r in s.requests && !s.requests[r].Finished? && s.requests[r].name == n
  }

  ghost predicate Busy(s: State, n: Name) {
    exists r :: On(s, r, n)
  }

  ghost predicate Creating(s: State, n: Name) {
    exists r :: On(s, r, n) && s.requests[r].Stored?
  }

  ghost predicate Saving(s: State, n: Name) {
    exists r :: On(s, r, n) && (s.requests[r].Stored? || s.requests[r].Updating?)
  }

  /** A command may fail although it had its effect; one that succeeds had it.  Slurm refuses to create what
      it has and to update or delete what it does not have. */
  predicate Enabled(s: State, e: Event) {
    match e
    case Save(r, name, nodes) => r !in s.requests
    case Create(r, ok, effect) =>
      r in s.requests && s.requests[r].Stored? && (ok ==> effect) && (effect ==> s.requests[r].name !in s.slurm)
    case Update(r, ok, effect) =>
      r in s.requests && s.requests[r].Updating? && (ok ==> effect) && (effect ==> s.requests[r].name in s.slurm)
    case Find(r, name) => r !in s.requests && name in s.store
    case StoreFails(r) => r in s.requests && s.requests[r].Found?
    case Remove(r) => r in s.requests && s.requests[r].Found?
    case Delete(r, ok, effect) =>
      r in s.requests && s.requests[r].Removed? && (ok ==> effect) && (effect ==> s.requests[r].name in s.slurm)
    case Restore(r, ok) => r in s.requests && s.requests[r].Refused?
  }

  /** The name an event is about. */
  function NameOf(s: State, e: Event): Name
    requires Enabled(s, e)
  {
    if e.Save? || e.Find? then e.name else s.requests[e.r].name
  }

  ghost function With(s: set<Name>, n: Name, condition: bool): set<Name> {
    if condition then s + {n} else s
  }

  ghost function Next(s: State, e: Event): State
    requires Enabled(s, e)
  {
    var n := NameOf(s, e);
    match e
    case Save(r, name, nodes) =>
      s.(store := s.store[n := nodes], requests := s.requests[r := Stored(n, nodes)],
         overlapped := With(s.overlapped, n, Busy(s, n)))
    case Create(r, ok, effect) =>
      s.(slurm := if effect then s.slurm[n := s.requests[r].nodes] else s.slurm,
         created := if effect then s.created + {n} else s.created,
         requests := s.requests[r := if ok then Finished else Updating(n, s.requests[r].nodes)],
         unsynced := if effect then s.unsynced - {n} else s.unsynced)
    case Update(r, ok, effect) =>
      s.(slurm := if effect then s.slurm[n := s.requests[r].nodes] else s.slurm,
         requests := s.requests[r := Finished],
         unsynced := if effect then s.unsynced - {n} else s.unsynced + {n})
    case Find(r, name) =>
      s.(requests := s.requests[r := Found(n, s.store[n])], overlapped := With(s.overlapped, n, Busy(s, n)))
    case StoreFails(r) => s.(requests := s.requests[r := Finished])
    case Remove(r) =>
      s.(store := s.store - {n}, requests := s.requests[r := Removed(n, s.requests[r].nodes)],
         crossed := With(s.crossed, n, Creating(s, n)))
    case Delete(r, ok, effect) =>
      s.(slurm := if effect then s.slurm - {n} else s.slurm,
         created := if effect then s.created - {n} else s.created,
         requests := s.requests[r := if ok then Finished else Refused(n, s.requests[r].nodes)],
         unsynced := With(s.unsynced, n, effect && !ok))
    case Restore(r, ok) =>
      s.(store := if ok then s.store[n := s.requests[r].nodes] else s.store,
         requests := s.requests[r := Finished],
         unrestored := With(s.unrestored, n, !ok))
  }

  ghost predicate CanRun(s: State, es: seq<Event>)
    decreases |es|
  {
    es == [] || (Enabled(s, es[0]) && CanRun(Next(s, es[0]), es[1..]))
  }

  ghost function Run(s: State, es: seq<Event>): State
    requires CanRun(s, es)
    decreases |es|
  {
    if es == [] then s else Run(Next(s, es[0]), es[1..])
  }

  /** Nothing about one name changes while another is worked on. */
  lemma Elsewhere(s: State, e: Event, n: Name)
    requires Enabled(s, e) && n != NameOf(s, e)
    ensures var s' := Next(s, e);
      && (forall r :: On(s', r, n) <==> On(s, r, n))
      && (forall r | On(s, r, n) :: s'.requests[r] == s.requests[r])
      && (n in s'.store <==> n in s.store) && (n in s.store ==> s'.store[n] == s.store[n])
      && (n in s'.slurm <==> n in s.slurm) && (n in s.slurm ==> s'.slurm[n] == s.slurm[n])
      && (n in s'.created <==> n in s.created)
      && (n in s'.overlapped <==> n in s.overlapped) && (n in s'.crossed <==> n in s.crossed)
      && (n in s'.unrestored <==> n in s.unrestored) && (n in s'.unsynced <==> n in s.unsynced)
  {
  }

  // ---------------------------------------------------------------------------------------
  // Orphans.

  /** The platform's, in Slurm, unknown to the store, and no request is about to change that. */
  ghost predicate Orphan(s: State, n: Name) {
    n in s.created && n in s.slurm && n !in s.store && !Busy(s, n)
  }

  ghost predicate Undoing(s: State, n: Name) {
    exists r :: On(s, r, n) && (s.requests[r].Removed? || s.requests[r].Refused?)
  }

  /** While no deletion of the name crosses a save about to create it. */
  ghost predicate Uncrossed(s: State, n: Name) {
    && (forall r | On(s, r, n) && s.requests[r].Stored? :: n in s.store)
    && (n in s.created && n !in s.unrestored ==> n in s.store || Undoing(s, n))
  }

  ghost predicate Inv(s: State) {
    forall n :: n in s.crossed || Uncrossed(s, n)
  }

  lemma UncrossedKept(s: State, e: Event, n: Name)
    requires Enabled(s, e) && Uncrossed(s, n) && n !in Next(s, e).crossed
    ensures Uncrossed(Next(s, e), n)
  {
    var s' := Next(s, e);
    if n != NameOf(s, e) {
      Elsewhere(s, e, n);
      hide Next;
      if Undoing(s, n) {
        var r :| On(s, r, n) && (s.requests[r].Removed? || s.requests[r].Refused?);
        assert On(s', r, n);
      }
    } else {
      forall r | On(s', r, n) && r != e.r ensures On(s, r, n) && s'.requests[r] == s.requests[r] {
      }
      UndoingAfter(s, e);
    }
  }

  lemma UndoingAfter(s: State, e: Event)
    requires Enabled(s, e)
    ensures var n := NameOf(s, e);
      Undoing(s, n) && n !in Next(s, e).store && n in Next(s, e).created && n !in Next(s, e).unrestored ==>
        Undoing(Next(s, e), n)
    ensures e.Remove? ==> Undoing(Next(s, e), NameOf(s, e))
  {
    var n, s' := NameOf(s, e), Next(s, e);
    if e.Remove? { assert On(s', e.r, n); }
    if Undoing(s, n) && n !in s'.store && n in s'.created && n !in s'.unrestored {
      var r :| On(s, r, n) && (s.requests[r].Removed? || s.requests[r].Refused?);
      assert On(s', r, n);
    }
  }

  lemma {:induction false} RunKeeps(s: State, es: seq<Event>)
    requires Inv(s) && CanRun(s, es)
    ensures Inv(Run(s, es))
    decreases |es|
  {
    if es != [] {
      var s' := Next(s, es[0]);
      forall n ensures n in s'.crossed || Uncrossed(s', n) {
        if n !in s'.crossed {
          assert n in s.crossed || Uncrossed(s, n);
          UncrossedKept(s, es[0], n);
        }
      }
      RunKeeps(s', es[1..]);
    }
  }

  /** An orphan comes from a deletion that removed the partition from the store while a save was about to
      create it in Slurm, or from a refused deletion that could not be undone. */
  lemma OrphansHaveACause(foreign: map<Name, Nodes>, es: seq<Event>, n: Name)
    requires CanRun(Start(foreign), es) && Orphan(Run(Start(foreign), es), n)
    ensures n in Run(Start(foreign), es).crossed || n in Run(Start(foreign), es).unrestored
  {
    RunKeeps(Start(foreign), es);
    var s := Run(Start(foreign), es);
    assert n in s.crossed || Uncrossed(s, n);
  }

  // ---------------------------------------------------------------------------------------
  // Crossing is cause enough.

  lemma Before(s: State, e: Event, rest: seq<Event>) returns (es: seq<Event>)
    requires Enabled(s, e) && CanRun(Next(s, e), rest)
    ensures es == [e] + rest && CanRun(s, es) && Run(s, es) == Run(Next(s, e), rest)
    ensures forall n | Winding(s, e, n) && WindsUp(Next(s, e), rest, n) :: WindsUp(s, es, n)
  {
    es := [e] + rest;
    assert es[1..] == rest;
  }

  lemma {:induction false} Then(s: State, es: seq<Event>, more: seq<Event>) returns (all: seq<Event>)
    requires CanRun(s, es) && CanRun(Run(s, es), more)
    ensures CanRun(s, all) && Run(s, all) == Run(Run(s, es), more)
    decreases |es|
  {
    if es == [] {
      all := more;
    } else {
      var rest := Then(Next(s, es[0]), es[1..], more);
      all := Before(s, es[0], rest);
    }
  }

  /** Whoever is working on the name besides these two can finish, with nothing that cannot be undone. */
  lemma Retire(s: State, u: Request, n: Name) returns (es: seq<Event>)
    requires On(s, u, n)
    ensures CanRun(s, es)
    ensures Run(s, es).requests == s.requests[u := Finished] && Run(s, es).unrestored == s.unrestored
  {
    match s.requests[u]
    case Stored(_, nodes) =>
      var e := Create(u, false, false);
      es := Before(Next(s, e), Update(u, false, false), []);
      es := Before(s, e, es);
    case Updating(_, _) => es := Before(s, Update(u, false, false), []);
    case Found(_, _) => es := Before(s, StoreFails(u), []);
    case Refused(_, _) => es := Before(s, Restore(u, true), []);
    case Removed(_, nodes) =>
      var e := Delete(u, false, false);
      es := Before(Next(s, e), Restore(u, true), []);
      es := Before(s, e, es);
  }

  lemma {:induction false} Drain(s: State, n: Name, q: Request, r: Request, others: set<Request>)
    returns (es: seq<Event>)
    requires others == set u | u in s.requests && On(s, u, n) && u != q && u != r
    ensures CanRun(s, es)
    ensures var s' := Run(s, es);
      && (forall u | On(s', u, n) :: u == q || u == r)
      && s'.requests.Keys == s.requests.Keys && s'.unrestored == s.unrestored
      && (q in s.requests ==> s'.requests[q] == s.requests[q]) && (r in s.requests ==> s'.requests[r] == s.requests[r])
    decreases others
  {
    if others == {} {
      es := [];
      forall u | On(s, u, n) ensures u == q || u == r {
        assert u !in others;
      }
    } else {
      var u :| u in others;
      es := Retire(s, u, n);
      var s1 := Run(s, es);
      assert others - {u} == set v | v in s1.requests && On(s1, v, n) && v != q && v != r;
      var more := Drain(s1, n, q, r, others - {u});
      es := Then(s, es, more);
    }
  }

  /** When a save and a deletion are the only requests on a name that Slurm has, the deletion can pass
      between the two steps of the save, and then leaves an orphan though no command fails. */
  lemma PassBetween(s: State, n: Name, q: Request, r: Request) returns (es: seq<Event>)
    requires On(s, q, n) && s.requests[q].Stored? && On(s, r, n) && s.requests[r].Found?
    requires (forall u | On(s, u, n) :: u == q || u == r) && n in s.slurm
    ensures es == [Remove(r), Delete(r, true, true), Create(q, true, true)]
    ensures CanRun(s, es) && Orphan(Run(s, es), n) && Run(s, es).unrestored == s.unrestored && WindsUp(s, es, n)
  {
    var s1 := Next(s, Remove(r));
    var s2 := Next(s1, Delete(r, true, true));
    var s3 := Next(s2, Create(q, true, true));
    forall u ensures !On(s3, u, n) {
      if On(s3, u, n) { assert On(s, u, n); }
    }
    es := Before(s2, Create(q, true, true), []);
    es := Before(s1, Delete(r, true, true), es);
    es := Before(s, Remove(r), es);
  }

  /** From every state in which a deletion has found the partition and a save of it is pending, some
      continuation ends with an orphan, though every deletion refused is undone. */
  lemma CrossingLeavesAnOrphan(s: State, n: Name, q: Request, r: Request) returns (es: seq<Event>)
    requires On(s, q, n) && s.requests[q].Stored? && On(s, r, n) && s.requests[r].Found?
    ensures CanRun(s, es) && Orphan(Run(s, es), n) && Run(s, es).unrestored == s.unrestored
  {
    es := Drain(s, n, q, r, set u | u in s.requests && On(s, u, n) && u != q && u != r);
    var s1 := Run(s, es);
    if n !in s1.slurm {
      var u := Unused(s1.requests.Keys);
      var more := SaveOnce(s1, n, u);
      es := Then(s, es, more);
      var s2 := Run(s, es);
      forall v | On(s2, v, n) ensures v == q || v == r {
        assert On(s1, v, n);
      }
    }
    var last := PassBetween(Run(s, es), n, q, r);
    es := Then(s, es, last);
  }

  lemma SaveOnce(s: State, n: Name, u: Request) returns (es: seq<Event>)
    requires u !in s.requests && n !in s.slurm
    ensures CanRun(s, es)
    ensures var s' := Run(s, es);
      s'.requests == s.requests[u := Finished] && n in s'.slurm && s'.unrestored == s.unrestored
  {
    var e := Save(u, n, {});
    es := Before(Next(s, e), Create(u, true, true), []);
    es := Before(s, e, es);
  }

  /** Such a state is soon reached, and so is an orphan. */
  lemma OverlapLeavesAnOrphan(n: Name, nodes: Nodes) returns (es: seq<Event>)
    ensures CanRun(Start(map[]), es) && Orphan(Run(Start(map[]), es), n) && Run(Start(map[]), es).unrestored == {}
  {
    var s0 := Start(map[]);
    var s1 := Next(s0, Save(0, n, nodes));
    var s2 := Next(s1, Find(1, n));
    es := CrossingLeavesAnOrphan(s2, n, 0, 1);
    es := Before(s1, Find(1, n), es);
    es := Before(s0, Save(0, n, nodes), es);
  }

  // ---------------------------------------------------------------------------------------
  // Exactly when two requests that are left to finish can leave an orphan.

  /** No request on the name begins, and every refused deletion of it is undone. */
  ghost predicate Winding(s: State, e: Event, n: Name)
    requires Enabled(s, e)
  {
    NameOf(s, e) == n ==> !e.Save? && !e.Find? && !(e.Restore? && !e.ok)
  }

  ghost predicate WindsUp(s: State, es: seq<Event>, n: Name)
    requires CanRun(s, es)
    decreases |es|
  {
    es == [] || (Winding(s, es[0], n) && WindsUp(Next(s, es[0]), es[1..], n))
  }

  ghost predicate CanStrand(s: State, n: Name) {
    exists es :: CanRun(s, es) && WindsUp(s, es, n) && Orphan(Run(s, es), n)
  }

  ghost predicate Pair(s: State, n: Name, q: Request, r: Request) {
    && q in s.requests && r in s.requests && q != r
    && (s.requests[q].Finished? || ((s.requests[q].Stored? || s.requests[q].Updating?) && s.requests[q].name == n))
    && (s.requests[r].Finished? ||
        (!s.requests[r].Stored? && !s.requests[r].Updating? && s.requests[r].name == n))
    && forall u | On(s, u, n) :: u == q || u == r
  }

  /** The save and the deletion cannot strand the partition any more. */
  ghost predicate Harmless(s: State, n: Name, q: Request, r: Request) {
    && Pair(s, n, q, r)
    && (s.requests[q].Stored? ==> n !in s.slurm)
    && (s.requests[r].Found? ==> n in s.store)
    && (s.requests[r].Finished? ==> n in s.store || (n !in s.slurm && !s.requests[q].Stored?))
  }

  lemma HarmlessKept(s: State, e: Event, n: Name, q: Request, r: Request)
    requires Harmless(s, n, q, r) && Enabled(s, e) && Winding(s, e, n)
    ensures Harmless(Next(s, e), n, q, r)
  {
    var s' := Next(s, e);
    if n != NameOf(s, e) {
      Elsewhere(s, e, n);
      assert s'.requests[q] == s.requests[q] && s'.requests[r] == s.requests[r];
    } else {
      assert On(s, e.r, n);
      forall u | On(s', u, n) ensures On(s, u, n) {
      }
    }
  }

  lemma {:induction false} HarmlessStays(s: State, es: seq<Event>, n: Name, q: Request, r: Request)
    requires Harmless(s, n, q, r) && CanRun(s, es) && WindsUp(s, es, n)
    ensures Harmless(Run(s, es), n, q, r)
    decreases |es|
  {
    if es != [] {
      HarmlessKept(s, es[0], n, q, r);
      HarmlessStays(Next(s, es[0]), es[1..], n, q, r);
    }
  }

  /** A pending save and a deletion under way, left to themselves, can leave an orphan if and only if
      Slurm has the partition already or the store has lost it. */
  lemma StrandsExactly(s: State, n: Name, q: Request, r: Request)
    requires Pair(s, n, q, r) && s.requests[q].Stored? && s.requests[r].Found?
    ensures CanStrand(s, n) <==> n in s.slurm || n !in s.store
  {
    if n in s.slurm {
      var es := PassBetween(s, n, q, r);
    } else if n !in s.store {
      LostAlready(s, n, q, r);
    } else {
      forall es | CanRun(s, es) && WindsUp(s, es, n) ensures !Orphan(Run(s, es), n) {
        HarmlessStays(s, es, n, q, r);
        var s' := Run(s, es);
        assert !Busy(s', n) ==> !On(s', q, n) && !On(s', r, n);
      }
    }
  }

  lemma LostAlready(s: State, n: Name, q: Request, r: Request)
    requires Pair(s, n, q, r) && s.requests[q].Stored? && s.requests[r].Found? && n !in s.slurm && n !in s.store
    ensures CanStrand(s, n)
  {
    var s1 := Next(s, StoreFails(r));
    var s2 := Next(s1, Create(q, true, true));
    forall u ensures !On(s2, u, n) {
      if On(s2, u, n) { assert On(s, u, n); }
    }
    var es := Before(s1, Create(q, true, true), []);
    es := Before(s, StoreFails(r), es);
  }

  // ---------------------------------------------------------------------------------------
  // The nodes.

  ghost predicate SameNodes(s: State, n: Name, nodes: Nodes) {
    n in s.slurm && s.slurm[n] == nodes
  }

  /** While the requests on the name take turns. */
  ghost predicate Orderly(s: State, n: Name) {
    && (forall q, r | On(s, q, n) && On(s, r, n) :: q == r)
    && (forall r | On(s, r, n) :: InTurn(s, n, s.requests[r]))
    && (n in s.store && n !in s.unsynced && !Saving(s, n) ==> SameNodes(s, n, s.store[n]))
  }

  ghost predicate InTurn(s: State, n: Name, p: Phase)
    requires !p.Finished?
  {
    if p.Stored? || p.Updating? || p.Found? then n in s.store && s.store[n] == p.nodes
    else n !in s.store && (n !in s.unsynced ==> SameNodes(s, n, p.nodes))
  }

  lemma OrderlyKept(s: State, e: Event, n: Name)
    requires Enabled(s, e) && Orderly(s, n) && n !in Next(s, e).overlapped
    ensures Orderly(Next(s, e), n)
  {
    var s' := Next(s, e);
    if n != NameOf(s, e) {
      Elsewhere(s, e, n);
      hide Next;
      assert Saving(s', n) == Saving(s, n);
    } else {
      AloneOn(s, e, n);
      if e.Save? || (e.Create? && !e.ok) { assert On(s', e.r, n); }
    }
  }

  lemma AloneOn(s: State, e: Event, n: Name)
    requires Enabled(s, e) && Orderly(s, n) && n == NameOf(s, e) && n !in Next(s, e).overlapped
    ensures e.Save? || e.Find? ==> !Busy(s, n)
    ensures !e.Save? && !e.Find? ==> On(s, e.r, n) && InTurn(s, n, s.requests[e.r])
    ensures forall r | On(Next(s, e), r, n) :: r == e.r
    ensures Saving(s, n) ==> On(s, e.r, n) && (s.requests[e.r].Stored? || s.requests[e.r].Updating?)
  {
    var s' := Next(s, e);
    if !e.Save? && !e.Find? { assert On(s, e.r, n); }
    forall r | On(s', r, n) ensures r == e.r {
      if r != e.r { assert On(s, r, n); }
    }
  }

  lemma {:induction false} OrderlyStays(s: State, es: seq<Event>, n: Name)
    requires (n in s.overlapped || Orderly(s, n)) && CanRun(s, es)
    ensures n in Run(s, es).overlapped || Orderly(Run(s, es), n)
    decreases |es|
  {
    if es != [] {
      if n !in Next(s, es[0]).overlapped { OrderlyKept(s, es[0], n); }
      OrderlyStays(Next(s, es[0]), es[1..], n);
    }
  }

  /** When the requests on a partition took turns, the last command on it had its effect, and nothing is
      pending, Slurm has exactly the stored nodes. */
  lemma NodesAgree(foreign: map<Name, Nodes>, es: seq<Event>, n: Name)
    requires CanRun(Start(foreign), es)
    ensures var s := Run(Start(foreign), es);
      n in s.store && !Busy(s, n) && n !in s.overlapped && n !in s.unsynced ==> SameNodes(s, n, s.store[n])
  {
    OrderlyStays(Start(foreign), es, n);
  }

  /** Two saves that cross leave other nodes in Slurm than in the store, though both succeed. */
  lemma CrossedSavesDisagree(n: Name, a: Nodes, b: Nodes) returns (es: seq<Event>)
    requires a != b
    ensures CanRun(Start(map[]), es)
    ensures var s := Run(Start(map[]), es);
      n in s.store && !Busy(s, n) && n !in s.unsynced && s.store[n] == b && SameNodes(s, n, a)
  {
    var s0 := Start(map[]);
    var s1 := Next(s0, Save(0, n, a));
    var s2 := Next(s1, Save(1, n, b));
    var s3 := Next(s2, Create(1, true, true));
    var s4 := Next(s3, Create(0, false, false));
    var s5 := Next(s4, Update(0, true, true));
    assert forall r | r in s5.requests :: s5.requests[r].Finished?;
    es := Before(s4, Update(0, true, true), []);
    es := Before(s3, Create(0, false, false), es);
    es := Before(s2, Create(1, true, true), es);
    es := Before(s1, Save(1, n, b), es);
    es := Before(s0, Save(0, n, a), es);
  }
}
