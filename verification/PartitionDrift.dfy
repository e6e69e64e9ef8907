/**
 Whether Slurm is bound to end in step with the store: exactly when the requests on a partition that are
 under way can still go wrong, though every command does what Slurm allows.
 */
module PartitionDrift {
  import opened Wrappers
  import opened PartitionRaces

  // ---------------------------------------------------------------------------------------
  // One partition, seen alone.

  /** What the store and Slurm have of one partition, and the requests on it that are under way. */
  datatype View = View(store: Option<Nodes>, slurm: Option<Nodes>, pending: map<Request, Phase>)

  ghost function Lookup(m: map<Name, Nodes>, n: Name): Option<Nodes> {
    if n in m then Some(m[n]) else None
  }

  ghost function ViewOf(s: State, n: Name): View {
    View(Lookup(s.store, n), Lookup(s.slurm, n), map r | r in s.requests && On(s, r, n) :: s.requests[r])
  }

  datatype Move =
    | Creates(r: Request)
    | Updates(r: Request)
    | GivesUp(r: Request)
    | Removes(r: Request)
    | Deletes(r: Request)
    | Restores(r: Request)

  ghost predicate Fits(v: View, m: Move) {
    && m.r in v.pending && !v.pending[m.r].Finished?
    && match m
       case Creates(r) => v.pending[r].Stored?
       case Updates(r) => v.pending[r].Updating?
       case GivesUp(r) => v.pending[r].Found?
       case Removes(r) => v.pending[r].Found?
       case Deletes(r) => v.pending[r].Removed?
       case Restores(r) => v.pending[r].Refused?
  }

  /** A command does what Slurm allows: it creates what is not there, and updates or deletes what is. */
  ghost function Moved(v: View, m: Move): View
    requires Fits(v, m)
  {
    var p := v.pending[m.r];
    match m
    case Creates(r) =>
      if v.slurm.None? then v.(slurm := Some(p.nodes), pending := v.pending - {r})
      else v.(pending := v.pending[r := Updating(p.name, p.nodes)])
    case Updates(r) => v.(slurm := if v.slurm.Some? then Some(p.nodes) else None, pending := v.pending - {r})
    case GivesUp(r) => v.(pending := v.pending - {r})
    case Removes(r) => v.(store := None, pending := v.pending[r := Removed(p.name, p.nodes)])
    case Deletes(r) =>
      if v.slurm.Some? then v.(slurm := None, pending := v.pending - {r})
      else v.(pending := v.pending[r := Refused(p.name, p.nodes)])
    case Restores(r) => v.(store := Some(p.nodes), pending := v.pending - {r})
  }

  // ---------------------------------------------------------------------------------------
  // The condition.

  ghost function Creators(v: View): set<Request> { set r | r in v.pending && v.pending[r].Stored? }

  ghost function Savers(v: View): set<Request> {
    set r | r in v.pending && (v.pending[r].Stored? || v.pending[r].Updating?)
  }

  ghost function Deleters(v: View): set<Request> {
    set r | r in v.pending && (v.pending[r].Found? || v.pending[r].Removed?)
  }

  ghost function Restorers(v: View): set<Request> { set r | r in v.pending && v.pending[r].Refused? }

  predicate UnderWay(v: View) {
    forall r | r in v.pending :: !v.pending[r].Finished?
  }

  ghost predicate Carry(v: View, rs: set<Request>, nodes: Nodes)
    requires UnderWay(v) && rs <= v.pending.Keys
  {
    forall r | r in rs :: v.pending[r].nodes == nodes
  }

  ghost predicate Alone(rs: set<Request>) {
    exists r :: rs == {r}
  }

  /** The pending updates find nothing to update. */
  ghost predicate Idle(v: View) {
    v.slurm.None? && Creators(v) == {}
  }

  /** The pending saves all bring what the store has. */
  ghost predicate SavesSettle(v: View)
    requires UnderWay(v)
  {
    if Idle(v) then v.store.None? else v.store.Some? && Carry(v, Savers(v), v.store.value)
  }

  /** No save can come out on the wrong side of deletion `r`. */
  ghost predicate KeepsClear(v: View, r: Request)
    requires UnderWay(v) && r in v.pending
  {
    if v.slurm.Some? then Creators(v) == {} else Alone(Creators(v)) && Carry(v, Savers(v), v.pending[r].nodes)
  }

  ghost predicate DeletionSettles(v: View, r: Request)
    requires UnderWay(v) && r in Deleters(v)
  {
    if Savers(v) == {} then v.slurm.Some? && v.store == if v.pending[r].Removed? then None else v.slurm
    else
      && KeepsClear(v, r)
      && if v.pending[r].Removed? then v.store.None? else v.store.Some? && Carry(v, Savers(v), v.store.value)
  }

  /** Deletions being undone and the pending saves all bring these nodes. */
  ghost predicate AllBring(v: View, nodes: Nodes)
    requires UnderWay(v)
  {
    && Carry(v, Restorers(v) + Savers(v), nodes)
    && if Savers(v) == {} then v.slurm == Some(nodes) else !Idle(v)
  }

  ghost predicate Settles(v: View)
    requires UnderWay(v)
  {
    if Deleters(v) != {} then Restorers(v) == {} && exists r :: Deleters(v) == {r} && DeletionSettles(v, r)
    else if Restorers(v) != {} then exists nodes :: AllBring(v, nodes)
    else if Savers(v) != {} then SavesSettle(v)
    else v.store == v.slurm
  }

  lemma Kinds(v: View, r: Request)
    requires UnderWay(v) && r in v.pending
    ensures r in Savers(v) || r in Deleters(v) || r in Restorers(v)
  {
  }

  /** How a move changes who is doing what. */
  lemma SetsAfter(v: View, m: Move)
    requires UnderWay(v) && Fits(v, m)
    ensures var v' := Moved(v, m);
      && UnderWay(v')
      && Creators(v') == Creators(v) - {m.r}
      && Savers(v') == (if m.Updates? || (m.Creates? && v.slurm.None?) then Savers(v) - {m.r} else Savers(v))
      && Deleters(v') == (if m.GivesUp? || m.Deletes? then Deleters(v) - {m.r} else Deleters(v))
      && Restorers(v') == (if m.Deletes? && v.slurm.None? then Restorers(v) + {m.r} else Restorers(v) - {m.r})
      && (forall r | r in v'.pending :: r in v.pending && v'.pending[r].nodes == v.pending[r].nodes)
      && (forall r | r in v.pending && r != m.r :: r in v'.pending && v'.pending[r] == v.pending[r])
  {
  }

  // ---------------------------------------------------------------------------------------
  // What settles stays settled.

  lemma SettledKept(v: View, m: Move)
    requires UnderWay(v) && Settles(v) && Fits(v, m)
    ensures UnderWay(Moved(v, m)) && Settles(Moved(v, m))
  {
    SetsAfter(v, m);
    if Deleters(v) != {} {
      DeletionKept(v, m);
    } else if Restorers(v) != {} {
      UndoingKept(v, m);
    } else {
      SavesKept(v, m);
    }
  }

  lemma DeletionKept(v: View, m: Move)
    requires UnderWay(v) && Settles(v) && Fits(v, m) && Deleters(v) != {}
    ensures UnderWay(Moved(v, m)) && Settles(Moved(v, m))
  {
    SetsAfter(v, m);
    var r :| Deleters(v) == {r} && DeletionSettles(v, r);
    assert r in Deleters(v);
    Kinds(v, m.r);
    if m.r in Deleters(v) {
      OwnStepKept(v, m, r);
    } else {
      SaveStepKept(v, m, r);
    }
  }

  /** A step of the deletion itself. */
  lemma OwnStepKept(v: View, m: Move, r: Request)
    requires UnderWay(v) && Fits(v, m) && Deleters(v) == {r} && r in Deleters(v) && DeletionSettles(v, r)
    requires Restorers(v) == {} && m.r in Deleters(v)
    ensures UnderWay(Moved(v, m)) && Settles(Moved(v, m))
  {
    SetsAfter(v, m);
    var v' := Moved(v, m);
    assert m.r == r;
    if m.Deletes? && v.slurm.None? {
      assert Restorers(v') == {r};
      if Savers(v) != {} {
        var c :| Creators(v) == {c};
        assert c in Creators(v) && c in Creators(v');
      }
      assert AllBring(v', v.pending[r].nodes);
    } else if m.Removes? {
      assert DeletionSettles(v', r);
    }
  }

  /** A step of a save beside the deletion. */
  lemma SaveStepKept(v: View, m: Move, r: Request)
    requires UnderWay(v) && Fits(v, m) && Deleters(v) == {r} && r in Deleters(v) && DeletionSettles(v, r)
    requires Restorers(v) == {} && m.r in Savers(v)
    ensures UnderWay(Moved(v, m)) && Settles(Moved(v, m))
  {
    SetsAfter(v, m);
    var v' := Moved(v, m);
    assert Carry(v, Savers(v), v.pending[m.r].nodes) || v.pending[r].Removed?;
    if m.Creates? {
      assert m.r in Creators(v);
      var c :| Creators(v) == {c};
      assert m.r == c && Creators(v') == {};
    }
    assert r in Deleters(v') && v'.pending[r] == v.pending[r];
    assert KeepsClear(v, r);
    assert Savers(v') != {} ==> KeepsClear(v', r);
    assert DeletionSettles(v', r);
  }

  lemma UndoingKept(v: View, m: Move)
    requires UnderWay(v) && Settles(v) && Fits(v, m) && Deleters(v) == {} && Restorers(v) != {}
    ensures UnderWay(Moved(v, m)) && Settles(Moved(v, m))
  {
    SetsAfter(v, m);
    var v' := Moved(v, m);
    var nodes :| AllBring(v, nodes);
    Kinds(v, m.r);
    assert Restorers(v') != {} ==> AllBring(v', nodes);
  }

  lemma SavesKept(v: View, m: Move)
    requires UnderWay(v) && Settles(v) && Fits(v, m) && Deleters(v) == {} && Restorers(v) == {}
    ensures UnderWay(Moved(v, m)) && Settles(Moved(v, m))
  {
    SetsAfter(v, m);
    Kinds(v, m.r);
  }

  // ---------------------------------------------------------------------------------------
  // What does not settle can be kept from it.

  /** Some move leaves the requests as bad as they are. */
  lemma Worse(v: View) returns (m: Move)
    requires UnderWay(v) && !Settles(v) && v.pending != map[]
    ensures Fits(v, m) && UnderWay(Moved(v, m)) && !Settles(Moved(v, m))
  {
    if Deleters(v) != {} {
      m := WorseDeletion(v);
    } else if Restorers(v) != {} {
      m := WorseUndoing(v);
    } else {
      m := WorseSaves(v);
    }
  }

  /** A next step of a request. */
  function StepOf(v: View, r: Request): Move
    requires r in v.pending && !v.pending[r].Finished?
  {
    match v.pending[r]
    case Stored(_, _) => Creates(r)
    case Updating(_, _) => Updates(r)
    case Found(_, _) => Removes(r)
    case Removed(_, _) => Deletes(r)
    case Refused(_, _) => Restores(r)
  }

  lemma WorseSaves(v: View) returns (m: Move)
    requires UnderWay(v) && !Settles(v) && v.pending != map[] && Deleters(v) == {} && Restorers(v) == {}
    ensures Fits(v, m) && UnderWay(Moved(v, m)) && !Settles(Moved(v, m))
  {
    assert Savers(v) != {} by {
      var r :| r in v.pending;
      Kinds(v, r);
    }
    if Creators(v) != {} && v.slurm.None? && v.store.None? {
      var c :| c in Creators(v);
      m := Creates(c);
    } else if Idle(v) || v.store.None? {
      var q :| q in Savers(v);
      m := StepOf(v, q);
    } else {
      var q :| q in Savers(v) && v.pending[q].nodes != v.store.value;
      m := AllButOne(v, q);
    }
    SetsAfter(v, m);
  }

  /** A step of some save that leaves save `q` to come last, if there is another. */
  lemma AllButOne(v: View, q: Request) returns (m: Move)
    requires UnderWay(v) && q in Savers(v) && !Idle(v)
    ensures Fits(v, m) && (m.Creates? || m.Updates?)
    ensures m.r == q ==> Savers(v) == {q}
    ensures m.r != q ==> !Idle(Moved(v, m))
  {
    if c :| c in Creators(v) && c != q {
      m := Creates(c);
    } else if p :| p in Savers(v) && p != q {
      m := StepOf(v, p);
    } else {
      m := StepOf(v, q);
      assert Savers(v) == {q};
    }
    SetsAfter(v, m);
    if m.r != q && v.slurm.None? && m.Updates? {
      assert Creators(Moved(v, m)) == Creators(v);
    }
  }

  lemma WorseUndoing(v: View) returns (m: Move)
    requires UnderWay(v) && !Settles(v) && Deleters(v) == {} && Restorers(v) != {}
    ensures Fits(v, m) && UnderWay(Moved(v, m)) && !Settles(Moved(v, m))
  {
    var x :| x in Restorers(v);
    if Savers(v) == {} {
      m := WorseRestore(v);
    } else if Idle(v) {
      var q :| q in Savers(v);
      m := StepOf(v, q);
      SetsAfter(v, m);
      assert q !in Creators(v) && Idle(Moved(v, m));
      assert x in Restorers(Moved(v, m));
    } else {
      assert !AllBring(v, v.pending[x].nodes);
      var y :| y in Restorers(v) + Savers(v) && v.pending[y].nodes != v.pending[x].nodes;
      m := WorseMixture(v, x, y);
    }
  }

  lemma WorseRestore(v: View) returns (m: Move)
    requires UnderWay(v) && !Settles(v) && Deleters(v) == {} && Restorers(v) != {} && Savers(v) == {}
    ensures Fits(v, m) && UnderWay(Moved(v, m)) && !Settles(Moved(v, m))
  {
    var z :| z in Restorers(v);
    assert !AllBring(v, v.pending[z].nodes);
    var y :| y in Restorers(v) && Some(v.pending[y].nodes) != v.slurm;
    if x :| x in Restorers(v) && x != y {
      m := Restores(x);
      SetsAfter(v, m);
      assert y in Restorers(Moved(v, m));
    } else {
      m := Restores(y);
      SetsAfter(v, m);
      assert Restorers(Moved(v, m)) == {};
    }
  }

  /** Two that bring different nodes still do after the move, or Slurm has gone with one of them. */
  lemma WorseMixture(v: View, x: Request, y: Request) returns (m: Move)
    requires UnderWay(v) && Deleters(v) == {} && Savers(v) != {} && !Idle(v)
    requires x in Restorers(v) && y in Restorers(v) + Savers(v) && v.pending[y].nodes != v.pending[x].nodes
    ensures Fits(v, m) && UnderWay(Moved(v, m)) && !Settles(Moved(v, m))
  {
    if y in Savers(v) {
      m := AllButOne(v, y);
    } else {
      var q :| q in Savers(v);
      m := StepOf(v, q);
    }
    SetsAfter(v, m);
    var v' := Moved(v, m);
    assert x in Restorers(v') && v'.pending[x].nodes == v.pending[x].nodes;
    if y in v'.pending {
      assert y in Restorers(v') + Savers(v') && v'.pending[y].nodes == v.pending[y].nodes;
    } else {
      assert Savers(v') == {} && v'.slurm == Some(v.pending[y].nodes);
    }
  }

  lemma WorseDeletion(v: View) returns (m: Move)
    requires UnderWay(v) && !Settles(v) && Deleters(v) != {}
    ensures Fits(v, m) && UnderWay(Moved(v, m)) && !Settles(Moved(v, m))
  {
    if Restorers(v) != {} || !Alone(Deleters(v)) {
      m := WorseCrowd(v);
    } else {
      var r :| Deleters(v) == {r};
      assert r in Deleters(v) && !DeletionSettles(v, r);
      if v.pending[r].Found? {
        m := WorseFound(v, r);
      } else if Savers(v) == {} || v.store.Some? {
        m := WorseRemoved(v, r);
      } else {
        m := WorseLost(v, r);
      }
    }
  }

  /** A deletion beside another, or beside one being undone, can always go wrong. */
  lemma WorseCrowd(v: View) returns (m: Move)
    requires UnderWay(v) && Deleters(v) != {} && (Restorers(v) != {} || !Alone(Deleters(v)))
    ensures Fits(v, m) && UnderWay(Moved(v, m)) && !Settles(Moved(v, m))
  {
    if f :| f in Deleters(v) && v.pending[f].Found? {
      m := Removes(f);
    } else if q :| q in Savers(v) {
      m := StepOf(v, q);
    } else {
      var r :| r in Deleters(v);
      m := Deletes(r);
    }
    SetsAfter(v, m);
    var v' := Moved(v, m);
    if m.Deletes? {
      if Restorers(v) == {} {
        assert Deleters(v') == {} ==> Deleters(v) == {m.r};
      }
    } else if Restorers(v) != {} {
      assert Restorers(v') == Restorers(v);
    }
  }

  lemma WorseFound(v: View, r: Request) returns (m: Move)
    requires UnderWay(v) && Restorers(v) == {} && Deleters(v) == {r} && r in Deleters(v)
    requires v.pending[r].Found? && !DeletionSettles(v, r)
    ensures Fits(v, m) && UnderWay(Moved(v, m)) && !Settles(Moved(v, m))
  {
    m := if Savers(v) == {} then (if v.store != v.slurm then GivesUp(r) else Removes(r))
         else if KeepsClear(v, r) then GivesUp(r)
         else Removes(r);
    SetsAfter(v, m);
    if m == Removes(r) { StaysUnclear(v, m, r); }
  }

  lemma StaysUnclear(v: View, m: Move, r: Request)
    requires UnderWay(v) && Fits(v, m) && r in v.pending && m == Removes(r)
    ensures UnderWay(Moved(v, m)) && KeepsClear(Moved(v, m), r) == KeepsClear(v, r)
  {
    SetsAfter(v, m);
  }

  lemma WorseRemoved(v: View, r: Request) returns (m: Move)
    requires UnderWay(v) && Restorers(v) == {} && Deleters(v) == {r} && r in Deleters(v)
    requires v.pending[r].Removed? && !DeletionSettles(v, r) && (Savers(v) == {} || v.store.Some?)
    ensures Fits(v, m) && UnderWay(Moved(v, m)) && !Settles(Moved(v, m))
  {
    if q :| q in Savers(v) {
      m := StepOf(v, q);
    } else {
      m := Deletes(r);
    }
    SetsAfter(v, m);
  }

  lemma WorseLost(v: View, r: Request) returns (m: Move)
    requires UnderWay(v) && Restorers(v) == {} && Deleters(v) == {r} && r in Deleters(v)
    requires v.pending[r].Removed? && Savers(v) != {} && v.store.None? && !KeepsClear(v, r)
    ensures Fits(v, m) && UnderWay(Moved(v, m)) && !Settles(Moved(v, m))
  {
    if v.slurm.None? && Creators(v) != {} && !Alone(Creators(v)) {
      var c :| c in Creators(v);
      m := Creates(c);
      SetsAfter(v, m);
      assert Creators(Moved(v, m)) != {};
    } else {
      m := Deletes(r);
      SetsAfter(v, m);
    }
  }

  // ---------------------------------------------------------------------------------------
  // Runs in which nothing goes wrong by itself.

  /** The store and Slurm have the same of the partition: the same nodes, or nothing. */
  ghost predicate InStep(s: State, n: Name) {
    Lookup(s.store, n) == Lookup(s.slurm, n)
  }

  /** No request on the name begins, its commands do what Slurm allows, and refused deletions are undone. */
  ghost predicate Smooth(s: State, e: Event, n: Name)
    requires Enabled(s, e)
  {
    NameOf(s, e) == n ==>
      match e
      case Save(_, _, _) => false
      case Find(_, _) => false
      case Create(_, ok, effect) => ok == effect == (n !in s.slurm)
      case Update(_, ok, effect) => ok == effect == (n in s.slurm)
      case Delete(_, ok, effect) => ok == effect == (n in s.slurm)
      case Restore(_, ok) => ok
      case StoreFails(_) => true
      case Remove(_) => true
  }

  ghost predicate RunsSmoothly(s: State, es: seq<Event>, n: Name)
    requires CanRun(s, es)
    decreases |es|
  {
    es == [] || (Smooth(s, es[0], n) && RunsSmoothly(Next(s, es[0]), es[1..], n))
  }

  /** However the requests under way are interleaved, they end in step. */
  ghost predicate BoundToSettle(s: State, n: Name) {
    forall es | CanRun(s, es) && RunsSmoothly(s, es, n) && !Busy(Run(s, es), n) :: InStep(Run(s, es), n)
  }

  function MoveOf(e: Event): Move
    requires !e.Save? && !e.Find?
  {
    match e
    case Create(r, _, _) => Creates(r)
    case Update(r, _, _) => Updates(r)
    case StoreFails(r) => GivesUp(r)
    case Remove(r) => Removes(r)
    case Delete(r, _, _) => Deletes(r)
    case Restore(r, _) => Restores(r)
  }

  /** A smooth event is a move on its own name and nothing on any other. */
  lemma ViewAfter(s: State, e: Event, n: Name)
    requires Enabled(s, e) && Smooth(s, e, n)
    ensures NameOf(s, e) != n ==> ViewOf(Next(s, e), n) == ViewOf(s, n)
    ensures NameOf(s, e) == n ==>
      Fits(ViewOf(s, n), MoveOf(e)) && ViewOf(Next(s, e), n) == Moved(ViewOf(s, n), MoveOf(e))
  {
    if NameOf(s, e) != n {
      Elsewhere(s, e, n);
      hide Next;
      assert ViewOf(Next(s, e), n).pending == ViewOf(s, n).pending;
    } else {
      PendingAfter(s, e, n);
      OwnViewAfter(s, e, n);
    }
  }

  lemma PendingAfter(s: State, e: Event, n: Name)
    requires Enabled(s, e) && n == NameOf(s, e) && !e.Save? && !e.Find?
    ensures On(s, e.r, n)
    ensures var p := Next(s, e).requests[e.r];
      ViewOf(Next(s, e), n).pending ==
        if p.Finished? then ViewOf(s, n).pending - {e.r} else ViewOf(s, n).pending[e.r := p]
  {
    var s' := Next(s, e);
    assert s'.requests == s.requests[e.r := s'.requests[e.r]];
    assert On(s, e.r, n);
    assert forall r | r != e.r :: On(s', r, n) <==> On(s, r, n);
  }

  lemma OwnViewAfter(s: State, e: Event, n: Name)
    requires Enabled(s, e) && Smooth(s, e, n) && n == NameOf(s, e) && On(s, e.r, n)
    requires var p := Next(s, e).requests[e.r];
      ViewOf(Next(s, e), n).pending ==
        if p.Finished? then ViewOf(s, n).pending - {e.r} else ViewOf(s, n).pending[e.r := p]
    ensures Fits(ViewOf(s, n), MoveOf(e)) && ViewOf(Next(s, e), n) == Moved(ViewOf(s, n), MoveOf(e))
  {
  }

  lemma EventFor(s: State, n: Name, m: Move) returns (e: Event)
    requires Fits(ViewOf(s, n), m)
    ensures Enabled(s, e) && Smooth(s, e, n) && ViewOf(Next(s, e), n) == Moved(ViewOf(s, n), m)
  {
    assert On(s, m.r, n);
    e := match m
      case Creates(r) => Create(r, n !in s.slurm, n !in s.slurm)
      case Updates(r) => Update(r, n in s.slurm, n in s.slurm)
      case GivesUp(r) => StoreFails(r)
      case Removes(r) => Remove(r)
      case Deletes(r) => Delete(r, n in s.slurm, n in s.slurm)
      case Restores(r) => Restore(r, true);
    ViewAfter(s, e, n);
  }

  lemma {:induction false} SettlesStays(s: State, es: seq<Event>, n: Name)
    requires CanRun(s, es) && RunsSmoothly(s, es, n) && Settles(ViewOf(s, n))
    ensures Settles(ViewOf(Run(s, es), n))
    decreases |es|
  {
    if es != [] {
      ViewAfter(s, es[0], n);
      if NameOf(s, es[0]) == n { SettledKept(ViewOf(s, n), MoveOf(es[0])); }
      SettlesStays(Next(s, es[0]), es[1..], n);
    }
  }

  /** The steps that the requests under way have left, at most. */
  ghost function StepsLeft(v: View): nat {
    |Savers(v)| + |Creators(v)| + 2 * |Deleters(v)| + |Finders(v)| + |Restorers(v)|
  }

  ghost function Finders(v: View): set<Request> { set r | r in v.pending && v.pending[r].Found? }

  lemma FewerStepsLeft(v: View, m: Move)
    requires UnderWay(v) && Fits(v, m)
    ensures StepsLeft(Moved(v, m)) < StepsLeft(v)
  {
    SavesLeft(v, m);
    DeletionsLeft(v, m);
    FindsLeft(v, m);
    RestoresLeft(v, m);
    hide Moved, Creators, Savers, Deleters, Finders, Restorers;
  }

  lemma SavesLeft(v: View, m: Move)
    requires UnderWay(v) && Fits(v, m)
    ensures |Creators(Moved(v, m))| == |Creators(v)| - if m.Creates? then 1 else 0
    ensures |Savers(Moved(v, m))| == |Savers(v)| - if m.Updates? || (m.Creates? && v.slurm.None?) then 1 else 0
  {
    assert Creators(Moved(v, m)) == (if m.Creates? then Creators(v) - {m.r} else Creators(v)) by { SetsAfter(v, m); }
    assert Savers(Moved(v, m)) ==
      (if m.Updates? || (m.Creates? && v.slurm.None?) then Savers(v) - {m.r} else Savers(v)) by { SetsAfter(v, m); }
    assert m.Creates? ==> m.r in Creators(v);
    assert m.Creates? || m.Updates? ==> m.r in Savers(v);
    hide *;
    Sizes(Creators(v), m.r);
    Sizes(Savers(v), m.r);
  }

  lemma DeletionsLeft(v: View, m: Move)
    requires UnderWay(v) && Fits(v, m)
    ensures |Deleters(Moved(v, m))| == |Deleters(v)| - if m.GivesUp? || m.Deletes? then 1 else 0
  {
    assert Deleters(Moved(v, m)) == (if m.GivesUp? || m.Deletes? then Deleters(v) - {m.r} else Deleters(v)) by {
      SetsAfter(v, m);
      hide *;
    }
    assert m.GivesUp? || m.Deletes? ==> m.r in Deleters(v);
    hide *;
    Sizes(Deleters(v), m.r);
  }

  lemma FindsLeft(v: View, m: Move)
    requires UnderWay(v) && Fits(v, m)
    ensures |Finders(Moved(v, m))| == |Finders(v)| - if m.GivesUp? || m.Removes? then 1 else 0
  {
    assert Finders(Moved(v, m)) == if m.GivesUp? || m.Removes? then Finders(v) - {m.r} else Finders(v);
    assert m.GivesUp? || m.Removes? ==> m.r in Finders(v);
    hide *;
    Sizes(Finders(v), m.r);
  }

  lemma RestoresLeft(v: View, m: Move)
    requires UnderWay(v) && Fits(v, m)
    ensures |Restorers(Moved(v, m))| ==
      |Restorers(v)| + if m.Deletes? && v.slurm.None? then 1 else if m.Restores? then -1 else 0
  {
    assert Restorers(Moved(v, m)) ==
      (if m.Deletes? && v.slurm.None? then Restorers(v) + {m.r}
       else if m.Restores? then Restorers(v) - {m.r} else Restorers(v)) by { SetsAfter(v, m); }
    assert m.Restores? <==> m.r in Restorers(v);
    hide *;
    Sizes(Restorers(v), m.r);
  }

  lemma Sizes(s: set<Request>, r: Request)
    ensures |s - {r}| == |s| - (if r in s then 1 else 0)
    ensures |s + {r}| == |s| + (if r in s then 0 else 1)
  {
    if r in s { assert s + {r} == s; } else { assert s - {r} == s; }
  }

  lemma {:induction false} CanMiss(s: State, n: Name) returns (es: seq<Event>)
    requires !Settles(ViewOf(s, n))
    ensures CanRun(s, es) && RunsSmoothly(s, es, n) && !Busy(Run(s, es), n) && !InStep(Run(s, es), n)
    decreases StepsLeft(ViewOf(s, n))
  {
    var v := ViewOf(s, n);
    if v.pending == map[] {
      es := [];
      forall r ensures !On(s, r, n) {
        assert r !in v.pending;
      }
    } else {
      var m := Worse(v);
      var e := EventFor(s, n, m);
      FewerStepsLeft(v, m);
      var rest := CanMiss(Next(s, e), n);
      es := Before(s, e, rest);
      assert es[1..] == rest;
    }
  }

  /** In every state the requests under way on a partition can be finished smoothly. */
  lemma {:induction false} CanFinish(s: State, n: Name) returns (es: seq<Event>)
    ensures CanRun(s, es) && RunsSmoothly(s, es, n) && !Busy(Run(s, es), n)
    decreases StepsLeft(ViewOf(s, n))
  {
    var v := ViewOf(s, n);
    if r :| On(s, r, n) {
      assert r in v.pending;
      var m := StepOf(v, r);
      var e := EventFor(s, n, m);
      FewerStepsLeft(v, m);
      var rest := CanFinish(Next(s, e), n);
      es := Before(s, e, rest);
      assert es[1..] == rest;
    } else {
      es := [];
    }
  }

  /** The requests under way on a partition are bound to leave Slurm in step with the store if and only if
      `Settles` holds of them, of the store and of Slurm. */
  lemma SettlesExactly(s: State, n: Name)
    ensures BoundToSettle(s, n) <==> Settles(ViewOf(s, n))
  {
    if Settles(ViewOf(s, n)) {
      forall es | CanRun(s, es) && RunsSmoothly(s, es, n) && !Busy(Run(s, es), n) ensures InStep(Run(s, es), n) {
        SettlesStays(s, es, n);
        AtRest(Run(s, es), n);
      }
    } else {
      var es := CanMiss(s, n);
    }
  }

  lemma AtRest(s: State, n: Name)
    requires !Busy(s, n)
    ensures Settles(ViewOf(s, n)) <==> InStep(s, n)
  {
    assert ViewOf(s, n).pending == map[];
  }

  // ---------------------------------------------------------------------------------------
  // What that means for saves and deletions.

  /** With nothing but saves under way, not all of them updates of a partition that Slurm lacks, Slurm is
      bound to end with the stored nodes exactly when the partition is stored and every save brings the
      stored nodes; with nothing under way, when the two agree already. */
  lemma SavesSettleExactly(s: State, n: Name)
    requires forall r | On(s, r, n) :: s.requests[r].Stored? || s.requests[r].Updating?
    requires Busy(s, n) ==> n in s.slurm || Creating(s, n)
    ensures BoundToSettle(s, n) <==>
      if Busy(s, n) then n in s.store && forall r | On(s, r, n) :: s.requests[r].nodes == s.store[n] else InStep(s, n)
  {
    SettlesExactly(s, n);
    var v := ViewOf(s, n);
    assert Deleters(v) == {} && Restorers(v) == {};
    assert forall q :: On(s, q, n) <==> q in Savers(v);
    assert forall q :: (On(s, q, n) && s.requests[q].Stored?) <==> q in Creators(v);
  }

  /** A deletion that is alone is bound to end in step exactly when Slurm has the partition and is in step
      before it, or, once the partition is out of the store, exactly when Slurm has it. */
  lemma LoneDeletionSettlesExactly(s: State, n: Name, r: Request)
    requires On(s, r, n) && (forall u | On(s, u, n) :: u == r)
    requires s.requests[r].Found? || (s.requests[r].Removed? && n !in s.store)
    ensures BoundToSettle(s, n) <==> n in s.slurm && (s.requests[r].Found? ==> InStep(s, n))
  {
    SettlesExactly(s, n);
    var v := ViewOf(s, n);
    assert Deleters(v) == {r} && Savers(v) == {} && Restorers(v) == {};
    assert forall u | Deleters(v) == {u} :: u == r by {
      assert r in Deleters(v);
    }
  }

  /** Two deletions under way are never bound to end in step. */
  lemma TwoDeletionsNeverSettle(s: State, n: Name, q: Request, r: Request)
    requires q != r && On(s, q, n) && On(s, r, n)
    requires (s.requests[q].Found? || s.requests[q].Removed?) && (s.requests[r].Found? || s.requests[r].Removed?)
    ensures !BoundToSettle(s, n)
  {
    SettlesExactly(s, n);
    var v := ViewOf(s, n);
    assert q in Deleters(v) && r in Deleters(v);
  }

  // ---------------------------------------------------------------------------------------
  // Two ways out of step that leave no trace.

  /** Nothing that the history records has gone wrong. */
  ghost predicate Clean(s: State) {
    s.crossed == {} && s.unrestored == {} && s.unsynced == {}
  }

  /** A partition saved and applied, and found by a deletion. */
  lemma SavedAndFound(n: Name, a: Nodes) returns (es: seq<Event>)
    ensures CanRun(Start(map[]), es)
    ensures Run(Start(map[]), es) ==
      State(map[n := a], map[n := a], {n}, map[0 := Finished, 1 := Found(n, a)], {}, {}, {}, {})
  {
    var s0 := Start(map[]);
    var s1 := Next(s0, Save(0, n, a));
    var s2 := Next(s1, Create(0, true, true));
    es := Before(s2, Find(1, n), []);
    es := Before(s1, Create(0, true, true), es);
    es := Before(s0, Save(0, n, a), es);
  }

  /** The first of two deletions succeeds and the second, refused, brings the partition back to the store. */
  lemma DeleteTwice(s: State, n: Name, q: Request, r: Request) returns (es: seq<Event>)
    requires Clean(s) && q != r && On(s, q, n) && On(s, r, n) && s.requests[q].Found? && s.requests[r].Found?
    requires (forall u | On(s, u, n) :: u == q || u == r) && n in s.slurm
    ensures CanRun(s, es) && Clean(Run(s, es))
    ensures n in Run(s, es).store && n !in Run(s, es).slurm && !Busy(Run(s, es), n)
  {
    var s1 := Next(s, Remove(q));
    var s2 := Next(s1, Delete(q, true, true));
    var s3 := Next(s2, Remove(r));
    var s4 := Next(s3, Delete(r, false, false));
    var s5 := Next(s4, Restore(r, true));
    forall u ensures !On(s5, u, n) {
      if On(s5, u, n) { assert On(s, u, n); }
    }
    es := Before(s4, Restore(r, true), []);
    es := Before(s3, Delete(r, false, false), es);
    es := Before(s2, Remove(r), es);
    es := Before(s1, Delete(q, true, true), es);
    es := Before(s, Remove(q), es);
  }

  /** So the store can hold a partition that Slurm lacks, though its deletion was reported as done and no
      command went wrong. */
  lemma SecondDeletionBringsBack(n: Name, a: Nodes) returns (es: seq<Event>)
    ensures CanRun(Start(map[]), es)
    ensures var s := Run(Start(map[]), es);
      n in s.store && n !in s.slurm && !Busy(s, n) && Clean(s)
  {
    es := SavedAndFound(n, a);
    var s3 := Run(Start(map[]), es);
    var s4 := Next(s3, Find(2, n));
    var last := DeleteTwice(s4, n, 1, 2);
    last := Before(s3, Find(2, n), last);
    es := Then(Start(map[]), es, last);
  }

  /** A save of other nodes passes a deletion that has found the partition. */
  lemma SaveInBetween(s: State, n: Name, q: Request, b: Nodes) returns (es: seq<Event>)
    requires q !in s.requests && n in s.slurm
    ensures CanRun(s, es)
    ensures var s' := Run(s, es);
      && s'.store == s.store[n := b] && s'.slurm == s.slurm[n := b] && s'.requests == s.requests[q := Finished]
      && (Clean(s) ==> Clean(s'))
  {
    var s1 := Next(s, Save(q, n, b));
    var s2 := Next(s1, Create(q, false, false));
    es := Before(s2, Update(q, true, true), []);
    es := Before(s1, Create(q, false, false), es);
    es := Before(s, Save(q, n, b), es);
  }

  /** A refused deletion that found the partition before a save puts the nodes of before the save back. */
  lemma StaleNodesComeBack(n: Name, a: Nodes, b: Nodes) returns (es: seq<Event>)
    ensures CanRun(Start(map[]), es)
    ensures var s := Run(Start(map[]), es);
      Lookup(s.store, n) == Some(a) && Lookup(s.slurm, n) == Some(b) && !Busy(s, n) && Clean(s)
  {
    es := SavedAndFound(n, a);
    var more := SaveInBetween(Run(Start(map[]), es), n, 2, b);
    es := Then(Start(map[]), es, more);
    var s := Run(Start(map[]), es);
    var s1 := Next(s, Remove(1));
    var s2 := Next(s1, Delete(1, false, false));
    assert forall r | r in Next(s2, Restore(1, true)).requests :: Next(s2, Restore(1, true)).requests[r].Finished?;
    var last := Before(s2, Restore(1, true), []);
    last := Before(s1, Delete(1, false, false), last);
    last := Before(s, Remove(1), last);
    es := Then(Start(map[]), es, last);
  }
}
