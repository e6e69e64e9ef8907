/**
 Every run of the terminal sessions: handlers opening and adding sessions, sockets claiming them,
 and the racing removers of internal/web/terminal.go, interleaved between critical sections.
 The store's own steps are the functions that `TerminalSessions` proves its methods against.
 */
module TerminalRuns {
  import opened Wrappers
  import opened Sets
  import opened TerminalSessions

  type Handle = nat
  type Remover = nat
  type Seats = map<Id, Seat<Handle>>

  /** What one remover takes out of the store in its critical section. */
  datatype Removal = One(id: Id) | AllOf(user: User) | Everything

  /** Where a session is: with its handler, turned away, in the store, taken by a remover, or closed. */
  datatype Place = Held | Refused | Seated(id: Id) | Removed(r: Remover) | Gone

  datatype State = State(
    seats: Seats,
    tokens: set<Id>,                       // every id handed out so far
    owners: map<Id, User>,                 // who each id was handed to
    sessions: set<Handle>,                 // every session opened
    held: set<Handle>,                     // opened, not yet offered to the store
    refused: set<Handle>,                  // turned away, to be closed by the handler
    pending: map<Remover, set<Handle>>,    // taken out, to be closed by one remover
    streams: set<Handle>,                  // claimed, read by a socket
    once: set<Handle>,                     // whose sync.Once has run
    closes: seq<Handle>,                   // closes of the sessions underneath
    claims: seq<(Id, User)>,
    place: map<Handle, Place>)             // history: no step looks at it

  datatype Event =
    | Open(h: Handle)
    | Add(owner: User, h: Handle, token: Option<Id>)
    | CloseRefused(h: Handle)
    | Claim(id: Id, user: User)
    | StreamClose(h: Handle)
    | Remove(r: Remover, what: Removal)
    | ClosePending(r: Remover, h: Handle)

  const Empty := State(map[], {}, map[], {}, {}, {}, map[], {}, {}, [], [], map[])

  ghost function Taken(v: Seats, what: Removal): set<Id> {
    match what
    case One(id) => {id} * v.Keys
    case AllOf(user) => OwnedBy(v, user)
    case Everything => v.Keys
  }

  function Handles(v: Seats, ids: set<Id>): set<Handle> {
    set id | id in ids && id in v :: v[id].handle
  }

  /** Random tokens are taken to be fresh. */
  predicate Enabled(s: State, e: Event) {
    match e
    case Open(h) => h !in s.sessions
    case Add(_, h, token) => h in s.held && (token.Some? ==> token.value !in s.tokens)
    case CloseRefused(h) => h in s.refused
    case Claim(_, _) => true
    case StreamClose(h) => h in s.streams
    case Remove(r, _) => r !in s.pending
    case ClosePending(r, h) => r in s.pending && h in s.pending[r]
  }

  /** `managedTerminalSession.Close`: the session underneath is closed the first time only. */
  function CloseOnce(s: State, h: Handle): State {
    if h in s.once then s else s.(once := s.once + {h}, closes := s.closes + [h])
  }

  ghost function Next(s: State, e: Event): State
    requires Enabled(s, e)
  {
    match e
    case Open(h) => s.(sessions := s.sessions + {h}, held := s.held + {h}, place := s.place[h := Held])
    case Add(owner, h, token) =>
      var (id, seats) := Added(s.seats, owner, h, token);
      if id.Some? then
        s.(seats := seats, tokens := s.tokens + {id.value}, owners := s.owners[id.value := owner], held := s.held - {h},
            place := s.place[h := Seated(id.value)])
      else s.(held := s.held - {h}, refused := s.refused + {h}, place := s.place[h := Refused])
    case CloseRefused(h) => s.(refused := s.refused - {h}, closes := s.closes + [h], place := s.place[h := Gone])
    case Claim(id, user) =>
      if Claimable(s.seats, id, user) then
        s.(seats := Claimed(s.seats, id, user), streams := s.streams + {s.seats[id].handle},
           claims := s.claims + [(id, user)])
      else s
    case StreamClose(h) => CloseOnce(s, h)
    case Remove(r, what) =>
      var ids := Taken(s.seats, what);
      s.(seats := s.seats - ids, pending := s.pending[r := Handles(s.seats, ids)],
         place := map h | h in s.place :: if s.place[h].Seated? && s.place[h].id in ids then Removed(r) else s.place[h])
    case ClosePending(r, h) =>
      CloseOnce(s.(pending := s.pending[r := s.pending[r] - {h}], place := s.place[h := Gone]), h)
  }

  ghost predicate CanRun(s: State, es: seq<Event>)
    decreases |es|
  {
    es == [] || (Enabled(s, es[0]) && CanRun(Next(s, es[0]), es[1..]))
  }

  ghost function Run(s: State, es: seq<Event>): State
    requires CanRun(s, es)
    decreases |es|
  {
    if es == [] then s else Run(Next(s, es[0]), es[1..])
  }

  // ---------------------------------------------------------------------------------------

  ghost predicate Quotas(v: Seats) {
    |v| <= MAX_SESSIONS && forall user :: |OwnedBy(v, user)| <= MAX_SESSIONS_PER_USER
  }

  /** What a session's place says about it. */
  ghost predicate PlaceSound(s: State, h: Handle)
    requires h in s.place
  {
    match s.place[h]
    case Held => h in s.held && h !in s.refused && h !in s.closes && h !in s.streams
    case Refused => h in s.refused && h !in s.held && h !in s.closes && h !in s.streams
    case Seated(id) => h !in s.held && h !in s.refused && id in s.seats && s.seats[id].handle == h
    case Removed(r) => h !in s.held && h !in s.refused && r in s.pending && h in s.pending[r]
    case Gone => h !in s.held && h !in s.refused && h in s.closes
  }

  /** A close that bypassed `sync.Once` belongs to a session that never reached the store. */
  ghost predicate CloseSound(s: State, h: Handle)
    requires h in s.place
  {
    && (h in s.once ==> h in s.closes)
    && (h in s.closes && h !in s.once ==> s.place[h].Gone? && h !in s.streams)
  }

  ghost predicate Placed(s: State) {
    && s.place.Keys == s.sessions
    && (forall h | h in s.place :: PlaceSound(s, h) && CloseSound(s, h))
    && s.held <= s.sessions && s.refused <= s.sessions && s.streams <= s.sessions && s.once <= s.sessions
    && (forall h | h in s.closes :: h in s.sessions)
    && (forall id | id in s.seats :: s.seats[id].handle in s.place && s.place[s.seats[id].handle] == Seated(id))
    && (forall r | r in s.pending :: forall h | h in s.pending[r] :: h in s.place && s.place[h] == Removed(r))
  }

  ghost predicate ClosedOnce(s: State) {
    forall i, j | 0 <= i < j < |s.closes| :: s.closes[i] != s.closes[j]
  }

  /** A claim is made once, by the owner of the id. */
  ghost predicate OneShot(s: State) {
    && s.seats.Keys <= s.tokens == s.owners.Keys
    && (forall id | id in s.seats :: s.seats[id].owner == s.owners[id])
    && (forall i | 0 <= i < |s.claims| :: ClaimSound(s, s.claims[i]))
    && (forall i, j | 0 <= i < j < |s.claims| :: s.claims[i].0 != s.claims[j].0)
  }

  ghost predicate ClaimSound(s: State, c: (Id, User)) {
    c.0 in s.owners && s.owners[c.0] == c.1 && (c.0 in s.seats ==> s.seats[c.0].claimed)
  }

  ghost predicate Inv(s: State) {
    Quotas(s.seats) && Placed(s) && ClosedOnce(s) && OneShot(s)
  }

  lemma OneMoreOwned(v: Seats, owner: User, h: Handle, token: Id, user: User)
    requires Quotas(v) && HasRoom(v, owner) && token !in v
    ensures |OwnedBy(v[token := Seat(owner, h, false)], user)| <= MAX_SESSIONS_PER_USER
  {
    var v' := v[token := Seat(owner, h, false)];
    if user == owner {
      SubsetSize(OwnedBy(v', user), OwnedBy(v, user) + {token});
    } else {
      SubsetSize(OwnedBy(v', user), OwnedBy(v, user));
    }
  }

  lemma AddKeepsQuotas(v: Seats, owner: User, h: Handle, token: Id)
    requires Quotas(v) && HasRoom(v, owner) && token !in v
    ensures Quotas(v[token := Seat(owner, h, false)])
  {
    var v' := v[token := Seat(owner, h, false)];
    assert v'.Keys == v.Keys + {token};
    forall user ensures |OwnedBy(v', user)| <= MAX_SESSIONS_PER_USER {
      hide Quotas, OwnedBy, HasRoom;
      OneMoreOwned(v, owner, h, token, user);
    }
  }

  lemma FewerKeepsQuotas(v: Seats, v': Seats)
    requires Quotas(v) && v'.Keys <= v.Keys && forall id | id in v' :: v'[id].owner == v[id].owner
    ensures Quotas(v')
  {
    SubsetSize(v'.Keys, v.Keys);
    forall user ensures |OwnedBy(v', user)| <= MAX_SESSIONS_PER_USER {
      SubsetSize(OwnedBy(v', user), OwnedBy(v, user));
    }
  }

  lemma QuotasKept(s: State, e: Event)
    requires Quotas(s.seats) && s.seats.Keys <= s.tokens && Enabled(s, e)
    ensures Quotas(Next(s, e).seats)
  {
    if e.Add? && HasRoom(s.seats, e.owner) && e.token.Some? {
      AddKeepsQuotas(s.seats, e.owner, e.h, e.token.value);
    } else {
      hide Quotas;
      FewerKeepsQuotas(s.seats, Next(s, e).seats);
    }
  }

  lemma PlacedKept(s: State, e: Event)
    requires Placed(s) && s.seats.Keys <= s.tokens && Enabled(s, e)
    ensures Placed(Next(s, e))
  {
    match e
    case Open(_) => OpenKeepsPlaces(s, e);
    case Add(owner, h, token) =>
      if token.Some? && HasRoom(s.seats, owner) {
        AcceptKeepsPlaces(s, owner, h, token.value);
      } else {
        RefuseKeepsPlaces(s, owner, h, token);
      }
    case CloseRefused(h) => RefusedKeepsPlaces(s, h);
    case Claim(_, _) => ClaimKeepsPlaces(s, e);
    case StreamClose(h) => StreamKeepsPlaces(s, h);
    case Remove(_, _) => RemoveKeepsPlaces(s, e);
    case ClosePending(r, h) => PendingKeepsPlaces(s, r, h);
  }

  lemma OpenKeepsPlaces(s: State, e: Event)
    requires Placed(s) && e.Open? && Enabled(s, e)
    ensures Placed(Next(s, e))
  {
  }

  lemma AcceptKeepsPlaces(s: State, owner: User, h: Handle, id: Id)
    requires Placed(s) && s.seats.Keys <= s.tokens && Enabled(s, Add(owner, h, Some(id))) && HasRoom(s.seats, owner)
    ensures Placed(Next(s, Add(owner, h, Some(id))))
  {
    var s' := Next(s, Add(owner, h, Some(id)));
    hide HasRoom;
    forall g | g in s'.place ensures PlaceSound(s', g) && CloseSound(s', g) {
      assert PlaceSound(s, g) && CloseSound(s, g);
    }
  }

  lemma RefuseKeepsPlaces(s: State, owner: User, h: Handle, token: Option<Id>)
    requires Placed(s) && Enabled(s, Add(owner, h, token)) && (token.None? || !HasRoom(s.seats, owner))
    ensures Placed(Next(s, Add(owner, h, token)))
  {
    var s' := s.(held := s.held - {h}, refused := s.refused + {h}, place := s.place[h := Refused]);
    assert Next(s, Add(owner, h, token)) == s';
    hide HasRoom, Next, Added;
    forall g | g in s'.place ensures PlaceSound(s', g) && CloseSound(s', g) {
      assert PlaceSound(s, g) && CloseSound(s, g);
    }
  }

  lemma ClaimKeepsPlaces(s: State, e: Event)
    requires Placed(s) && e.Claim? && Enabled(s, e)
    ensures Placed(Next(s, e))
  {
    var s' := Next(s, e);
    forall h | h in s'.place ensures PlaceSound(s', h) && CloseSound(s', h) {
      assert PlaceSound(s, h) && CloseSound(s, h);
    }
  }

  lemma RefusedKeepsPlaces(s: State, h: Handle)
    requires Placed(s) && Enabled(s, CloseRefused(h))
    ensures Placed(Next(s, CloseRefused(h)))
  {
    var s' := Next(s, CloseRefused(h));
    forall g | g in s'.place ensures PlaceSound(s', g) && CloseSound(s', g) {
      assert PlaceSound(s, g) && CloseSound(s, g);
    }
  }

  lemma StreamKeepsPlaces(s: State, h: Handle)
    requires Placed(s) && Enabled(s, StreamClose(h))
    ensures Placed(Next(s, StreamClose(h)))
  {
    var s' := Next(s, StreamClose(h));
    forall g | g in s'.place ensures PlaceSound(s', g) && CloseSound(s', g) {
      assert PlaceSound(s, g) && CloseSound(s, g);
    }
  }

  lemma PendingKeepsPlaces(s: State, r: Remover, h: Handle)
    requires Placed(s) && Enabled(s, ClosePending(r, h))
    ensures Placed(Next(s, ClosePending(r, h)))
  {
    var s' := Next(s, ClosePending(r, h));
    forall g | g in s'.place ensures PlaceSound(s', g) && CloseSound(s', g) {
      assert PlaceSound(s, g) && CloseSound(s, g);
    }
  }

  lemma RemoveKeepsPlaces(s: State, e: Event)
    requires Placed(s) && e.Remove? && Enabled(s, e)
    ensures Placed(Next(s, e))
  {
    var s', ids := Next(s, e), Taken(s.seats, e.what);
    forall h | h in s'.place ensures PlaceSound(s', h) && CloseSound(s', h) {
      assert PlaceSound(s, h) && CloseSound(s, h);
    }
  }

  lemma ClosedOnceKept(s: State, e: Event)
    requires Placed(s) && ClosedOnce(s) && Enabled(s, e)
    ensures ClosedOnce(Next(s, e))
  {
    match e
    case CloseRefused(h) => assert PlaceSound(s, h);
    case StreamClose(h) => assert CloseSound(s, h);
    case ClosePending(r, h) => assert CloseSound(s, h);
    case _ =>
  }

  lemma ClaimSoundKept(s: State, e: Event, c: (Id, User))
    requires OneShot(s) && Enabled(s, e) && ClaimSound(s, c)
    ensures ClaimSound(Next(s, e), c)
  {
    hide HasRoom;
  }

  lemma SeatsKnown(s: State, e: Event)
    requires OneShot(s) && Enabled(s, e)
    ensures Next(s, e).seats.Keys <= Next(s, e).tokens == Next(s, e).owners.Keys
    ensures forall id | id in Next(s, e).seats :: Next(s, e).seats[id].owner == Next(s, e).owners[id]
  {
    hide HasRoom, ClaimSound;
  }

  lemma OneShotKept(s: State, e: Event)
    requires OneShot(s) && Enabled(s, e)
    ensures OneShot(Next(s, e))
  {
    var s' := Next(s, e);
    SeatsKnown(s, e);
    assert s'.claims == s.claims || (e.Claim? && Claimable(s.seats, e.id, e.user)
      && s'.claims == s.claims + [(e.id, e.user)]);
    if e.Claim? && Claimable(s.seats, e.id, e.user) {
      assert ClaimSound(s', (e.id, e.user));
    }
    forall i | 0 <= i < |s.claims| ensures ClaimSound(s', s.claims[i]) {
      ClaimSoundKept(s, e, s.claims[i]);
    }
    hide Next, ClaimSound;
    forall i, j | 0 <= i < j < |s'.claims| ensures s'.claims[i].0 != s'.claims[j].0 {
      if j == |s.claims| {
        NotYetClaimed(s, e, i);
      }
    }
  }

  lemma NotYetClaimed(s: State, e: Event, i: nat)
    requires OneShot(s) && e.Claim? && Claimable(s.seats, e.id, e.user) && i < |s.claims|
    ensures s.claims[i].0 != e.id
  {
  }

  lemma {:induction false} RunKeeps(s: State, es: seq<Event>)
    requires Inv(s) && CanRun(s, es)
    ensures Inv(Run(s, es))
    decreases |es|
  {
    if es != [] {
      QuotasKept(s, es[0]);
      PlacedKept(s, es[0]);
      ClosedOnceKept(s, es[0]);
      OneShotKept(s, es[0]);
      RunKeeps(Next(s, es[0]), es[1..]);
    }
  }

  // ---------------------------------------------------------------------------------------
  // What every interleaving guarantees.

  ghost predicate Reachable(s: State) {
    exists es :: CanRun(Empty, es) && s == Run(Empty, es)
  }

  lemma ReachableInv(s: State)
    requires Reachable(s)
    ensures Inv(s)
  {
    var es :| CanRun(Empty, es) && s == Run(Empty, es);
    RunKeeps(Empty, es);
  }

  predicate StoredAs(s: State, id: Id, h: Handle) {
    id in s.seats && s.seats[id].handle == h
  }

  predicate PendingBy(s: State, r: Remover, h: Handle) {
    r in s.pending && h in s.pending[r]
  }

  lemma QuotasHold(s: State, user: User)
    requires Reachable(s)
    ensures |s.seats| <= MAX_SESSIONS && |OwnedBy(s.seats, user)| <= MAX_SESSIONS_PER_USER
  {
    ReachableInv(s);
  }

  /** A session is stored under its token exactly when fewer than eight are stored, fewer than two of them its
      owner's, and a token could be made; otherwise it is turned away. */
  lemma AddsExactly(s: State, owner: User, h: Handle, token: Option<Id>)
    requires Reachable(s) && Enabled(s, Add(owner, h, token))
    ensures var s' := Next(s, Add(owner, h, token));
      var room := |s.seats| < 8 && |set id | id in s.seats && s.seats[id].owner == owner| < 2;
      if room && token.Some? then s'.seats == s.seats[token.value := Seat(owner, h, false)] && h !in s'.refused
      else s'.seats == s.seats && h in s'.refused
  {
    HeldIsNotRefused(s, h);
    hide Reachable;
    assert OwnedBy(s.seats, owner) == set id | id in s.seats && s.seats[id].owner == owner;
  }

  lemma HeldIsNotRefused(s: State, h: Handle)
    requires Reachable(s) && h in s.held
    ensures h !in s.refused
  {
    ReachableInv(s);
    assert PlaceSound(s, h);
  }

  /** A claim succeeds exactly for a stored session of that user that has not been claimed; a second claim
      of the same session never does. */
  lemma ClaimsExactly(s: State, id: Id, user: User)
    requires Reachable(s)
    ensures var s' := Next(s, Claim(id, user));
      && (id in s.seats && s.seats[id].owner == user && !s.seats[id].claimed <==>
            s'.claims == s.claims + [(id, user)])
      && (s'.claims == s.claims + [(id, user)] ==> s.seats[id].handle in s'.streams)
      && (s'.claims != s.claims + [(id, user)] ==> s' == s)
      && Next(s', Claim(id, user)).claims == s'.claims
  {
    ReachableInv(s);
  }

  /** An id is claimed at most once, and only by the user it was handed to. */
  lemma ClaimsAreOneShot(s: State, i: nat, j: nat)
    requires Reachable(s) && i < |s.claims| && j < |s.claims|
    ensures s.claims[i].0 in s.owners && s.owners[s.claims[i].0] == s.claims[i].1
    ensures i != j ==> s.claims[i].0 != s.claims[j].0
  {
    ReachableInv(s);
    assert ClaimSound(s, s.claims[i]);
  }

  /** A session opened is with its handler, turned away, stored, pending, or closed; of the first
      four it is in one only, under one id or with one remover, and no session is closed twice. */
  lemma SessionsAreAccountedFor(s: State, h: Handle)
    requires Reachable(s) && h in s.sessions
    ensures h in s.held || h in s.refused || h in s.closes || (exists id :: StoredAs(s, id, h))
      || (exists r :: PendingBy(s, r, h))
    ensures !(h in s.held && h in s.refused)
    ensures forall id | StoredAs(s, id, h) :: h !in s.held && h !in s.refused && forall r :: !PendingBy(s, r, h)
    ensures forall r | PendingBy(s, r, h) :: h !in s.held && h !in s.refused
    ensures forall i, j | StoredAs(s, i, h) && StoredAs(s, j, h) :: i == j
    ensures forall q, r | PendingBy(s, q, h) && PendingBy(s, r, h) :: q == r
    ensures forall i, j | 0 <= i < j < |s.closes| :: s.closes[i] != s.closes[j]
  {
    ReachableInv(s);
    assert PlaceSound(s, h);
    match s.place[h]
    case Seated(id) => assert StoredAs(s, id, h);
    case Removed(r) => assert PendingBy(s, r, h);
    case _ =>
  }

  /** Once every handler and remover has finished and the store is empty, every session ever
      opened has been closed exactly once. */
  lemma EverythingIsClosedOnce(s: State)
    requires Reachable(s) && s.held == {} && s.refused == {} && s.seats == map[]
    requires forall r | r in s.pending :: s.pending[r] == {}
    ensures multiset(s.closes) == multiset(s.sessions)
  {
    ReachableInv(s);
    forall h ensures multiset(s.closes)[h] == multiset(s.sessions)[h] {
      if h in s.sessions {
        SessionsAreAccountedFor(s, h);
      }
      OccursOnce(s.closes, h);
    }
  }
}
