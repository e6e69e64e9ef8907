/**
 Terminal sessions of internal/web/terminal.go.  The store hands out one-shot claims under two
 quotas; a timer, the end of a stream, a failed audit, a logout and the shutdown all race to remove
 a session and close it.
 */
module TerminalSessions {
  import opened Wrappers
  import opened Sets

  const MAX_SESSIONS := 8
  const MAX_SESSIONS_PER_USER := 2

  /** A random token; only its equality with other tokens matters. */
  type Id = nat
  type User = string

  /** An entry of the store; `handle` stands for the SSH session it owns. */
  datatype Seat<+H> = Seat(owner: User, handle: H, claimed: bool)

  ghost function OwnedBy<H>(v: map<Id, Seat<H>>, user: User): set<Id> {
    set id | id in v && v[id].owner == user
  }

  ghost predicate HasRoom<H>(v: map<Id, Seat<H>>, owner: User) {
    |v| < MAX_SESSIONS && |OwnedBy(v, owner)| < MAX_SESSIONS_PER_USER
  }

  /** `token` is what the random source yields, if it works. */
  ghost function Added<H>(v: map<Id, Seat<H>>, owner: User, h: H, token: Option<Id>): (Option<Id>, map<Id, Seat<H>>) {
    if HasRoom(v, owner) && token.Some? then (token, v[token.value := Seat(owner, h, false)]) else (None, v)
  }

  predicate Claimable<H>(v: map<Id, Seat<H>>, id: Id, owner: User) {
    id in v && !v[id].claimed && v[id].owner == owner
  }

  function Claimed<H>(v: map<Id, Seat<H>>, id: Id, owner: User): map<Id, Seat<H>> {
    if Claimable(v, id, owner) then v[id := v[id].(claimed := true)] else v
  }

  // ---------------------------------------------------------------------------------------
  // The objects.

  /** The SSH session underneath; it counts how often it was closed. */
  class Terminal {
    var closes: nat
    const result: Option<string>

    constructor (result: Option<string>)
      ensures closes == 0
    {
      closes := 0;
      this.result := result;
    }

    method Close() returns (err: Option<string>)
      modifies this
      ensures closes == old(closes) + 1 && err == result
    {
      closes := closes + 1;
      return result;
    }
  }

  class ManagedSession {
    const owner: User
    const session: Terminal
    var claimed: bool
    var once: bool
    var err: Option<string>

    constructor (owner: User, session: Terminal)
      ensures this.owner == owner && this.session == session && !claimed && !once
    {
      this.owner, this.session := owner, session;
      claimed, once, err := false, false, None;
    }

    method Close() returns (e: Option<string>)
      modifies this`once, this`err, session
      ensures once && e == err
      ensures session.closes == old(session.closes) + (if old(once) then 0 else 1)
      ensures err == if old(once) then old(err) else session.result
    {
      if !once {
        once := true;
        err := session.Close();
      }
      return err;
    }
  }

  class TerminalSessionStore {
    var sessions: map<Id, ManagedSession>

    ghost predicate Valid()
      reads this, sessions.Values
    {
      Separate(sessions)
    }

    ghost function View(): map<Id, Seat<Terminal>>
      reads this, sessions.Values
    {
      Seats(sessions)
    }

    constructor ()
      ensures Valid() && View() == map[] && sessions == map[]
    {
      sessions := map[];
    }

    method CountOwned(owner: User) returns (n: nat)
      ensures n == |OwnedBy(View(), owner)|
    {
      n := 0;
      var rest := sessions.Keys;
      ghost var counted: set<Id> := {};
      while rest != {}
        invariant rest <= sessions.Keys
        invariant n == |counted| && counted == set i | i in sessions && i !in rest && sessions[i].owner == owner
        decreases rest
      {
        var i :| i in rest;
        rest := rest - {i};
        if sessions[i].owner == owner {
          n, counted := n + 1, counted + {i};
        }
      }
      assert counted == OwnedBy(View(), owner);
    }

    method Add(owner: User, session: Terminal, token: Option<Id>) returns (id: Option<Id>)
      requires Valid()
      requires token.Some? ==> token.value !in sessions
      requires forall i | i in sessions :: sessions[i].session != session
      modifies this
      ensures Valid() && (id, View()) == Added(old(View()), owner, session, token)
      ensures forall i | i in old(sessions) :: i in sessions && sessions[i] == old(sessions[i])
      ensures id.Some? ==> id.value in sessions && fresh(sessions[id.value]) && !sessions[id.value].once
    {
      SeatsTaken(sessions);
      hide Separate, Seats, OwnedBy;
      if |sessions| >= MAX_SESSIONS {
        return None;
      }
      var userSessions := CountOwned(owner);
      if userSessions >= MAX_SESSIONS_PER_USER {
        return None;
      }
      if token.None? {
        return None;
      }
      var managed := new ManagedSession(owner, session);
      SeatsWith(sessions, token.value, managed);
      SeparateWith(sessions, token.value, managed);
      sessions := sessions[token.value := managed];
      return token;
    }

    method Claim(id: Id, owner: User) returns (managed: Option<ManagedSession>)
      requires Valid()
      modifies sessions.Values`claimed
      ensures Valid() && View() == Claimed(old(View()), id, owner)
      ensures managed == if Claimable(old(View()), id, owner) then Some(sessions[id]) else None
    {
      if id !in sessions || sessions[id].claimed || sessions[id].owner != owner {
        return None;
      }
      sessions[id].claimed := true;
      return Some(sessions[id]);
    }

    method Release(id: Id)
      requires Valid()
      modifies this, sessions.Values, Terminals(sessions)
      ensures Valid() && sessions == old(sessions) - {id}
      ensures id in old(sessions) ==> Since(old(sessions)[id], old(PastOf(sessions[id])), true)
      ensures forall i | i in sessions :: PastOf(sessions[i]) == old(PastOf(sessions[i]))
    {
      if id in sessions {
        var managed := sessions[id];
        sessions := sessions - {id};
        var _ := managed.Close();
      }
    }

    lemma OwnedInView(user: User)
      ensures Owned(sessions, user) == OwnedBy(View(), user)
    {
    }

    /** The critical section of `CloseUsername`. */
    method TakeOwned(username: User) returns (closing: map<Id, ManagedSession>)
      requires Valid()
      modifies this`sessions
      ensures closing.Keys == Owned(old(sessions), username) == OwnedBy(old(View()), username)
      ensures sessions == old(sessions) - closing.Keys
      ensures forall i | i in closing :: closing[i] == old(sessions)[i]
    {
      OwnedInView(username);
      ghost var before := sessions;
      closing := map[];
      var rest := sessions.Keys;
      while rest != {}
        invariant rest <= before.Keys
        invariant closing.Keys <= before.Keys
        invariant forall i | i in before :: i in closing <==> i !in rest && before[i].owner == username
        invariant forall i | i in closing :: closing[i] == before[i]
        invariant sessions == before - closing.Keys
        decreases rest
      {
        var i :| i in rest;
        rest := rest - {i};
        if sessions[i].owner == username {
          closing := closing[i := sessions[i]];
          sessions := sessions - {i};
        }
      }
    }

    method CloseUsername(username: User)
      requires Valid()
      modifies this, sessions.Values, Terminals(sessions)
      ensures Valid() && sessions == old(sessions) - Owned(old(sessions), username)
      ensures forall i | i in Owned(old(sessions), username) :: Since(old(sessions)[i], old(PastOf(sessions[i])), true)
      ensures forall i | i in sessions :: PastOf(sessions[i]) == old(PastOf(sessions[i]))
    {
      ghost var all, past := sessions, map i | i in sessions :: PastOf(sessions[i]);
      assert IsPast(past, all);
      hide Terminals, Owned, OwnedBy, View, Separate, PastOf, Since, IsPast;
      var closing := TakeOwned(username);
      SeparateParts(all, closing, sessions);
      PastParts(all, closing, sessions, past);
      CloseApart(closing, past - sessions.Keys, sessions, past - closing.Keys);
    }

    /** Returns the errors of all sessions that were stored, joined. */
    method Close() returns (errs: seq<string>)
      requires Valid()
      modifies this, sessions.Values, Terminals(sessions)
      ensures Valid() && sessions == map[]
      ensures forall i | i in old(sessions) :: Since(old(sessions)[i], old(PastOf(sessions[i])), true)
      ensures Joined(errs, Answers(map i | i in old(sessions) :: old(PastOf(sessions[i]))))
    {
      var closing := sessions;
      ghost var past := map i | i in sessions :: PastOf(sessions[i]);
      sessions := map[];
      errs := CloseEach(closing, past);
    }
  }

  /** What closing each of the sessions returns: the error of its first close. */
  ghost function Answers(past: map<Id, Past>): map<Id, Option<string>> {
    map i | i in past :: if past[i].once then past[i].err else past[i].result
  }

  ghost function Failed(outcomes: map<Id, Option<string>>): set<Id> {
    set i | i in outcomes && outcomes[i].Some?
  }

  /** The errors among the outcomes, each as often as it occurs, in any order. */
  ghost predicate Joined(errs: seq<string>, outcomes: map<Id, Option<string>>) {
    |errs| == |Failed(outcomes)| && forall e :: e in errs <==> Occurs(outcomes, e)
  }

  ghost predicate Occurs(outcomes: map<Id, Option<string>>, e: string) {
    exists i :: i in outcomes && outcomes[i] == Some(e)
  }

  lemma OneMoreJoined(errs: seq<string>, answers: map<Id, Option<string>>, rest: set<Id>, i: Id, e: Option<string>)
    requires Joined(errs, answers - rest) && i in rest && i in answers && answers[i] == e
    ensures Joined(if e.Some? then errs + [e.value] else errs, answers - (rest - {i}))
  {
    var before, after := answers - rest, answers - (rest - {i});
    assert after == before[i := e];
    FailedWith(before, i, e);
    forall x ensures Occurs(after, x) <==> Occurs(before, x) || e == Some(x) {
      OccursWith(before, i, e, x);
    }
    hide Occurs, Failed;
  }

  lemma FailedWith(before: map<Id, Option<string>>, i: Id, e: Option<string>)
    requires i !in before
    ensures |Failed(before[i := e])| == |Failed(before)| + if e.Some? then 1 else 0
  {
    assert Failed(before[i := e]) == Failed(before) + if e.Some? then {i} else {};
  }

  lemma OccursWith(before: map<Id, Option<string>>, i: Id, e: Option<string>, x: string)
    requires i !in before
    ensures Occurs(before[i := e], x) <==> Occurs(before, x) || e == Some(x)
  {
    var after := before[i := e];
    if Occurs(before, x) {
      var j :| j in before && before[j] == Some(x);
      assert after[j] == Some(x);
    }
    if e == Some(x) { assert after[i] == Some(x); }
  }

  ghost function Terminals(m: map<Id, ManagedSession>): (r: set<Terminal>)
    ensures forall i | i in m :: m[i].session in r
  {
    set i | i in m :: m[i].session
  }

  ghost predicate Separate(m: map<Id, ManagedSession>) {
    forall i, j | i in m && j in m && i != j :: m[i] != m[j] && m[i].session != m[j].session
  }

  ghost function Seats(m: map<Id, ManagedSession>): map<Id, Seat<Terminal>>
    reads m.Values
  {
    map id | id in m :: Seat(m[id].owner, m[id].session, m[id].claimed)
  }

  lemma SeatsTaken(m: map<Id, ManagedSession>)
    ensures |Seats(m)| == |m|
  {
    assert Seats(m).Keys == m.Keys;
  }

  lemma SeatsWith(m: map<Id, ManagedSession>, id: Id, managed: ManagedSession)
    ensures Seats(m[id := managed]) == Seats(m)[id := Seat(managed.owner, managed.session, managed.claimed)]
  {
  }

  lemma SeparateWith(m: map<Id, ManagedSession>, id: Id, managed: ManagedSession)
    requires Separate(m) && managed !in m.Values
    requires forall i | i in m :: m[i].session != managed.session
    ensures Separate(m[id := managed])
  {
  }

  ghost function Owned(m: map<Id, ManagedSession>, user: User): set<Id> {
    set i | i in m && m[i].owner == user
  }

  /** A session before any of them was closed. */
  datatype Past = Past(once: bool, err: Option<string>, closes: nat, claimed: bool, result: Option<string>)

  ghost function PastOf(m: ManagedSession): Past
    reads m, m.session
  {
    Past(m.once, m.err, m.session.closes, m.claimed, m.session.result)
  }

  ghost predicate IsPast(past: map<Id, Past>, m: map<Id, ManagedSession>)
    reads m.Values, set i | i in m :: m[i].session
  {
    past.Keys == m.Keys && forall i | i in m :: past[i] == PastOf(m[i])
  }

  /** Closed since, or not touched yet. */
  ghost predicate Since(m: ManagedSession, past: Past, closed: bool)
    reads m, m.session
  {
    if closed then m.once && m.session.closes == past.closes + (if past.once then 0 else 1) else PastOf(m) == past
  }

  /** The sessions outside `rest` have been closed since. */
  ghost predicate AllSince(closing: map<Id, ManagedSession>, past: map<Id, Past>, rest: set<Id>)
    reads closing.Values, Terminals(closing)
  {
    closing.Keys == past.Keys && forall i | i in closing :: Since(closing[i], past[i], i !in rest)
  }

  /** Closes the sessions taken out of the store, once it is unlocked, and joins their errors. */
  method CloseEach(closing: map<Id, ManagedSession>, ghost past: map<Id, Past>) returns (errs: seq<string>)
    requires Separate(closing) && IsPast(past, closing)
    modifies closing.Values, Terminals(closing)
    ensures forall i | i in closing :: Since(closing[i], past[i], true)
    ensures Joined(errs, Answers(past))
  {
    hide AllSince, Joined, Separate, Answers, Terminals;
    errs := [];
    NothingClosed(closing, past);
    var rest := closing.Keys;
    while rest != {}
      invariant rest <= closing.Keys
      invariant AllSince(closing, past, rest)
      invariant Joined(errs, Answers(past) - rest)
      decreases rest
    {
      var i :| i in rest;
      var e := CloseOne(closing, past, rest, i);
      OneMoreJoined(errs, Answers(past), rest, i, e);
      rest := rest - {i};
      if e.Some? {
        errs := errs + [e.value];
      }
    }
    AllClosed(closing, past);
    assert Answers(past) - rest == Answers(past);
  }

  lemma NothingClosed(closing: map<Id, ManagedSession>, past: map<Id, Past>)
    requires IsPast(past, closing)
    ensures AllSince(closing, past, closing.Keys) && Joined([], Answers(past) - closing.Keys)
  {
    assert Answers(past) - closing.Keys == map[];
  }

  lemma AllClosed(closing: map<Id, ManagedSession>, past: map<Id, Past>)
    requires AllSince(closing, past, {})
    ensures closing.Keys == past.Keys && forall i | i in closing :: Since(closing[i], past[i], true)
  {
  }

  /** Closing these leaves the rest as it was. */
  method CloseApart(closing: map<Id, ManagedSession>, ghost past: map<Id, Past>,
                    ghost rest: map<Id, ManagedSession>, ghost others: map<Id, Past>)
    requires Separate(closing) && IsPast(past, closing) && IsPast(others, rest)
    requires forall i | i in rest :: rest[i] !in closing.Values && rest[i].session !in Terminals(closing)
    modifies closing.Values, Terminals(closing)
    ensures forall i | i in closing :: Since(closing[i], past[i], true)
    ensures forall i | i in rest :: PastOf(rest[i]) == others[i]
  {
    hide Terminals, Separate, PastOf, Since, Joined;
    var _ := CloseEach(closing, past);
  }

  /** One turn of the loop. */
  method CloseOne(closing: map<Id, ManagedSession>, ghost past: map<Id, Past>, ghost rest: set<Id>, i: Id)
    returns (e: Option<string>)
    requires Separate(closing) && i in closing && i in rest && AllSince(closing, past, rest)
    modifies closing.Values, Terminals(closing)
    ensures i in Answers(past) && e == Answers(past)[i]
    ensures AllSince(closing, past, rest - {i})
  {
    Apart(closing, i);
    hide Separate;
    assert Since(closing[i], past[i], false);
    e := closing[i].Close();
  }

  lemma Apart(m: map<Id, ManagedSession>, i: Id)
    requires Separate(m) && i in m
    ensures forall j | j in m && j != i :: m[j] != m[i] && m[j].session != m[i].session
  {
  }

  lemma PastParts(all: map<Id, ManagedSession>, closing: map<Id, ManagedSession>, rest: map<Id, ManagedSession>,
                  past: map<Id, Past>)
    requires IsPast(past, all) && rest == all - closing.Keys
    requires closing.Keys <= all.Keys && forall j | j in closing :: closing[j] == all[j]
    ensures IsPast(past - closing.Keys, rest) && IsPast(past - rest.Keys, closing)
  {
  }

  lemma SeparateParts(all: map<Id, ManagedSession>, closing: map<Id, ManagedSession>, rest: map<Id, ManagedSession>)
    requires Separate(all) && closing.Keys <= all.Keys && forall j | j in closing :: closing[j] == all[j]
    requires rest == all - closing.Keys
    ensures Separate(closing) && Separate(rest)
    ensures closing.Values <= all.Values && Terminals(closing) <= Terminals(all)
    ensures forall i | i in rest :: rest[i] !in closing.Values && rest[i].session !in Terminals(closing)
  {
  }
}
