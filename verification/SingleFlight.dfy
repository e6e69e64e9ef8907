/**
 The single-flight cache with a time to live.

 `ValueCache` is the object of internal/slurm/cache.go: the three critical sections of its
 mutex are methods that update its fields.  `Client.Snapshot` in internal/slurm/client.go
 repeats the same code over its own fields.  The rest of the module interleaves those critical
 sections, the loader, the cancellation of callers and the clock, and proves what every run keeps.
 */
module SingleFlight {
  import opened Wrappers
  import opened Sets

  type Time = int
  type Channel = nat
  type Caller = nat

  /** What a loader returns: a value together with an error, which is cached like the value. */
  datatype Loaded<+V> = Loaded(value: V, err: Option<string>)

  datatype Cache<+V> = Cache(ttl: int, lastAttempt: Option<Time>, stored: Loaded<V>, refreshing: Option<Channel>)

  /** How the first critical section of `get` leaves the caller. */
  datatype Entry<+V> = Hit(found: Loaded<V>) | Wait(on: Channel) | Lead(made: Channel)

  predicate FreshAt<V>(c: Cache<V>, now: Time) {
    c.lastAttempt.Some? && now - c.lastAttempt.value < c.ttl
  }

  function Entering<V>(c: Cache<V>, now: Time, next: Channel): (Entry<V>, Cache<V>) {
    if FreshAt(c, now) then (Hit(c.stored), c)
    else if c.refreshing.Some? then (Wait(c.refreshing.value), c)
    else (Lead(next), c.(refreshing := Some(next)))
  }

  function Leaving<V>(c: Cache<V>, now: Time, live: bool, result: Loaded<V>): Cache<V> {
    var published := if live then c.(lastAttempt := Some(now), stored := result) else c;
    published.(refreshing := None)
  }

  function Invalidated<V>(c: Cache<V>): Cache<V> {
    c.(lastAttempt := None)
  }

  class ValueCache<V> {
    const ttl: int
    var lastAttempt: Option<Time>
    var value: V
    var err: Option<string>
    var refreshing: Option<Channel>

    function Contents(): Cache<V>
      reads this
    {
      Cache(ttl, lastAttempt, Loaded(value, err), refreshing)
    }

    constructor (ttl: int, zero: V)
      ensures Contents() == Cache(ttl, None, Loaded(zero, None), None)
    {
      this.ttl := ttl;
      lastAttempt, value, err, refreshing := None, zero, None, None;
    }

    /** The first critical section of `get`; `next` is the channel it would make. */
    method Enter(now: Time, next: Channel) returns (entry: Entry<V>)
      modifies this
      ensures (entry, Contents()) == Entering(old(Contents()), now, next)
    {
      if lastAttempt.Some? && now - lastAttempt.value < ttl {
        return Hit(Loaded(value, err));
      }
      if refreshing.Some? {
        return Wait(refreshing.value);
      }
      refreshing := Some(next);
      return Lead(next);
    }

    /** The second critical section of `get`, entered when the loader has returned. */
    method Leave(now: Time, live: bool, result: Loaded<V>)
      modifies this
      ensures Contents() == Leaving(old(Contents()), now, live, result)
    {
      if live {
        lastAttempt, value, err := Some(now), result.value, result.err;
      }
      refreshing := None;
    }

    method Invalidate()
      modifies this
      ensures Contents() == Invalidated(old(Contents()))
    {
      lastAttempt := None;
    }
  }

  // ---------------------------------------------------------------------------------------
  // The protocol: any number of callers, interleaved between critical sections.

  /** What a call of `get` hands back; `load` names the load the result came from. */
  datatype Reply<+V> = Cancelled | Served(result: Loaded<V>, load: Channel, at: Time)

  datatype Phase<+V> =
    | Ready                                          // about to take the mutex
    | Waiting(on: Channel)                           // in the select on the refresh channel
    | Loading(own: Channel)                          // inside the loader
    | Returned(own: Channel, got: Loaded<V>)         // loader done, mutex not yet taken
    | Published(own: Channel, got: Loaded<V>, at: Time) // channel closed, mutex released
    | Done(reply: Reply<V>)

  datatype Thread<+V> = Thread(began: nat, cancelled: bool, phase: Phase<V>)

  datatype Finish<+V> = Finish(at: Time, live: bool, result: Loaded<V>)

  /** A load is named by the channel its leader made. */
  datatype Load<+V> = Load(leader: Caller, startStep: nat, started: Time, finish: Option<Finish<V>>)

  datatype Invalidation = Invalidation(step: nat, inFlight: Option<Channel>)

  datatype State<+V> = State(
    cache: Cache<V>,
    now: Time,
    step: nat,
    threads: map<Caller, Thread<V>>,
    loads: map<Channel, Load<V>>,
    next: Channel,
    closes: seq<Channel>,                // every close of a channel, in order
    content: Option<Channel>,            // the load whose result is stored
    invalidations: seq<Invalidation>)

  datatype Event<+V> =
    | Tick(delta: nat)
    | Call(t: Caller)
    | Cancel(t: Caller)
    | Enter(t: Caller)
    | Wake(t: Caller)
    | GiveUp(t: Caller)
    | Return(t: Caller, r: Loaded<V>)
    | Publish(t: Caller)
    | Leave(t: Caller)
    | Invalidate

  function Init<V>(ttl: int, zero: V, now: Time): State<V> {
    State(Cache(ttl, None, Loaded(zero, None), None), now, 0, map[], map[], 0, [], None, [])
  }

  predicate Enabled<V>(s: State<V>, e: Event<V>) {
    match e
    case Tick(_) => true
    case Call(t) => t !in s.threads
    case Cancel(t) => t in s.threads
    case Enter(t) => t in s.threads && s.threads[t].phase.Ready?
    case Wake(t) => t in s.threads && s.threads[t].phase.Waiting? && s.threads[t].phase.on in s.closes
    case GiveUp(t) => t in s.threads && s.threads[t].phase.Waiting? && s.threads[t].cancelled
    case Return(t, _) => t in s.threads && s.threads[t].phase.Loading?
    case Publish(t) => t in s.threads && s.threads[t].phase.Returned? && s.threads[t].phase.own in s.loads
    case Leave(t) => t in s.threads && s.threads[t].phase.Published?
    case Invalidate => true
  }

  function To<V>(s: State<V>, t: Caller, p: Phase<V>): State<V>
    requires t in s.threads
  {
    s.(threads := s.threads[t := s.threads[t].(phase := p)], step := s.step + 1)
  }

  function Next<V>(s: State<V>, e: Event<V>): State<V>
    requires Enabled(s, e)
  {
    match e
    case Tick(delta) => s.(now := s.now + delta, step := s.step + 1)
    case Call(t) => s.(threads := s.threads[t := Thread(s.step, false, Ready)], step := s.step + 1)
    case Cancel(t) => s.(threads := s.threads[t := s.threads[t].(cancelled := true)], step := s.step + 1)
    case Enter(t) =>
      var (entry, cache) := Entering(s.cache, s.now, s.next);
      var u := s.(cache := cache);
      (match entry
       case Hit(found) => To(u, t, Done(Served(found, if s.content.Some? then s.content.value else 0, s.now)))
       case Wait(on) => To(u, t, Waiting(on))
       case Lead(made) =>
         To(u.(loads := s.loads[made := Load(t, s.step, s.now, None)], next := s.next + 1), t, Loading(made)))
    case Wake(t) => To(s, t, Ready)
    case GiveUp(t) => To(s, t, Done(Cancelled))
    case Return(t, r) => To(s, t, Returned(s.threads[t].phase.own, r))
    case Publish(t) =>
      var own, got, live := s.threads[t].phase.own, s.threads[t].phase.got, !s.threads[t].cancelled;
      To(s.(cache := Leaving(s.cache, s.now, live, got),
            loads := s.loads[own := s.loads[own].(finish := Some(Finish(s.now, live, got)))],
            closes := s.closes + [own],
            content := if live then Some(own) else s.content),
         t, Published(own, got, s.now))
    case Leave(t) =>
      var th := s.threads[t];
      To(s, t, Done(if th.cancelled then Cancelled else Served(th.phase.got, th.phase.own, th.phase.at)))
    case Invalidate =>
      s.(cache := Invalidated(s.cache),
         invalidations := s.invalidations + [Invalidation(s.step, s.cache.refreshing)],
         step := s.step + 1)
  }

  predicate CanRun<V>(s: State<V>, es: seq<Event<V>>)
    decreases |es|
  {
    es == [] || (Enabled(s, es[0]) && CanRun(Next(s, es[0]), es[1..]))
  }

  function Run<V>(s: State<V>, es: seq<Event<V>>): State<V>
    requires CanRun(s, es)
    decreases |es|
  {
    if es == [] then s else Run(Next(s, es[0]), es[1..])
  }

  lemma Unroll<V>(s: State<V>, e: Event<V>, rest: seq<Event<V>>)
    requires Enabled(s, e) && CanRun(Next(s, e), rest)
    ensures CanRun(s, [e] + rest) && Run(s, [e] + rest) == Run(Next(s, e), rest)
  {
  }

  // ---------------------------------------------------------------------------------------
  // The invariant.

  predicate Leading<V>(p: Phase<V>) {
    p.Loading? || p.Returned?
  }

  /** `refreshing` is set exactly while one caller is loading, and that caller owns the channel. */
  ghost predicate OneLeader<V>(s: State<V>) {
    && (s.cache.refreshing.Some? ==>
          var c := s.cache.refreshing.value;
          c in s.loads && s.loads[c].leader in s.threads &&
          var p := s.threads[s.loads[c].leader].phase;
          Leading(p) && p.own == c)
    && (forall t | t in s.threads && Leading(s.threads[t].phase) ::
          s.cache.refreshing == Some(s.threads[t].phase.own) &&
          s.threads[t].phase.own in s.loads && s.loads[s.threads[t].phase.own].leader == t)
  }

  /** Every channel made is either the current one or closed, and none is closed twice. */
  ghost predicate ChannelsClosedOnce<V>(s: State<V>) {
    && (forall c :: c in s.loads <==> 0 <= c < s.next)
    && (forall c :: c in s.closes <==> (c in s.loads && s.cache.refreshing != Some(c)))
    && (forall i, j | 0 <= i < j < |s.closes| :: s.closes[i] != s.closes[j])
    && (forall c | c in s.loads :: s.loads[c].finish.Some? <==> c in s.closes)
  }

  /** No lost wake-up: a waiter's channel is closed or is the one the current leader will close. */
  ghost predicate WaitersWillWake<V>(s: State<V>) {
    forall t | t in s.threads && s.threads[t].phase.Waiting? ::
      s.threads[t].phase.on in s.closes || s.cache.refreshing == Some(s.threads[t].phase.on)
  }

  /** Load `c` began after the invalidation or was the one in flight when it happened. */
  predicate NotBefore<V>(s: State<V>, c: Channel, i: Invalidation)
    requires c in s.loads
  {
    i.step < s.loads[c].startStep || i.inFlight == Some(c)
  }

  /** Every step number and time recorded so far lies in the past. */
  ghost predicate Times<V>(s: State<V>) {
    && (forall t | t in s.threads :: s.threads[t].began < s.step)
    && (forall i | 0 <= i < |s.invalidations| :: s.invalidations[i].step < s.step)
    && (forall c | c in s.loads :: s.loads[c].startStep < s.step && s.loads[c].started <= s.now &&
         (s.loads[c].finish.Some? ==> s.loads[c].started <= s.loads[c].finish.value.at <= s.now))
  }

  /** The load in flight began after every invalidation it was not already in flight for. */
  ghost predicate InFlightSound<V>(s: State<V>) {
    s.cache.refreshing.Some? && s.cache.refreshing.value in s.loads ==>
      forall i | 0 <= i < |s.invalidations| :: NotBefore(s, s.cache.refreshing.value, s.invalidations[i])
  }

  predicate Owning<V>(p: Phase<V>) {
    p.Loading? || p.Returned? || p.Published?
  }

  /** The stored result is that of one load, published by a live leader after the last invalidation. */
  ghost predicate ContentSound<V>(s: State<V>) {
    s.cache.lastAttempt.Some? ==>
      && s.content.Some? && s.content.value in s.loads
      && s.loads[s.content.value].finish == Some(Finish(s.cache.lastAttempt.value, true, s.cache.stored))
      && forall i | 0 <= i < |s.invalidations| :: NotBefore(s, s.content.value, s.invalidations[i])
  }

  /** What a reply promises its caller. */
  ghost predicate ReplySound<V>(s: State<V>, t: Caller)
    requires t in s.threads
  {
    var th := s.threads[t];
    th.phase.Done? && th.phase.reply.Served? ==>
      var r := th.phase.reply;
      && r.load in s.loads && s.loads[r.load].finish.Some?
      && var f := s.loads[r.load].finish.value;
      && f.live && f.result == r.result
      && f.at <= r.at <= s.now
      && (r.at - f.at < s.cache.ttl || (s.loads[r.load].leader == t && r.at == f.at))
      && s.loads[r.load].started <= f.at
      && (forall i | 0 <= i < |s.invalidations| && s.invalidations[i].step < th.began ::
            NotBefore(s, r.load, s.invalidations[i]))
  }

  ghost predicate PublishedSound<V>(s: State<V>, t: Caller)
    requires t in s.threads
  {
    var th := s.threads[t];
    th.phase.Published? ==>
      && th.phase.own in s.loads && s.loads[th.phase.own].leader == t
      && s.loads[th.phase.own].finish.Some?
      && var f := s.loads[th.phase.own].finish.value;
      && f.result == th.phase.got && f.at == th.phase.at
      && (!th.cancelled ==> f.live)
  }

  /** A leader's load began after its call did. */
  ghost predicate OwnLoadLater<V>(s: State<V>, t: Caller)
    requires t in s.threads
  {
    Owning(s.threads[t].phase) ==>
      s.threads[t].phase.own in s.loads && s.threads[t].began <= s.loads[s.threads[t].phase.own].startStep
  }

  ghost predicate ThreadSound<V>(s: State<V>, t: Caller)
    requires t in s.threads
  {
    OwnLoadLater(s, t) && PublishedSound(s, t) && ReplySound(s, t)
  }

  ghost predicate Structure<V>(s: State<V>) {
    OneLeader(s) && ChannelsClosedOnce(s) && WaitersWillWake(s)
  }

  ghost predicate Inv<V>(s: State<V>) {
    && Structure(s) && Times(s) && InFlightSound(s) && ContentSound(s)
    && (forall t | t in s.threads :: ThreadSound(s, t))
  }

  /** What no step takes back: loads are never forgotten or rewritten, invalidations only added. */
  ghost predicate Extends<V>(s: State<V>, s': State<V>) {
    && s'.cache.ttl == s.cache.ttl && s.now <= s'.now && s.step <= s'.step
    && (forall c | c in s.loads ::
          c in s'.loads && s'.loads[c].leader == s.loads[c].leader
          && s'.loads[c].startStep == s.loads[c].startStep && s'.loads[c].started == s.loads[c].started
          && (s.loads[c].finish.Some? ==> s'.loads[c].finish == s.loads[c].finish))
    && |s.invalidations| <= |s'.invalidations|
    && (forall i | 0 <= i < |s'.invalidations| ::
          if i < |s.invalidations| then s'.invalidations[i] == s.invalidations[i]
          else s.step <= s'.invalidations[i].step)
  }

  lemma ThreadKeeps<V>(s: State<V>, s': State<V>, t: Caller)
    requires Extends(s, s')
    requires t in s.threads && t in s'.threads && s.threads[t].began < s.step
    requires s'.threads[t].began == s.threads[t].began && s'.threads[t].phase == s.threads[t].phase
    requires s.threads[t].cancelled ==> s'.threads[t].cancelled
    requires ThreadSound(s, t)
    ensures ThreadSound(s', t)
  {
  }

  lemma InitKeeps<V>(ttl: int, zero: V, now: Time)
    ensures Inv(Init(ttl, zero, now))
  {
  }

  lemma StructureKept<V>(s: State<V>, e: Event<V>)
    requires Structure(s) && Enabled(s, e)
    ensures Structure(Next(s, e))
  {
    match e
    case Tick(_) =>
    case Call(_) =>
    case Cancel(_) =>
    case Enter(t) => EnterStructure(s, t);
    case Wake(_) =>
    case GiveUp(_) =>
    case Return(_, _) => ReturnStructure(s, e);
    case Publish(t) => PublishStructure(s, t);
    case Leave(_) =>
    case Invalidate =>
  }

  lemma ReturnStructure<V>(s: State<V>, e: Event<V>)
    requires Structure(s) && e.Return? && Enabled(s, e)
    ensures Structure(Next(s, e))
  {
  }

  lemma EnterStructure<V>(s: State<V>, t: Caller)
    requires Structure(s) && Enabled(s, Enter(t))
    ensures Structure(Next(s, Enter(t)))
  {
    EnterOneLeader(s, t);
    EnterChannels(s, t);
    hide OneLeader, ChannelsClosedOnce;
    assert WaitersWillWake(s) && WaitersWillWake(Next(s, Enter(t)));
  }

  lemma EnterOneLeader<V>(s: State<V>, t: Caller)
    requires Structure(s) && Enabled(s, Enter(t))
    ensures OneLeader(Next(s, Enter(t)))
  {
    hide WaitersWillWake;
  }

  lemma EnterChannels<V>(s: State<V>, t: Caller)
    requires Structure(s) && Enabled(s, Enter(t))
    ensures ChannelsClosedOnce(Next(s, Enter(t)))
  {
    hide WaitersWillWake, OneLeader;
  }

  lemma PublishStructure<V>(s: State<V>, t: Caller)
    requires Structure(s) && Enabled(s, Publish(t))
    ensures Structure(Next(s, Publish(t)))
  {
    var s' := Next(s, Publish(t));
    assert OneLeader(s');
    assert ChannelsClosedOnce(s');
  }

  lemma NextExtends<V>(s: State<V>, e: Event<V>)
    requires Structure(s) && Enabled(s, e)
    ensures Extends(s, Next(s, e))
  {
  }

  lemma TimesKept<V>(s: State<V>, e: Event<V>)
    requires Structure(s) && Times(s) && Enabled(s, e)
    ensures Times(Next(s, e))
  {
    hide Structure;
    NextExtends(s, e);
  }

  lemma InFlightKept<V>(s: State<V>, e: Event<V>)
    requires Structure(s) && Times(s) && InFlightSound(s) && Enabled(s, e)
    ensures InFlightSound(Next(s, e))
  {
    NextExtends(s, e);
  }

  lemma ContentKept<V>(s: State<V>, e: Event<V>)
    requires Inv(s) && Enabled(s, e)
    ensures ContentSound(Next(s, e))
  {
    hide WaitersWillWake, ThreadSound;
    var s' := Next(s, e);
    NextExtends(s, e);
  }

  /** The one thread an event moves. */
  lemma MovedKept<V>(s: State<V>, e: Event<V>, t: Caller)
    requires Inv(s) && Enabled(s, e)
    requires t in Next(s, e).threads
    requires t in s.threads ==> s.threads[t].phase != Next(s, e).threads[t].phase
    ensures ThreadSound(Next(s, e), t)
  {
    hide WaitersWillWake, InFlightSound;
    NextExtends(s, e);
  }

  lemma UnmovedKept<V>(s: State<V>, e: Event<V>, t: Caller)
    requires Inv(s) && Enabled(s, e)
    requires t in s.threads && t in Next(s, e).threads && s.threads[t].phase == Next(s, e).threads[t].phase
    ensures ThreadSound(Next(s, e), t)
  {
    hide Structure, ContentSound, InFlightSound;
    NextExtends(s, e);
    ThreadKeeps(s, Next(s, e), t);
  }

  lemma NextKeeps<V>(s: State<V>, e: Event<V>)
    requires Inv(s) && Enabled(s, e)
    ensures Inv(Next(s, e))
  {
    StructureKept(s, e);
    TimesKept(s, e);
    InFlightKept(s, e);
    ContentKept(s, e);
    hide Next, Enabled, Structure, Times, InFlightSound, ContentSound, ThreadSound;
    forall t | t in Next(s, e).threads ensures ThreadSound(Next(s, e), t) {
      if t in s.threads && s.threads[t].phase == Next(s, e).threads[t].phase {
        UnmovedKept(s, e, t);
      } else {
        MovedKept(s, e, t);
      }
    }
  }

  lemma {:induction false} RunKeeps<V>(s: State<V>, es: seq<Event<V>>)
    requires Inv(s) && CanRun(s, es)
    ensures Inv(Run(s, es))
    decreases |es|
  {
    if es != [] {
      NextKeeps(s, es[0]);
      RunKeeps(Next(s, es[0]), es[1..]);
    }
  }

  lemma {:induction false} RunExtends<V>(s: State<V>, es: seq<Event<V>>)
    requires Inv(s) && CanRun(s, es)
    ensures Extends(s, Run(s, es))
    decreases |es|
  {
    if es != [] {
      NextKeeps(s, es[0]);
      NextExtends(s, es[0]);
      RunExtends(Next(s, es[0]), es[1..]);
    }
  }

  // ---------------------------------------------------------------------------------------
  // What every interleaving guarantees.

  /** A state that some interleaving reaches from an empty cache. */
  ghost predicate Reachable<V(!new)>(s: State<V>, ttl: int, zero: V, start: Time) {
    exists es :: CanRun(Init(ttl, zero, start), es) && s == Run(Init(ttl, zero, start), es)
  }

  lemma ReachableInv<V(!new)>(s: State<V>, ttl: int, zero: V, start: Time)
    requires Reachable(s, ttl, zero, start)
    ensures Inv(s) && s.cache.ttl == ttl
  {
    var es :| CanRun(Init(ttl, zero, start), es) && s == Run(Init(ttl, zero, start), es);
    InitKeeps(ttl, zero, start);
    RunKeeps(Init(ttl, zero, start), es);
    RunExtends(Init(ttl, zero, start), es);
  }

  lemma OneLoadAtATime<V>(s: State<V>)
    requires Structure(s)
    ensures forall t, u | t in s.threads && u in s.threads && Leading(s.threads[t].phase)
      && Leading(s.threads[u].phase) :: t == u
    ensures s.cache.refreshing.Some? <==> exists t :: t in s.threads && Leading(s.threads[t].phase)
    ensures forall c | c in s.loads :: c in s.closes <==> s.cache.refreshing != Some(c)
  {
  }

  /** Loads never overlap, `refreshing` marks exactly the load in progress, and every refresh
      channel is closed once, when its load is over. */
  lemma LoadsNeverOverlap<V(!new)>(s: State<V>, ttl: int, zero: V, start: Time)
    requires Reachable(s, ttl, zero, start)
    ensures forall t, u | t in s.threads && u in s.threads && Leading(s.threads[t].phase)
      && Leading(s.threads[u].phase) :: t == u
    ensures s.cache.refreshing.Some? <==> exists t :: t in s.threads && Leading(s.threads[t].phase)
    ensures forall i, j | 0 <= i < j < |s.closes| :: s.closes[i] != s.closes[j]
    ensures forall c | c in s.loads :: c in s.closes <==> s.cache.refreshing != Some(c)
  {
    ReachableInv(s, ttl, zero, start);
    OneLoadAtATime(s);
  }

  /** A result handed to a live caller is the outcome of one load whose leader was live when it
      published, less than the time to live ago; unless it was in flight at that moment, that load
      began after every invalidation that came before the call. */
  lemma RepliesComeFromOneFreshLoad<V(!new)>(s: State<V>, ttl: int, zero: V, start: Time, t: Caller)
    requires 0 < ttl && Reachable(s, ttl, zero, start)
    requires t in s.threads && s.threads[t].phase.Done? && s.threads[t].phase.reply.Served?
    ensures var r := s.threads[t].phase.reply;
      && r.load in s.loads && s.loads[r.load].finish.Some?
      && s.loads[r.load].finish.value.live
      && s.loads[r.load].finish.value.result == r.result
      && 0 <= r.at - s.loads[r.load].finish.value.at < ttl
      && forall i | 0 <= i < |s.invalidations| && s.invalidations[i].step < s.threads[t].began ::
           s.invalidations[i].step < s.loads[r.load].startStep || s.invalidations[i].inFlight == Some(r.load)
  {
    ReachableInv(s, ttl, zero, start);
    assert ThreadSound(s, t);
  }

  /** The steps left to the caller whose channel `c` is: return from the loader, then publish. */
  function LeaderSteps<V>(s: State<V>, leader: Caller, r: Loaded<V>): (es: seq<Event<V>>)
    requires leader in s.threads
  {
    if s.threads[leader].phase.Loading? then [Return(leader, r), Publish(leader)] else [Publish(leader)]
  }

  /** A waiter is never stranded: either it can wake now, or the leader of the load it waits for
      can always take its remaining steps, after which the waiter can wake. */
  lemma NoLostWakeUp<V>(s: State<V>, t: Caller, r: Loaded<V>)
    requires Inv(s) && t in s.threads && s.threads[t].phase.Waiting?
    ensures Enabled(s, Wake(t)) ||
      (s.threads[t].phase.on in s.loads &&
       var leader := s.loads[s.threads[t].phase.on].leader;
       leader in s.threads && leader != t
       && CanRun(s, LeaderSteps(s, leader, r))
       && Enabled(Run(s, LeaderSteps(s, leader, r)), Wake(t)))
  {
    var c := s.threads[t].phase.on;
    if c !in s.closes {
      var leader := s.loads[c].leader;
      if s.threads[leader].phase.Loading? {
        ReturnStructure(s, Return(leader, r));
        PublishWakes(Next(s, Return(leader, r)), leader, t);
        Unroll(s, Return(leader, r), [Publish(leader)]);
        assert LeaderSteps(s, leader, r) == [Return(leader, r)] + [Publish(leader)];
      } else {
        PublishWakes(s, leader, t);
      }
    }
  }

  lemma PublishWakes<V>(s: State<V>, leader: Caller, t: Caller)
    requires Structure(s) && leader in s.threads && s.threads[leader].phase.Returned?
    requires t in s.threads && s.threads[t].phase == Waiting(s.threads[leader].phase.own)
    ensures CanRun(s, [Publish(leader)]) && Enabled(Run(s, [Publish(leader)]), Wake(t))
  {
    Unroll(s, Publish(leader), []);
    var steps: seq<Event<V>> := [Publish(leader)];
    assert steps + [] == steps;
  }

  // ---------------------------------------------------------------------------------------
  // Exactly when an invalidation takes effect at once.

  predicate LiveLoadInFlight<V>(s: State<V>) {
    && s.cache.refreshing.Some? && s.cache.refreshing.value in s.loads
    && var leader := s.loads[s.cache.refreshing.value].leader;
    leader in s.threads && !s.threads[leader].cancelled
  }

  /** Caller `t`, begun after the step numbered `step`, was answered from a load begun before it. */
  predicate AnsweredFromBefore<V>(s: State<V>, t: Caller, step: nat) {
    && t in s.threads && s.threads[t].phase.Done? && s.threads[t].phase.reply.Served?
    && s.threads[t].phase.reply.load in s.loads
    && step < s.threads[t].began
    && s.loads[s.threads[t].phase.reply.load].startStep <= step
  }

  /** Whatever happens after invalidating in `s`, later calls see only loads begun afterwards. */
  ghost predicate EffectiveAtOnce<V(!new)>(s: State<V>) {
    forall es: seq<Event<V>>, t: Caller | CanRun(Next(s, Invalidate), es) ::
      !AnsweredFromBefore(Run(Next(s, Invalidate), es), t, s.step)
  }

  /** A load whose leader was cancelled never publishes. */
  ghost predicate DeadLoad<V>(s: State<V>, c: Channel) {
    && c in s.loads && s.loads[c].leader in s.threads && s.threads[s.loads[c].leader].cancelled
    && (s.loads[c].finish.Some? ==> !s.loads[c].finish.value.live)
  }

  lemma DeadLoadStep<V>(s: State<V>, c: Channel, e: Event<V>)
    requires Structure(s) && Enabled(s, e) && DeadLoad(s, c)
    ensures DeadLoad(Next(s, e), c)
  {
    hide WaitersWillWake, ChannelsClosedOnce;
    NextExtends(s, e);
  }

  lemma {:induction false} DeadLoadStaysDead<V>(s: State<V>, c: Channel, es: seq<Event<V>>)
    requires Inv(s) && CanRun(s, es) && DeadLoad(s, c)
    ensures DeadLoad(Run(s, es), c)
    decreases |es|
  {
    if es != [] {
      NextKeeps(s, es[0]);
      DeadLoadStep(s, c, es[0]);
      DeadLoadStaysDead(Next(s, es[0]), c, es[1..]);
    }
  }

  lemma QuietInvalidation<V>(s: State<V>, es: seq<Event<V>>, t: Caller)
    requires Inv(s) && !LiveLoadInFlight(s) && CanRun(Next(s, Invalidate), es)
    ensures !AnsweredFromBefore(Run(Next(s, Invalidate), es), t, s.step)
  {
    var s1 := Next(s, Invalidate);
    NextKeeps(s, Invalidate);
    RunKeeps(s1, es);
    RunExtends(s1, es);
    var f := Run(s1, es);
    if AnsweredFromBefore(f, t, s.step) {
      assert ThreadSound(f, t);
      var k := |s.invalidations|;
      assert f.invalidations[k] == s1.invalidations[k] == Invalidation(s.step, s.cache.refreshing);
      var c := f.threads[t].phase.reply.load;
      assert NotBefore(f, c, f.invalidations[k]);
      assert s.cache.refreshing == Some(c);
      DeadLoadStaysDead(s1, c, es);
    }
  }

  /** The stale answer, as a run: the load in flight publishes, then a new call is served from it. */
  lemma LateInvalidation<V>(s: State<V>) returns (es: seq<Event<V>>, t: Caller)
    requires Inv(s) && 0 < s.cache.ttl && LiveLoadInFlight(s)
    ensures CanRun(Next(s, Invalidate), es)
    ensures AnsweredFromBefore(Run(Next(s, Invalidate), es), t, s.step)
  {
    var leader := s.loads[s.cache.refreshing.value].leader;
    t := Unused(s.threads.Keys);
    var s1 := Next(s, Invalidate);
    NextKeeps(s, Invalidate);
    if s.threads[leader].phase.Loading? {
      var r := Return(leader, s.cache.stored);
      NextKeeps(s1, r);
      es := PublishThenServe(Next(s1, r), leader, t, s.step);
      Unroll(s1, r, es);
      es := [r] + es;
    } else {
      es := PublishThenServe(s1, leader, t, s.step);
    }
  }

  lemma PublishThenServe<V>(s: State<V>, leader: Caller, t: Caller, step: nat) returns (es: seq<Event<V>>)
    requires Inv(s) && 0 < s.cache.ttl && leader in s.threads && !s.threads[leader].cancelled
    requires s.threads[leader].phase.Returned? && t !in s.threads
    requires step <= s.step && s.loads[s.threads[leader].phase.own].startStep <= step
    ensures CanRun(s, es) && AnsweredFromBefore(Run(s, es), t, step)
  {
    PublishedIsServed(s, leader, t);
    hide Inv;
    var s2 := Next(Next(s, Publish(leader)), Call(t));
    Unroll(s2, Enter(t), []);
    Unroll(Next(s, Publish(leader)), Call(t), [Enter(t)] + []);
    Unroll(s, Publish(leader), [Call(t)] + ([Enter(t)] + []));
    es := [Publish(leader)] + ([Call(t)] + ([Enter(t)] + []));
  }

  lemma PublishedIsServed<V>(s: State<V>, leader: Caller, t: Caller)
    requires Inv(s) && 0 < s.cache.ttl && leader in s.threads && !s.threads[leader].cancelled
    requires s.threads[leader].phase.Returned? && t !in s.threads
    ensures Enabled(s, Publish(leader))
    ensures var s2 := Next(Next(s, Publish(leader)), Call(t));
      && Enabled(s2, Enter(t)) && FreshAt(s2.cache, s2.now) && s2.content == Some(s.threads[leader].phase.own)
      && s2.threads[t].began == s.step + 1
      && s.threads[leader].phase.own in s.loads && s2.loads.Keys == s.loads.Keys
      && s2.loads[s.threads[leader].phase.own].startStep == s.loads[s.threads[leader].phase.own].startStep
  {
    NextExtends(s, Publish(leader));
  }

  /** Invalidating takes effect at once exactly when no live caller's load is in flight. */
  lemma InvalidationExactly<V(!new)>(s: State<V>)
    requires Inv(s) && 0 < s.cache.ttl
    ensures EffectiveAtOnce(s) <==> !LiveLoadInFlight(s)
  {
    if LiveLoadInFlight(s) {
      var es, t := LateInvalidation(s);
    } else {
      forall es: seq<Event<V>>, t: Caller | CanRun(Next(s, Invalidate), es)
        ensures !AnsweredFromBefore(Run(Next(s, Invalidate), es), t, s.step)
      {
        QuietInvalidation(s, es, t);
      }
    }
  }

  /** The whole run from an empty cache: a call leads a load, an invalidation comes, the load is published
      and a later call is answered from it. */
  lemma StaleAnswerFromScratch<V>(ttl: int, zero: V, start: Time) returns (es: seq<Event<V>>, t: Caller, step: nat)
    requires 0 < ttl
    ensures CanRun(Init(ttl, zero, start), es)
    ensures AnsweredFromBefore(Run(Init(ttl, zero, start), es), t, step)
    ensures step < |es| && es[step] == Invalidate
  {
    var s0 := Init(ttl, zero, start);
    InitKeeps(ttl, zero, start);
    var s1 := Next(s0, Call(0));
    NextKeeps(s0, Call(0));
    var s2 := Next(s1, Enter(0));
    NextKeeps(s1, Enter(0));
    assert LiveLoadInFlight(s2) && s2.step == 2;
    var rest: seq<Event<V>>;
    rest, t := LateInvalidation(s2);
    hide Inv;
    Unroll(s2, Invalidate, rest);
    Unroll(s1, Enter(0), [Invalidate] + rest);
    Unroll(s0, Call(0), [Enter(0)] + ([Invalidate] + rest));
    es, step := [Call(0)] + ([Enter(0)] + ([Invalidate] + rest)), 2;
  }
}
