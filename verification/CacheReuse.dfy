/**
 What the single-flight cache is for: a published result is handed out, and no further load begins, until the
 time to live is over or the cache is invalidated.
 */
module CacheReuse {
  import opened Wrappers
  import opened SingleFlight

  /** A load that its live caller published, with no invalidation until `step`, except while it was in flight. */
  ghost predicate Standing<V>(s: State<V>, c: Channel, step: int) {
    && c in s.loads && s.loads[c].finish.Some? && s.loads[c].finish.value.live
    && forall i | 0 <= i < |s.invalidations| && s.invalidations[i].step < step ::
         s.invalidations[i].step < s.loads[c].startStep || s.invalidations[i].inFlight == Some(c)
  }

  /** Loads are named in the order in which they begin, and only the last can be in flight. */
  ghost predicate InOrder<V>(s: State<V>) {
    forall c: Channel, d: Channel | c in s.loads && d in s.loads && c < d ::
      s.loads[c].startStep < s.loads[d].startStep && s.loads[c].finish.Some?
  }

  /** No step both begins a load and invalidates. */
  ghost predicate StepsDiffer<V>(s: State<V>) {
    forall c: Channel, i | c in s.loads && 0 <= i < |s.invalidations| ::
      s.loads[c].startStep != s.invalidations[i].step
  }

  /** Only a cancelled caller is turned away. */
  ghost predicate LiveAreServed<V>(s: State<V>) {
    forall t | t in s.threads && s.threads[t].phase.Done? && s.threads[t].phase.reply.Cancelled? ::
      s.threads[t].cancelled
  }

  /** A standing load is remembered, or a later one is. */
  ghost predicate Remembered<V>(s: State<V>) {
    forall c: Channel | Standing(s, c, s.step) :: RememberedLoad(s, c)
  }

  ghost predicate RememberedLoad<V>(s: State<V>, c: Channel)
    requires c in s.loads && s.loads[c].finish.Some?
  {
    && s.cache.lastAttempt.Some? && s.content.Some? && s.content.value in s.loads
    && c <= s.content.value && s.loads[c].finish.value.at <= s.cache.lastAttempt.value
  }

  /** The next load begins when the time to live of every standing one is over. */
  ghost predicate Spaced<V>(s: State<V>) {
    forall c: Channel, d: Channel | c < d && d in s.loads && Standing(s, c, s.loads[d].startStep) ::
      s.loads[c].finish.value.at + s.cache.ttl <= s.loads[d].started
  }

  ghost predicate Reuse<V>(s: State<V>) {
    InOrder(s) && StepsDiffer(s) && LiveAreServed(s) && Remembered(s) && Spaced(s)
  }

  lemma InOrderKept<V>(s: State<V>, e: Event<V>)
    requires Inv(s) && InOrder(s) && Enabled(s, e)
    ensures InOrder(Next(s, e))
  {
    hide WaitersWillWake, ThreadSound, ContentSound, InFlightSound;
  }

  lemma StepsDifferKept<V>(s: State<V>, e: Event<V>)
    requires Inv(s) && StepsDiffer(s) && Enabled(s, e)
    ensures StepsDiffer(Next(s, e))
  {
    hide Structure, ThreadSound, ContentSound, InFlightSound;
  }

  lemma LiveServedKept<V>(s: State<V>, e: Event<V>)
    requires LiveAreServed(s) && Enabled(s, e)
    ensures LiveAreServed(Next(s, e))
  {
  }

  /** A load that stands after an event and was over before it stood before it too. */
  lemma StoodBefore<V>(s: State<V>, e: Event<V>, c: Channel, step: int)
    requires Inv(s) && Enabled(s, e) && Standing(Next(s, e), c, step) && step <= Next(s, e).step
    requires c in s.loads && s.loads[c].finish.Some?
    ensures Standing(s, c, step)
  {
    NextExtends(s, e);
    hide Next, Enabled, Inv;
    var s' := Next(s, e);
    forall i | 0 <= i < |s.invalidations| && s.invalidations[i].step < step
      ensures s.invalidations[i].step < s.loads[c].startStep || s.invalidations[i].inFlight == Some(c)
    {
      assert s'.invalidations[i] == s.invalidations[i];
    }
  }

  lemma NothingStands<V>(s: State<V>, c: Channel)
    requires Inv(s)
    ensures !Standing(Next(s, Invalidate), c, s.step + 1)
  {
    hide WaitersWillWake, ThreadSound, ContentSound, InFlightSound;
    var after := Next(s, Invalidate).invalidations;
    assert after[|s.invalidations|] == Invalidation(s.step, s.cache.refreshing);
  }

  /** Only the event that ends a load can leave it standing anew, and an invalidation leaves nothing standing. */
  lemma NewlyStanding<V>(s: State<V>, e: Event<V>, c: Channel)
    requires Inv(s) && Enabled(s, e) && Standing(Next(s, e), c, Next(s, e).step)
    ensures !e.Invalidate? && c in s.loads
    ensures s.loads[c].finish.None? ==> e.Publish? && !s.threads[e.t].cancelled && s.threads[e.t].phase.own == c
  {
    hide WaitersWillWake, ThreadSound, ContentSound, InFlightSound;
    NothingStands(s, c);
  }

  lemma RememberedKept<V>(s: State<V>, e: Event<V>)
    requires Inv(s) && InOrder(s) && Remembered(s) && Enabled(s, e)
    ensures Remembered(Next(s, e))
  {
    var s' := Next(s, e);
    forall c: Channel | Standing(s', c, s'.step) ensures RememberedLoad(s', c) {
      NewlyStanding(s, e, c);
      if e.Publish? && !s.threads[e.t].cancelled {
        PublishedIsRemembered(s, e.t, c);
      } else {
        StoodBefore(s, e, c, s'.step);
        StaysRemembered(s, e, c);
      }
    }
  }

  lemma PublishedIsRemembered<V>(s: State<V>, t: Caller, c: Channel)
    requires Inv(s) && InOrder(s) && Enabled(s, Publish(t)) && !s.threads[t].cancelled
    requires c in s.loads && Next(s, Publish(t)).loads[c].finish.Some?
    ensures RememberedLoad(Next(s, Publish(t)), c)
  {
    hide WaitersWillWake, ThreadSound, ContentSound, InFlightSound;
  }

  lemma StaysRemembered<V>(s: State<V>, e: Event<V>, c: Channel)
    requires Inv(s) && Remembered(s) && Enabled(s, e) && !e.Invalidate?
    requires e.Publish? ==> s.threads[e.t].cancelled
    requires Standing(s, c, s.step)
    ensures c in Next(s, e).loads && Next(s, e).loads[c].finish.Some? && RememberedLoad(Next(s, e), c)
  {
    NextExtends(s, e);
    hide Inv, Standing;
    assert RememberedLoad(s, c);
  }

  lemma SpacedKept<V>(s: State<V>, e: Event<V>)
    requires Inv(s) && Reuse(s) && Enabled(s, e)
    ensures Spaced(Next(s, e))
  {
    var s' := Next(s, e);
    NextExtends(s, e);
    forall c: Channel, d: Channel | c < d && d in s'.loads && Standing(s', c, s'.loads[d].startStep)
      ensures s'.loads[c].finish.value.at + s'.cache.ttl <= s'.loads[d].started
    {
      if d in s.loads {
        EarlierLoads(s, e, c, d);
        StoodBefore(s, e, c, s.loads[d].startStep);
      } else {
        NewLoad(s, e, c, d);
      }
    }
  }

  lemma EarlierLoads<V>(s: State<V>, e: Event<V>, c: Channel, d: Channel)
    requires Inv(s) && InOrder(s) && Enabled(s, e) && c < d && d in s.loads
    ensures c in s.loads && s.loads[c].finish.Some? && s.loads[d].startStep <= Next(s, e).step
  {
    hide WaitersWillWake, ThreadSound, ContentSound, InFlightSound;
    NextExtends(s, e);
  }

  lemma NewLoad<V>(s: State<V>, e: Event<V>, c: Channel, d: Channel)
    requires Inv(s) && Remembered(s) && Enabled(s, e)
    requires d in Next(s, e).loads && d !in s.loads && c < d
    requires Standing(Next(s, e), c, Next(s, e).loads[d].startStep)
    ensures Next(s, e).loads[c].finish.value.at + s.cache.ttl <= Next(s, e).loads[d].started
  {
    hide WaitersWillWake, ThreadSound, ContentSound, InFlightSound, Times;
    var s' := Next(s, e);
    assert c in s.loads && s.loads[c].finish.Some? && s'.loads[c] == s.loads[c];
    assert s'.loads[d].startStep == s.step && s'.loads[d].started == s.now;
    StoodBefore(s, e, c, s.step);
    assert RememberedLoad(s, c);
  }

  lemma {:induction false} ReuseKept<V>(s: State<V>, es: seq<Event<V>>)
    requires Inv(s) && Reuse(s) && CanRun(s, es)
    ensures Inv(Run(s, es)) && Reuse(Run(s, es))
    decreases |es|
  {
    if es != [] {
      NextKeeps(s, es[0]);
      InOrderKept(s, es[0]);
      StepsDifferKept(s, es[0]);
      LiveServedKept(s, es[0]);
      RememberedKept(s, es[0]);
      SpacedKept(s, es[0]);
      hide Inv, InOrder, StepsDiffer, LiveAreServed, Remembered, Spaced;
      ReuseKept(Next(s, es[0]), es[1..]);
    }
  }

  lemma ReachableReuse<V(!new)>(s: State<V>, ttl: int, zero: V, start: Time)
    requires Reachable(s, ttl, zero, start)
    ensures Inv(s) && Reuse(s) && s.cache.ttl == ttl
  {
    ReachableInv(s, ttl, zero, start);
    var es :| CanRun(Init(ttl, zero, start), es) && s == Run(Init(ttl, zero, start), es);
    InitKeeps(ttl, zero, start);
    ReuseKept(Init(ttl, zero, start), es);
  }

  // ---------------------------------------------------------------------------------------
  // What that means for the callers.

  /** Two loads never begin within the time to live: after a load that was published, and not invalidated
      since but while it was in flight, the next one begins when the time to live is over. */
  lemma LoadsAreSpaced<V(!new)>(s: State<V>, ttl: int, zero: V, start: Time, c: Channel, d: Channel)
    requires Reachable(s, ttl, zero, start)
    requires c in s.loads && s.loads[c].finish.Some? && s.loads[c].finish.value.live
    requires d in s.loads && s.loads[c].startStep < s.loads[d].startStep
    requires forall i | 0 <= i < |s.invalidations| ::
      !(s.loads[c].startStep < s.invalidations[i].step < s.loads[d].startStep)
        || s.invalidations[i].inFlight == Some(c)
    ensures s.loads[c].finish.value.at + ttl <= s.loads[d].started
  {
    ReachableReuse(s, ttl, zero, start);
    StepsApart(s, c, d);
  }

  lemma StepsApart<V>(s: State<V>, c: Channel, d: Channel)
    requires Inv(s) && InOrder(s) && c in s.loads && d in s.loads && s.loads[c].startStep < s.loads[d].startStep
    ensures c < d
  {
  }

  /** A load that a call may be answered from. */
  ghost predicate Usable<V>(s: State<V>, c: Channel) {
    Standing(s, c, s.step) && s.now - s.loads[c].finish.value.at < s.cache.ttl
  }

  /** How a call goes on when it takes the mutex: it is served from a usable load if there is one, otherwise
      waits for the load in flight if there is one, and only otherwise begins a load. */
  lemma EnterExactly<V(!new)>(s: State<V>, ttl: int, zero: V, start: Time, t: Caller)
    requires Reachable(s, ttl, zero, start) && t in s.threads && s.threads[t].phase.Ready?
    ensures var p := Next(s, Enter(t)).threads[t].phase;
      && (forall c | Usable(s, c) :: p == Done(Served(s.loads[c].finish.value.result, c, s.now)))
      && (p.Done? ==> p.reply.Served? && Usable(s, p.reply.load))
      && (p.Waiting? ==> p.on in s.loads && s.loads[p.on].finish.None?)
      && (p.Loading? <==> forall c | c in s.loads :: s.loads[c].finish.Some? && !Usable(s, c))
      && (p.Loading? ==> p.own !in s.loads)
  {
    ReachableReuse(s, ttl, zero, start);
    UsableIsStored(s);
    hide Reachable, Reuse, Usable, Times, ThreadSound, WaitersWillWake, InFlightSound, ContentSound;
  }

  /** The only load that a call may be answered from is the one stored, while it is fresh. */
  lemma UsableIsStored<V>(s: State<V>)
    requires Inv(s) && Reuse(s)
    ensures forall c | Usable(s, c) ::
      FreshAt(s.cache, s.now) && s.content == Some(c) && s.loads[c].finish.value.result == s.cache.stored
    ensures FreshAt(s.cache, s.now) ==> s.content.Some? && Usable(s, s.content.value)
  {
    forall c | Usable(s, c)
      ensures FreshAt(s.cache, s.now) && s.content == Some(c) && s.loads[c].finish.value.result == s.cache.stored
    {
      OneUsable(s, c);
    }
    if FreshAt(s.cache, s.now) { StoredIsUsable(s); }
  }

  lemma StoredIsUsable<V>(s: State<V>)
    requires Inv(s) && FreshAt(s.cache, s.now)
    ensures s.content.Some? && Usable(s, s.content.value)
  {
  }

  /** A call that is over was served unless its caller had cancelled it. */
  lemma LiveCallersAreServed<V(!new)>(s: State<V>, ttl: int, zero: V, start: Time, t: Caller)
    requires Reachable(s, ttl, zero, start) && t in s.threads && s.threads[t].phase.Done?
    ensures s.threads[t].phase.reply.Served? || s.threads[t].cancelled
  {
    ReachableReuse(s, ttl, zero, start);
  }

  lemma LaterIsLate<V>(s: State<V>, c: Channel)
    requires Inv(s) && Spaced(s) && Standing(s, c, s.step)
    ensures forall d: Channel | d in s.loads && c < d :: s.loads[c].finish.value.at + s.cache.ttl <= s.now
  {
    forall d: Channel | d in s.loads && c < d ensures s.loads[c].finish.value.at + s.cache.ttl <= s.now {
      assert Standing(s, c, s.loads[d].startStep);
    }
  }

  lemma OneUsable<V>(s: State<V>, c: Channel)
    requires Inv(s) && Reuse(s) && Usable(s, c)
    ensures RememberedLoad(s, c) && c == s.content.value
  {
    assert RememberedLoad(s, c);
    LaterIsLate(s, c);
  }
}
