/**
 The metrics snapshot of internal/slurm/client.go: a single-flight cache whose loader asks two
 other single-flight caches, for the nodes and for the jobs.  Three copies of the protocol run
 interleaved under one clock; the node and job caches also serve callers of their own.
 */
module NestedSnapshot {
  import opened Wrappers
  import opened SingleFlight

  /** Aggregated metrics, with the names of the node load and the job load they were made from. */
  datatype Sourced<+M> = Sourced(metrics: M, nodeLoad: Channel, jobLoad: Channel)

  /** How far the loader of one snapshot has come. */
  datatype Query = AskingNodes(nodeCall: Caller) | AskingJobs(nodeCall: Caller, jobCall: Caller)

  datatype System<N, J, M> = System(
    outer: State<Sourced<M>>,
    nodes: State<N>,
    jobs: State<J>,
    queries: map<Caller, Query>)

  datatype Move<N, J, M> =
    | Pass(delta: nat)
    | Outer(o: Event<Sourced<M>>)
    | Nodes(n: Event<N>)
    | Jobs(j: Event<J>)
    | AskNodes(t: Caller, call: Caller)
    | AskJobs(t: Caller, call: Caller)
    | Aggregate(t: Caller)
    | Fail(t: Caller, zero: Sourced<M>, reason: string)

  function Start<N, J, M>(ttl: int, n: N, j: J, m: Sourced<M>, now: Time): System<N, J, M> {
    System(Init(ttl, m, now), Init(ttl, n, now), Init(ttl, j, now), map[])
  }

  predicate Answered<V>(s: State<V>, call: Caller) {
    && call in s.threads && s.threads[call].phase.Done?
    && s.threads[call].phase.reply.Served? && s.threads[call].phase.reply.result.err.None?
  }

  predicate Refused<V>(s: State<V>, call: Caller) {
    call in s.threads && s.threads[call].phase.Done? && !Answered(s, call)
  }

  predicate IsLoading<V>(s: State<V>, t: Caller) {
    t in s.threads && s.threads[t].phase.Loading?
  }

  predicate Possible<N, J, M>(sys: System<N, J, M>, m: Move<N, J, M>) {
    match m
    case Pass(_) => true
    case Outer(o) => !o.Tick? && !o.Return? && Enabled(sys.outer, o)
    case Nodes(n) => !n.Tick? && Enabled(sys.nodes, n)
    case Jobs(j) => !j.Tick? && Enabled(sys.jobs, j)
    case AskNodes(t, call) => IsLoading(sys.outer, t) && t !in sys.queries && call !in sys.nodes.threads
    case AskJobs(t, call) =>
      && t in sys.queries && sys.queries[t].AskingNodes?
      && Answered(sys.nodes, sys.queries[t].nodeCall) && call !in sys.jobs.threads
    case Aggregate(t) =>
      && IsLoading(sys.outer, t) && t in sys.queries && sys.queries[t].AskingJobs?
      && Answered(sys.nodes, sys.queries[t].nodeCall) && Answered(sys.jobs, sys.queries[t].jobCall)
    case Fail(t, _, _) =>
      && IsLoading(sys.outer, t) && t in sys.queries
      && (if sys.queries[t].AskingNodes? then Refused(sys.nodes, sys.queries[t].nodeCall)
          else Refused(sys.jobs, sys.queries[t].jobCall))
  }

  function ReplyOf<V>(s: State<V>, call: Caller): (r: Reply<V>)
    requires Answered(s, call)
    ensures r.Served? && r.result.err.None?
  {
    s.threads[call].phase.reply
  }

  /** What the loader of a snapshot returns once both inner calls have been answered. */
  function Combined<N, J, M>(aggregate: (N, J) -> Result<M, string>, n: Reply<N>, j: Reply<J>,
                             zero: M): Loaded<Sourced<M>>
    requires n.Served? && j.Served?
  {
    match aggregate(n.result.value, j.result.value)
    case Ok(m) => Loaded(Sourced(m, n.load, j.load), None)
    case Err(reason) => Loaded(Sourced(zero, n.load, j.load), Some(reason))
  }

  function Aggregated<N, J, M>(sys: System<N, J, M>, t: Caller,
                               aggregate: (N, J) -> Result<M, string>): Loaded<Sourced<M>>
    requires Possible(sys, Aggregate(t))
  {
    Combined(aggregate, ReplyOf(sys.nodes, sys.queries[t].nodeCall), ReplyOf(sys.jobs, sys.queries[t].jobCall),
             sys.outer.cache.stored.value.metrics)
  }

  function After<N, J, M>(sys: System<N, J, M>, m: Move<N, J, M>,
                          aggregate: (N, J) -> Result<M, string>): System<N, J, M>
    requires Possible(sys, m)
  {
    match m
    case Pass(d) => System(Next(sys.outer, Tick(d)), Next(sys.nodes, Tick(d)), Next(sys.jobs, Tick(d)), sys.queries)
    case Outer(o) => sys.(outer := Next(sys.outer, o))
    case Nodes(n) => sys.(nodes := Next(sys.nodes, n))
    case Jobs(j) => sys.(jobs := Next(sys.jobs, j))
    case AskNodes(t, call) =>
      sys.(nodes := Next(sys.nodes, Call(call)), queries := sys.queries[t := AskingNodes(call)])
    case AskJobs(t, call) =>
      sys.(jobs := Next(sys.jobs, Call(call)), queries := sys.queries[t := AskingJobs(sys.queries[t].nodeCall, call)])
    case Aggregate(t) =>
      sys.(outer := Next(sys.outer, Return(t, Aggregated(sys, t, aggregate))), queries := sys.queries - {t})
    case Fail(t, zero, reason) =>
      sys.(outer := Next(sys.outer, Return(t, Loaded(zero, Some(reason)))), queries := sys.queries - {t})
  }

  predicate CanPlay<N, J, M>(sys: System<N, J, M>, ms: seq<Move<N, J, M>>, aggregate: (N, J) -> Result<M, string>)
    decreases |ms|
  {
    ms == [] || (Possible(sys, ms[0]) && CanPlay(After(sys, ms[0], aggregate), ms[1..], aggregate))
  }

  function Play<N, J, M>(sys: System<N, J, M>, ms: seq<Move<N, J, M>>,
                         aggregate: (N, J) -> Result<M, string>): System<N, J, M>
    requires CanPlay(sys, ms, aggregate)
    decreases |ms|
  {
    if ms == [] then sys else Play(After(sys, ms[0], aggregate), ms[1..], aggregate)
  }

  /** When both inner calls have been answered, the snapshot's load returns what aggregating their values gives:
      the metrics of these two loads without an error, or the error of the aggregation. */
  lemma AnswersAreAggregated<N, J, M>(sys: System<N, J, M>, t: Caller, aggregate: (N, J) -> Result<M, string>)
    requires Possible(sys, Aggregate(t))
    ensures var n, j := ReplyOf(sys.nodes, sys.queries[t].nodeCall), ReplyOf(sys.jobs, sys.queries[t].jobCall);
      var p := After(sys, Aggregate(t), aggregate).outer.threads[t].phase;
      && p.Returned? && p.own == sys.outer.threads[t].phase.own
      && (p.got.err.None? <==> aggregate(n.result.value, j.result.value).Ok?)
      && (p.got.err.None? ==>
            aggregate(n.result.value, j.result.value) == Ok(p.got.value.metrics)
            && p.got.value.nodeLoad == n.load && p.got.value.jobLoad == j.load)
      && (p.got.err.Some? ==> aggregate(n.result.value, j.result.value) == Err(p.got.err.value))
  {
  }

  // ---------------------------------------------------------------------------------------

  /** The call takes its result no earlier than `since`. */
  predicate TakenSince<V>(s: State<V>, call: Caller, since: Time) {
    && call in s.threads
    && (s.threads[call].phase.Published? ==> since <= s.threads[call].phase.at)
    && (s.threads[call].phase.Done? && s.threads[call].phase.reply.Served? ==> since <= s.threads[call].phase.reply.at)
  }

  lemma TakenSinceKept<V>(s: State<V>, e: Event<V>, call: Caller, since: Time)
    requires TakenSince(s, call, since) && since <= s.now && Enabled(s, e)
    ensures TakenSince(Next(s, e), call, since)
  {
  }

  lemma AnsweredKept<V>(s: State<V>, e: Event<V>, call: Caller)
    requires Answered(s, call) && Enabled(s, e)
    ensures Answered(Next(s, e), call) && ReplyOf(Next(s, e), call) == ReplyOf(s, call)
  {
  }

  ghost predicate Synchronous<N, J, M>(sys: System<N, J, M>, ttl: int) {
    && Inv(sys.outer) && Inv(sys.nodes) && Inv(sys.jobs)
    && sys.outer.now == sys.nodes.now == sys.jobs.now
    && sys.outer.cache.ttl == sys.nodes.cache.ttl == sys.jobs.cache.ttl == ttl
  }

  /** The inner calls of a loader were made after its load began. */
  ghost predicate QuerySound<N, J, M>(sys: System<N, J, M>, t: Caller)
    requires t in sys.queries
  {
    var q := sys.queries[t];
    && IsLoading(sys.outer, t) && sys.outer.threads[t].phase.own in sys.outer.loads
    && var since := sys.outer.loads[sys.outer.threads[t].phase.own].started;
    && since <= sys.outer.now
    && TakenSince(sys.nodes, q.nodeCall, since)
    && (q.AskingJobs? ==> Answered(sys.nodes, q.nodeCall) && TakenSince(sys.jobs, q.jobCall, since))
  }

  /** Load `c` of an inner cache succeeded and was still fresh when the outer load began. */
  predicate FreshInput<V>(s: State<V>, c: Channel, since: Time) {
    && c in s.loads && s.loads[c].finish.Some?
    && s.loads[c].finish.value.result.err.None?
    && since - s.loads[c].finish.value.at < s.cache.ttl
  }

  ghost predicate Derived<N, J, M>(sys: System<N, J, M>, r: Loaded<Sourced<M>>, since: Time,
                                   aggregate: (N, J) -> Result<M, string>) {
    r.err.None? ==>
      && FreshInput(sys.nodes, r.value.nodeLoad, since) && FreshInput(sys.jobs, r.value.jobLoad, since)
      && aggregate(sys.nodes.loads[r.value.nodeLoad].finish.value.result.value,
                   sys.jobs.loads[r.value.jobLoad].finish.value.result.value) == Ok(r.value.metrics)
  }

  ghost predicate ResultsDerived<N, J, M>(sys: System<N, J, M>, aggregate: (N, J) -> Result<M, string>) {
    && (forall c | c in sys.outer.loads && sys.outer.loads[c].finish.Some? ::
          Derived(sys, sys.outer.loads[c].finish.value.result, sys.outer.loads[c].started, aggregate))
    && (forall t | t in sys.outer.threads && sys.outer.threads[t].phase.Returned? ::
          sys.outer.threads[t].phase.own in sys.outer.loads &&
          Derived(sys, sys.outer.threads[t].phase.got, sys.outer.loads[sys.outer.threads[t].phase.own].started,
                  aggregate))
  }

  ghost predicate Sound<N, J, M>(sys: System<N, J, M>, ttl: int, aggregate: (N, J) -> Result<M, string>) {
    && 0 < ttl && Synchronous(sys, ttl)
    && (forall t | t in sys.queries :: QuerySound(sys, t))
    && ResultsDerived(sys, aggregate)
  }

  lemma DerivedKept<N, J, M>(sys: System<N, J, M>, sys': System<N, J, M>, r: Loaded<Sourced<M>>, since: Time,
                             aggregate: (N, J) -> Result<M, string>)
    requires Extends(sys.nodes, sys'.nodes) && Extends(sys.jobs, sys'.jobs)
    requires Derived(sys, r, since, aggregate)
    ensures Derived(sys', r, since, aggregate)
  {
  }

  /** A step of the outer cache other than a return makes no new result. */
  lemma OuterResults<N, J, M>(sys: System<N, J, M>, o: Event<Sourced<M>>, aggregate: (N, J) -> Result<M, string>)
    requires Structure(sys.outer) && Enabled(sys.outer, o) && !o.Return? && ResultsDerived(sys, aggregate)
    ensures ResultsDerived(sys.(outer := Next(sys.outer, o)), aggregate)
  {
    hide Structure, Derived;
    var sys' := sys.(outer := Next(sys.outer, o));
    NextExtends(sys.outer, o);
    forall c | c in sys'.outer.loads && sys'.outer.loads[c].finish.Some?
      ensures Derived(sys', sys'.outer.loads[c].finish.value.result, sys'.outer.loads[c].started, aggregate)
    {
      if c in sys.outer.loads && sys.outer.loads[c].finish.Some? {
        DerivedKept(sys, sys', sys.outer.loads[c].finish.value.result, sys.outer.loads[c].started, aggregate);
      } else {
        assert o.Publish? && c == sys.outer.threads[o.t].phase.own;
        DerivedKept(sys, sys', sys.outer.threads[o.t].phase.got, sys.outer.loads[c].started, aggregate);
      }
    }
    forall t | t in sys'.outer.threads && sys'.outer.threads[t].phase.Returned?
      ensures sys'.outer.threads[t].phase.own in sys'.outer.loads
      ensures Derived(sys', sys'.outer.threads[t].phase.got,
                      sys'.outer.loads[sys'.outer.threads[t].phase.own].started, aggregate)
    {
      assert t in sys.outer.threads && sys.outer.threads[t].phase == sys'.outer.threads[t].phase;
      DerivedKept(sys, sys', sys.outer.threads[t].phase.got,
                  sys.outer.loads[sys.outer.threads[t].phase.own].started, aggregate);
    }
  }

  /** Steps of the inner caches leave the outer results derived from the same loads. */
  lemma InnerResults<N, J, M>(sys: System<N, J, M>, sys': System<N, J, M>, aggregate: (N, J) -> Result<M, string>)
    requires ResultsDerived(sys, aggregate)
    requires sys'.outer.loads == sys.outer.loads && sys'.outer.threads == sys.outer.threads
    requires Extends(sys.nodes, sys'.nodes) && Extends(sys.jobs, sys'.jobs)
    ensures ResultsDerived(sys', aggregate)
  {
  }

  lemma ExtendsItself<V>(s: State<V>)
    ensures Extends(s, s)
  {
  }

  /** What an inner call was answered with was fresh when the outer load began. */
  lemma AnswerIsFresh<V>(s: State<V>, call: Caller, since: Time)
    requires Inv(s) && 0 < s.cache.ttl && Answered(s, call) && TakenSince(s, call, since)
    ensures FreshInput(s, ReplyOf(s, call).load, since)
    ensures s.loads[ReplyOf(s, call).load].finish.value.result == ReplyOf(s, call).result
  {
  }

  /** The loader's return: its result is derived from the two answers. */
  lemma ReturnResults<N, J, M>(sys: System<N, J, M>, t: Caller, r: Loaded<Sourced<M>>,
                               aggregate: (N, J) -> Result<M, string>)
    requires Inv(sys.outer) && Enabled(sys.outer, Return(t, r)) && ResultsDerived(sys, aggregate)
    requires sys.outer.threads[t].phase.own in sys.outer.loads
    requires Derived(sys, r, sys.outer.loads[sys.outer.threads[t].phase.own].started, aggregate)
    ensures ResultsDerived(sys.(outer := Next(sys.outer, Return(t, r)), queries := sys.queries - {t}), aggregate)
  {
    var sys' := sys.(outer := Next(sys.outer, Return(t, r)), queries := sys.queries - {t});
    ExtendsItself(sys.nodes);
    ExtendsItself(sys.jobs);
    assert sys'.outer.loads == sys.outer.loads;
    forall c | c in sys'.outer.loads && sys'.outer.loads[c].finish.Some?
      ensures Derived(sys', sys'.outer.loads[c].finish.value.result, sys'.outer.loads[c].started, aggregate)
    {
      DerivedKept(sys, sys', sys.outer.loads[c].finish.value.result, sys.outer.loads[c].started, aggregate);
    }
    forall u | u in sys'.outer.threads && sys'.outer.threads[u].phase.Returned?
      ensures sys'.outer.threads[u].phase.own in sys'.outer.loads
      ensures Derived(sys', sys'.outer.threads[u].phase.got,
                      sys'.outer.loads[sys'.outer.threads[u].phase.own].started, aggregate)
    {
      DerivedKept(sys, sys', sys'.outer.threads[u].phase.got,
                  sys'.outer.loads[sys'.outer.threads[u].phase.own].started, aggregate);
    }
  }

  lemma AggregatedIsDerived<N, J, M>(sys: System<N, J, M>, ttl: int, t: Caller, aggregate: (N, J) -> Result<M, string>)
    requires Possible(sys, Aggregate(t)) && QuerySound(sys, t)
    requires 0 < ttl && Synchronous(sys, ttl)
    ensures Derived(sys, Aggregated(sys, t, aggregate), sys.outer.loads[sys.outer.threads[t].phase.own].started,
                    aggregate)
  {
    var since := sys.outer.loads[sys.outer.threads[t].phase.own].started;
    AnswerIsFresh(sys.nodes, sys.queries[t].nodeCall, since);
    AnswerIsFresh(sys.jobs, sys.queries[t].jobCall, since);
  }

  lemma ComponentKept<V>(s: State<V>, e: Event<V>)
    requires Inv(s) && Enabled(s, e)
    ensures Inv(Next(s, e)) && Next(s, e).cache.ttl == s.cache.ttl
    ensures Next(s, e).now == if e.Tick? then s.now + e.delta else s.now
  {
    NextKeeps(s, e);
  }

  lemma SynchronousKept<N, J, M>(sys: System<N, J, M>, m: Move<N, J, M>, ttl: int,
                                 aggregate: (N, J) -> Result<M, string>)
    requires Synchronous(sys, ttl) && Possible(sys, m)
    ensures Synchronous(After(sys, m, aggregate), ttl)
  {
    hide Inv, Next;
    match m
    case Pass(d) =>
      ComponentKept(sys.outer, Tick(d));
      ComponentKept(sys.nodes, Tick(d));
      ComponentKept(sys.jobs, Tick(d));
    case Outer(o) => ComponentKept(sys.outer, o);
    case Nodes(n) => ComponentKept(sys.nodes, n);
    case Jobs(j) => ComponentKept(sys.jobs, j);
    case AskNodes(t, call) => ComponentKept(sys.nodes, Call(call));
    case AskJobs(t, call) => ComponentKept(sys.jobs, Call(call));
    case Aggregate(t) =>
      ComponentKept(sys.outer, Return(t, Aggregated(sys, t, aggregate)));
    case Fail(t, zero, reason) =>
      ComponentKept(sys.outer, Return(t, Loaded(zero, Some(reason))));
  }

  /** An outer step other than the loader's return leaves a loading thread and its load alone. */
  lemma LoadingKept<V>(s: State<V>, e: Event<V>, t: Caller)
    requires Inv(s) && Enabled(s, e) && IsLoading(s, t) && s.threads[t].phase.own in s.loads
    requires e.Return? ==> e.t != t
    ensures IsLoading(Next(s, e), t) && Next(s, e).threads[t].phase == s.threads[t].phase
    ensures s.threads[t].phase.own in Next(s, e).loads
    ensures Next(s, e).loads[s.threads[t].phase.own].started == s.loads[s.threads[t].phase.own].started
    ensures s.now <= Next(s, e).now
  {
    NextExtends(s, e);
  }

  lemma OuterStepQuery<N, J, M>(sys: System<N, J, M>, e: Event<Sourced<M>>, rest: map<Caller, Query>, t: Caller)
    requires Inv(sys.outer) && Enabled(sys.outer, e) && !e.Tick? && (e.Return? ==> e.t != t)
    requires t in sys.queries && QuerySound(sys, t) && t in rest && rest[t] == sys.queries[t]
    ensures QuerySound(sys.(outer := Next(sys.outer, e), queries := rest), t)
  {
    LoadingKept(sys.outer, e, t);
  }

  lemma NodesStepQuery<N, J, M>(sys: System<N, J, M>, e: Event<N>, rest: map<Caller, Query>, t: Caller)
    requires Enabled(sys.nodes, e) && sys.nodes.now == sys.outer.now
    requires t in sys.queries && QuerySound(sys, t) && t in rest && rest[t] == sys.queries[t]
    ensures QuerySound(sys.(nodes := Next(sys.nodes, e), queries := rest), t)
  {
    var q, since := sys.queries[t], sys.outer.loads[sys.outer.threads[t].phase.own].started;
    TakenSinceKept(sys.nodes, e, q.nodeCall, since);
    if q.AskingJobs? { AnsweredKept(sys.nodes, e, q.nodeCall); }
  }

  lemma JobsStepQuery<N, J, M>(sys: System<N, J, M>, e: Event<J>, rest: map<Caller, Query>, t: Caller)
    requires Enabled(sys.jobs, e) && sys.jobs.now == sys.outer.now
    requires t in sys.queries && QuerySound(sys, t) && t in rest && rest[t] == sys.queries[t]
    ensures QuerySound(sys.(jobs := Next(sys.jobs, e), queries := rest), t)
  {
    var q, since := sys.queries[t], sys.outer.loads[sys.outer.threads[t].phase.own].started;
    if q.AskingJobs? { TakenSinceKept(sys.jobs, e, q.jobCall, since); }
  }

  lemma ClockStepQuery<N, J, M>(sys: System<N, J, M>, d: nat, t: Caller)
    requires t in sys.queries && QuerySound(sys, t)
    ensures QuerySound(System(Next(sys.outer, Tick(d)), Next(sys.nodes, Tick(d)), Next(sys.jobs, Tick(d)),
                       sys.queries), t)
  {
  }

  /** A loader that asks for the nodes: the call is made after its load began. */
  lemma FirstAsk<N, J, M>(sys: System<N, J, M>, t: Caller, call: Caller, rest: map<Caller, Query>)
    requires Inv(sys.outer) && Possible(sys, AskNodes(t, call)) && t in rest && rest[t] == AskingNodes(call)
    ensures QuerySound(sys.(nodes := Next(sys.nodes, Call(call)), queries := rest), t)
  {
  }

  lemma SecondAsk<N, J, M>(sys: System<N, J, M>, t: Caller, call: Caller, rest: map<Caller, Query>)
    requires Possible(sys, AskJobs(t, call)) && QuerySound(sys, t)
    requires t in rest && rest[t] == AskingJobs(sys.queries[t].nodeCall, call)
    ensures QuerySound(sys.(jobs := Next(sys.jobs, Call(call)), queries := rest), t)
  {
  }

  lemma QueryKept<N, J, M>(sys: System<N, J, M>, m: Move<N, J, M>, ttl: int, aggregate: (N, J) -> Result<M, string>,
                           t: Caller)
    requires Synchronous(sys, ttl) && Possible(sys, m) && t in After(sys, m, aggregate).queries
    requires t in sys.queries ==> QuerySound(sys, t)
    ensures QuerySound(After(sys, m, aggregate), t)
  {
    hide Inv, Next, QuerySound, Answered, Refused;
    var rest := After(sys, m, aggregate).queries;
    match m
    case Pass(d) => ClockStepQuery(sys, d, t);
    case Outer(o) => OuterStepQuery(sys, o, rest, t);
    case Nodes(n) => NodesStepQuery(sys, n, rest, t);
    case Jobs(j) => JobsStepQuery(sys, j, rest, t);
    case AskNodes(u, call) =>
      if u == t { FirstAsk(sys, t, call, rest); } else { NodesStepQuery(sys, Call(call), rest, t); }
    case AskJobs(u, call) =>
      if u == t { SecondAsk(sys, t, call, rest); } else { JobsStepQuery(sys, Call(call), rest, t); }
    case Aggregate(u) =>
      OuterStepQuery(sys, Return(u, Aggregated(sys, u, aggregate)), rest, t);
    case Fail(u, zero, reason) =>
      OuterStepQuery(sys, Return(u, Loaded(zero, Some(reason))), rest, t);
  }

  lemma ResultsKept<N, J, M>(sys: System<N, J, M>, m: Move<N, J, M>, ttl: int, aggregate: (N, J) -> Result<M, string>)
    requires Sound(sys, ttl, aggregate) && Possible(sys, m)
    ensures ResultsDerived(After(sys, m, aggregate), aggregate)
  {
    var sys' := After(sys, m, aggregate);
    ExtendsItself(sys.nodes);
    ExtendsItself(sys.jobs);
    match m
    case Pass(d) =>
      NextExtends(sys.nodes, Tick(d));
      NextExtends(sys.jobs, Tick(d));
      InnerResults(sys, sys', aggregate);
    case Outer(o) => OuterResults(sys, o, aggregate);
    case Nodes(n) => NextExtends(sys.nodes, n); InnerResults(sys, sys', aggregate);
    case Jobs(j) => NextExtends(sys.jobs, j); InnerResults(sys, sys', aggregate);
    case AskNodes(t, call) => NextExtends(sys.nodes, Call(call)); InnerResults(sys, sys', aggregate);
    case AskJobs(t, call) => NextExtends(sys.jobs, Call(call)); InnerResults(sys, sys', aggregate);
    case Aggregate(t) =>
      assert QuerySound(sys, t);
      AggregatedIsDerived(sys, ttl, t, aggregate);
      ReturnResults(sys, t, Aggregated(sys, t, aggregate), aggregate);
    case Fail(t, zero, reason) =>
      assert QuerySound(sys, t);
      ReturnResults(sys, t, Loaded(zero, Some(reason)), aggregate);
  }

  lemma AfterKeeps<N, J, M>(sys: System<N, J, M>, m: Move<N, J, M>, ttl: int, aggregate: (N, J) -> Result<M, string>)
    requires Sound(sys, ttl, aggregate) && Possible(sys, m)
    ensures Sound(After(sys, m, aggregate), ttl, aggregate)
  {
    var sys' := After(sys, m, aggregate);
    SynchronousKept(sys, m, ttl, aggregate);
    ResultsKept(sys, m, ttl, aggregate);
    forall t | t in sys'.queries ensures QuerySound(sys', t) {
      QueryKept(sys, m, ttl, aggregate, t);
    }
  }

  lemma {:induction false} PlayKeeps<N, J, M>(sys: System<N, J, M>, ms: seq<Move<N, J, M>>, ttl: int,
                                              aggregate: (N, J) -> Result<M, string>)
    requires Sound(sys, ttl, aggregate) && CanPlay(sys, ms, aggregate)
    ensures Sound(Play(sys, ms, aggregate), ttl, aggregate)
    decreases |ms|
  {
    if ms != [] {
      AfterKeeps(sys, ms[0], ttl, aggregate);
      PlayKeeps(After(sys, ms[0], aggregate), ms[1..], ttl, aggregate);
    }
  }

  /** How long ago the load named `c` finished. */
  function Age<V>(s: State<V>, c: Channel, at: Time): int
    requires c in s.loads && s.loads[c].finish.Some?
  {
    at - s.loads[c].finish.value.at
  }

  /** Metrics handed out at time `at` were aggregated from one node load and one job load, each of
      which finished less than twice the time to live plus that snapshot's own running time before. */
  lemma SnapshotAgeBound<N, J, M>(ttl: int, n: N, j: J, m: Sourced<M>, now: Time, ms: seq<Move<N, J, M>>,
                                  aggregate: (N, J) -> Result<M, string>, sys: System<N, J, M>, t: Caller)
    requires 0 < ttl && CanPlay(Start(ttl, n, j, m, now), ms, aggregate)
    requires sys == Play(Start(ttl, n, j, m, now), ms, aggregate)
    requires Answered(sys.outer, t)
    ensures var r := ReplyOf(sys.outer, t);
      && r.load in sys.outer.loads && sys.outer.loads[r.load].finish.Some?
      && r.result.value.nodeLoad in sys.nodes.loads && sys.nodes.loads[r.result.value.nodeLoad].finish.Some?
      && r.result.value.jobLoad in sys.jobs.loads && sys.jobs.loads[r.result.value.jobLoad].finish.Some?
      && var running := sys.outer.loads[r.load].finish.value.at - sys.outer.loads[r.load].started;
      && Age(sys.nodes, r.result.value.nodeLoad, r.at) < 2 * ttl + running
      && Age(sys.jobs, r.result.value.jobLoad, r.at) < 2 * ttl + running
      && aggregate(sys.nodes.loads[r.result.value.nodeLoad].finish.value.result.value,
                   sys.jobs.loads[r.result.value.jobLoad].finish.value.result.value) == Ok(r.result.value.metrics)
  {
    InitKeeps(ttl, m, now);
    InitKeeps(ttl, n, now);
    InitKeeps(ttl, j, now);
    PlayKeeps(Start(ttl, n, j, m, now), ms, ttl, aggregate);
    assert ThreadSound(sys.outer, t);
    var r := ReplyOf(sys.outer, t);
    assert Derived(sys, sys.outer.loads[r.load].finish.value.result, sys.outer.loads[r.load].started, aggregate);
  }

  // ---------------------------------------------------------------------------------------
  // A snapshot from scratch.

  /** An empty cache after its first caller has entered, loaded `r`, published and left. */
  function Entered<V>(ttl: int, zero: V, now: Time): (s: State<V>) {
    Next(Next(Init(ttl, zero, now), Call(0)), Enter(0))
  }

  lemma EntersAndLoads<V>(ttl: int, zero: V, now: Time)
    ensures var s := Next(Init(ttl, zero, now), Call(0));
      Enabled(s, Enter(0)) && Next(s, Enter(0)) == Entered(ttl, zero, now)
    ensures IsLoading(Entered(ttl, zero, now), 0)
  {
  }

  lemma LoadsAndLeaves<V>(ttl: int, zero: V, now: Time, r: Loaded<V>) returns (published: State<V>, left: State<V>)
    requires r.err.None?
    ensures var s := Entered(ttl, zero, now);
      && Enabled(s, Return(0, r)) && Enabled(Next(s, Return(0, r)), Publish(0))
      && published == Next(Next(s, Return(0, r)), Publish(0))
      && Enabled(published, Leave(0)) && left == Next(published, Leave(0))
    ensures Answered(left, 0) && ReplyOf(left, 0).result == r
  {
    var s := Next(Entered(ttl, zero, now), Return(0, r));
    published := Next(s, Publish(0));
    left := Next(published, Leave(0));
  }

  lemma FirstMove<N, J, M>(sys: System<N, J, M>, m: Move<N, J, M>, rest: seq<Move<N, J, M>>,
                           aggregate: (N, J) -> Result<M, string>) returns (ms: seq<Move<N, J, M>>)
    requires Possible(sys, m) && CanPlay(After(sys, m, aggregate), rest, aggregate)
    ensures CanPlay(sys, ms, aggregate) && Play(sys, ms, aggregate) == Play(After(sys, m, aggregate), rest, aggregate)
  {
    ms := [m] + rest;
    assert ms[1..] == rest;
  }

  /** Whenever two values can be aggregated, some run from scratch hands out their metrics. */
  lemma SnapshotSucceeds<N, J, M>(ttl: int, n: N, j: J, m: Sourced<M>, now: Time, nodes: N, jobs: J,
                                  aggregate: (N, J) -> Result<M, string>) returns (ms: seq<Move<N, J, M>>)
    requires aggregate(nodes, jobs).Ok?
    ensures var start := Start(ttl, n, j, m, now);
      && CanPlay(start, ms, aggregate)
      && var sys := Play(start, ms, aggregate);
      Answered(sys.outer, 0) && Ok(ReplyOf(sys.outer, 0).result.value.metrics) == aggregate(nodes, jobs)
  {
    var s0 := Start(ttl, n, j, m, now);
    EntersAndLoads(ttl, m, now);
    var s1 := s0.(outer := Next(s0.outer, Call(0)));
    var s2 := s0.(outer := Entered(ttl, m, now));
    ms := AfterEntering(s2, ttl, n, j, m, now, nodes, jobs, aggregate);
    hide Next, Entered, Init;
    ms := FirstMove(s1, Outer(Enter(0)), ms, aggregate);
    ms := FirstMove(s0, Outer(Call(0)), ms, aggregate);
  }

  lemma AfterEntering<N, J, M>(sys: System<N, J, M>, ttl: int, n: N, j: J, m: Sourced<M>, now: Time, nodes: N, jobs: J,
                               aggregate: (N, J) -> Result<M, string>) returns (ms: seq<Move<N, J, M>>)
    requires sys == System(Entered(ttl, m, now), Init(ttl, n, now), Init(ttl, j, now), map[])
    requires aggregate(nodes, jobs).Ok?
    ensures CanPlay(sys, ms, aggregate)
    ensures var sys' := Play(sys, ms, aggregate);
      Answered(sys'.outer, 0) && Ok(ReplyOf(sys'.outer, 0).result.value.metrics) == aggregate(nodes, jobs)
  {
    var published, left := LoadsAndLeaves(ttl, n, now, Loaded(nodes, None));
    EntersAndLoads(ttl, m, now);
    EntersAndLoads(ttl, n, now);
    var s1 := sys.(nodes := Next(sys.nodes, Call(0)), queries := map[0 := AskingNodes(0)]);
    var s2 := s1.(nodes := Entered(ttl, n, now));
    var s3 := s1.(nodes := Next(s2.nodes, Return(0, Loaded(nodes, None))));
    var s4 := s1.(nodes := published);
    var s5 := s1.(nodes := left);
    ms := AfterNodes(s5, ttl, j, m, now, nodes, jobs, aggregate);
    hide Next, Entered, Init, Enabled, Answered;
    ms := FirstMove(s4, Nodes(Leave(0)), ms, aggregate);
    ms := FirstMove(s3, Nodes(Publish(0)), ms, aggregate);
    ms := FirstMove(s2, Nodes(Return(0, Loaded(nodes, None))), ms, aggregate);
    ms := FirstMove(s1, Nodes(Enter(0)), ms, aggregate);
    ms := FirstMove(sys, AskNodes(0, 0), ms, aggregate);
  }

  lemma AfterNodes<N, J, M>(sys: System<N, J, M>, ttl: int, j: J, m: Sourced<M>, now: Time, nodes: N, jobs: J,
                            aggregate: (N, J) -> Result<M, string>) returns (ms: seq<Move<N, J, M>>)
    requires sys.outer == Entered(ttl, m, now) && sys.jobs == Init(ttl, j, now)
    requires sys.queries == map[0 := AskingNodes(0)]
    requires Answered(sys.nodes, 0) && ReplyOf(sys.nodes, 0).result == Loaded(nodes, None)
    requires aggregate(nodes, jobs).Ok?
    ensures CanPlay(sys, ms, aggregate)
    ensures var sys' := Play(sys, ms, aggregate);
      Answered(sys'.outer, 0) && Ok(ReplyOf(sys'.outer, 0).result.value.metrics) == aggregate(nodes, jobs)
  {
    var published, left := LoadsAndLeaves(ttl, j, now, Loaded(jobs, None));
    EntersAndLoads(ttl, j, now);
    var s1 := sys.(jobs := Next(sys.jobs, Call(0)), queries := map[0 := AskingJobs(0, 0)]);
    var s2 := s1.(jobs := Entered(ttl, j, now));
    var s3 := s1.(jobs := Next(s2.jobs, Return(0, Loaded(jobs, None))));
    var s4 := s1.(jobs := published);
    var s5 := s1.(jobs := left);
    assert Possible(sys, AskJobs(0, 0)) && sys.queries[0 := AskingJobs(0, 0)] == map[0 := AskingJobs(0, 0)];
    ms := AfterJobs(s5, ttl, m, now, nodes, jobs, aggregate);
    hide Next, Entered, Init, Enabled, Answered;
    ms := FirstMove(s4, Jobs(Leave(0)), ms, aggregate);
    ms := FirstMove(s3, Jobs(Publish(0)), ms, aggregate);
    ms := FirstMove(s2, Jobs(Return(0, Loaded(jobs, None))), ms, aggregate);
    ms := FirstMove(s1, Jobs(Enter(0)), ms, aggregate);
    ms := FirstMove(sys, AskJobs(0, 0), ms, aggregate);
  }

  lemma AfterJobs<N, J, M>(sys: System<N, J, M>, ttl: int, m: Sourced<M>, now: Time, nodes: N, jobs: J,
                           aggregate: (N, J) -> Result<M, string>) returns (ms: seq<Move<N, J, M>>)
    requires sys.outer == Entered(ttl, m, now) && sys.queries == map[0 := AskingJobs(0, 0)]
    requires Answered(sys.nodes, 0) && ReplyOf(sys.nodes, 0).result == Loaded(nodes, None)
    requires Answered(sys.jobs, 0) && ReplyOf(sys.jobs, 0).result == Loaded(jobs, None)
    requires aggregate(nodes, jobs).Ok?
    ensures CanPlay(sys, ms, aggregate)
    ensures var sys' := Play(sys, ms, aggregate);
      Answered(sys'.outer, 0) && Ok(ReplyOf(sys'.outer, 0).result.value.metrics) == aggregate(nodes, jobs)
  {
    EntersAndLoads(ttl, m, now);
    var r := Aggregated(sys, 0, aggregate);
    var published, left := LoadsAndLeaves(ttl, m, now, r);
    var s1 := After(sys, Aggregate(0), aggregate);
    var s2 := s1.(outer := published);
    var s3 := s1.(outer := left);
    hide Next, Entered, Init, Enabled, Aggregated;
    ms := [];
    ms := FirstMove(s2, Outer(Leave(0)), ms, aggregate);
    ms := FirstMove(s1, Outer(Publish(0)), ms, aggregate);
    ms := FirstMove(sys, Aggregate(0), ms, aggregate);
  }
}
