/**
 The four slots for reading job output (internal/web/job_output.go).  A handler takes a slot, and
 either gives it back itself or hands it to the goroutine that reads, which may outlive the handler.
 */
module OutputSlots {
  import opened Sets

  const SLOTS := 4

  type Request = nat

  datatype Handler =
    | Arrived
    | Owning                 // slotOwnedByHandler is true
    | Leaving                // about to run the deferred release
    | Waiting                // handed over; in the select on result and timeout
    | Finished

  datatype Reader = Reading | Delivered | Gone

  datatype State = State(
    tokens: nat,                       // the length of the channel
    handlers: map<Request, Handler>,
    readers: map<Request, Reader>,
    taken: seq<Request>,
    returned: seq<Request>)

  datatype Event =
    | Arrive(h: Request)
    | TryTake(h: Request)              // a full channel turns the request away
    | GiveUp(h: Request)               // lookup failed or access denied
    | Release(h: Request)
    | HandOver(h: Request)
    | StopWaiting(h: Request)          // result received, cancelled or timed out
    | Deliver(h: Request)
    | ReaderRelease(h: Request)

  const Empty := State(0, map[], map[], [], [])

  predicate Is(s: State, h: Request, p: Handler) {
    h in s.handlers && s.handlers[h] == p
  }

  predicate ReaderIs(s: State, h: Request, p: Reader) {
    h in s.readers && s.readers[h] == p
  }

  /** A release receives from the channel, so it waits for a token to be there. */
  predicate Enabled(s: State, e: Event) {
    match e
    case Arrive(h) => h !in s.handlers && h !in s.readers
    case TryTake(h) => Is(s, h, Arrived)
    case GiveUp(h) => Is(s, h, Owning)
    case Release(h) => Is(s, h, Leaving) && s.tokens > 0
    case HandOver(h) => Is(s, h, Owning)
    case StopWaiting(h) => Is(s, h, Waiting)
    case Deliver(h) => ReaderIs(s, h, Reading)
    case ReaderRelease(h) => ReaderIs(s, h, Delivered) && s.tokens > 0
  }

  function Next(s: State, e: Event): State
    requires Enabled(s, e)
  {
    match e
    case Arrive(h) => s.(handlers := s.handlers[h := Arrived])
    case TryTake(h) =>
      if s.tokens < SLOTS then s.(tokens := s.tokens + 1, handlers := s.handlers[h := Owning], taken := s.taken + [h])
      else s.(handlers := s.handlers[h := Finished])
    case GiveUp(h) => s.(handlers := s.handlers[h := Leaving])
    case Release(h) => s.(tokens := s.tokens - 1, handlers := s.handlers[h := Finished], returned := s.returned + [h])
    case HandOver(h) => s.(handlers := s.handlers[h := Waiting], readers := s.readers[h := Reading])
    case StopWaiting(h) => s.(handlers := s.handlers[h := Finished])
    case Deliver(h) => s.(readers := s.readers[h := Delivered])
    case ReaderRelease(h) => s.(tokens := s.tokens - 1, readers := s.readers[h := Gone], returned := s.returned + [h])
  }

  predicate CanRun(s: State, es: seq<Event>)
    decreases |es|
  {
    es == [] || (Enabled(s, es[0]) && CanRun(Next(s, es[0]), es[1..]))
  }

  function Run(s: State, es: seq<Event>): State
    requires CanRun(s, es)
    decreases |es|
  {
    if es == [] then s else Run(Next(s, es[0]), es[1..])
  }

  // ---------------------------------------------------------------------------------------

  predicate Owner(s: State, h: Request) {
    Is(s, h, Owning) || Is(s, h, Leaving)
  }

  predicate Active(s: State, h: Request) {
    ReaderIs(s, h, Reading) || ReaderIs(s, h, Delivered)
  }

  function Owners(s: State): set<Request> {
    set h | h in s.handlers && Owner(s, h)
  }

  function ActiveReaders(s: State): set<Request> {
    set h | h in s.readers && Active(s, h)
  }

  /** The requests whose token has been taken and not returned. */
  predicate Holds(s: State, h: Request) {
    h in s.taken && h !in s.returned
  }

  ghost predicate Booked(s: State, h: Request) {
    && (Holds(s, h) <==> Owner(s, h) || Active(s, h))
    && !(Owner(s, h) && Active(s, h))
    && (h in s.returned ==> h in s.taken)
    && (h in s.taken ==> h in s.handlers && !Is(s, h, Arrived))
    && (h in s.readers ==> h in s.taken)
  }

  ghost predicate Ledger(s: State) {
    && (forall h :: Booked(s, h))
    && (forall i, j | 0 <= i < j < |s.taken| :: s.taken[i] != s.taken[j])
    && (forall i, j | 0 <= i < j < |s.returned| :: s.returned[i] != s.returned[j])
  }

  ghost predicate Counted(s: State) {
    s.tokens == |Owners(s)| + |ActiveReaders(s)| <= SLOTS
  }

  ghost predicate Inv(s: State) {
    Ledger(s) && Counted(s)
  }

  lemma BookedKept(s: State, e: Event, h: Request)
    requires Booked(s, h) && Booked(s, e.h) && Enabled(s, e)
    ensures Booked(Next(s, e), h)
  {
  }

  lemma LedgerKept(s: State, e: Event)
    requires Ledger(s) && Enabled(s, e)
    ensures Ledger(Next(s, e))
  {
    var s' := Next(s, e);
    assert Booked(s, e.h);
    forall h ensures Booked(s', h) {
      BookedKept(s, e, h);
    }
  }

  /** How an event moves its own request, and no other, between owners and readers. */
  lemma SetsAfter(s: State, e: Event)
    requires Ledger(s) && Enabled(s, e)
    ensures e.h !in Owners(s) || e.h !in ActiveReaders(s)
    ensures var s' := Next(s, e);
      && (e.TryTake? && s.tokens < SLOTS ==> e.h !in Owners(s) && Owners(s') == Owners(s) + {e.h})
      && (e.Release? || e.HandOver? ==> e.h in Owners(s) && Owners(s') == Owners(s) - {e.h})
      && (!(e.TryTake? && s.tokens < SLOTS) && !e.Release? && !e.HandOver? ==> Owners(s') == Owners(s))
      && (e.HandOver? ==> e.h !in ActiveReaders(s) && ActiveReaders(s') == ActiveReaders(s) + {e.h})
      && (e.ReaderRelease? ==> e.h in ActiveReaders(s) && ActiveReaders(s') == ActiveReaders(s) - {e.h})
      && (!e.HandOver? && !e.ReaderRelease? ==> ActiveReaders(s') == ActiveReaders(s))
  {
    assert Booked(s, e.h);
    hide Ledger;
  }

  lemma CountKept(s: State, e: Event)
    requires Ledger(s) && Counted(s) && Enabled(s, e)
    ensures Counted(Next(s, e))
  {
    SetsAfter(s, e);
    hide Ledger, Owners, ActiveReaders;
  }

  lemma {:induction false} RunKeeps(s: State, es: seq<Event>)
    requires Inv(s) && CanRun(s, es)
    ensures Inv(Run(s, es))
    decreases |es|
  {
    if es != [] {
      LedgerKept(s, es[0]);
      CountKept(s, es[0]);
      RunKeeps(Next(s, es[0]), es[1..]);
    }
  }

  ghost predicate Reachable(s: State) {
    exists es :: CanRun(Empty, es) && s == Run(Empty, es)
  }

  lemma ReachableInv(s: State)
    requires Reachable(s)
    ensures Inv(s)
  {
    var es :| CanRun(Empty, es) && s == Run(Empty, es);
    RunKeeps(Empty, es);
  }

  // ---------------------------------------------------------------------------------------
  // What every interleaving guarantees.

  /** Tokens in use are the slots owned by handlers plus the readers still at work, never more than
      four, also while readers outlive their handlers; and no release ever blocks. */
  lemma SlotsAreConserved(s: State)
    requires Reachable(s)
    ensures s.tokens == |Owners(s)| + |ActiveReaders(s)| <= SLOTS
    ensures Owners(s) !! ActiveReaders(s)
    ensures forall h | Is(s, h, Leaving) :: Enabled(s, Release(h))
    ensures forall h | ReaderIs(s, h, Delivered) :: Enabled(s, ReaderRelease(h))
  {
    ReachableInv(s);
    forall h ensures !(h in Owners(s) && h in ActiveReaders(s)) {
      assert Booked(s, h);
    }
    forall h | Is(s, h, Leaving) ensures Enabled(s, Release(h)) {
      assert h in Owners(s);
    }
    forall h | ReaderIs(s, h, Delivered) ensures Enabled(s, ReaderRelease(h)) {
      assert h in ActiveReaders(s);
    }
  }

  /** A request that asks for a slot gets one exactly when fewer than four are owned by handlers or readers. */
  lemma SlotIsGivenExactly(s: State, h: Request)
    requires Reachable(s) && Enabled(s, TryTake(h))
    ensures var s' := Next(s, TryTake(h));
      if |Owners(s)| + |ActiveReaders(s)| < 4 then Is(s', h, Owning) && s'.taken == s.taken + [h]
      else Is(s', h, Finished) && s'.taken == s.taken
  {
    ReachableInv(s);
  }

  /** A token taken is held by exactly one side until it is returned, once. */
  lemma EachTokenReturnsOnce(s: State, h: Request)
    requires Reachable(s) && h in s.taken
    ensures multiset(s.taken)[h] == 1 && multiset(s.returned)[h] <= 1
    ensures multiset(s.returned)[h] == 0 <==> (Owner(s, h) || Active(s, h))
    ensures !(Owner(s, h) && Active(s, h))
  {
    ReachableInv(s);
    OccursOnce(s.taken, h);
    OccursOnce(s.returned, h);
    assert Booked(s, h);
  }

  /** When all requests and readers are done the slots are all free again. */
  lemma AllSlotsComeBack(s: State)
    requires Reachable(s)
    requires forall h | h in s.handlers :: s.handlers[h] == Finished
    requires forall h | h in s.readers :: s.readers[h] == Gone
    ensures s.tokens == 0 && multiset(s.returned) == multiset(s.taken)
  {
    ReachableInv(s);
    assert Owners(s) == {} && ActiveReaders(s) == {};
    forall h ensures multiset(s.returned)[h] == multiset(s.taken)[h] {
      OccursOnce(s.taken, h);
      OccursOnce(s.returned, h);
      assert Booked(s, h);
    }
  }
}
