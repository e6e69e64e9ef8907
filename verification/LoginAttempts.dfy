/**
 The login rate limiter of internal/web/app.go: a map from client keys to attempt windows, pruned
 and bounded on every grant.  Times are nanoseconds; the clock is read by the caller.
 */
module LoginAttempts {
  import opened Wrappers
  import opened Sets

  const WINDOW: int := 15 * 60 * 1_000_000_000
  const GRANTS_PER_WINDOW := 5
  const CAPACITY := 4096

  type Key = string
  type Store = map<Key, Attempt>
  datatype Attempt = Attempt(count: nat, start: int)

  predicate Open(a: Attempt, now: int) {
    now - a.start < WINDOW
  }

  /** The window that a reservation at `now` counts against. */
  function Current(m: Store, key: Key, now: int): Attempt {
    if key in m && Open(m[key], now) then m[key] else Attempt(0, now)
  }

  function Pruned(m: Store, now: int): Store {
    map k | k in m && Open(m[k], now) :: m[k]
  }

  function Renewed(m: Store, key: Key, now: int): Store {
    var c := Current(m, key, now);
    Pruned(m, now)[key := Attempt(c.count + 1, c.start)]
  }

  /** The key removed from a store that grew too large: an oldest one among the others, unless
      every other window lies in the future, when it is the reserving key itself. */
  ghost predicate Victim(u: Store, key: Key, now: int, v: Key) {
    && v in u
    && (v == key <==> forall k | k in u && k != key :: now < u[k].start)
    && (v != key ==> forall k | k in u && k != key :: u[v].start <= u[k].start)
  }

  ghost predicate Reserved(m: Store, key: Key, now: int, granted: bool, m': Store) {
    && granted == (Current(m, key, now).count < GRANTS_PER_WINDOW)
    && (!granted ==> m' == m)
    && (granted ==>
          var u := Renewed(m, key, now);
          if |u| <= CAPACITY then m' == u else exists v :: Victim(u, key, now, v) && m' == u - {v})
  }

  class LoginAttemptStore {
    var attempts: Store

    constructor ()
      ensures attempts == map[]
    {
      attempts := map[];
    }

    method Reserve(key: Key, now: int) returns (granted: bool)
      modifies this
      ensures Reserved(old(attempts), key, now, granted, attempts)
    {
      hide Victim, Pruned;
      var current := Attempt(0, now);
      if key in attempts && now - attempts[key].start < WINDOW {
        current := attempts[key];
      }
      if current.count >= GRANTS_PER_WINDOW {
        return false;
      }
      var updated := Prune(attempts, now);
      updated := updated[key := Attempt(current.count + 1, current.start)];
      assert updated == Renewed(attempts, key, now);
      if |updated| > CAPACITY {
        var oldest := FindOldest(updated, key, now);
        updated := updated - {oldest};
      }
      attempts := updated;
      return true;
    }

    method Reset(key: Key)
      modifies this
      ensures attempts == old(attempts) - {key}
    {
      var updated: Store := map[];
      var rest := attempts.Keys;
      while rest != {}
        invariant rest <= attempts.Keys
        invariant updated == map k | k in attempts && k !in rest && k != key :: attempts[k]
        decreases rest
      {
        var k :| k in rest;
        rest := rest - {k};
        if k != key {
          updated := updated[k := attempts[k]];
        }
      }
      attempts := updated;
    }
  }

  /** The scan that drops the windows that are over. */
  method Prune(attempts: Store, now: int) returns (updated: Store)
    ensures updated == Pruned(attempts, now)
  {
    updated := map[];
    var rest := attempts.Keys;
    while rest != {}
      invariant rest <= attempts.Keys
      invariant updated == map k | k in attempts && k !in rest && Open(attempts[k], now) :: attempts[k]
      decreases rest
    {
      var k :| k in rest;
      rest := rest - {k};
      if now - attempts[k].start < WINDOW {
        updated := updated[k := attempts[k]];
      }
    }
  }

  /** The scan for the key to evict, over the map in any order. */
  method FindOldest(u: Store, key: Key, now: int) returns (oldest: Key)
    requires key in u
    ensures Victim(u, key, now, oldest)
  {
    oldest := key;
    var oldestTime := now;
    var rest := u.Keys;
    while rest != {}
      invariant rest <= u.Keys && oldest in u
      invariant oldest == key ==> oldestTime == now
      invariant oldest != key ==> oldestTime == u[oldest].start <= now
      invariant forall k | k in u && k !in rest && k != key :: oldestTime <= u[k].start
      invariant oldest == key ==> forall k | k in u && k !in rest && k != key :: now < u[k].start
      decreases rest
    {
      var k :| k in rest;
      rest := rest - {k};
      if k != key && u[k].start <= oldestTime {
        oldest, oldestTime := k, u[k].start;
      }
    }
  }

  // ---------------------------------------------------------------------------------------
  // Runs of the store.

  datatype Op = Reserve(key: Key, now: int) | Reset(key: Key)

  datatype Entry = Entry(op: Op, granted: bool, after: Store)

  ghost predicate StepOf(before: Store, e: Entry) {
    match e.op
    case Reserve(key, now) => Reserved(before, key, now, e.granted, e.after)
    case Reset(key) => e.after == before - {key}
  }

  function Before(log: seq<Entry>, i: nat): Store
    requires i <= |log|
  {
    if i == 0 then map[] else log[i - 1].after
  }

  ghost predicate LogStep(log: seq<Entry>, i: nat)
    requires i < |log|
  {
    StepOf(Before(log, i), log[i])
  }

  ghost predicate IsLog(log: seq<Entry>) {
    forall i: nat | i < |log| :: LogStep(log, i)
  }

  predicate Timely(log: seq<Entry>) {
    forall i, j | 0 <= i < j < |log| && log[i].op.Reserve? && log[j].op.Reserve? :: log[i].op.now <= log[j].op.now
  }

  lemma RenewedGrowsByOne(m: Store, key: Key, now: int)
    ensures |Renewed(m, key, now)| <= |m| + 1
    ensures key in m ==> |Renewed(m, key, now)| <= |m|
  {
    SubsetSize(Renewed(m, key, now).Keys, m.Keys + {key});
  }

  lemma ReservedIsBounded(m: Store, key: Key, now: int, granted: bool, m': Store)
    requires Reserved(m, key, now, granted, m') && |m| <= CAPACITY
    ensures |m'| <= CAPACITY
  {
    RenewedGrowsByOne(m, key, now);
    hide Renewed;
  }

  /** The store never holds more than its capacity. */
  lemma {:induction false} StoreIsBounded(log: seq<Entry>, i: nat)
    requires IsLog(log) && i <= |log|
    ensures |Before(log, i)| <= CAPACITY
  {
    hide Reserved;
    if i > 0 {
      StoreIsBounded(log, i - 1);
      var e, m := log[i - 1], Before(log, i - 1);
      assert LogStep(log, i - 1);
      match e.op
      case Reserve(key, now) => ReservedIsBounded(m, key, now, e.granted, e.after);
      case Reset(key) => SubsetSize((m - {key}).Keys, m.Keys);
    }
  }

  lemma ReservedStarts(m: Store, key: Key, now: int, granted: bool, m': Store)
    requires Reserved(m, key, now, granted, m')
    ensures forall k | k in m' :: (k in m && m'[k].start == m[k].start) || (k == key && m'[k].start == now)
  {
  }

  lemma {:induction false} StartsArePast(log: seq<Entry>, i: nat, now: int)
    requires IsLog(log) && i <= |log|
    requires forall j | 0 <= j < i && log[j].op.Reserve? :: log[j].op.now <= now
    ensures forall k | k in Before(log, i) :: Before(log, i)[k].start <= now
  {
    hide Reserved;
    if i > 0 {
      StartsArePast(log, i - 1, now);
      var e, m := log[i - 1], Before(log, i - 1);
      assert LogStep(log, i - 1);
      if e.op.Reserve? {
        ReservedStarts(m, e.op.key, e.op.now, e.granted, e.after);
      }
    }
  }

  /** With a clock that never goes back, an eviction removes a key whose window is oldest in the
      whole store, and never the key being reserved. */
  lemma EvictionTakesAnOldest(log: seq<Entry>, i: nat, v: Key)
    requires IsLog(log) && Timely(log) && i < |log| && log[i].op.Reserve? && log[i].granted
    requires v in Renewed(Before(log, i), log[i].op.key, log[i].op.now) && v !in log[i].after
    ensures v != log[i].op.key
    ensures var u := Renewed(Before(log, i), log[i].op.key, log[i].op.now);
      && log[i].after == u - {v}
      && forall k | k in u :: u[v].start <= u[k].start
  {
    var m, key, now := Before(log, i), log[i].op.key, log[i].op.now;
    assert LogStep(log, i);
    StartsArePast(log, i, now);
    StoreIsBounded(log, i);
    RenewedGrowsByOne(m, key, now);
    var u := Renewed(m, key, now);
    assert key !in m;
    var others := u.Keys - {key};
    assert |others| == |u| - 1;
    var other :| other in others;
    assert u[other].start <= now;
  }

  // ---------------------------------------------------------------------------------------
  // The same decisions as a limiter that forgets nothing.

  predicate Of(e: Entry, k: Key) {
    e.op.Reserve? && e.op.key == k
  }

  /** A limiter for the single key `k` that neither prunes nor evicts. */
  function Reference(log: seq<Entry>, k: Key, n: nat): Option<Attempt>
    requires n <= |log|
  {
    if n == 0 then None
    else
      var r := Reference(log, k, n - 1);
      if !Of(log[n - 1], k) then r
      else if r.None? || !Open(r.value, log[n - 1].op.now) then Some(Attempt(1, log[n - 1].op.now))
      else if r.value.count < GRANTS_PER_WINDOW then Some(Attempt(r.value.count + 1, r.value.start))
      else r
  }

  predicate ReferenceGrants(log: seq<Entry>, k: Key, i: nat)
    requires i < |log| && log[i].op.Reserve?
  {
    var r := Reference(log, k, i);
    r.None? || !Open(r.value, log[i].op.now) || r.value.count < GRANTS_PER_WINDOW
  }

  predicate Evicted(log: seq<Entry>, i: nat, k: Key)
    requires i < |log|
  {
    && log[i].op.Reserve? && log[i].granted
    && k in Renewed(Before(log, i), log[i].op.key, log[i].op.now) && k !in log[i].after
  }

  /** The key is neither reset nor evicted. */
  predicate Undisturbed(log: seq<Entry>, k: Key) {
    forall i | 0 <= i < |log| :: log[i].op != Reset(k) && !Evicted(log, i, k)
  }

  predicate ExpiredBy(log: seq<Entry>, n: nat, a: Attempt)
    requires n <= |log|
  {
    exists j :: 0 <= j < n && log[j].op.Reserve? && !Open(a, log[j].op.now)
  }

  /** The store agrees with the reference, except that it may have forgotten a window that is over. */
  ghost predicate Agrees(log: seq<Entry>, k: Key, n: nat)
    requires n <= |log|
  {
    var m, r := Before(log, n), Reference(log, k, n);
    if k in m then r == Some(m[k]) else r.None? || ExpiredBy(log, n, r.value)
  }

  /** What a reservation does to the entry of any one key that it does not evict. */
  lemma ReservedEntry(m: Store, key: Key, now: int, granted: bool, m': Store, k: Key)
    requires Reserved(m, key, now, granted, m')
    requires granted && k in Renewed(m, key, now) ==> k in m'
    ensures granted <==> Current(m, key, now).count < GRANTS_PER_WINDOW
    ensures granted && k == key ==>
      k in m' && m'[k] == Attempt(Current(m, key, now).count + 1, Current(m, key, now).start)
    ensures granted && k != key ==> (k in m' <==> k in m && Open(m[k], now)) && (k in m' ==> m'[k] == m[k])
    ensures !granted ==> m' == m
  {
  }

  lemma ExpiredStays(log: seq<Entry>, n: nat, a: Attempt)
    requires n < |log| && Timely(log)
    requires ExpiredBy(log, n, a) || (log[n].op.Reserve? && !Open(a, log[n].op.now))
    ensures ExpiredBy(log, n + 1, a) && (log[n].op.Reserve? ==> !Open(a, log[n].op.now))
  {
  }

  lemma StoreAgreesStep(log: seq<Entry>, k: Key, n: nat)
    requires IsLog(log) && Timely(log) && Undisturbed(log, k) && n < |log| && Agrees(log, k, n)
    ensures Agrees(log, k, n + 1)
    ensures Of(log[n], k) ==> log[n].granted == ReferenceGrants(log, k, n)
  {
    var e, m := log[n], Before(log, n);
    assert LogStep(log, n) && !Evicted(log, n, k) && e.op != Reset(k);
    var r := Reference(log, k, n);
    if e.op.Reserve? {
      ReservedEntry(m, e.op.key, e.op.now, e.granted, e.after, k);
    }
    hide IsLog, Timely, Undisturbed, Reserved, ExpiredBy, Renewed;
    if r.Some? && (ExpiredBy(log, n, r.value) || (e.op.Reserve? && !Open(r.value, e.op.now))) {
      ExpiredStays(log, n, r.value);
    }
  }

  lemma {:induction false} StoreAgrees(log: seq<Entry>, k: Key, n: nat)
    requires IsLog(log) && Timely(log) && Undisturbed(log, k) && n <= |log|
    ensures Agrees(log, k, n)
  {
    if n > 0 {
      hide IsLog, Timely, Undisturbed;
      StoreAgrees(log, k, n - 1);
      StoreAgreesStep(log, k, n - 1);
    }
  }

  /** Pruning is invisible: an undisturbed key is granted exactly what the reference grants it. */
  lemma PruningDecidesAlike(log: seq<Entry>, k: Key, i: nat)
    requires IsLog(log) && Timely(log) && Undisturbed(log, k) && i < |log| && Of(log[i], k)
    ensures log[i].granted == ReferenceGrants(log, k, i)
  {
    StoreAgrees(log, k, i);
    StoreAgreesStep(log, k, i);
  }

  // ---------------------------------------------------------------------------------------
  // How many attempts get through.

  /** A granted attempt and the start of the window it was counted in. */
  datatype Grant = Grant(at: int, start: int)

  /** The grants of `k` among the first `n` entries, oldest first. */
  function Granted(log: seq<Entry>, k: Key, n: nat): seq<Grant>
    requires n <= |log|
  {
    if n == 0 then []
    else if Of(log[n - 1], k) && log[n - 1].granted then
      Granted(log, k, n - 1) +
      [Grant(log[n - 1].op.now, if k in log[n - 1].after then log[n - 1].after[k].start else log[n - 1].op.now)]
    else Granted(log, k, n - 1)
  }

  ghost predicate InTheirWindows(g: seq<Grant>) {
    forall i | 0 <= i < |g| :: g[i].start <= g[i].at < g[i].start + WINDOW
  }

  ghost predicate Successive(g: seq<Grant>) {
    forall i, j | 0 <= i < j < |g| ::
      g[i].at <= g[j].at && (g[i].start == g[j].start || g[i].start + WINDOW <= g[j].start)
  }

  /** Grant i is the first one of its window. */
  predicate Begins(g: seq<Grant>, i: int) {
    0 <= i < |g| && (i == 0 || g[i - 1].start != g[i].start)
  }

  ghost predicate OpenedByTheirFirst(g: seq<Grant>) {
    forall i | Begins(g, i) :: g[i].at == g[i].start
  }

  ghost predicate FiveEach(g: seq<Grant>) {
    forall i, j | 0 <= i && i + GRANTS_PER_WINDOW <= j < |g| :: g[i].start != g[j].start
  }

  ghost predicate Windowed(g: seq<Grant>) {
    InTheirWindows(g) && Successive(g) && OpenedByTheirFirst(g) && FiveEach(g)
  }

  /** The grants so far are those the current window of the reference accounts for. */
  ghost predicate Counted(g: seq<Grant>, r: Option<Attempt>) {
    match r
    case None => g == []
    case Some(a) =>
      && 1 <= a.count <= GRANTS_PER_WINDOW && a.count <= |g|
      && (forall i | |g| - a.count <= i < |g| :: g[i].start == a.start)
      && (forall i | 0 <= i < |g| - a.count :: g[i].start + WINDOW <= a.start)
  }

  /** The window that a grant is counted in, when `r` is the window so far. */
  predicate CountedIn(r: Option<Attempt>, now: int, r': Attempt) {
    if r.None? || !Open(r.value, now) then r' == Attempt(1, now)
    else r.value.count < GRANTS_PER_WINDOW && r' == Attempt(r.value.count + 1, r.value.start)
  }

  lemma AppendGrant(g: seq<Grant>, r: Option<Attempt>, now: int, r': Attempt)
    requires Windowed(g) && Counted(g, r) && CountedIn(r, now, r')
    requires forall i | 0 <= i < |g| :: g[i].at <= now
    ensures Windowed(g + [Grant(now, r'.start)]) && Counted(g + [Grant(now, r'.start)], Some(r'))
  {
    if r.Some? { LastIsCounted(g, r.value); }
    AppendCounted(g, r, now, r');
    hide Windowed, Counted;
    AppendWindowed(g, r, now, r');
  }

  lemma LastIsCounted(g: seq<Grant>, a: Attempt)
    requires Counted(g, Some(a))
    ensures g != [] && g[|g| - 1].start == a.start
    ensures a.count < GRANTS_PER_WINDOW && |g| >= GRANTS_PER_WINDOW ==> g[|g| - GRANTS_PER_WINDOW].start != a.start
  {
  }

  lemma AppendCounted(g: seq<Grant>, r: Option<Attempt>, now: int, r': Attempt)
    requires Counted(g, r) && CountedIn(r, now, r')
    ensures Counted(g + [Grant(now, r'.start)], Some(r'))
  {
  }

  lemma AppendWindowed(g: seq<Grant>, r: Option<Attempt>, now: int, r': Attempt)
    requires Windowed(g) && CountedIn(r, now, r') && forall i | 0 <= i < |g| :: g[i].at <= now
    requires r.None? ==> g == []
    requires r.Some? ==> g != [] && g[|g| - 1].start == r.value.start
    requires r.Some? && r.value.count < GRANTS_PER_WINDOW && |g| >= GRANTS_PER_WINDOW ==>
      g[|g| - GRANTS_PER_WINDOW].start != r.value.start
    ensures Windowed(g + [Grant(now, r'.start)])
  {
    AppendSuccessive(g, r, now, r');
    AppendFive(g, r, now, r');
    AppendInside(g, r, now, r');
    AppendOpened(g, r, now, r');
  }

  lemma AppendInside(g: seq<Grant>, r: Option<Attempt>, now: int, r': Attempt)
    requires InTheirWindows(g) && CountedIn(r, now, r') && forall i | 0 <= i < |g| :: g[i].at <= now
    requires r.Some? ==> g != [] && g[|g| - 1].start == r.value.start
    ensures InTheirWindows(g + [Grant(now, r'.start)])
  {
    var g' := g + [Grant(now, r'.start)];
    forall i | 0 <= i < |g'| ensures g'[i].start <= g'[i].at < g'[i].start + WINDOW {
      if i < |g| {
        assert g'[i] == g[i];
      } else if r.Some? {
        assert g[|g| - 1].start <= g[|g| - 1].at <= now;
      }
    }
  }

  lemma AppendOpened(g: seq<Grant>, r: Option<Attempt>, now: int, r': Attempt)
    requires OpenedByTheirFirst(g) && CountedIn(r, now, r')
    requires r.Some? ==> g != [] && g[|g| - 1].start == r.value.start
    ensures OpenedByTheirFirst(g + [Grant(now, r'.start)])
  {
    var g' := g + [Grant(now, r'.start)];
    forall i | Begins(g', i) ensures g'[i].at == g'[i].start {
      if i > 0 { assert g'[i - 1] == g[i - 1]; }
      if i < |g| {
        assert g'[i] == g[i] && Begins(g, i);
      }
    }
  }

  lemma AppendSuccessive(g: seq<Grant>, r: Option<Attempt>, now: int, r': Attempt)
    requires Successive(g) && CountedIn(r, now, r') && forall i | 0 <= i < |g| :: g[i].at <= now
    requires r.None? ==> g == []
    requires r.Some? ==> g != [] && g[|g| - 1].start == r.value.start
    ensures Successive(g + [Grant(now, r'.start)])
  {
    var g' := g + [Grant(now, r'.start)];
    forall i, j | 0 <= i < j < |g'|
      ensures g'[i].at <= g'[j].at && (g'[i].start == g'[j].start || g'[i].start + WINDOW <= g'[j].start)
    {
      assert g'[i] == g[i];
      if j < |g| {
        assert g'[j] == g[j];
      } else if i < |g| - 1 {
        assert g[i].start == g[|g| - 1].start || g[i].start + WINDOW <= g[|g| - 1].start;
      }
    }
  }

  lemma AppendFive(g: seq<Grant>, r: Option<Attempt>, now: int, r': Attempt)
    requires Successive(g) && FiveEach(g) && CountedIn(r, now, r')
    requires r.None? ==> g == []
    requires r.Some? ==> g != [] && g[|g| - 1].start == r.value.start
    requires r.Some? && r.value.count < GRANTS_PER_WINDOW && |g| >= GRANTS_PER_WINDOW ==>
      g[|g| - GRANTS_PER_WINDOW].start != r.value.start
    ensures FiveEach(g + [Grant(now, r'.start)])
  {
    var g' := g + [Grant(now, r'.start)];
    forall i, j | 0 <= i && i + GRANTS_PER_WINDOW <= j < |g'| ensures g'[i].start != g'[j].start {
      assert g'[i] == g[i];
      if j < |g| {
        assert g'[j] == g[j];
      } else {
        assert i < |g| - 1 ==> g[i].start == g[|g| - 1].start || g[i].start + WINDOW <= g[|g| - 1].start;
        var m := |g| - GRANTS_PER_WINDOW;
        assert i < m ==> g[i].start == g[m].start || g[i].start + WINDOW <= g[m].start;
        assert g[m].start == g[|g| - 1].start || g[m].start + WINDOW <= g[|g| - 1].start;
      }
    }
  }

  /** What entry `n` does to the reference. */
  lemma ReferenceStep(log: seq<Entry>, k: Key, n: nat)
    requires IsLog(log) && Timely(log) && Undisturbed(log, k) && n < |log| && Of(log[n], k)
    ensures log[n].granted ==>
      && k in log[n].after && Reference(log, k, n + 1) == Some(log[n].after[k])
      && CountedIn(Reference(log, k, n), log[n].op.now, log[n].after[k])
    ensures !log[n].granted ==> Reference(log, k, n + 1) == Reference(log, k, n)
  {
    assert log[n].granted ==> k in log[n].after by {
      hide Open;
      assert !Evicted(log, n, k) && LogStep(log, n);
    }
    StoreAgrees(log, k, n + 1);
    PruningDecidesAlike(log, k, n);
    assert Before(log, n + 1) == log[n].after;
    hide IsLog, Timely, Undisturbed, ExpiredBy;
  }

  lemma TimesArePast(log: seq<Entry>, k: Key, n: nat)
    requires Timely(log) && n < |log| && Of(log[n], k)
    ensures forall j | 0 <= j < n && Of(log[j], k) :: log[j].op.now <= log[n].op.now
  {
  }

  lemma {:induction false} GrantsArePast(log: seq<Entry>, k: Key, n: nat, t: int)
    requires n <= |log| && forall j | 0 <= j < n && Of(log[j], k) :: log[j].op.now <= t
    ensures forall i | 0 <= i < |Granted(log, k, n)| :: Granted(log, k, n)[i].at <= t
  {
    if n > 0 {
      GrantsArePast(log, k, n - 1, t);
    }
  }

  lemma WindowedStep(log: seq<Entry>, k: Key, n: nat)
    requires IsLog(log) && Timely(log) && Undisturbed(log, k) && n < |log|
    requires Windowed(Granted(log, k, n)) && Counted(Granted(log, k, n), Reference(log, k, n))
    ensures Windowed(Granted(log, k, n + 1)) && Counted(Granted(log, k, n + 1), Reference(log, k, n + 1))
  {
    if Of(log[n], k) {
      ReferenceStep(log, k, n);
      TimesArePast(log, k, n);
      hide IsLog, Timely, Undisturbed, Windowed, Counted, CountedIn, Of, Reference;
      if log[n].granted {
        var now, r' := log[n].op.now, log[n].after[k];
        GrantsArePast(log, k, n, now);
        assert Granted(log, k, n + 1) == Granted(log, k, n) + [Grant(now, r'.start)];
        hide Granted;
        AppendGrant(Granted(log, k, n), Reference(log, k, n), now, r');
      }
    }
  }

  lemma {:induction false} GrantsAreWindowed(log: seq<Entry>, k: Key, n: nat)
    requires IsLog(log) && Timely(log) && Undisturbed(log, k) && n <= |log|
    ensures Windowed(Granted(log, k, n)) && Counted(Granted(log, k, n), Reference(log, k, n))
  {
    hide *;
    if n > 0 {
      GrantsAreWindowed(log, k, n - 1);
      WindowedStep(log, k, n - 1);
    } else {
      NothingGranted(log, k);
    }
  }

  lemma NothingGranted(log: seq<Entry>, k: Key)
    ensures Windowed(Granted(log, k, 0)) && Counted(Granted(log, k, 0), Reference(log, k, 0))
  {
  }

  /** The grants of one fixed window, and those inside the span that starts at `a`. */
  ghost function InWindow(g: seq<Grant>, start: int): set<int> {
    set i | 0 <= i < |g| && g[i].start == start
  }

  ghost function InSpan(g: seq<Grant>, a: int): set<int> {
    set i | 0 <= i < |g| && a <= g[i].at < a + WINDOW
  }

  lemma WindowsApart(g: seq<Grant>, i: int, j: int)
    requires Windowed(g) && 0 <= i < |g| && 0 <= j < |g|
    ensures g[i].start < g[j].start ==> g[i].start + WINDOW <= g[j].start
    ensures i <= j ==> g[i].start <= g[j].start
  {
  }

  lemma FiveInAWindow(g: seq<Grant>, start: int)
    requires Windowed(g)
    ensures |InWindow(g, start)| <= GRANTS_PER_WINDOW
  {
    if InWindow(g, start) != {} {
      var lo := Least(InWindow(g, start));
      SubsetSize(InWindow(g, start), Range(lo, GRANTS_PER_WINDOW));
    }
  }

  /** The grants that the window begun at `w` gives from `a` on, and those it gives before the span
      that starts at `a` is over. */
  ghost function Late(g: seq<Grant>, w: int, a: int): set<int> {
    set i | 0 <= i < |g| && g[i].start == w && a <= g[i].at
  }

  ghost function Early(g: seq<Grant>, w: int, a: int): set<int> {
    set i | 0 <= i < |g| && g[i].start == w && g[i].at < a + WINDOW
  }

  /** The number of grants in a span is exactly the late grants of one window begun before it and the
      early grants of one begun no earlier than it: at most four and five.  No other two windows
      give more. */
  lemma SpanCount(log: seq<Entry>, k: Key, a: int)
    requires IsLog(log) && Timely(log) && Undisturbed(log, k)
    ensures var g := Granted(log, k, |log|);
      exists w, v :: w < a <= v && |InSpan(g, a)| == |Late(g, w, a)| + |Early(g, v, a)|
        && |Late(g, w, a)| < GRANTS_PER_WINDOW && |Early(g, v, a)| <= GRANTS_PER_WINDOW
    ensures var g := Granted(log, k, |log|);
      forall w, v | w < a <= v :: |Late(g, w, a)| + |Early(g, v, a)| <= |InSpan(g, a)|
  {
    GrantsAreWindowed(log, k, |log|);
    var g := Granted(log, k, |log|);
    hide IsLog, Timely, Undisturbed, Granted;
    var w, v := WindowsOf(g, a);
    FewLate(g, w, a);
    FewEarly(g, v, a);
    assert |InSpan(g, a)| == |Late(g, w, a)| + |Early(g, v, a)| by {
      assert Late(g, w, a) * Early(g, v, a) == {};
    }
    forall w, v | w < a <= v ensures |Late(g, w, a)| + |Early(g, v, a)| <= |InSpan(g, a)| {
      PartsFit(g, w, v, a);
    }
  }

  /** The two windows that a span can see. */
  lemma WindowsOf(g: seq<Grant>, a: int) returns (w: int, v: int)
    requires Windowed(g)
    ensures w < a <= v && InSpan(g, a) == Late(g, w, a) + Early(g, v, a)
  {
    w := BegunBefore(g, a);
    v := BegunInside(g, a);
    assert InTheirWindows(g);
    hide Windowed, Successive;
  }

  lemma BegunBefore(g: seq<Grant>, a: int) returns (w: int)
    requires Windowed(g)
    ensures w < a && forall x | x in InSpan(g, a) && g[x].start < a :: g[x].start == w
  {
    hide Windowed;
    w := a - 1;
    if i :| i in InSpan(g, a) && g[i].start < a {
      w := g[i].start;
      forall x | x in InSpan(g, a) && g[x].start < a ensures g[x].start == w {
        SeenTogether(g, i, x, a);
      }
    }
  }

  lemma BegunInside(g: seq<Grant>, a: int) returns (v: int)
    requires Windowed(g)
    ensures a <= v && forall x | x in InSpan(g, a) && a <= g[x].start :: g[x].start == v
  {
    hide Windowed;
    v := a;
    if i :| i in InSpan(g, a) && a <= g[i].start {
      v := g[i].start;
      forall x | x in InSpan(g, a) && a <= g[x].start ensures g[x].start == v {
        SeenTogether(g, i, x, a);
      }
    }
  }

  /** Two grants of one span whose windows both begin before it, or neither does, share the window. */
  lemma SeenTogether(g: seq<Grant>, i: int, j: int, a: int)
    requires Windowed(g) && i in InSpan(g, a) && j in InSpan(g, a) && (g[i].start < a <==> g[j].start < a)
    ensures g[i].start == g[j].start
  {
    WindowsApart(g, i, j);
    WindowsApart(g, j, i);
    assert InTheirWindows(g);
    hide Windowed;
  }

  lemma PartsFit(g: seq<Grant>, w: int, v: int, a: int)
    requires Windowed(g) && w < a <= v
    ensures |Late(g, w, a)| + |Early(g, v, a)| <= |InSpan(g, a)|
  {
    assert |Late(g, w, a) + Early(g, v, a)| == |Late(g, w, a)| + |Early(g, v, a)| by {
      assert Late(g, w, a) * Early(g, v, a) == {};
    }
    SubsetSize(Late(g, w, a) + Early(g, v, a), InSpan(g, a));
  }

  lemma FewEarly(g: seq<Grant>, v: int, a: int)
    requires Windowed(g)
    ensures |Early(g, v, a)| <= GRANTS_PER_WINDOW
  {
    FiveInAWindow(g, v);
    SubsetSize(Early(g, v, a), InWindow(g, v));
  }

  /** The grant that opened the window came before the span. */
  lemma FewLate(g: seq<Grant>, w: int, a: int)
    requires Windowed(g) && w < a
    ensures |Late(g, w, a)| < GRANTS_PER_WINDOW
  {
    FiveInAWindow(g, w);
    if Late(g, w, a) != {} {
      var first := Least(InWindow(g, w));
      FirstOpens(g, first);
      hide Windowed;
      SubsetSize(Late(g, w, a), InWindow(g, w) - {first});
    }
  }

  lemma FirstOpens(g: seq<Grant>, first: int)
    requires OpenedByTheirFirst(g) && 0 <= first < |g|
    requires forall i | i in InWindow(g, g[first].start) :: first <= i
    ensures g[first].at == g[first].start
  {
    var w := g[first].start;
    forall j | 0 <= j < |g| && g[j].start == w ensures first <= j {
      assert j in InWindow(g, w);
    }
    assert Begins(g, first);
  }

  /** An undisturbed key gets at most five attempts in a fixed window and at most nine in any
      fifteen minutes. */
  lemma AttemptsAreBounded(log: seq<Entry>, k: Key, start: int, a: int)
    requires IsLog(log) && Timely(log) && Undisturbed(log, k)
    ensures |InWindow(Granted(log, k, |log|), start)| <= GRANTS_PER_WINDOW
    ensures |InSpan(Granted(log, k, |log|), a)| <= 9
  {
    GrantsAreWindowed(log, k, |log|);
    FiveInAWindow(Granted(log, k, |log|), start);
    SpanCount(log, k, a);
  }

  /** A span sees more than five grants only across two windows: one begun before the span, the other
      strictly inside it.  So a span that begins with a window holds at most five. */
  lemma MoreThanFive(log: seq<Entry>, k: Key, a: int)
    requires IsLog(log) && Timely(log) && Undisturbed(log, k)
    ensures var g := Granted(log, k, |log|);
      |InSpan(g, a)| > GRANTS_PER_WINDOW ==>
        exists i, j :: i in InSpan(g, a) && j in InSpan(g, a) && g[i].start < a < g[j].start
    ensures var g := Granted(log, k, |log|);
      (exists i :: 0 <= i < |g| && g[i].start == a) ==> |InSpan(g, a)| <= GRANTS_PER_WINDOW
  {
    GrantsAreWindowed(log, k, |log|);
    var g := Granted(log, k, |log|);
    if |InSpan(g, a)| > GRANTS_PER_WINDOW {
      var i, j := TwoWindows(g, a);
      forall w | 0 <= w < |g| ensures g[w].start != a {
        WindowsApart(g, i, w);
      }
    }
  }

  lemma TwoWindows(g: seq<Grant>, a: int) returns (i: int, j: int)
    requires Windowed(g) && |InSpan(g, a)| > GRANTS_PER_WINDOW
    ensures i in InSpan(g, a) && j in InSpan(g, a) && g[i].start < a < g[j].start
  {
    i := Least(InSpan(g, a));
    if forall x | x in InSpan(g, a) :: g[x].start == g[i].start {
      FiveInAWindow(g, g[i].start);
      SubsetSize(InSpan(g, a), InWindow(g, g[i].start));
    }
    j :| j in InSpan(g, a) && g[j].start != g[i].start;
    WindowsApart(g, i, j);
  }

  /** So a span sees more than five exactly when the two parts of some two windows exceed five. */
  lemma MoreThanFiveExactly(log: seq<Entry>, k: Key, a: int)
    requires IsLog(log) && Timely(log) && Undisturbed(log, k)
    ensures var g := Granted(log, k, |log|);
      |InSpan(g, a)| > GRANTS_PER_WINDOW <==>
      exists w, v :: w < a <= v && |Late(g, w, a)| + |Early(g, v, a)| > GRANTS_PER_WINDOW
  {
    SpanCount(log, k, a);
    hide *;
  }

  // ---------------------------------------------------------------------------------------
  // Runs at the edge.

  /** The i-th of ten attempts: one opens a window, four come at its end and five right after it. */
  function TenthEntry(key: Key, i: nat): Entry {
    var now := if i == 0 then 0 else if i < 5 then WINDOW - 1 else WINDOW;
    Entry(Reserve(key, now), true, map[key := if i < 5 then Attempt(i + 1, 0) else Attempt(i - 4, WINDOW)])
  }

  function TenAttempts(key: Key): seq<Entry> {
    seq(10, i requires 0 <= i < 10 => TenthEntry(key, i))
  }

  /** Nine attempts in fifteen minutes do happen, though the clock never goes back and the key is
      neither reset nor evicted. */
  lemma NineInASpan(key: Key)
    ensures var log := TenAttempts(key);
      && IsLog(log) && Timely(log) && Undisturbed(log, key)
      && |InSpan(Granted(log, key, |log|), WINDOW - 1)| == 9
  {
    var log := TenAttempts(key);
    forall i: nat | i < |log| ensures LogStep(log, i) && !Evicted(log, i, key) {
      TenthStep(log, key, i);
    }
    TenGrants(log, key, 10);
    NineOfTen(Granted(log, key, 10));
  }

  lemma TenthStep(log: seq<Entry>, key: Key, i: nat)
    requires i < |log| == 10 && forall j | 0 <= j < 10 :: log[j] == TenthEntry(key, j)
    ensures LogStep(log, i) && !Evicted(log, i, key) && log[i].op != Reset(key)
  {
    hide Reserved, Renewed;
    AloneInTheStore(Before(log, i), key, log[i].op.now, log[i].after);
  }

  lemma NineOfTen(g: seq<Grant>)
    requires |g| == 10 && g[0].at == 0
    requires forall i | 0 < i < 10 :: WINDOW - 1 <= g[i].at <= WINDOW
    ensures |InSpan(g, WINDOW - 1)| == 9
  {
    assert InSpan(g, WINDOW - 1) == Range(1, 9);
  }

  lemma AloneInTheStore(m: Store, key: Key, now: int, m': Store)
    requires m.Keys <= {key} && Current(m, key, now).count < GRANTS_PER_WINDOW
    requires m' == map[key := Attempt(Current(m, key, now).count + 1, Current(m, key, now).start)]
    ensures Renewed(m, key, now) == m' && Reserved(m, key, now, true, m')
  {
  }

  lemma {:induction false} TenGrants(log: seq<Entry>, key: Key, n: nat)
    requires n <= |log| && forall i | 0 <= i < |log| :: log[i] == TenthEntry(key, i)
    ensures |Granted(log, key, n)| == n
    ensures forall i | 0 <= i < n ::
      Granted(log, key, n)[i] == Grant(TenthEntry(key, i).op.now, if i < 5 then 0 else WINDOW)
  {
    if n > 0 { TenGrants(log, key, n - 1); }
  }

  /** A granted key is evicted at once exactly when the store is full of windows in its future. */
  lemma EvictsItselfExactly(m: Store, key: Key, now: int, m': Store)
    requires Reserved(m, key, now, true, m')
    ensures key !in m' <==>
      var u := Renewed(m, key, now);
      |u| > CAPACITY && forall k | k in u && k != key :: now < u[k].start
  {
  }

  /** Names that differ in length. */
  function Name(i: nat): Key {
    seq(i, _ => 'a')
  }

  ghost function Names(n: nat): set<Key> {
    set i | 0 <= i < n :: Name(i)
  }

  lemma NamesGrow(n: nat)
    ensures Names(n + 1) == Names(n) + {Name(n)} && Name(n) !in Names(n)
  {
    forall i: nat | i < n ensures Name(i) != Name(n) {
      assert |Name(i)| == i && |Name(n)| == n;
    }
  }

  lemma {:induction false} NamesDiffer(n: nat)
    ensures |Names(n)| == n && Name(n) !in Names(n)
  {
    NamesGrow(n);
    if n > 0 {
      NamesDiffer(n - 1);
      NamesGrow(n - 1);
      hide Names;
    }
  }

  /** The store after `n` keys have each made one attempt at time one. */
  ghost function Filled(n: nat): Store {
    map k | k in Names(n) :: Attempt(1, 1)
  }

  lemma OneMoreKey(n: nat)
    requires n < CAPACITY
    ensures Reserved(Filled(n), Name(n), 1, true, Filled(n + 1))
  {
    NamesDiffer(n + 1);
    NamesGrow(n);
    hide Name, Names;
    var u := Renewed(Filled(n), Name(n), 1);
    assert u == Filled(n + 1);
    assert |u| == |u.Keys| && u.Keys == Names(n + 1);
  }

  /** When the clock goes back, a full store evicts the very key that is granted an attempt. */
  lemma ClockBackEvictsItself() returns (log: seq<Entry>)
    ensures IsLog(log) && log != []
    ensures var e := log[|log| - 1]; e.op.Reserve? && e.granted && e.op.key !in e.after
  {
    var fill: seq<Entry> :=
      seq(CAPACITY, i requires 0 <= i < CAPACITY => Entry(Reserve(Name(i), 1), true, Filled(i + 1)));
    var last := Entry(Reserve(Name(CAPACITY), 0), true, Filled(CAPACITY));
    log := fill + [last];
    forall i: nat | i < |log| ensures LogStep(log, i) {
      assert Filled(0) == map[];
      assert Before(log, i) == Filled(i);
      if i < CAPACITY { OneMoreKey(i); } else { Overfull(); }
    }
    NamesDiffer(CAPACITY);
  }

  lemma Overfull()
    ensures Reserved(Filled(CAPACITY), Name(CAPACITY), 0, true, Filled(CAPACITY))
  {
    NamesDiffer(CAPACITY);
    var m, key := Filled(CAPACITY), Name(CAPACITY);
    var u := Renewed(m, key, 0);
    assert u == m[key := Attempt(1, 0)];
    assert u.Keys == Names(CAPACITY) + {key} && |u| == |u.Keys|;
    assert Victim(u, key, 0, key);
    assert u - {key} == m;
  }
}
