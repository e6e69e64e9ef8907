/**
 Core-hour accounting of internal/slurm/core_hours.go: allocated CPUs times wall-clock seconds
 inside a window, summed over all jobs, per account and per user, in 64-bit arithmetic.
 */
module CoreHours {
  import opened Wrappers
  import opened Int64
  import opened Text
  import opened Sorting
  import opened Sets

  datatype Tres = Tres(kind: string, count: int64)

  datatype Job = Job(account: string, user: string, partition: string, start: int64, end: int64,
                     states: seq<string>, tres: seq<Tres>)

  datatype Group = Group(name: string, coreSeconds: int64, allocations: nat)

  datatype Summary = Summary(coreSeconds: int64, allocations: nat, accounts: seq<Group>, users: seq<Group>)

  datatype Error = BadWindow | BadString | NegativeCpus | CpuOverflow | AllocationOverflow | TotalOverflow

  // ---------------------------------------------------------------------------------------
  // What the numbers mean, over the unbounded integers.

  /** The seconds of the job that fall into the window; a running job lasts to its end. */
  function Seconds(job: Job, from: int, to: int): nat {
    if job.start <= 0 || (job.end == 0 && !ContainsFold(job.states, "RUNNING")) then 0
    else Max(0, Min(if job.end == 0 then to else job.end, to) - Max(job.start, from))
  }

  function Cpus(tres: seq<Tres>, n: nat): int
    requires n <= |tres|
  {
    if n == 0 then 0
    else Cpus(tres, n - 1) + if EqualFold(tres[n - 1].kind, "cpu") then tres[n - 1].count else 0
  }

  predicate NonNegative(tres: seq<Tres>) {
    forall i | 0 <= i < |tres| && EqualFold(tres[i].kind, "cpu") :: 0 <= tres[i].count
  }

  function CoreSeconds(job: Job, from: int, to: int): int {
    Cpus(job.tres, |job.tres|) * Seconds(job, from, to)
  }

  predicate Counts(job: Job, from: int, to: int) {
    Seconds(job, from, to) > 0 && Cpus(job.tres, |job.tres|) > 0
  }

  predicate Acceptable(job: Job, from: int, to: int) {
    && ValidDetails([job.account, job.user, job.partition])
    && (Seconds(job, from, to) > 0 ==> NonNegative(job.tres))
  }

  /** Whom a job's time is booked on. */
  datatype Key = Account | User

  function NameOf(job: Job, key: Key): string {
    var name := if key == Account then job.account else job.user;
    if name == "" then "—" else name
  }

  /** The core-seconds of the first `n` jobs, of one name or of all of them. */
  function Total(jobs: seq<Job>, from: int, to: int, n: nat): int
    requires n <= |jobs|
  {
    if n == 0 then 0 else Total(jobs, from, to, n - 1) + CoreSeconds(jobs[n - 1], from, to)
  }

  function GroupTotal(jobs: seq<Job>, from: int, to: int, key: Key, name: string, n: nat): int
    requires n <= |jobs|
  {
    if n == 0 then 0
    else GroupTotal(jobs, from, to, key, name, n - 1)
         + if NameOf(jobs[n - 1], key) == name then CoreSeconds(jobs[n - 1], from, to) else 0
  }

  function Count(jobs: seq<Job>, from: int, to: int, n: nat): nat
    requires n <= |jobs|
  {
    if n == 0 then 0 else Count(jobs, from, to, n - 1) + if Counts(jobs[n - 1], from, to) then 1 else 0
  }

  function GroupCount(jobs: seq<Job>, from: int, to: int, key: Key, name: string, n: nat): nat
    requires n <= |jobs|
  {
    if n == 0 then 0
    else GroupCount(jobs, from, to, key, name, n - 1) +
         if NameOf(jobs[n - 1], key) == name && Counts(jobs[n - 1], from, to) then 1 else 0
  }

  /** Descending core-seconds, then ascending names. */
  predicate GroupLess(a: Group, b: Group) {
    if a.coreSeconds == b.coreSeconds then StringLess(a.name, b.name) else a.coreSeconds > b.coreSeconds
  }

  /** `groups` holds, in order, one entry for each name that some counted job is booked on. */
  ghost predicate Groups(groups: seq<Group>, jobs: seq<Job>, from: int, to: int, key: Key) {
    && Ascending(groups, GroupLess)
    && (forall i, j | 0 <= i < j < |groups| :: groups[i].name != groups[j].name)
    && (forall i | 0 <= i < |groups| ::
          && groups[i].coreSeconds == GroupTotal(jobs, from, to, key, groups[i].name, |jobs|)
          && groups[i].allocations == GroupCount(jobs, from, to, key, groups[i].name, |jobs|) > 0)
    && (forall k | 0 <= k < |jobs| && Counts(jobs[k], from, to) ::
          exists i :: 0 <= i < |groups| && groups[i].name == NameOf(jobs[k], key))
  }

  /** The job holds its CPUs during second `t`; a running job has no end yet. */
  predicate HoldsAt(job: Job, t: int) {
    && 0 < job.start <= t
    && (t < job.end || (job.end == 0 && exists i :: 0 <= i < |job.states| && EqualFold(job.states[i], "RUNNING")))
  }

  /** The seconds counted are the seconds of the window in which the job holds its CPUs. */
  lemma SecondsCounted(job: Job, from: int, to: int)
    ensures Seconds(job, from, to) == |set t | from <= t < to && HoldsAt(job, t)|
  {
    var held := set t | from <= t < to && HoldsAt(job, t);
    var first := Max(job.start, from);
    assert held == Range(first, Seconds(job, from, to));
  }

  /** A job with printable names and no negative resource is acceptable for every window. */
  lemma PlainIsAcceptable(job: Job, from: int, to: int)
    requires Printable(job.account) && Printable(job.user) && Printable(job.partition)
    requires forall i | 0 <= i < |job.tres| :: 0 <= job.tres[i].count
    ensures Acceptable(job, from, to)
  {
    PrintablesAreValid([job.account, job.user, job.partition]);
  }

  /** The CPUs of a job are those of its parts, and other resources do not count. */
  lemma {:induction false} CpusOfParts(a: seq<Tres>, b: seq<Tres>)
    ensures Cpus(a + b, |a + b|) == Cpus(a, |a|) + Cpus(b, |b|)
    ensures |a| == 1 ==> Cpus(a, 1) == if EqualFold(a[0].kind, "cpu") then a[0].count else 0
  {
    if b == [] {
      assert a + b == a;
    } else {
      var front := b[..|b| - 1];
      CpusOfParts(a, front);
      CpusOfFront(a + b, a + front, |a + front|);
      CpusOfFront(b, front, |front|);
    }
  }

  lemma {:induction false} CpusOfFront(all: seq<Tres>, front: seq<Tres>, n: nat)
    requires n <= |front| && front <= all
    ensures Cpus(all, n) == Cpus(front, n)
  {
    if n > 0 { CpusOfFront(all, front, n - 1); }
  }

  /** The job's account or user is this one, or missing when the name is the dash. */
  predicate IsOf(job: Job, key: Key, name: string) {
    var own := match key case Account => job.account case User => job.user;
    (own != "" && own == name) || (own == "" && name == "—")
  }

  function JobsOf(jobs: seq<Job>, key: Key, name: string): seq<Job> {
    if jobs == [] then []
    else JobsOf(jobs[..|jobs| - 1], key, name) + if IsOf(jobs[|jobs| - 1], key, name) then [jobs[|jobs| - 1]] else []
  }

  lemma NamedAlike(job: Job, key: Key, name: string)
    ensures IsOf(job, key, name) <==> NameOf(job, key) == name
  {
  }

  /** A group has the totals of its own jobs. */
  lemma {:induction false} GroupIsItsJobs(jobs: seq<Job>, from: int, to: int, key: Key, name: string)
    ensures var own := JobsOf(jobs, key, name);
      && GroupTotal(jobs, from, to, key, name, |jobs|) == Total(own, from, to, |own|)
      && GroupCount(jobs, from, to, key, name, |jobs|) == Count(own, from, to, |own|)
  {
    if jobs != [] {
      var front, last := jobs[..|jobs| - 1], jobs[|jobs| - 1];
      GroupIsItsJobs(front, from, to, key, name);
      GroupOfFront(jobs, front, from, to, key, name, |front|);
      NamedAlike(last, key, name);
      hide IsOf, NameOf, CoreSeconds, Counts;
      var own := JobsOf(front, key, name);
      if IsOf(last, key, name) {
        TotalOfFront(own + [last], own, from, to, |own|);
      } else {
        assert JobsOf(jobs, key, name) == own;
      }
    }
  }

  lemma {:induction false} TotalOfFront(all: seq<Job>, front: seq<Job>, from: int, to: int, n: nat)
    requires n <= |front| && front <= all
    ensures Total(all, from, to, n) == Total(front, from, to, n)
    ensures Count(all, from, to, n) == Count(front, from, to, n)
  {
    if n > 0 { TotalOfFront(all, front, from, to, n - 1); }
  }

  lemma {:induction false} GroupOfFront(all: seq<Job>, front: seq<Job>, from: int, to: int, key: Key, name: string,
                                        n: nat)
    requires n <= |front| && front <= all
    ensures GroupTotal(all, from, to, key, name, n) == GroupTotal(front, from, to, key, name, n)
    ensures GroupCount(all, from, to, key, name, n) == GroupCount(front, from, to, key, name, n)
  {
    if n > 0 { GroupOfFront(all, front, from, to, key, name, n - 1); }
  }

  /** The totals of all jobs are those of any two parts of them. */
  lemma {:induction false} TotalsOfParts(a: seq<Job>, b: seq<Job>, from: int, to: int)
    ensures Total(a + b, from, to, |a + b|) == Total(a, from, to, |a|) + Total(b, from, to, |b|)
    ensures Count(a + b, from, to, |a + b|) == Count(a, from, to, |a|) + Count(b, from, to, |b|)
    ensures |a| == 1 ==> Total(a, from, to, 1) == Cpus(a[0].tres, |a[0].tres|) * Seconds(a[0], from, to)
  {
    if b == [] {
      assert a + b == a;
    } else {
      var front := b[..|b| - 1];
      TotalsOfParts(a, front, from, to);
      TotalOfFront(a + b, a + front, from, to, |a + front|);
      TotalOfFront(b, front, from, to, |front|);
    }
  }

  /** The groups come with the largest first, and equal ones in the order of their names. */
  lemma GroupsDescend(groups: seq<Group>, jobs: seq<Job>, from: int, to: int, key: Key, i: nat, j: nat)
    requires Groups(groups, jobs, from, to, key) && i < j < |groups|
    ensures groups[i].coreSeconds > groups[j].coreSeconds
      || (groups[i].coreSeconds == groups[j].coreSeconds && StringLess(groups[i].name, groups[j].name))
  {
    assert GroupLess(groups[i], groups[j]);
  }

  // ---------------------------------------------------------------------------------------
  // The computation.

  method AllocatedCpus(values: seq<Tres>) returns (r: Result<int64, Error>)
    ensures r.Ok? <==> NonNegative(values) && Cpus(values, |values|) <= MAX_INT64
    ensures r.Ok? ==> r.value == Cpus(values, |values|) >= 0
  {
    var result: int64 := 0;
    for i := 0 to |values|
      invariant forall j | 0 <= j < i && EqualFold(values[j].kind, "cpu") :: 0 <= values[j].count
      invariant result == Cpus(values, i) >= 0
    {
      if !EqualFold(values[i].kind, "cpu") {
        continue;
      }
      if values[i].count < 0 {
        return Err(NegativeCpus);
      }
      if result > MAX_INT64 - values[i].count {
        if NonNegative(values) { CpusGrow(values, i + 1, |values|); }
        return Err(CpuOverflow);
      }
      result := result + values[i].count;
    }
    return Ok(result);
  }

  lemma {:induction false} CpusGrow(values: seq<Tres>, m: nat, n: nat)
    requires m <= n <= |values| && NonNegative(values)
    ensures 0 <= Cpus(values, m) <= Cpus(values, n)
  {
    if m < n { CpusGrow(values, m, n - 1); } else if 0 < m { CpusGrow(values, m - 1, m - 1); }
  }

  /** What the running map of groups says about the first `n` jobs. */
  ghost predicate Tallied(groups: map<string, Group>, jobs: seq<Job>, from: int, to: int, key: Key, n: nat)
    requires n <= |jobs|
  {
    && (forall name | name in groups ::
          && groups[name].name == name
          && groups[name].coreSeconds == GroupTotal(jobs, from, to, key, name, n)
          && groups[name].allocations == GroupCount(jobs, from, to, key, name, n) > 0)
    && (forall name | name !in groups ::
      GroupTotal(jobs, from, to, key, name, n) == 0 && GroupCount(jobs, from, to, key, name, n) == 0)
  }

  method AddCoreHourGroup(groups: map<string, Group>, name: string, coreSeconds: int64)
    returns (updated: map<string, Group>)
    requires var n := if name == "" then "—" else name;
      coreSeconds >= 0 && (n in groups ==>
        0 <= groups[n].coreSeconds && groups[n].coreSeconds + coreSeconds <= MAX_INT64)
    ensures var n := if name == "" then "—" else name;
      updated ==
        groups[n := if n in groups then Group(n, groups[n].coreSeconds + coreSeconds, groups[n].allocations + 1)
                    else Group(n, coreSeconds, 1)]
  {
    var n := if name == "" then "—" else name;
    var group := if n in groups then groups[n] else Group("", 0, 0);
    group := Group(n, group.coreSeconds + coreSeconds, group.allocations + 1);
    updated := groups[n := group];
  }

  method SortedCoreHourGroups(groups: map<string, Group>) returns (result: seq<Group>)
    requires forall name | name in groups :: groups[name].name == name
    ensures Ascending(result, GroupLess)
    ensures forall i, j | 0 <= i < j < |result| :: result[i].name != result[j].name
    ensures forall i | 0 <= i < |result| :: result[i].name in groups && result[i] == groups[result[i].name]
    ensures forall name | name in groups :: exists i :: 0 <= i < |result| && result[i].name == name
  {
    result := [];
    var rest := groups.Keys;
    while rest != {}
      invariant rest <= groups.Keys
      invariant forall i | 0 <= i < |result| ::
        result[i].name in groups && result[i].name !in rest && result[i] == groups[result[i].name]
      invariant forall i, j | 0 <= i < j < |result| :: result[i].name != result[j].name
      invariant forall name | name in groups && name !in rest :: groups[name] in Elements(result)
      decreases rest
    {
      var name :| name in rest;
      rest := rest - {name};
      ghost var before := result;
      result := result + [groups[name]];
      assert Elements(result) == Elements(before) + {groups[name]};
    }
    ghost var listed := result;
    result := SortBy(result, GroupLess);
    GroupOrder(Elements(listed));
    SortBySorts(listed, GroupLess);
    SortedGroupsAreListed(listed, result, groups);
  }

  lemma SortedGroupsAreListed(listed: seq<Group>, result: seq<Group>, groups: map<string, Group>)
    requires Elements(result) == Elements(listed) && Ascending(result, GroupLess)
    requires forall i | 0 <= i < |listed| :: listed[i].name in groups && listed[i] == groups[listed[i].name]
    requires forall name | name in groups :: groups[name].name == name && groups[name] in Elements(listed)
    ensures forall i, j | 0 <= i < j < |result| :: result[i].name != result[j].name
    ensures forall i | 0 <= i < |result| :: result[i].name in groups && result[i] == groups[result[i].name]
    ensures forall name | name in groups :: exists i :: 0 <= i < |result| && result[i].name == name
  {
    forall i | 0 <= i < |result| ensures result[i].name in groups && result[i] == groups[result[i].name] {
      assert result[i] in Elements(result);
    }
    forall i, j | 0 <= i < j < |result| ensures result[i].name != result[j].name {
      assert GroupLess(result[i], result[j]);
      StringLessIrreflexive(result[i].name);
    }
    forall name | name in groups ensures exists i :: 0 <= i < |result| && result[i].name == name {
      assert groups[name] in Elements(result);
    }
  }

  lemma GroupOrder(s: set<Group>)
    requires forall a, b | a in s && b in s && a.name == b.name :: a == b
    ensures OrderOn(GroupLess, s)
  {
    forall a ensures !GroupLess(a, a) { StringLessIrreflexive(a.name); }
    forall a, b, c | GroupLess(a, b) && GroupLess(b, c) ensures GroupLess(a, c) {
      if a.coreSeconds == b.coreSeconds == c.coreSeconds { StringLessTransitive(a.name, b.name, c.name); }
    }
    forall a, b | a in s && b in s && a != b ensures GroupLess(a, b) || GroupLess(b, a) {
      StringLessTotal(a.name, b.name);
    }
  }

  /** Everything the method accepts: nothing malformed, and a sum that fits. */
  ghost predicate Summable(jobs: seq<Job>, from: int, to: int) {
    from < to && (forall k | 0 <= k < |jobs| :: Acceptable(jobs[k], from, to))
      && Total(jobs, from, to, |jobs|) <= MAX_INT64
  }

  /** The body of the loop over the jobs, up to the job's core-seconds; zero for a job that is
      skipped. */
  method JobCoreSeconds(job: Job, from: int64, to: int64) returns (r: Result<int64, Error>)
    requires from < to
    ensures r.Ok? <==> Acceptable(job, from, to) && CoreSeconds(job, from, to) <= MAX_INT64
    ensures r.Ok? ==> r.value == CoreSeconds(job, from, to) >= 0 && (r.value > 0 <==> Counts(job, from, to))
  {
    if !ValidDetails([job.account, job.user, job.partition]) {
      return Err(BadString);
    }
    if job.start <= 0 {
      return Ok(0);
    }
    var end := job.end;
    if end == 0 {
      if !ContainsFold(job.states, "RUNNING") {
        return Ok(0);
      }
      end := to;
    }
    var start := Max(job.start, from);
    end := Min(end, to);
    if end <= start {
      return Ok(0);
    }
    var seconds: int64 := end - start;
    assert Seconds(job, from, to) == seconds;
    var cpus := AllocatedCpus(job.tres);
    if cpus.Err? {
      MoreSecondsThanCpus(Cpus(job.tres, |job.tres|), seconds);
      return Err(cpus.error);
    }
    if cpus.value == 0 {
      return Ok(0);
    }
    if cpus.value > MAX_INT64 / seconds {
      ProductOverflows(cpus.value, seconds);
      return Err(AllocationOverflow);
    }
    ProductFits(cpus.value, seconds);
    MoreSecondsThanCpus(cpus.value, seconds);
    return Ok(cpus.value * seconds);
  }

  lemma MoreSecondsThanCpus(cpus: int, seconds: int)
    requires 0 < seconds
    ensures 0 <= cpus ==> cpus <= cpus * seconds
  {
  }

  /** It succeeds exactly when every job is well-formed and the exact total fits 64 bits, and then
      returns the exact totals. */
  method ParseCoreHours(jobs: seq<Job>, from: int64, to: int64) returns (r: Result<Summary, Error>)
    ensures r.Ok? <==> Summable(jobs, from, to)
    ensures r.Ok? ==>
      && r.value.coreSeconds == Total(jobs, from, to, |jobs|)
      && r.value.allocations == Count(jobs, from, to, |jobs|)
      && Groups(r.value.accounts, jobs, from, to, Account)
      && Groups(r.value.users, jobs, from, to, User)
  {
    if to <= from {
      return Err(BadWindow);
    }
    hide Acceptable, Counts, CoreSeconds, Tallied, Groups, GroupLess, Ascending;
    var coreSeconds: int64, allocations: nat := 0, 0;
    var accounts: map<string, Group>, users: map<string, Group> := map[], map[];
    NothingTallied(jobs, from, to, Account);
    NothingTallied(jobs, from, to, User);
    for i := 0 to |jobs|
      invariant forall k | 0 <= k < i :: Acceptable(jobs[k], from, to)
      invariant coreSeconds == Total(jobs, from, to, i) >= 0
      invariant allocations == Count(jobs, from, to, i)
      invariant Tallied(accounts, jobs, from, to, Account, i)
      invariant Tallied(users, jobs, from, to, User, i)
    {
      var job := jobs[i];
      var r1 := JobCoreSeconds(job, from, to);
      if r1.Err? {
        TooMuch(jobs, from, to, i);
        return Err(r1.error);
      }
      if r1.value == 0 {
        SkipJob(accounts, jobs, from, to, Account, i);
        SkipJob(users, jobs, from, to, User, i);
        continue;
      }
      if coreSeconds > MAX_INT64 - r1.value {
        TooMuch(jobs, from, to, i);
        return Err(TotalOverflow);
      }
      coreSeconds := coreSeconds + r1.value;
      allocations := allocations + 1;
      accounts := BookOn(accounts, jobs, from, to, Account, i, r1.value);
      users := BookOn(users, jobs, from, to, User, i, r1.value);
    }
    var accountGroups := GroupsOf(accounts, jobs, from, to, Account);
    var userGroups := GroupsOf(users, jobs, from, to, User);
    return Ok(Summary(coreSeconds, allocations, accountGroups, userGroups));
  }

  /** A job that cannot be added on its own, or on top of those before it, spoils the whole sum. */
  lemma TooMuch(jobs: seq<Job>, from: int, to: int, i: nat)
    requires i < |jobs| && forall k | 0 <= k < i :: Acceptable(jobs[k], from, to)
    requires !Acceptable(jobs[i], from, to) || Total(jobs, from, to, i) + CoreSeconds(jobs[i], from, to) > MAX_INT64
      || CoreSeconds(jobs[i], from, to) > MAX_INT64
    ensures !Summable(jobs, from, to)
  {
    hide Acceptable, CoreSeconds;
    if forall k | 0 <= k < |jobs| :: Acceptable(jobs[k], from, to) {
      TotalsGrow(jobs, from, to, 0, i);
      TotalsGrow(jobs, from, to, i + 1, |jobs|);
    }
  }

  /** The group to book on has room, since it never holds more than the total. */
  lemma CanBook(groups: map<string, Group>, jobs: seq<Job>, from: int, to: int, key: Key, i: nat)
    requires i < |jobs| && forall k | 0 <= k < i :: Acceptable(jobs[k], from, to)
    requires Tallied(groups, jobs, from, to, key, i)
    ensures var n := NameOf(jobs[i], key);
      n in groups ==> 0 <= groups[n].coreSeconds <= Total(jobs, from, to, i)
  {
    GroupAtMostTotal(jobs, from, to, key, NameOf(jobs[i], key), i);
  }

  lemma NothingTallied(jobs: seq<Job>, from: int, to: int, key: Key)
    ensures Tallied(map[], jobs, from, to, key, 0)
  {
  }

  lemma SkipJob(groups: map<string, Group>, jobs: seq<Job>, from: int, to: int, key: Key, i: nat)
    requires i < |jobs| && CoreSeconds(jobs[i], from, to) == 0 && !Counts(jobs[i], from, to)
    requires Tallied(groups, jobs, from, to, key, i)
    ensures Tallied(groups, jobs, from, to, key, i + 1)
  {
  }

  /** `addCoreHourGroup` for one of the two maps, with what it does to the tally. */
  method BookOn(groups: map<string, Group>, jobs: seq<Job>, ghost from: int, ghost to: int, key: Key, i: nat,
                coreSeconds: int64)
    returns (updated: map<string, Group>)
    requires i < |jobs| && forall k | 0 <= k < i :: Acceptable(jobs[k], from, to)
    requires Counts(jobs[i], from, to) && coreSeconds == CoreSeconds(jobs[i], from, to) >= 0
    requires Total(jobs, from, to, i) + coreSeconds <= MAX_INT64
    requires Tallied(groups, jobs, from, to, key, i)
    ensures Tallied(updated, jobs, from, to, key, i + 1)
  {
    CanBook(groups, jobs, from, to, key, i);
    updated := AddCoreHourGroup(groups, if key == Account then jobs[i].account else jobs[i].user, coreSeconds);
    BookJob(groups, updated, jobs, from, to, key, i);
  }

  method GroupsOf(tally: map<string, Group>, ghost jobs: seq<Job>, ghost from: int, ghost to: int, ghost key: Key)
    returns (result: seq<Group>)
    requires Tallied(tally, jobs, from, to, key, |jobs|)
    ensures Groups(result, jobs, from, to, key)
  {
    result := SortedCoreHourGroups(tally);
    TalliedGroups(tally, result, jobs, from, to, key);
  }

  lemma BookJob(groups: map<string, Group>, groups': map<string, Group>, jobs: seq<Job>, from: int, to: int,
                key: Key, i: nat)
    requires i < |jobs| && Counts(jobs[i], from, to) && Tallied(groups, jobs, from, to, key, i)
    requires 0 <= CoreSeconds(jobs[i], from, to) <= MAX_INT64
    requires var n, c := NameOf(jobs[i], key), CoreSeconds(jobs[i], from, to);
      && (n in groups ==> 0 <= groups[n].coreSeconds <= MAX_INT64 - c)
      && groups' == groups[n := if n in groups then Group(n, groups[n].coreSeconds + c, groups[n].allocations + 1)
                             else Group(n, c, 1)]
    ensures Tallied(groups', jobs, from, to, key, i + 1)
  {
  }

  lemma TalliedGroups(groups: map<string, Group>, result: seq<Group>, jobs: seq<Job>, from: int, to: int, key: Key)
    requires Tallied(groups, jobs, from, to, key, |jobs|)
    requires Ascending(result, GroupLess)
    requires forall i, j | 0 <= i < j < |result| :: result[i].name != result[j].name
    requires forall i | 0 <= i < |result| :: result[i].name in groups && result[i] == groups[result[i].name]
    requires forall name | name in groups :: exists i :: 0 <= i < |result| && result[i].name == name
    ensures Groups(result, jobs, from, to, key)
  {
    forall k | 0 <= k < |jobs| && Counts(jobs[k], from, to)
      ensures exists i :: 0 <= i < |result| && result[i].name == NameOf(jobs[k], key)
    {
      GroupCountGrows(jobs, from, to, key, NameOf(jobs[k], key), k + 1, |jobs|);
      assert NameOf(jobs[k], key) in groups;
    }
  }

  lemma {:induction false} GroupCountGrows(jobs: seq<Job>, from: int, to: int, key: Key, name: string, m: nat, n: nat)
    requires m <= n <= |jobs|
    ensures GroupCount(jobs, from, to, key, name, m) <= GroupCount(jobs, from, to, key, name, n)
  {
    if m < n { GroupCountGrows(jobs, from, to, key, name, m, n - 1); }
  }

  lemma CoreSecondsNonNegative(job: Job, from: int, to: int)
    requires Acceptable(job, from, to)
    ensures CoreSeconds(job, from, to) >= 0
  {
    if Seconds(job, from, to) > 0 { CpusGrow(job.tres, 0, |job.tres|); }
  }

  lemma {:induction false} TotalsGrow(jobs: seq<Job>, from: int, to: int, m: nat, n: nat)
    requires m <= n <= |jobs| && forall k | 0 <= k < n :: Acceptable(jobs[k], from, to)
    ensures Total(jobs, from, to, m) <= Total(jobs, from, to, n)
  {
    if m < n {
      TotalsGrow(jobs, from, to, m, n - 1);
      CoreSecondsNonNegative(jobs[n - 1], from, to);
    }
  }

  lemma {:induction false} GroupAtMostTotal(jobs: seq<Job>, from: int, to: int, key: Key, name: string, n: nat)
    requires n <= |jobs| && forall k | 0 <= k < n :: Acceptable(jobs[k], from, to)
    ensures 0 <= GroupTotal(jobs, from, to, key, name, n) <= Total(jobs, from, to, n)
  {
    if n > 0 {
      GroupAtMostTotal(jobs, from, to, key, name, n - 1);
      CoreSecondsNonNegative(jobs[n - 1], from, to);
    }
  }

  lemma ProductFits(cpus: int, seconds: int)
    requires 0 <= cpus && 0 < seconds && cpus <= MAX_INT64 / seconds
    ensures 0 <= cpus * seconds <= MAX_INT64
  {
  }

  lemma ProductOverflows(cpus: int, seconds: int)
    requires 0 < seconds && cpus > MAX_INT64 / seconds
    ensures cpus * seconds > MAX_INT64
  {
    var q := MAX_INT64 / seconds;
    assert (q + 1) * seconds > MAX_INT64;
    assert cpus * seconds >= (q + 1) * seconds;
  }

  // ---------------------------------------------------------------------------------------
  // Conservation: the groups add up to the whole.

  function SumSeconds(groups: seq<Group>, n: nat): int
    requires n <= |groups|
  {
    if n == 0 then 0 else SumSeconds(groups, n - 1) + groups[n - 1].coreSeconds
  }

  function SumAllocations(groups: seq<Group>, n: nat): nat
    requires n <= |groups|
  {
    if n == 0 then 0 else SumAllocations(groups, n - 1) + groups[n - 1].allocations
  }

  /** The core-seconds and the count of the first `k` jobs booked on the first `n` names. */
  function Booked(names: seq<string>, n: nat, jobs: seq<Job>, from: int, to: int, key: Key, k: nat): (int, nat)
    requires n <= |names| && k <= |jobs|
  {
    if n == 0 then (0, 0)
    else
      var b := Booked(names, n - 1, jobs, from, to, key, k);
      (b.0 + GroupTotal(jobs, from, to, key, names[n - 1], k), b.1 + GroupCount(jobs, from, to, key, names[n - 1], k))
  }

  lemma {:induction false} BookedStep(names: seq<string>, n: nat, jobs: seq<Job>, from: int, to: int, key: Key, k: nat)
    requires Distinct(names) && n <= |names| && k < |jobs|
    ensures var booked := NameOf(jobs[k], key) in names[..n];
      var b, b' := Booked(names, n, jobs, from, to, key, k), Booked(names, n, jobs, from, to, key, k + 1);
      && b'.0 == b.0 + (if booked then CoreSeconds(jobs[k], from, to) else 0)
      && b'.1 == b.1 + (if booked && Counts(jobs[k], from, to) then 1 else 0)
  {
    if n > 0 {
      BookedStep(names, n - 1, jobs, from, to, key, k);
      assert names[..n] == names[..n - 1] + [names[n - 1]];
      assert names[n - 1] !in names[..n - 1];
    }
  }

  lemma {:induction false} BookedIsAll(names: seq<string>, jobs: seq<Job>, from: int, to: int, key: Key, k: nat)
    requires Distinct(names) && k <= |jobs|
    requires forall j | 0 <= j < k && NameOf(jobs[j], key) !in names ::
      CoreSeconds(jobs[j], from, to) == 0 && !Counts(jobs[j], from, to)
    ensures Booked(names, |names|, jobs, from, to, key, k) == (Total(jobs, from, to, k), Count(jobs, from, to, k))
  {
    assert names[..|names|] == names;
    if k == 0 {
      NothingBooked(names, |names|, jobs, from, to, key);
    } else {
      BookedIsAll(names, jobs, from, to, key, k - 1);
      BookedStep(names, |names|, jobs, from, to, key, k - 1);
    }
  }

  lemma {:induction false} NothingBooked(names: seq<string>, n: nat, jobs: seq<Job>, from: int, to: int, key: Key)
    requires n <= |names|
    ensures Booked(names, n, jobs, from, to, key, 0) == (0, 0)
  {
    if n > 0 { NothingBooked(names, n - 1, jobs, from, to, key); }
  }

  lemma {:induction false} GroupsSum(groups: seq<Group>, names: seq<string>, n: nat, jobs: seq<Job>, from: int,
                                     to: int, key: Key)
    requires n <= |groups| == |names| && forall i | 0 <= i < |groups| :: names[i] == groups[i].name
    requires Groups(groups, jobs, from, to, key)
    ensures (SumSeconds(groups, n), SumAllocations(groups, n)) == Booked(names, n, jobs, from, to, key, |jobs|)
  {
    if n > 0 { GroupsSum(groups, names, n - 1, jobs, from, to, key); }
  }

  lemma CountedIsNamed(groups: seq<Group>, names: seq<string>, jobs: seq<Job>, from: int, to: int, key: Key, j: nat)
    requires Groups(groups, jobs, from, to, key) && j < |jobs| && Counts(jobs[j], from, to)
    requires |groups| == |names| && forall i | 0 <= i < |groups| :: names[i] == groups[i].name
    ensures NameOf(jobs[j], key) in names
  {
  }

  /** The accounts, and likewise the users, add up to the total: no time is lost or booked twice. */
  lemma {:induction false} GroupsAddUp(groups: seq<Group>, jobs: seq<Job>, from: int, to: int, key: Key)
    requires Summable(jobs, from, to) && Groups(groups, jobs, from, to, key)
    ensures SumSeconds(groups, |groups|) == Total(jobs, from, to, |jobs|)
    ensures SumAllocations(groups, |groups|) == Count(jobs, from, to, |jobs|)
  {
    var names := seq(|groups|, i requires 0 <= i < |groups| => groups[i].name);
    GroupsSum(groups, names, |groups|, jobs, from, to, key);
    forall j | 0 <= j < |jobs| && NameOf(jobs[j], key) !in names
      ensures CoreSeconds(jobs[j], from, to) == 0 && !Counts(jobs[j], from, to)
    {
      if Counts(jobs[j], from, to) { CountedIsNamed(groups, names, jobs, from, to, key, j); }
      CoreSecondsNonNegative(jobs[j], from, to);
      CpusOrNothing(jobs[j], from, to);
    }
    BookedIsAll(names, jobs, from, to, key, |jobs|);
  }

  lemma CpusOrNothing(job: Job, from: int, to: int)
    requires Acceptable(job, from, to) && !Counts(job, from, to)
    ensures CoreSeconds(job, from, to) == 0
  {
    if Seconds(job, from, to) > 0 { CpusGrow(job.tres, 0, |job.tres|); }
  }

  lemma {:induction false} SomeCounted(jobs: seq<Job>, from: int, to: int, key: Key, name: string, n: nat)
    returns (k: nat)
    requires n <= |jobs| && GroupCount(jobs, from, to, key, name, n) > 0
    ensures k < n && Counts(jobs[k], from, to) && NameOf(jobs[k], key) == name
  {
    if NameOf(jobs[n - 1], key) == name && Counts(jobs[n - 1], from, to) {
      k := n - 1;
    } else {
      k := SomeCounted(jobs, from, to, key, name, n - 1);
    }
  }

  lemma GroupsCover(g: seq<Group>, h: seq<Group>, jobs: seq<Job>, from: int, to: int, key: Key)
    requires Groups(g, jobs, from, to, key) && Groups(h, jobs, from, to, key)
    ensures Elements(g) <= Elements(h)
  {
    forall x | x in Elements(g) ensures x in Elements(h) {
      var k := SomeCounted(jobs, from, to, key, x.name, |jobs|);
      var i :| 0 <= i < |h| && h[i].name == NameOf(jobs[k], key);
      assert h[i] == x;
    }
  }

  /** The listing is determined by the jobs: the order in which a map is read never shows. */
  lemma GroupsAreDetermined(g: seq<Group>, h: seq<Group>, jobs: seq<Job>, from: int, to: int, key: Key)
    requires Groups(g, jobs, from, to, key) && Groups(h, jobs, from, to, key)
    ensures g == h
  {
    GroupsCover(g, h, jobs, from, to, key);
    GroupsCover(h, g, jobs, from, to, key);
    forall a, b | a in Elements(g) && b in Elements(g) && a.name == b.name ensures a == b {
      var i :| 0 <= i < |g| && g[i] == a;
      var j :| 0 <= j < |g| && g[j] == b;
    }
    GroupOrder(Elements(g));
    AscendingIsUnique(g, h, GroupLess);
  }

  // ---------------------------------------------------------------------------------------
  // Additivity over time.

  /** Cutting a window in two cuts every job's time in two, also at the edges and while it runs. */
  lemma SecondsAdd(job: Job, a: int, b: int, c: int)
    requires a < b < c
    ensures Seconds(job, a, c) == Seconds(job, a, b) + Seconds(job, b, c)
  {
  }

  lemma CoreSecondsAdd(job: Job, a: int, b: int, c: int)
    requires a < b < c
    ensures CoreSeconds(job, a, c) == CoreSeconds(job, a, b) + CoreSeconds(job, b, c)
  {
  }

  /** For adjacent windows the totals and every group add up. */
  lemma {:induction false} TotalsAdd(jobs: seq<Job>, a: int, b: int, c: int, key: Key, name: string, n: nat)
    requires a < b < c && n <= |jobs|
    ensures Total(jobs, a, c, n) == Total(jobs, a, b, n) + Total(jobs, b, c, n)
    ensures GroupTotal(jobs, a, c, key, name, n) ==
      GroupTotal(jobs, a, b, key, name, n) + GroupTotal(jobs, b, c, key, name, n)
  {
    if n > 0 {
      TotalsAdd(jobs, a, b, c, key, name, n - 1);
      CoreSecondsAdd(jobs[n - 1], a, b, c);
    }
  }

  /** A window is accounted for exactly when its two parts are and their totals fit together. */
  lemma WindowsSplit(jobs: seq<Job>, a: int, b: int, c: int)
    requires a < b < c
    ensures Summable(jobs, a, c) <==>
      Summable(jobs, a, b) && Summable(jobs, b, c) && Total(jobs, a, b, |jobs|) + Total(jobs, b, c, |jobs|) <= MAX_INT64
  {
    TotalsAdd(jobs, a, b, c, Account, "", |jobs|);
    forall k | 0 <= k < |jobs|
      ensures Acceptable(jobs[k], a, c) <==> Acceptable(jobs[k], a, b) && Acceptable(jobs[k], b, c)
    {
      SecondsAdd(jobs[k], a, b, c);
    }
    if forall k | 0 <= k < |jobs| :: Acceptable(jobs[k], a, c) {
      TotalsGrow(jobs, a, b, 0, |jobs|);
      TotalsGrow(jobs, b, c, 0, |jobs|);
    }
  }

  /** The jobs that both halves of a window count. */
  function Straddling(jobs: seq<Job>, a: int, b: int, c: int, n: nat): nat
    requires n <= |jobs|
  {
    if n == 0 then 0
    else Straddling(jobs, a, b, c, n - 1) + if Counts(jobs[n - 1], a, b) && Counts(jobs[n - 1], b, c) then 1 else 0
  }

  /** Allocation counts do not add up: they exceed the count of the whole window by exactly the
      allocations that run across the cut. */
  lemma {:induction false} CountsOverlap(jobs: seq<Job>, a: int, b: int, c: int, n: nat)
    requires a < b < c && n <= |jobs|
    ensures Count(jobs, a, b, n) + Count(jobs, b, c, n) == Count(jobs, a, c, n) + Straddling(jobs, a, b, c, n)
  {
    if n > 0 {
      CountsOverlap(jobs, a, b, c, n - 1);
      SecondsAdd(jobs[n - 1], a, b, c);
    }
  }

  /** One job of one CPU that runs across the cut is counted in both halves. */
  lemma BothHalvesCount(a: int64, b: int64, c: int64) returns (job: Job)
    requires a < b < c && 1 < b
    ensures Summable([job], a, c) && Count([job], a, c, 1) == Straddling([job], a, b, c, 1) == 1
    ensures Count([job], a, b, 1) + Count([job], b, c, 1) == 2
  {
    var tres := [Tres("cpu", 1)];
    job := Job("", "", "", b - 1, b + 1, [], tres);
    assert Cpus(tres, 1) == 1;
    assert Total([job], a, c, 1) == CoreSeconds(job, a, c) == 2;
    CountsOverlap([job], a, b, c, 1);
  }
}
