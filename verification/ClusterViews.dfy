/**
 What is computed from the node list: the cluster metrics of internal/slurm/client.go and the partition
 totals of internal/slurm/partitions.go.
 */
module ClusterViews {
  import opened Wrappers
  import opened Text
  import opened Int64
  import opened Sets
  import opened Sorting
  import opened ClusterNodes

  // ---------------------------------------------------------------------------------------
  // The metrics.

  datatype Metrics = Metrics(onlineNodes: nat, cpuUsage: int, runningJobs: nat, queuedJobs: nat)

  /** What `aggregateMetrics` looks at in a node. */
  datatype Load = Load(name: string, state: string, allocatedCpus: int64, totalCpus: int64, online: bool)

  function LoadOf(n: Node): Load {
    Load(n.name, n.state, n.allocatedCpus, n.totalCpus, n.online)
  }

  function Allocated(l: Load): int { l.allocatedCpus }
  function Total(l: Load): int { l.totalCpus }

  ghost predicate SameLoads(nodes: seq<Node>) {
    forall i, j | 0 <= i < |nodes| && 0 <= j < |nodes| && nodes[i].name == nodes[j].name ::
      LoadOf(nodes[i]) == LoadOf(nodes[j])
  }

  /** The online nodes, each of them once. */
  ghost function OnlineLoads(nodes: seq<Node>): set<Load> {
    set i | 0 <= i < |nodes| && nodes[i].online :: LoadOf(nodes[i])
  }

  /** Division truncated towards zero, by a positive number. */
  function Quotient(a: int, b: int): int
    requires b > 0
  {
    if a >= 0 then a / b else -(-a / b)
  }

  /** The CPU usage shown for exact sums, with the 64-bit arithmetic of the source. */
  function Usage(used: int, total: int): int {
    var t := Wrap(total);
    if t > 0 then Quotient(Wrap(Wrap(Wrap(used) * 100) + t / 2), t) else 0
  }

  function Count(states: seq<string>, state: string): nat {
    if states == [] then 0
    else Count(states[..|states| - 1], state) + if ToUpper(states[|states| - 1]) == state then 1 else 0
  }

  method AggregateMetrics(nodes: seq<Node>, jobStates: seq<string>) returns (r: Option<Metrics>)
    ensures r.Some? <==> SameLoads(nodes)
    ensures r.Some? ==>
      && var s := OnlineLoads(nodes);
      && r.value.onlineNodes == |s| && r.value.cpuUsage == Usage(Sum(s, Allocated), Sum(s, Total))
      && r.value.runningJobs == Count(jobStates, "RUNNING") && r.value.queuedJobs == Count(jobStates, "PENDING")
  {
    hide Usage, Sum, ToUpper;
    var uniqueNodes := UniqueNodes(nodes);
    if uniqueNodes.None? {
      return None;
    }
    var online, used, total := SumOnline(uniqueNodes.value);
    FirstsAreAll(uniqueNodes.value, nodes);
    var cpuUsage := CpuUsage(used, total);
    WrappedUsage(Sum(OnlineLoads(nodes), Allocated), Sum(OnlineLoads(nodes), Total));
    var running, queued := 0, 0;
    for i := 0 to |jobStates|
      invariant running == Count(jobStates[..i], "RUNNING") && queued == Count(jobStates[..i], "PENDING")
    {
      assert jobStates[..i + 1][..i] == jobStates[..i];
      var state := ToUpper(jobStates[i]);
      if state == "RUNNING" {
        running := running + 1;
      } else if state == "PENDING" {
        queued := queued + 1;
      }
    }
    assert jobStates[..|jobStates|] == jobStates;
    return Some(Metrics(online, cpuUsage, running, queued));
  }

  /** A node for each name, with the loads of all nodes of that name. */
  ghost predicate Firsts(m: map<string, Node>, nodes: seq<Node>) {
    && (forall i | 0 <= i < |nodes| :: nodes[i].name in m && LoadOf(m[nodes[i].name]) == LoadOf(nodes[i]))
    && (forall name | name in m :: m[name].name == name && m[name] in nodes)
  }

  method UniqueNodes(nodes: seq<Node>) returns (r: Option<map<string, Node>>)
    ensures r.Some? <==> SameLoads(nodes)
    ensures r.Some? ==> Firsts(r.value, nodes)
  {
    hide LoadOf;
    var uniqueNodes: map<string, Node> := map[];
    for i := 0 to |nodes|
      invariant Firsts(uniqueNodes, nodes[..i])
    {
      var node := nodes[i];
      assert nodes[..i + 1] == nodes[..i] + [node];
      if node.name in uniqueNodes {
        var existing := uniqueNodes[node.name];
        SameLoad(existing, node);
        if existing.state != node.state || existing.allocatedCpus != node.allocatedCpus
          || existing.totalCpus != node.totalCpus
          || existing.online != node.online {
          var j :| 0 <= j < i && nodes[..i][j] == existing;
          assert nodes[j] == existing;
          return None;
        }
      } else {
        uniqueNodes := uniqueNodes[node.name := node];
      }
    }
    assert nodes[..|nodes|] == nodes;
    return Some(uniqueNodes);
  }

  lemma SameLoad(a: Node, b: Node)
    ensures LoadOf(a) == LoadOf(b) <==>
      a.name == b.name && a.state == b.state && a.allocatedCpus == b.allocatedCpus && a.totalCpus == b.totalCpus
        && a.online == b.online
  {
  }

  ghost function OnlineOf(m: map<string, Node>, names: set<string>): set<Load> {
    set name | name in names && name in m && m[name].online :: LoadOf(m[name])
  }

  /** The counts of a set of nodes, as 64-bit sums that may have wrapped. */
  ghost predicate Sums(s: set<Load>, online: nat, used: int64, total: int64) {
    online == |s| && used == Wrap(Sum(s, Allocated)) && total == Wrap(Sum(s, Total))
  }

  /** Sums in whatever order the map gives its nodes, without checking for overflow. */
  method SumOnline(uniqueNodes: map<string, Node>) returns (online: nat, used: int64, total: int64)
    requires forall name | name in uniqueNodes :: uniqueNodes[name].name == name
    ensures Sums(OnlineOf(uniqueNodes, uniqueNodes.Keys), online, used, total)
  {
    hide Wrap, Sums, OnlineOf, LoadOf;
    online, used, total := 0, 0, 0;
    NothingSummed(uniqueNodes);
    var rest := uniqueNodes.Keys;
    assert uniqueNodes.Keys - rest == {};
    while rest != {}
      invariant rest <= uniqueNodes.Keys
      invariant Sums(OnlineOf(uniqueNodes, uniqueNodes.Keys - rest), online, used, total)
      decreases rest
    {
      var name :| name in rest;
      OneMoreOnline(uniqueNodes, uniqueNodes.Keys - rest, name);
      online, used, total := AddOnline(OnlineOf(uniqueNodes, uniqueNodes.Keys - rest), uniqueNodes[name], online,
                                       used, total);
      assert uniqueNodes.Keys - rest + {name} == uniqueNodes.Keys - (rest - {name});
      rest := rest - {name};
    }
    assert uniqueNodes.Keys - rest == uniqueNodes.Keys;
  }

  /** One turn of the loop. */
  method AddOnline(ghost s: set<Load>, node: Node, online: nat, used: int64, total: int64)
    returns (online': nat, used': int64, total': int64)
    requires Sums(s, online, used, total) && LoadOf(node) !in s
    ensures Sums(s + if node.online then {LoadOf(node)} else {}, online', used', total')
  {
    if !node.online {
      assert s + {} == s;
      return online, used, total;
    }
    OneMoreSummed(s, LoadOf(node), online, used, total);
    return online + 1, Wrap(used + node.allocatedCpus), Wrap(total + node.totalCpus);
  }

  lemma OneMoreSummed(s: set<Load>, l: Load, online: nat, used: int64, total: int64)
    requires Sums(s, online, used, total) && l !in s
    ensures Sums(s + {l}, online + 1, Wrap(used + l.allocatedCpus), Wrap(total + l.totalCpus))
  {
    hide Wrap;
    SumWith(s, Allocated, l);
    SumWith(s, Total, l);
    WrapAdds(Sum(s, Allocated), l.allocatedCpus);
    WrapAdds(Sum(s, Total), l.totalCpus);
  }

  lemma OneMoreOnline(m: map<string, Node>, done: set<string>, name: string)
    requires name in m && name !in done && forall n | n in m :: m[n].name == n
    ensures LoadOf(m[name]) !in OnlineOf(m, done)
    ensures OnlineOf(m, done + {name}) == OnlineOf(m, done) + if m[name].online then {LoadOf(m[name])} else {}
    ensures LoadOf(m[name]).allocatedCpus == m[name].allocatedCpus && LoadOf(m[name]).totalCpus == m[name].totalCpus
  {
  }

  lemma NothingSummed(m: map<string, Node>)
    ensures Sums(OnlineOf(m, {}), 0, 0, 0)
  {
  }

  lemma FirstsAreAll(m: map<string, Node>, nodes: seq<Node>)
    requires Firsts(m, nodes)
    ensures OnlineOf(m, m.Keys) == OnlineLoads(nodes)
  {
  }

  method CpuUsage(used: int64, total: int64) returns (usage: int)
    ensures usage == Usage(used, total)
  {
    hide Wrap, Quotient;
    WrapFits(used);
    WrapFits(total);
    usage := 0;
    if total > 0 {
      usage := Quotient(Wrap(Wrap(used * 100) + total / 2), total);
    }
  }

  lemma WrapAdds(a: int, b: int)
    ensures Wrap(Wrap(a) + b) == Wrap(a + b)
  {
    var w := 0x1_0000_0000_0000_0000;
    var k := if a % w <= MAX_INT64 then a / w else a / w + 1;
    assert Wrap(a) == a - w * k;
    WrapShifts(a + b, k);
  }

  lemma WrapShifts(n: int, k: int)
    ensures Wrap(n - 0x1_0000_0000_0000_0000 * k) == Wrap(n)
  {
    var w := 0x1_0000_0000_0000_0000;
    var q, r := n / w, n % w;
    assert n - w * k == w * (q - k) + r;
    assert (n - w * k) % w == r;
  }

  lemma WrappedUsage(used: int, total: int)
    ensures Usage(Wrap(used), Wrap(total)) == Usage(used, total)
  {
    hide Wrap;
    WrapFits(Wrap(used));
    WrapFits(Wrap(total));
  }

  lemma WrapFits(n: int)
    ensures -MAX_INT64 - 1 <= n <= MAX_INT64 ==> Wrap(n) == n
  {
  }

  lemma WrapBelow(n: int)
    requires n > MAX_INT64
    ensures Wrap(n) <= n - 0x1_0000_0000_0000_0000
  {
  }

  /** The nearest whole percentage, a half rounded up. */
  predicate IsPercentage(used: int, total: int, usage: int) {
    -total <= 2 * (100 * used - usage * total) < total
  }

  function Nearest(used: int, total: int): int
    requires total > 0
  {
    (200 * used + total) / (2 * total)
  }

  /** Whether `n` divided by `t` and truncated gives `v`. */
  predicate GivesQuotient(n: int, t: int, v: int) {
    if v == 0 then -t < n < t else v * t <= n < v * t + t
  }

  /** When the usage shown is right: while the total fits 64 bits, the dividend has to fit as well; when
      the total wraps to nothing or less, zero is shown; when it wraps to another positive number, the
      wrapped dividend has to give the right quotient by accident. */
  predicate ShownRight(used: int, total: int)
    requires total > 0
  {
    var t := Wrap(total);
    if total <= MAX_INT64 then 100 * used + total / 2 <= MAX_INT64
    else if t <= 0 then 200 * used < total
    else GivesQuotient(Wrap(100 * used + t / 2), t, Nearest(used, total))
  }

  /** For all sums, also those that wrap: the usage shown is the nearest percentage exactly when
      `ShownRight`, which holds at least when the exact dividend fits 64 bits. */
  lemma UsageExactly(used: int, total: int)
    requires 0 <= used <= total && 0 < total
    ensures IsPercentage(used, total, Usage(used, total)) <==> ShownRight(used, total)
    ensures ShownRight(used, total) ==> 0 <= Usage(used, total) <= 100
    ensures 100 * used + total / 2 <= MAX_INT64 ==> ShownRight(used, total)
    ensures Wrap(total) <= 0 ==> Usage(used, total) == 0
  {
    hide Wrap, Quotient, IsPercentage, GivesQuotient;
    var t := Wrap(total);
    WrapFits(total);
    NearestIsUnique(used, total, Usage(used, total));
    NearestIsPercentage(used, total);
    if total <= MAX_INT64 {
      UsageInRange(used, total);
    } else if t <= 0 {
      NearestIsUnique(used, total, 0);
      ZeroIsRight(used, total);
    } else {
      WrapsSmall(total);
      WrapScales(used);
      WrapAdds(100 * used, t / 2);
      QuotientGives(Wrap(100 * used + t / 2), t, Nearest(used, total));
    }
  }

  lemma UsageInRange(used: int, total: int)
    requires 0 <= used <= total && 0 < total <= MAX_INT64
    ensures IsPercentage(used, total, Usage(used, total)) <==> 100 * used + total / 2 <= MAX_INT64
  {
    hide Wrap, Quotient, IsPercentage;
    var n := 100 * used + total / 2;
    WrapFits(used);
    WrapFits(total);
    WrapAdds(used * 100, total / 2);
    assert Usage(used, total) == Quotient(Wrap(n), total);
    if n <= MAX_INT64 {
      WrapFits(n);
      PercentageFits(used, total);
    } else {
      WrapBelow(n);
      PercentageLost(used, total, Wrap(n));
    }
  }

  lemma ZeroIsRight(used: int, total: int)
    requires 0 <= used && MAX_INT64 < total
    ensures IsPercentage(used, total, 0) <==> 200 * used < total
    ensures 100 * used + total / 2 <= MAX_INT64 ==> 200 * used < total
  {
  }

  /** A total beyond 64 bits that wraps to a positive number is more than twice too large. */
  lemma WrapsSmall(total: int)
    requires total > MAX_INT64 && Wrap(total) > 0
    ensures total / 2 > MAX_INT64
  {
  }

  lemma WrapScales(n: int)
    ensures Wrap(Wrap(n) * 100) == Wrap(100 * n)
  {
    var w := 0x1_0000_0000_0000_0000;
    var k := if n % w <= MAX_INT64 then n / w else n / w + 1;
    assert Wrap(n) == n - w * k;
    WrapShifts(100 * n, 100 * k);
  }

  lemma NearestIsUnique(used: int, total: int, v: int)
    requires total > 0
    ensures IsPercentage(used, total, v) <==> v == Nearest(used, total)
  {
    Remainder(200 * used + total, 2 * total, v);
    assert 2 * total * v == 2 * (v * total);
  }

  lemma Remainder(n: int, d: int, v: int)
    requires d > 0
    ensures 0 <= n - d * v < d <==> v == n / d
  {
    var q := n / d;
    assert 0 <= n - d * q < d;
    if v > q { Product(v, q + 1, d); }
    if v < q { Product(q, v + 1, d); }
  }

  lemma NearestIsPercentage(used: int, total: int)
    requires 0 <= used <= total && 0 < total
    ensures 0 <= Nearest(used, total) <= 100
  {
    var v := Nearest(used, total);
    Remainder(200 * used + total, 2 * total, v);
    if v > 100 { Product(v, 101, 2 * total); }
    if v < 0 { Product(-1, v, 2 * total); }
  }

  lemma QuotientGives(n: int, t: int, v: int)
    requires t > 0 && v >= 0
    ensures Quotient(n, t) == v <==> GivesQuotient(n, t, v)
  {
    if n >= 0 {
      Remainder(n, t, v);
    } else {
      QuotientBounds(-n, t);
      Remainder(-n, t, 0);
      if v > 0 { Product(v, 1, t); }
    }
  }

  lemma PercentageFits(used: int, total: int)
    requires 0 <= used <= total && 0 < total
    ensures var u := Quotient(100 * used + total / 2, total); IsPercentage(used, total, u) && 0 <= u <= 100
  {
    var n := 100 * used + total / 2;
    QuotientBounds(n, total);
    var u := n / total;
    if u > 100 { Product(u, 101, total); }
  }

  lemma PercentageLost(used: int, total: int, w: int)
    requires 0 <= used <= total && 0 < total <= MAX_INT64
    requires 100 * used + total / 2 > MAX_INT64 && w <= 100 * used + total / 2 - 0x1_0000_0000_0000_0000
    ensures !IsPercentage(used, total, Quotient(w, total))
  {
    var u := Quotient(w, total);
    if w >= 0 {
      QuotientBounds(w, total);
      assert u * total <= w;
    } else {
      QuotientBounds(-w, total);
      assert u <= 0;
      Product(0, u, total);
      assert u * total <= 0;
    }
  }

  lemma Product(a: int, b: int, c: int)
    requires a >= b && c >= 0
    ensures a * c >= b * c
  {
  }

  lemma QuotientBounds(a: int, b: int)
    requires a >= 0 && b > 0
    ensures (a / b) * b <= a < (a / b) * b + b && a / b >= 0
  {
  }

  /** A fully allocated node of the largest size is shown as idle. */
  lemma LargestNodeLooksIdle()
    ensures Usage(MAX_INT64, MAX_INT64) == 0 && !IsPercentage(MAX_INT64, MAX_INT64, 0)
  {
    assert Wrap(MAX_INT64 * 100) == -100;
  }

  /** Two fully allocated nodes of the largest size and an idle one of 102 CPUs show less than nothing,
      though nothing is wrong with any of them. */
  lemma ThreeNodesShowMinusOne() returns (nodes: seq<Node>)
    ensures SameLoads(nodes)
    ensures forall n | n in nodes :: n.name != "" && 0 <= n.allocatedCpus <= n.totalCpus && 0 < n.totalCpus
    ensures Usage(Sum(OnlineLoads(nodes), Allocated), Sum(OnlineLoads(nodes), Total)) == -1
  {
    hide Usage;
    var a := Node("a", "p", "allocated", MAX_INT64, MAX_INT64, 0, "", true);
    var b := a.(name := "b");
    var c := Node("c", "p", "idle", 0, 102, 0, "", true);
    nodes := [a, b, c];
    LoadsOfThree(a, b, c);
    hide OnlineLoads;
    SumOfThree(LoadOf(a), LoadOf(b), LoadOf(c), Allocated);
    SumOfThree(LoadOf(a), LoadOf(b), LoadOf(c), Total);
    UsageMinusOne();
  }

  lemma LoadsOfThree(a: Node, b: Node, c: Node)
    requires a.online && b.online && c.online
    ensures OnlineLoads([a, b, c]) == {LoadOf(a)} + {LoadOf(b)} + {LoadOf(c)}
  {
    var nodes := [a, b, c];
    assert nodes[0] == a && nodes[1] == b && nodes[2] == c;
  }

  lemma UsageMinusOne()
    ensures Usage(2 * MAX_INT64, 2 * MAX_INT64 + 102) == -1
  {
    assert Wrap(2 * MAX_INT64) == -2 && Wrap(2 * MAX_INT64 + 102) == 100;
    assert Wrap(-200) == -200 && Wrap(-150) == -150;
  }

  lemma SumOfThree(a: Load, b: Load, c: Load, f: Load -> int)
    requires a != b && b != c && a != c
    ensures Sum({a} + {b} + {c}, f) == f(a) + f(b) + f(c)
  {
    SumWith({a} + {b}, f, c);
    SumWith({a}, f, b);
    SumWith({}, f, a);
    assert {} + {a} == {a};
  }

  // ---------------------------------------------------------------------------------------
  // What the counts and sums are.

  /** The online nodes, their allocated CPUs and all their CPUs, one node after the other. */
  datatype Tally = Tally(online: int, used: int, total: int)

  function TallyOf(nodes: seq<Node>): Tally {
    if nodes == [] then Tally(0, 0, 0)
    else
      var t, n := TallyOf(nodes[..|nodes| - 1]), nodes[|nodes| - 1];
      if n.online then Tally(t.online + 1, t.used + n.allocatedCpus, t.total + n.totalCpus) else t
  }

  ghost function LoadTally(s: set<Load>): Tally {
    Tally(|s|, Sum(s, Allocated), Sum(s, Total))
  }

  /** For nodes with different names the sums are those over the list. */
  lemma {:induction false} SumsAreTallied(nodes: seq<Node>)
    requires forall i, j | 0 <= i < j < |nodes| :: nodes[i].name != nodes[j].name
    ensures LoadTally(OnlineLoads(nodes)) == TallyOf(nodes)
  {
    hide OnlineLoads, LoadTally, LoadOf;
    if nodes == [] {
      NoLoads();
    } else {
      var front, last := nodes[..|nodes| - 1], nodes[|nodes| - 1];
      assert nodes == front + [last];
      SumsAreTallied(front);
      LoadsWith(front, last);
      OneMoreLoad(OnlineLoads(front), last);
    }
  }

  lemma NoLoads()
    ensures LoadTally(OnlineLoads([])) == Tally(0, 0, 0)
  {
  }

  lemma OneMoreLoad(s: set<Load>, n: Node)
    requires LoadOf(n) !in s
    ensures var t := LoadTally(s);
      LoadTally(s + if n.online then {LoadOf(n)} else {}) ==
        if n.online then Tally(t.online + 1, t.used + n.allocatedCpus, t.total + n.totalCpus) else t
  {
    if n.online {
      SumWith(s, Allocated, LoadOf(n));
      SumWith(s, Total, LoadOf(n));
    } else {
      assert s + {} == s;
    }
  }

  lemma LoadsWith(front: seq<Node>, last: Node)
    requires forall i | 0 <= i < |front| :: front[i].name != last.name
    ensures LoadOf(last) !in OnlineLoads(front)
    ensures OnlineLoads(front + [last]) == OnlineLoads(front) + if last.online then {LoadOf(last)} else {}
  {
    var nodes := front + [last];
    assert nodes[|front|] == last && forall i | 0 <= i < |front| :: nodes[i] == front[i];
  }

  lemma {:induction false} CountsStates(states: seq<string>, state: string)
    ensures Count(states, state) == |set i | 0 <= i < |states| && ToUpper(states[i]) == state|
  {
    hide ToUpper;
    if states != [] {
      var front, last := states[..|states| - 1], |states| - 1;
      CountsStates(front, state);
      var before := set i | 0 <= i < |front| && ToUpper(front[i]) == state;
      assert (set i | 0 <= i < |states| && ToUpper(states[i]) == state) ==
        before + if ToUpper(states[last]) == state then {last} else {};
    }
  }

  /** The totals of a partition are those of any two parts of it, and of one node its own. */
  lemma TotalsOfParts(a: set<Node>, b: set<Node>, p: Partition, q: Partition, r: Partition)
    requires a !! b && IsTotal(p, a) && IsTotal(q, b) && IsTotal(r, a + b)
    ensures r.nodeCount == p.nodeCount + q.nodeCount && r.onlineNodes == p.onlineNodes + q.onlineNodes
    ensures r.allocatedCpus == p.allocatedCpus + q.allocatedCpus
    ensures r.totalCpus == p.totalCpus + q.totalCpus && r.memoryMb == p.memoryMb + q.memoryMb
  {
    SumOfParts(a, b, AllocatedCpus);
    SumOfParts(a, b, TotalCpus);
    SumOfParts(a, b, MemoryMb);
    assert OnlineIn(a + b) == OnlineIn(a) + OnlineIn(b);
  }

  lemma TotalsOfOne(n: Node, p: Partition)
    requires IsTotal(p, {n})
    ensures p.nodeCount == 1 && p.onlineNodes == if n.online then 1 else 0
    ensures p.allocatedCpus == n.allocatedCpus && p.totalCpus == n.totalCpus && p.memoryMb == n.memoryMb
  {
    SumOfOne(n, AllocatedCpus);
    SumOfOne(n, TotalCpus);
    SumOfOne(n, MemoryMb);
    assert OnlineIn({n}) == if n.online then {n} else {};
  }

  // ---------------------------------------------------------------------------------------
  // The partitions.

  datatype Partition = Partition(name: string, nodeCount: nat, onlineNodes: nat, allocatedCpus: int64, totalCpus: int64,
                                 memoryMb: int64, cpuUtilization: int)

  datatype PartitionError = NameMissing | InvalidResources | InvalidText | Conflict | TooLarge

  predicate Named(n: Node) {
    n.name != "" && n.partition != ""
  }

  predicate GoodResources(n: Node) {
    0 <= n.allocatedCpus <= n.totalCpus && n.memoryMb >= 0
  }

  predicate GoodNode(n: Node) {
    Named(n) && GoodResources(n) && ValidDetails([n.partition, n.name])
  }

  /** A node is described in the same way wherever it is mentioned in one partition. */
  ghost predicate OneDescription(nodes: seq<Node>) {
    forall i, j | 0 <= i < |nodes| && 0 <= j < |nodes| && nodes[i].partition == nodes[j].partition
      && nodes[i].name == nodes[j].name ::
      nodes[i] == nodes[j]
  }

  /** The distinct nodes of a partition. */
  ghost function Members(nodes: seq<Node>, partition: string): set<Node> {
    set n | n in nodes && n.partition == partition
  }

  ghost function OnlineIn(s: set<Node>): set<Node> {
    set n | n in s && n.online
  }

  function AllocatedCpus(n: Node): int { n.allocatedCpus }
  function TotalCpus(n: Node): int { n.totalCpus }
  function MemoryMb(n: Node): int { n.memoryMb }

  ghost predicate Fits(s: set<Node>) {
    Sum(s, TotalCpus) <= MAX_INT64 && Sum(s, MemoryMb) <= MAX_INT64
  }

  /** The totals of a set of nodes. */
  ghost predicate IsTotal(p: Partition, s: set<Node>) {
    && p.nodeCount == |s| && p.onlineNodes == |OnlineIn(s)|
    && p.allocatedCpus == Sum(s, AllocatedCpus) && p.totalCpus == Sum(s, TotalCpus) && p.memoryMb == Sum(s, MemoryMb)
    && IsUtilization(p.allocatedCpus, p.totalCpus, p.cpuUtilization)
  }

  predicate IsUtilization(used: int, total: int, utilization: int) {
    && (total > 0 ==> IsPercentage(used, total, utilization))
    && (total <= 0 ==> utilization == 0)
    && (0 <= used <= total ==> 0 <= utilization <= 100)
  }

  ghost predicate IsEntryOf(p: Partition, nodes: seq<Node>) {
    Members(nodes, p.name) != {} && IsTotal(p, Members(nodes, p.name))
  }

  predicate PartitionLess(a: Partition, b: Partition) {
    StringLess(a.name, b.name)
  }

  /** One entry for each partition, in the order of the names, with the totals of its distinct nodes. */
  ghost predicate IsPartitionList(partitions: seq<Partition>, nodes: seq<Node>) {
    && Ascending(partitions, PartitionLess)
    && (forall i | 0 <= i < |nodes| :: exists p :: p in partitions && p.name == nodes[i].partition)
    && forall p | p in partitions :: IsEntryOf(p, nodes)
  }

  class Totals {
    var allocatedCpus: int64
    var totalCpus: int64
    var memoryMb: int64

    constructor ()
      ensures allocatedCpus == totalCpus == memoryMb == 0
    {
      allocatedCpus, totalCpus, memoryMb := 0, 0, 0;
    }

    /** `addPartitionResources`: nothing is added when a sum would leave the 64-bit range. */
    method Add(node: Node) returns (ok: bool)
      requires allocatedCpus >= 0 && totalCpus >= 0 && memoryMb >= 0
      modifies this
      ensures ok <==> (old(allocatedCpus) + node.allocatedCpus <= MAX_INT64
                       && old(totalCpus) + node.totalCpus <= MAX_INT64
                       && old(memoryMb) + node.memoryMb <= MAX_INT64)
      ensures var n := if ok then 1 else 0;
        && allocatedCpus == old(allocatedCpus) + n * node.allocatedCpus
        && totalCpus == old(totalCpus) + n * node.totalCpus
        && memoryMb == old(memoryMb) + n * node.memoryMb
    {
      if node.allocatedCpus > MAX_INT64 - allocatedCpus || node.totalCpus > MAX_INT64 - totalCpus
        || node.memoryMb > MAX_INT64 - memoryMb {
        return false;
      }
      allocatedCpus := allocatedCpus + node.allocatedCpus;
      totalCpus := totalCpus + node.totalCpus;
      memoryMb := memoryMb + node.memoryMb;
      return true;
    }
  }

  type Nodes = map<string, Node>

  /** The maps filled by the first loop. */
  ghost predicate Grouped(m: map<string, Nodes>, nodes: seq<Node>) {
    && (forall i | 0 <= i < |nodes| :: GroupedNode(m, nodes[i]))
    && (forall p | p in m :: m[p] != map[])
    && (forall p, name | p in m && name in m[p] ::
      m[p][name].name == name && m[p][name].partition == p && m[p][name] in nodes)
  }

  ghost predicate GroupedNode(m: map<string, Nodes>, n: Node) {
    n.partition in m && n.name in m[n.partition] && m[n.partition][n.name] == n
  }

  /** What an error says of the nodes. */
  ghost predicate Explains(error: PartitionError, nodes: seq<Node>) {
    match error
    case NameMissing => exists i :: 0 <= i < |nodes| && !Named(nodes[i])
    case InvalidResources => exists i :: 0 <= i < |nodes| && !GoodResources(nodes[i])
    case InvalidText => exists i :: 0 <= i < |nodes| && !ValidDetails([nodes[i].partition, nodes[i].name])
    case Conflict => !OneDescription(nodes)
    case TooLarge => exists i :: 0 <= i < |nodes| && !Fits(Members(nodes, nodes[i].partition))
  }

  method GroupNodes(nodes: seq<Node>) returns (r: Result<map<string, Nodes>, PartitionError>)
    ensures r.Ok? <==> (forall i | 0 <= i < |nodes| :: GoodNode(nodes[i])) && OneDescription(nodes)
    ensures r.Ok? ==> Grouped(r.value, nodes)
    ensures r.Err? ==> r.error != TooLarge && Explains(r.error, nodes)
  {
    hide ValidDetails, Grouped, OneDescription;
    var byPartition: map<string, Nodes> := map[];
    NothingGrouped();
    for i := 0 to |nodes|
      invariant forall j | 0 <= j < i :: GoodNode(nodes[j])
      invariant Grouped(byPartition, nodes[..i])
    {
      var node := nodes[i];
      assert nodes[..i + 1] == nodes[..i] + [node];
      if node.name == "" || node.partition == "" {
        return Err(NameMissing);
      }
      if node.totalCpus < 0 || node.allocatedCpus < 0 || node.allocatedCpus > node.totalCpus || node.memoryMb < 0 {
        return Err(InvalidResources);
      }
      if !ValidDetails([node.partition, node.name]) {
        return Err(PartitionError.InvalidText);
      }
      var partitionNodes := if node.partition in byPartition then byPartition[node.partition] else map[];
      if node.name in partitionNodes && partitionNodes[node.name] != node {
        TwoDescriptions(byPartition, nodes, i);
        return Err(PartitionError.Conflict);
      }
      OneMoreGrouped(byPartition, nodes[..i], node, partitionNodes);
      byPartition := byPartition[node.partition := partitionNodes[node.name := node]];
    }
    assert nodes[..|nodes|] == nodes;
    GroupedDescription(byPartition, nodes);
    return Ok(byPartition);
  }

  lemma NothingGrouped()
    ensures Grouped(map[], [])
  {
  }

  lemma TwoDescriptions(m: map<string, Nodes>, nodes: seq<Node>, i: nat)
    requires i < |nodes| && Grouped(m, nodes[..i])
    requires nodes[i].partition in m && nodes[i].name in m[nodes[i].partition]
      && m[nodes[i].partition][nodes[i].name] != nodes[i]
    ensures !OneDescription(nodes)
  {
  }

  lemma OneMoreGrouped(m: map<string, Nodes>, nodes: seq<Node>, node: Node, partitionNodes: Nodes)
    requires Grouped(m, nodes)
    requires partitionNodes == if node.partition in m then m[node.partition] else map[]
    requires node.name in partitionNodes ==> partitionNodes[node.name] == node
    ensures Grouped(m[node.partition := partitionNodes[node.name := node]], nodes + [node])
  {
    var m' := m[node.partition := partitionNodes[node.name := node]];
    assert node.name in m'[node.partition];
    forall i | 0 <= i < |nodes + [node]| ensures GroupedNode(m', (nodes + [node])[i]) {
      if i < |nodes| { assert GroupedNode(m, nodes[i]); }
    }
  }

  lemma GroupedDescription(m: map<string, Nodes>, nodes: seq<Node>)
    requires Grouped(m, nodes)
    ensures OneDescription(nodes)
  {
  }

  /** The entry for one partition; the nodes come in whatever order the map gives them. */
  method TotalOf(name: string, nodes: Nodes) returns (r: Result<Partition, PartitionError>)
    requires forall n | n in nodes :: nodes[n].name == n && GoodResources(nodes[n])
    ensures r.Ok? <==> Fits(nodes.Values)
    ensures r.Ok? ==> r.value.name == name && IsTotal(r.value, nodes.Values)
    ensures r.Err? ==> r.error == TooLarge
  {
    hide IsTotalOf, ValuesOf, Fits, IsTotal, Sum;
    var totals := new Totals();
    var onlineNodes := 0;
    NothingTotalled(nodes);
    var rest := nodes.Keys;
    assert nodes.Keys - rest == {};
    while rest != {}
      invariant rest <= nodes.Keys
      invariant IsTotalOf(ValuesOf(nodes, nodes.Keys - rest), onlineNodes, totals.allocatedCpus, totals.totalCpus,
                          totals.memoryMb)
      decreases rest
    {
      var key :| key in rest;
      ghost var done := nodes.Keys - rest;
      OneMoreValue(nodes, done, key);
      OneMoreTotalled(ValuesOf(nodes, done), nodes[key], onlineNodes, totals.allocatedCpus, totals.totalCpus,
                      totals.memoryMb);
      if nodes[key].online {
        onlineNodes := onlineNodes + 1;
      }
      var ok := totals.Add(nodes[key]);
      if !ok {
        MoreThanFits(nodes, done, key);
        return Err(TooLarge);
      }
      assert nodes.Keys - (rest - {key}) == done + {key};
      rest := rest - {key};
    }
    assert nodes.Keys - rest == nodes.Keys;
    AllTotalled(nodes, onlineNodes, totals.allocatedCpus, totals.totalCpus, totals.memoryMb);
    var utilization := 0;
    if totals.totalCpus > 0 {
      utilization := RoundedPercentage(totals.allocatedCpus, totals.totalCpus);
    }
    return Ok(Partition(name, |nodes|, onlineNodes, totals.allocatedCpus, totals.totalCpus, totals.memoryMb,
              utilization));
  }

  /** `math.Round` of the percentage, over the reals. */
  method RoundedPercentage(used: int, total: int) returns (rounded: int)
    requires 0 <= used && 0 < total
    ensures IsPercentage(used, total, rounded)
    ensures used <= total ==> 0 <= rounded <= 100
  {
    hide Times;
    var percentage := used as real * 100.0 / total as real;
    rounded := (percentage + 0.5).Floor;
    QuotientTimes(used, total);
    RoundedTimes(used, total, percentage, rounded);
    NearestIsUnique(used, total, rounded);
    if used <= total { NearestIsPercentage(used, total); }
  }

  function Times(x: real, y: real): real { x * y }

  lemma QuotientTimes(used: int, total: int)
    requires 0 < total
    ensures Times(used as real * 100.0 / total as real, total as real) == (used * 100) as real
  {
  }

  lemma RoundedTimes(used: int, total: int, percentage: real, rounded: int)
    requires 0 < total && Times(percentage, total as real) == (used * 100) as real
    requires rounded as real <= percentage + 0.5 < rounded as real + 1.0
    ensures IsPercentage(used, total, rounded)
  {
    hide Times;
    TimesAll(rounded as real, percentage, total as real);
    ProductOfReals(rounded, total);
    Whole(rounded * total, used * 100, total);
  }

  lemma ProductOfReals(a: int, b: int)
    ensures Times(a as real, b as real) == (a * b) as real
  {
  }

  lemma Whole(a: int, b: int, t: int)
    requires 2.0 * a as real <= 2.0 * b as real + t as real < 2.0 * a as real + 2.0 * t as real
    ensures 2 * a <= 2 * b + t < 2 * a + 2 * t
  {
  }

  lemma TimesAll(r: real, p: real, t: real)
    requires t > 0.0 && r <= p + 0.5 < r + 1.0
    ensures 2.0 * Times(r, t) <= 2.0 * Times(p, t) + t < 2.0 * Times(r, t) + 2.0 * t
  {
    hide Times;
    TimesOrder(r, p + 0.5, t);
    TimesOrder(p + 0.5, r + 1.0, t);
    TimesAdds(p, 0.5, t);
    TimesAdds(r, 1.0, t);
  }

  lemma TimesOrder(a: real, b: real, t: real)
    requires t > 0.0
    ensures a <= b ==> Times(a, t) <= Times(b, t)
    ensures a < b ==> Times(a, t) < Times(b, t)
  {
  }

  lemma TimesAdds(a: real, b: real, t: real)
    ensures Times(a + b, t) == Times(a, t) + Times(b, t)
    ensures Times(0.5, t) == 0.5 * t && Times(1.0, t) == t
  {
  }

  ghost function ValuesOf(nodes: Nodes, names: set<string>): set<Node> {
    set name | name in names && name in nodes :: nodes[name]
  }

  ghost predicate IsTotalOf(s: set<Node>, online: nat, allocatedCpus: int, totalCpus: int, memoryMb: int) {
    && online == |OnlineIn(s)|
    && 0 <= allocatedCpus == Sum(s, AllocatedCpus) && 0 <= totalCpus == Sum(s, TotalCpus)
      && 0 <= memoryMb == Sum(s, MemoryMb)
  }

  lemma NothingTotalled(nodes: Nodes)
    ensures IsTotalOf(ValuesOf(nodes, {}), 0, 0, 0, 0)
  {
  }

  lemma OneMoreValue(nodes: Nodes, done: set<string>, key: string)
    requires key in nodes && key !in done && forall n | n in nodes :: nodes[n].name == n
    ensures nodes[key] !in ValuesOf(nodes, done)
    ensures ValuesOf(nodes, done + {key}) == ValuesOf(nodes, done) + {nodes[key]}
  {
  }

  lemma OneMoreTotalled(s: set<Node>, n: Node, online: nat, allocatedCpus: int, totalCpus: int, memoryMb: int)
    requires IsTotalOf(s, online, allocatedCpus, totalCpus, memoryMb) && n !in s && GoodResources(n)
    ensures 0 <= allocatedCpus == Sum(s, AllocatedCpus) && 0 <= totalCpus == Sum(s, TotalCpus)
      && 0 <= memoryMb == Sum(s, MemoryMb)
    ensures IsTotalOf(s + {n}, online + if n.online then 1 else 0,
                      allocatedCpus + n.allocatedCpus, totalCpus + n.totalCpus, memoryMb + n.memoryMb)
  {
    SumWith(s, AllocatedCpus, n);
    SumWith(s, TotalCpus, n);
    SumWith(s, MemoryMb, n);
    assert OnlineIn(s + {n}) == OnlineIn(s) + if n.online then {n} else {};
  }

  /** What is refused is more than the whole partition may have. */
  lemma MoreThanFits(nodes: Nodes, done: set<string>, key: string)
    requires key in nodes && key !in done && forall n | n in nodes :: nodes[n].name == n && GoodResources(nodes[n])
    requires var s := ValuesOf(nodes, done);
      Sum(s, AllocatedCpus) + nodes[key].allocatedCpus > MAX_INT64
        || Sum(s, TotalCpus) + nodes[key].totalCpus > MAX_INT64
      || Sum(s, MemoryMb) + nodes[key].memoryMb > MAX_INT64
    ensures !Fits(nodes.Values)
  {
    var s := ValuesOf(nodes, done);
    OneMoreValue(nodes, done, key);
    SumWith(s, AllocatedCpus, nodes[key]);
    SumWith(s, TotalCpus, nodes[key]);
    SumWith(s, MemoryMb, nodes[key]);
    SumAtMost(s + {nodes[key]}, AllocatedCpus, TotalCpus);
    SumGrows(s + {nodes[key]}, nodes.Values, TotalCpus);
    SumGrows(s + {nodes[key]}, nodes.Values, MemoryMb);
  }

  lemma AllTotalled(nodes: Nodes, online: nat, allocatedCpus: int64, totalCpus: int64, memoryMb: int64)
    requires IsTotalOf(ValuesOf(nodes, nodes.Keys), online, allocatedCpus, totalCpus, memoryMb)
    requires forall n | n in nodes :: nodes[n].name == n
    ensures Fits(nodes.Values)
    ensures 0 <= allocatedCpus
    ensures forall name, utilization | IsUtilization(allocatedCpus, totalCpus, utilization) ::
      IsTotal(Partition(name, |nodes|, online, allocatedCpus, totalCpus, memoryMb, utilization), nodes.Values)
  {
    assert ValuesOf(nodes, nodes.Keys) == nodes.Values;
    ValuesSize(nodes, nodes.Keys);
    assert |nodes| == |nodes.Keys|;
  }

  lemma {:induction false} ValuesSize(nodes: Nodes, names: set<string>)
    requires names <= nodes.Keys && forall n | n in nodes :: nodes[n].name == n
    ensures |ValuesOf(nodes, names)| == |names|
  {
    if names != {} {
      var key :| key in names;
      ValuesSize(nodes, names - {key});
      OneMoreValue(nodes, names - {key}, key);
      assert names - {key} + {key} == names;
    }
  }

  /** Fails exactly when a node is unacceptable or described in two ways, or a sum is too large. */
  method AggregatePartitions(nodes: seq<Node>) returns (r: Result<seq<Partition>, PartitionError>)
    ensures r.Ok? <==> (forall i | 0 <= i < |nodes| :: GoodNode(nodes[i])) && OneDescription(nodes) && AllFit(nodes)
    ensures r.Ok? ==> IsPartitionList(r.value, nodes)
    ensures r.Err? ==> Explains(r.error, nodes)
  {
    hide Grouped, OneDescription, Fits, IsTotal, GoodNode, Members;
    var grouped := GroupNodes(nodes);
    if grouped.Err? {
      return Err(grouped.error);
    }
    var byPartition := grouped.value;
    var partitions: seq<Partition> := [];
    var rest := byPartition.Keys;
    while rest != {}
      invariant rest <= byPartition.Keys
      invariant Entries(partitions, nodes, byPartition.Keys - rest)
      invariant forall name | name in byPartition && name !in rest :: Fits(Members(nodes, name))
      decreases rest
    {
      var name :| name in rest;
      PartitionIn(byPartition, nodes, name);
      var total := TotalOf(name, byPartition[name]);
      if total.Err? {
        return Err(total.error);
      }
      OneMoreEntry(partitions, nodes, byPartition.Keys - rest, total.value);
      assert byPartition.Keys - rest + {name} == byPartition.Keys - (rest - {name});
      rest := rest - {name};
      partitions := partitions + [total.value];
    }
    assert byPartition.Keys - rest == byPartition.Keys;
    forall i | 0 <= i < |nodes| ensures nodes[i].partition in byPartition {
      InItsPartition(byPartition, nodes, i);
    }
    SortedEntries(partitions, nodes, byPartition.Keys);
    return Ok(SortBy(partitions, PartitionLess));
  }

  ghost predicate AllFit(nodes: seq<Node>) {
    forall i | 0 <= i < |nodes| :: Fits(Members(nodes, nodes[i].partition))
  }

  /** One entry for each of these partitions. */
  ghost predicate Entries(partitions: seq<Partition>, nodes: seq<Node>, names: set<string>) {
    && (forall i | 0 <= i < |partitions| :: partitions[i].name in names)
    && (forall name | name in names :: exists i :: 0 <= i < |partitions| && partitions[i].name == name)
    && (forall i, j | 0 <= i < j < |partitions| :: partitions[i].name != partitions[j].name)
    && (forall i | 0 <= i < |partitions| :: IsEntryOf(partitions[i], nodes))
  }

  lemma OneMoreEntry(partitions: seq<Partition>, nodes: seq<Node>, names: set<string>, p: Partition)
    requires Entries(partitions, nodes, names) && p.name !in names && IsEntryOf(p, nodes)
    ensures Entries(partitions + [p], nodes, names + {p.name})
  {
    hide IsEntryOf;
    var all := partitions + [p];
    assert all[|partitions|] == p;
    forall name | name in names + {p.name} ensures exists i :: 0 <= i < |all| && all[i].name == name {
      if name != p.name {
        var i :| 0 <= i < |partitions| && partitions[i].name == name;
        assert all[i].name == name;
      }
    }
  }

  lemma PartitionIn(m: map<string, Nodes>, nodes: seq<Node>, p: string)
    requires Grouped(m, nodes) && p in m
    requires forall i | 0 <= i < |nodes| :: GoodNode(nodes[i])
    ensures m[p].Values == Members(nodes, p) && Members(nodes, p) != {}
    ensures forall n | n in m[p] :: m[p][n].name == n && GoodResources(m[p][n])
    ensures exists i :: 0 <= i < |nodes| && nodes[i].partition == p
  {
  }

  lemma InItsPartition(m: map<string, Nodes>, nodes: seq<Node>, i: nat)
    requires Grouped(m, nodes) && i < |nodes|
    ensures nodes[i].partition in m
  {
  }

  lemma SortedEntries(partitions: seq<Partition>, nodes: seq<Node>, names: set<string>)
    requires Entries(partitions, nodes, names)
    requires forall i | 0 <= i < |nodes| :: nodes[i].partition in names
    ensures IsPartitionList(SortBy(partitions, PartitionLess), nodes)
  {
    hide IsTotal, Members, StringLess;
    var sorted := SortBy(partitions, PartitionLess);
    PartitionOrder(Elements(partitions));
    SortBySorts(partitions, PartitionLess);
    assert forall p :: p in sorted <==> p in Elements(sorted);
    forall p | p in sorted ensures IsEntryOf(p, nodes) {
      assert p in Elements(partitions);
    }
    forall i | 0 <= i < |nodes| ensures exists p :: p in sorted && p.name == nodes[i].partition {
      var k :| 0 <= k < |partitions| && partitions[k].name == nodes[i].partition;
      assert partitions[k] in Elements(partitions);
    }
  }

  lemma PartitionOrder(s: set<Partition>)
    requires forall p, q | p in s && q in s && p.name == q.name :: p == q
    ensures OrderOn(PartitionLess, s)
  {
    forall p ensures !PartitionLess(p, p) { StringLessIrreflexive(p.name); }
    forall p, q, r | PartitionLess(p, q) && PartitionLess(q, r) ensures PartitionLess(p, r) {
      StringLessTransitive(p.name, q.name, r.name);
    }
    forall p, q | p in s && q in s && p != q ensures PartitionLess(p, q) || PartitionLess(q, p) {
      StringLessTotal(p.name, q.name);
    }
  }
}
