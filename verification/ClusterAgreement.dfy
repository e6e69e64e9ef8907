/**
 The node list, the metrics and the partitions agree: they come from the same records, in any order and
 with any repetition.
 */
module ClusterAgreement {
  import opened Wrappers
  import opened Text
  import opened Int64
  import opened Sets
  import opened Sorting
  import opened ClusterNodes
  import opened ClusterViews

  ghost predicate Readable(records: seq<Record>, lower: CaseMap) {
    (forall i | 0 <= i < |records| :: Acceptable(records[i])) && Agreeing(Mentions(records, lower))
  }

  // ---------------------------------------------------------------------------------------
  // What a successful read rules out.

  lemma {:induction false} Mentioner(records: seq<Record>, n: Node, lower: CaseMap) returns (k: nat, j: nat)
    requires n in Mentions(records, lower)
    ensures k < |records| && j < |records[k].names| && n == NodeOf(records[k], records[k].names[j], lower)
  {
    hide NodeOf;
    var last := |records| - 1;
    if n in NodesOf(records[last], lower) {
      k, j := last, 0;
      while NodeOf(records[last], records[last].names[j], lower) != n
        invariant j < |records[last].names| && n in NodesOf(records[last], lower)[j..]
        decreases |records[last].names| - j
      {
        j := j + 1;
      }
    } else {
      k, j := Mentioner(records[..last], n, lower);
    }
  }

  lemma {:induction false} IsMentioned(records: seq<Record>, k: nat, j: nat, lower: CaseMap)
    requires k < |records| && j < |records[k].names|
    ensures NodeOf(records[k], records[k].names[j], lower) in Mentions(records, lower)
  {
    hide NodeOf;
    if k < |records| - 1 {
      IsMentioned(records[..|records| - 1], k, j, lower);
    } else {
      assert NodesOf(records[k], lower)[j] == NodeOf(records[k], records[k].names[j], lower);
    }
  }

  /** A partition can object to nothing but an empty name. */
  predicate FitsButForName(n: Node) {
    GoodResources(n) && n.totalCpus > 0 && n.partition != "" && ValidDetails([n.partition, n.name])
  }

  /** After a successful read neither aggregation can find two descriptions of a node, and the only
      thing a partition can object to in a node is an empty name. */
  lemma ReadNodesAgree(records: seq<Record>, nodes: seq<Node>, lower: CaseMap)
    requires Readable(records, lower) && IsNodeList(nodes, Mentions(records, lower))
    ensures SameLoads(nodes)
    ensures OneDescription(Mentions(records, lower))
    ensures forall n | n in Mentions(records, lower) :: FitsButForName(n)
  {
    hide ValidDetail, Online;
    forall n | n in Mentions(records, lower) ensures FitsButForName(n) {
      var k, j := Mentioner(records, n, lower);
      var r := records[k];
      var fields := [r.partition, r.gres] + r.names + r.states;
      assert fields[0] == n.partition && fields[2 + j] == n.name;
    }
    forall i, j | 0 <= i < |nodes| && 0 <= j < |nodes| && nodes[i].name == nodes[j].name ensures nodes[i] == nodes[j] {
      OneNodeEach(nodes, i, j);
    }
  }

  lemma OneNodeEach(nodes: seq<Node>, i: nat, j: nat)
    requires Ascending(nodes, NameLess) && i < |nodes| && j < |nodes| && nodes[i].name == nodes[j].name
    ensures i == j
  {
    if i != j {
      InSomeOrder(nodes, NameLess, i, j);
      StringLessIrreflexive(nodes[i].name);
    }
  }

  lemma EntryMention(n: Node, mentions: seq<Node>) returns (k: nat)
    requires IsEntry(n, mentions)
    ensures k < |mentions| && n.name == mentions[k].name && Details(n) == Details(mentions[k])
  {
    hide Ascending, PartitionsOf, Join;
    k :| 0 <= k < |mentions| && n.name == mentions[k].name && Details(n) == Details(mentions[k]);
  }

  /** The node list has the loads of the records, each once. */
  lemma SameOnlineLoads(nodes: seq<Node>, mentions: seq<Node>)
    requires Agreeing(mentions) && IsNodeList(nodes, mentions)
    ensures OnlineLoads(nodes) == OnlineLoads(mentions)
  {
    hide Agreeing, Details, IsEntry, Ascending;
    forall i | 0 <= i < |nodes| ensures Shown(nodes[i], mentions) {
      var k := EntryMention(nodes[i], mentions);
    }
    forall j | 0 <= j < |mentions| ensures Shown(mentions[j], nodes) {
      assert mentions[j].name in Names(nodes);
      var i :| 0 <= i < |nodes| && nodes[i].name == mentions[j].name;
      var k := EntryMention(nodes[i], mentions);
      Agree(mentions, j, k);
    }
    ShownLoads(nodes, mentions);
    ShownLoads(mentions, nodes);
  }

  /** Mentioned with the same details. */
  ghost predicate Shown(n: Node, nodes: seq<Node>) {
    exists j :: 0 <= j < |nodes| && Details(nodes[j]) == Details(n)
  }

  lemma Agree(mentions: seq<Node>, j: nat, k: nat)
    requires Agreeing(mentions) && j < |mentions| && k < |mentions| && mentions[j].name == mentions[k].name
    ensures Details(mentions[j]) == Details(mentions[k])
  {
  }

  lemma ShownLoads(a: seq<Node>, b: seq<Node>)
    requires forall i | 0 <= i < |a| :: Shown(a[i], b)
    ensures OnlineLoads(a) <= OnlineLoads(b)
  {
  }

  // ---------------------------------------------------------------------------------------
  // The two views, as the client builds them.

  /** The metrics fail only where reading the nodes fails.  The usage is the nearest percentage exactly
      when `ShownRight`, and then within 0 to 100; the sums may exceed 64 bits. */
  method ReadMetrics(records: seq<Record>, jobStates: seq<string>, lower: CaseMap)
    returns (r: Result<Metrics, ClusterNodes.Error>)
    ensures r.Ok? <==> Readable(records, lower)
    ensures r.Ok? ==> r.value.onlineNodes == |OnlineLoads(Mentions(records, lower))|
    ensures r.Ok? ==> UsageOf(OnlineLoads(Mentions(records, lower)), r.value.cpuUsage)
    ensures r.Ok? ==>
      r.value.runningJobs == Count(jobStates, "RUNNING") && r.value.queuedJobs == Count(jobStates, "PENDING")
  {
    hide Acceptable, Agreeing, IsNodeList, SameLoads, OnlineLoads, Usage, UsageOf, Count;
    var read := ParseNodes(records, lower);
    if read.Err? {
      return Err(read.error);
    }
    ReadNodesAgree(records, read.value.nodes, lower);
    SameOnlineLoads(read.value.nodes, Mentions(records, lower));
    LoadSums(Mentions(records, lower));
    UsageShown(OnlineLoads(Mentions(records, lower)));
    var metrics := AggregateMetrics(read.value.nodes, jobStates);
    return Ok(metrics.value);
  }

  lemma LoadSums(mentions: seq<Node>)
    requires forall n | n in mentions :: FitsButForName(n)
    ensures forall l | l in OnlineLoads(mentions) :: 0 <= l.allocatedCpus <= l.totalCpus && 0 < l.totalCpus
  {
    forall l | l in OnlineLoads(mentions) ensures 0 <= l.allocatedCpus <= l.totalCpus && 0 < l.totalCpus {
      var i :| 0 <= i < |mentions| && mentions[i].online && LoadOf(mentions[i]) == l;
      assert mentions[i] in mentions;
    }
  }

  /** What the usage shown says about a set of online nodes. */
  ghost predicate UsageOf(s: set<Load>, usage: int) {
    var used, total := Sum(s, Allocated), Sum(s, Total);
    if s == {} then usage == 0
    else
      && 0 <= used <= total && 0 < total && usage == Usage(used, total)
      && (IsPercentage(used, total, usage) <==> ShownRight(used, total))
      && (ShownRight(used, total) ==> 0 <= usage <= 100)
      && (100 * used + total / 2 <= MAX_INT64 ==> ShownRight(used, total))
      && (Wrap(total) <= 0 ==> usage == 0)
  }

  lemma UsageShown(s: set<Load>)
    requires forall l | l in s :: 0 <= l.allocatedCpus <= l.totalCpus && 0 < l.totalCpus
    ensures UsageOf(s, Usage(Sum(s, Allocated), Sum(s, Total)))
  {
    if s != {} {
      hide IsPercentage, ShownRight, Usage;
      SumAtMost(s, Allocated, Total);
      SumGrows({}, s, Allocated);
      var l := Pick(s);
      SumWithout(s, Total, l);
      SumGrows({}, s - {l}, Total);
      UsageExactly(Sum(s, Allocated), Sum(s, Total));
    }
  }

  predicate AllNamed(mentions: seq<Node>) {
    forall n | n in mentions :: n.name != ""
  }

  datatype ViewError = Unread(read: ClusterNodes.Error) | Unsummed(sum: PartitionError)

  /** The partitions fail only where reading the nodes fails, on a node without a name, or where a
      partition's own sum is too large; otherwise every entry is the sum over the distinct nodes. */
  method ReadPartitions(records: seq<Record>, lower: CaseMap) returns (r: Result<seq<Partition>, ViewError>)
    ensures r.Ok? <==>
      Readable(records, lower) && AllNamed(Mentions(records, lower)) && AllFit(Mentions(records, lower))
    ensures r.Ok? ==> IsPartitionList(r.value, Mentions(records, lower))
    ensures r.Err? && r.error.Unread? <==> !Readable(records, lower)
    ensures r.Err? && r.error.Unsummed? ==> r.error.sum == NameMissing || r.error.sum == TooLarge
  {
    hide Acceptable, Agreeing, IsNodeList, SameLoads, OneDescription, AllFit, IsPartitionList, GoodNode, FitsButForName;
    var read := ParseNodes(records, lower);
    if read.Err? {
      return Err(Unread(read.error));
    }
    ReadNodesAgree(records, read.value.nodes, lower);
    GoodWhenNamed(Mentions(records, lower));
    var partitions := AggregatePartitions(read.value.partitionNodes);
    if partitions.Err? {
      OnlyNamesOrSizes(Mentions(records, lower), partitions.error);
      return Err(Unsummed(partitions.error));
    }
    return Ok(partitions.value);
  }

  lemma OnlyNamesOrSizes(mentions: seq<Node>, error: PartitionError)
    requires OneDescription(mentions) && Explains(error, mentions)
    requires forall n | n in mentions :: FitsButForName(n)
    ensures error == NameMissing || error == TooLarge
  {
    hide ValidDetails;
    assert forall i | 0 <= i < |mentions| :: FitsButForName(mentions[i]);
  }

  lemma GoodWhenNamed(mentions: seq<Node>)
    requires forall n | n in mentions :: FitsButForName(n)
    ensures (forall i | 0 <= i < |mentions| :: GoodNode(mentions[i])) <==> AllNamed(mentions)
  {
    hide ValidDetails;
    forall i | 0 <= i < |mentions| ensures GoodNode(mentions[i]) <==> mentions[i].name != "" {
      assert FitsButForName(mentions[i]);
    }
  }

  // ---------------------------------------------------------------------------------------
  // Order and repetition do not matter.

  lemma MentionsWithin(records: seq<Record>, others: seq<Record>, lower: CaseMap)
    requires Elements(records) <= Elements(others)
    ensures Elements(Mentions(records, lower)) <= Elements(Mentions(others, lower))
  {
    forall n | n in Mentions(records, lower) ensures n in Mentions(others, lower) {
      var k, j := Mentioner(records, n, lower);
      assert records[k] in Elements(others);
      var o :| 0 <= o < |others| && others[o] == records[k];
      IsMentioned(others, o, j, lower);
    }
  }

  /** The same records in another order, or repeated, are accepted alike and give the same nodes, the
      same loads and the same partitions. */
  lemma ViewsIgnoreOrder(records: seq<Record>, others: seq<Record>, lower: CaseMap)
    requires Elements(records) == Elements(others)
    ensures Readable(records, lower) == Readable(others, lower)
    ensures OnlineLoads(Mentions(records, lower)) == OnlineLoads(Mentions(others, lower))
    ensures Readable(records, lower) ==>
      forall a, b | IsNodeList(a, Mentions(records, lower)) && IsNodeList(b, Mentions(others, lower)) :: a == b
    ensures AllFit(Mentions(records, lower)) == AllFit(Mentions(others, lower))
    ensures forall a, b | IsPartitionList(a, Mentions(records, lower))
      && IsPartitionList(b, Mentions(others, lower)) :: a == b
  {
    hide IsNodeList, IsPartitionList, Agreeing, AllFit, OnlineLoads, Acceptable;
    MentionsWithin(records, others, lower);
    MentionsWithin(others, records, lower);
    AcceptableWithin(records, others);
    AcceptableWithin(others, records);
    var m, o := Mentions(records, lower), Mentions(others, lower);
    SameViews(m, o);
    SameViews(o, m);
    forall a, b | Agreeing(m) && IsNodeList(a, m) && IsNodeList(b, o) ensures a == b {
      NodeListIsUnique(a, b, m, o);
    }
    forall a, b | IsPartitionList(a, m) && IsPartitionList(b, o) ensures a == b {
      PartitionListIsUnique(a, b, m, o);
    }
  }

  lemma AcceptableWithin(records: seq<Record>, others: seq<Record>)
    requires Elements(others) <= Elements(records)
    ensures (forall i | 0 <= i < |records| :: Acceptable(records[i])) ==>
      forall i | 0 <= i < |others| :: Acceptable(others[i])
  {
    hide Acceptable;
    forall i | 0 <= i < |others| && forall k | 0 <= k < |records| :: Acceptable(records[k])
      ensures Acceptable(others[i])
    {
      assert others[i] in Elements(records);
    }
  }

  lemma SameViews(m: seq<Node>, o: seq<Node>)
    requires Elements(m) == Elements(o)
    ensures Agreeing(m) ==> Agreeing(o)
    ensures OnlineLoads(o) <= OnlineLoads(m)
    ensures AllFit(m) ==> AllFit(o)
    ensures forall p :: Members(m, p) == Members(o, p)
    ensures Names(o) <= Names(m)
    ensures forall name :: PartitionsOf(o, name) <= PartitionsOf(m, name)
  {
    hide Fits, Details, LoadOf;
    assert forall n :: n in m <==> n in Elements(m);
    assert forall n :: n in o <==> n in Elements(o);
    forall i | 0 <= i < |o| ensures exists j :: 0 <= j < |m| && m[j] == o[i] {
      assert o[i] in m;
    }
    assert forall p :: Members(m, p) == Members(o, p);
    forall i | 0 <= i < |o| && AllFit(m) ensures Fits(Members(o, o[i].partition)) {
      var j :| 0 <= j < |m| && m[j] == o[i];
      assert Members(m, m[j].partition) == Members(o, o[i].partition);
    }
  }

  lemma NodeListIsUnique(a: seq<Node>, b: seq<Node>, m: seq<Node>, o: seq<Node>)
    requires Elements(m) == Elements(o) && Agreeing(m) && IsNodeList(a, m) && IsNodeList(b, o)
    ensures a == b
  {
    hide Agreeing, IsEntry, StringLess;
    SameViews(m, o);
    SameViews(o, m);
    NodesWithin(a, b, m, o);
    NodesWithin(b, a, o, m);
    forall x, y | x in Elements(a) && y in Elements(a) && x.name == y.name ensures x == y {
      var i :| 0 <= i < |a| && a[i] == x;
      var j :| 0 <= j < |a| && a[j] == y;
      OneNodeEach(a, i, j);
    }
    NodeOrder(Elements(a));
    AscendingIsUnique(a, b, NameLess);
  }

  lemma NodesWithin(a: seq<Node>, b: seq<Node>, m: seq<Node>, o: seq<Node>)
    requires Elements(m) == Elements(o) && Agreeing(m) && IsNodeList(a, m) && IsNodeList(b, o) && Names(m) == Names(o)
    ensures Elements(a) <= Elements(b)
  {
    hide Agreeing, IsEntry, Ascending;
    forall n | n in Elements(a) ensures n in Elements(b) {
      var i :| 0 <= i < |a| && a[i] == n;
      assert a[i].name in Names(b);
      var j :| 0 <= j < |b| && b[j].name == a[i].name;
      EntryIsUnique(a[i], b[j], m, o);
      assert b[j] in Elements(b);
    }
  }

  lemma EntryIsUnique(x: Node, y: Node, m: seq<Node>, o: seq<Node>)
    requires Elements(m) == Elements(o) && Agreeing(m) && IsEntry(x, m) && IsEntry(y, o) && x.name == y.name
    ensures x == y
  {
    hide Agreeing, StringLess;
    SameViews(m, o);
    SameViews(o, m);
    var i := EntryMention(x, m);
    var j := EntryMention(y, o);
    assert o[j] in Elements(m);
    var k :| 0 <= k < |m| && m[k] == o[j];
    Agree(m, i, k);
    var p :| ListsPartitions(p, x, m);
    var q :| ListsPartitions(q, y, o);
    StringOrder(Elements(p));
    AscendingIsUnique(p, q, StringLess);
  }

  lemma NodeOrder(s: set<Node>)
    requires forall x, y | x in s && y in s && x.name == y.name :: x == y
    ensures OrderOn(NameLess, s)
  {
    forall x ensures !NameLess(x, x) { StringLessIrreflexive(x.name); }
    forall x, y, z | NameLess(x, y) && NameLess(y, z)
      ensures NameLess(x, z)
    {
      StringLessTransitive(x.name, y.name, z.name);
    }
    forall x, y | x in s && y in s && x != y
      ensures NameLess(x, y) || NameLess(y, x)
    {
      StringLessTotal(x.name, y.name);
    }
  }

  lemma PartitionListIsUnique(a: seq<Partition>, b: seq<Partition>, m: seq<Node>, o: seq<Node>)
    requires Elements(m) == Elements(o) && IsPartitionList(a, m) && IsPartitionList(b, o)
    ensures a == b
  {
    hide StringLess, IsEntryOf;
    PartitionsWithin(a, b, m, o);
    PartitionsWithin(b, a, o, m);
    forall x, y | x in Elements(a) && y in Elements(a) && x.name == y.name ensures x == y {
      var i :| 0 <= i < |a| && a[i] == x;
      var j :| 0 <= j < |a| && a[j] == y;
      if i != j {
        InSomeOrder(a, PartitionLess, i, j);
        StringLessIrreflexive(x.name);
      }
    }
    PartitionOrder(Elements(a));
    AscendingIsUnique(a, b, PartitionLess);
  }

  lemma PartitionsWithin(a: seq<Partition>, b: seq<Partition>, m: seq<Node>, o: seq<Node>)
    requires Elements(m) == Elements(o) && IsPartitionList(a, m) && IsPartitionList(b, o)
    ensures Elements(a) <= Elements(b)
  {
    hide Ascending, Sum;
    SameViews(m, o);
    forall p | p in Elements(a) ensures p in Elements(b) {
      assert IsEntryOf(p, m);
      var n :| n in Members(m, p.name);
      assert n in Members(o, p.name);
      var i :| 0 <= i < |o| && o[i] == n;
      var q :| q in b && q.name == o[i].partition;
      assert IsEntryOf(q, o);
      if p.totalCpus > 0 {
        NearestIsUnique(p.allocatedCpus, p.totalCpus, p.cpuUtilization);
        NearestIsUnique(p.allocatedCpus, p.totalCpus, q.cpuUtilization);
      }
      assert p == q;
    }
  }
}
