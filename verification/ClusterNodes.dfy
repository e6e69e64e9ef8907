/**
 The node list of internal/slurm/details.go: one entry for each node, built from records that name the
 same node once for each of its partitions.
 */
module ClusterNodes {
  import opened Wrappers
  import opened Text
  import opened Int64
  import opened Sorting

  /** A decoded JSON record. */
  datatype Record = Record(names: seq<string>, partition: string, states: seq<string>,
                           allocatedCpus: int64, totalCpus: int64, memory: int64, gres: string)

  datatype Node = Node(name: string, partition: string, state: string,
                       allocatedCpus: int64, totalCpus: int64, memoryMb: int64, gres: string, online: bool)

  datatype Snapshot = Snapshot(nodes: seq<Node>, partitionNodes: seq<Node>)

  datatype Error = Incomplete | InvalidCpus | InvalidMemory | InvalidText | Conflict

  const OFFLINE_PREFIXES := ["down", "fail", "unknown", "future", "powered_down", "power_down", "powering_down",
                             "no_respond"]

  predicate Online(states: seq<string>, lower: CaseMap) {
    forall i, j | 0 <= i < |states| && 0 <= j < |OFFLINE_PREFIXES| ::
      !(OFFLINE_PREFIXES[j] <= ToLower(states[i], lower))
  }

  predicate Acceptable(r: Record) {
    && r.names != [] && r.partition != "" && r.states != []
    && r.totalCpus > 0 && 0 <= r.allocatedCpus <= r.totalCpus
    && r.memory >= 0
    && ValidDetails([r.partition, r.gres] + r.names + r.states)
  }

  function NodeOf(r: Record, name: string, lower: CaseMap): Node {
    Node(name, r.partition, if r.states == [] then "" else ToLower(r.states[0], lower),
         r.allocatedCpus, r.totalCpus, r.memory, r.gres, Online(r.states, lower))
  }

  function NodesOf(r: Record, lower: CaseMap): seq<Node> {
    seq(|r.names|, i requires 0 <= i < |r.names| => NodeOf(r, r.names[i], lower))
  }

  /** Every node of every record, as often as it is named. */
  function Mentions(records: seq<Record>, lower: CaseMap): seq<Node> {
    if records == [] then [] else Mentions(records[..|records| - 1], lower) + NodesOf(records[|records| - 1], lower)
  }

  /** `nodeDetails`: all but the partition. */
  function Details(n: Node): Node {
    n.(partition := "")
  }

  /** A node is described in the same way wherever it is mentioned. */
  ghost predicate Agreeing(mentions: seq<Node>) {
    forall i, j | 0 <= i < |mentions| && 0 <= j < |mentions| && mentions[i].name == mentions[j].name ::
      Details(mentions[i]) == Details(mentions[j])
  }

  ghost function Names(mentions: seq<Node>): set<string> {
    set i | 0 <= i < |mentions| :: mentions[i].name
  }

  ghost function PartitionsOf(mentions: seq<Node>, name: string): set<string> {
    set i | 0 <= i < |mentions| && mentions[i].name == name :: mentions[i].partition
  }

  /** The partitions of the node, in order, as the entry shows them. */
  ghost predicate ListsPartitions(order: seq<string>, n: Node, mentions: seq<Node>) {
    && Ascending(order, StringLess)
    && Elements(order) == PartitionsOf(mentions, n.name)
    && n.partition == Join(order, ", ")
  }

  /** `n` is the entry for its name. */
  ghost predicate IsEntry(n: Node, mentions: seq<Node>) {
    && (exists i :: 0 <= i < |mentions| && n.name == mentions[i].name && Details(n) == Details(mentions[i]))
    && (exists order :: ListsPartitions(order, n, mentions))
  }

  predicate NameLess(a: Node, b: Node) {
    StringLess(a.name, b.name)
  }

  /** One entry for each name, in the order of the names. */
  ghost predicate IsNodeList(nodes: seq<Node>, mentions: seq<Node>) {
    && Ascending(nodes, NameLess)
    && Names(nodes) == Names(mentions)
    && forall i | 0 <= i < |nodes| :: IsEntry(nodes[i], mentions)
  }

  /** No state of the node begins like one of those in which a node is off. */
  ghost predicate NothingOff(states: seq<string>, lower: CaseMap) {
    forall i | 0 <= i < |states| ::
      var state := ToLower(states[i], lower);
      && !("down" <= state) && !("fail" <= state) && !("unknown" <= state) && !("future" <= state)
      && !("powered_down" <= state) && !("power_down" <= state) && !("powering_down" <= state)
      && !("no_respond" <= state)
  }

  /** Every entry of the node list shows the data of a record that names the node. */
  ghost predicate ShowsRecord(n: Node, r: Record, lower: CaseMap) {
    && n.name in r.names
    && (r.states != [] ==> n.state == ToLower(r.states[0], lower))
    && n.allocatedCpus == r.allocatedCpus && n.totalCpus == r.totalCpus && n.memoryMb == r.memory && n.gres == r.gres
    && (n.online <==> NothingOff(r.states, lower))
  }

  lemma EntriesShowRecords(records: seq<Record>, lower: CaseMap, nodes: seq<Node>, i: nat) returns (k: nat)
    requires IsNodeList(nodes, Mentions(records, lower)) && i < |nodes|
    ensures k < |records| && ShowsRecord(nodes[i], records[k], lower)
  {
    var mentions := Mentions(records, lower);
    assert IsEntry(nodes[i], mentions);
    var j :| 0 <= j < |mentions| && nodes[i].name == mentions[j].name && Details(nodes[i]) == Details(mentions[j]);
    k := MentionedIn(records, lower, j);
    OnlineExactly(records[k].states, lower);
  }

  lemma OnlineExactly(states: seq<string>, lower: CaseMap)
    ensures Online(states, lower) <==> NothingOff(states, lower)
  {
    var p := OFFLINE_PREFIXES;
    assert p[0] == "down" && p[1] == "fail" && p[2] == "unknown" && p[3] == "future" && p[4] == "powered_down"
      && p[5] == "power_down" && p[6] == "powering_down" && p[7] == "no_respond";
  }

  lemma {:induction false} MentionedIn(records: seq<Record>, lower: CaseMap, j: nat) returns (k: nat)
    requires j < |Mentions(records, lower)|
    ensures k < |records| && Mentions(records, lower)[j].name in records[k].names
    ensures Mentions(records, lower)[j] == NodeOf(records[k], Mentions(records, lower)[j].name, lower)
  {
    hide NodeOf;
    var front, last := records[..|records| - 1], records[|records| - 1];
    var n := |Mentions(front, lower)|;
    if j < n {
      k := MentionedIn(front, lower, j);
    } else {
      k := |records| - 1;
      assert Mentions(records, lower)[j] == NodesOf(last, lower)[j - n];
      NodeIsNamed(last, last.names[j - n], lower);
    }
  }

  lemma NodeIsNamed(r: Record, name: string, lower: CaseMap)
    ensures NodeOf(r, name, lower).name == name
  {
  }

  /** Records with printable texts, a positive number of CPUs and no more of them allocated are accepted. */
  lemma PlainIsAcceptable(r: Record)
    requires r.names != [] && r.states != [] && r.partition != "" && Printable(r.partition) && Printable(r.gres)
    requires (forall s | s in r.names :: Printable(s)) && (forall s | s in r.states :: Printable(s))
    requires 0 <= r.allocatedCpus <= r.totalCpus && 0 < r.totalCpus && 0 <= r.memory
    ensures Acceptable(r)
  {
    PrintablesAreValid([r.partition, r.gres] + r.names + r.states);
  }

  // ---------------------------------------------------------------------------------------

  /** The variables of the loop: the first mention of each name, the partitions of each name, and all
      mentions. */
  datatype Tables = Tables(nodesByName: map<string, Node>, partitionsByNode: map<string, set<string>>,
                           partitionNodes: seq<Node>)

  ghost predicate Tabulated(t: Tables) {
    && t.nodesByName.Keys == t.partitionsByNode.Keys == Names(t.partitionNodes)
    && (forall i | 0 <= i < |t.partitionNodes| ::
      Details(t.nodesByName[t.partitionNodes[i].name]) == Details(t.partitionNodes[i]))
    && (forall name | name in t.nodesByName :: t.nodesByName[name].name == name)
    && (forall name | name in t.partitionsByNode :: t.partitionsByNode[name] == PartitionsOf(t.partitionNodes, name))
  }

  /** One turn of the inner loop. */
  method AddMention(t: Tables, node: Node) returns (r: Option<Tables>)
    requires Tabulated(t)
    ensures r.Some? <==> Agreeing(t.partitionNodes + [node])
    ensures r.Some? ==> Tabulated(r.value) && r.value.partitionNodes == t.partitionNodes + [node]
  {
    var Tables(nodesByName, partitionsByNode, partitionNodes) := t;
    ghost var all := partitionNodes + [node];
    if node.name in nodesByName {
      var j :| 0 <= j < |partitionNodes| && partitionNodes[j].name == node.name;
      assert all[j] == partitionNodes[j] && all[|partitionNodes|] == node;
      if Details(nodesByName[node.name]) != Details(node) {
        return None;
      }
    } else {
      nodesByName := nodesByName[node.name := node];
    }
    partitionNodes := partitionNodes + [node];
    var partitions := if node.name in partitionsByNode then partitionsByNode[node.name] else {};
    partitionsByNode := partitionsByNode[node.name := partitions + {node.partition}];
    r := Some(Tables(nodesByName, partitionsByNode, partitionNodes));
    Mentioned(t, r.value, node);
  }

  lemma Mentioned(t: Tables, t': Tables, node: Node)
    requires Tabulated(t)
    requires t'.partitionNodes == t.partitionNodes + [node]
    requires node.name in t.nodesByName ==>
      t'.nodesByName == t.nodesByName && Details(t.nodesByName[node.name]) == Details(node)
    requires node.name !in t.nodesByName ==> t'.nodesByName == t.nodesByName[node.name := node]
    requires t'.partitionsByNode == t.partitionsByNode[node.name :=
      (if node.name in t.partitionsByNode then t.partitionsByNode[node.name] else {}) + {node.partition}]
    ensures Tabulated(t') && Agreeing(t'.partitionNodes)
  {
    hide Names, PartitionsOf;
    NamesWith(t.partitionNodes, node);
    forall name | name in t'.partitionsByNode
      ensures t'.partitionsByNode[name] == PartitionsOf(t'.partitionNodes, name)
    {
      PartitionsWith(t.partitionNodes, node, name);
    }
  }

  lemma NamesWith(mentions: seq<Node>, node: Node)
    ensures Names(mentions + [node]) == Names(mentions) + {node.name}
    ensures forall name | name !in Names(mentions) :: PartitionsOf(mentions, name) == {}
    ensures forall i | 0 <= i < |mentions| :: mentions[i].name in Names(mentions)
  {
    var all := mentions + [node];
    forall name | name in Names(mentions) + {node.name} ensures name in Names(all) {
      if name == node.name {
        assert all[|mentions|].name == name;
      } else {
        var i :| 0 <= i < |mentions| && mentions[i].name == name;
        assert all[i].name == name;
      }
    }
  }

  lemma PartitionsWith(mentions: seq<Node>, node: Node, name: string)
    ensures PartitionsOf(mentions + [node], name) == PartitionsOf(mentions, name)
      + if name == node.name then {node.partition} else {}
  {
    var all, before := mentions + [node], PartitionsOf(mentions, name);
    forall p | p in before ensures p in PartitionsOf(all, name) {
      var i :| 0 <= i < |mentions| && mentions[i].name == name && mentions[i].partition == p;
      assert all[i].name == name && all[i].partition == p;
    }
    assert all[|mentions|] == node;
  }

  /** The names in their order, in whatever order the map gives them. */
  method SortedNodePartitions(partitions: set<string>) returns (names: seq<string>)
    ensures Ascending(names, StringLess) && Elements(names) == partitions
  {
    names := [];
    var rest := partitions;
    while rest != {}
      invariant rest <= partitions && Elements(names) == partitions - rest && Distinct(names)
      decreases rest
    {
      var name :| name in rest;
      assert name !in Elements(names);
      AppendedElements(names, [name]);
      rest, names := rest - {name}, names + [name];
    }
    StringOrder(Elements(names));
    SortBySorts(names, StringLess);
    names := SortBy(names, StringLess);
  }

  /** Fails exactly when a record is malformed or a node is described in two ways. */
  method ParseNodes(records: seq<Record>, lower: CaseMap) returns (r: Result<Snapshot, Error>)
    ensures r.Ok? <==> (forall i | 0 <= i < |records| :: Acceptable(records[i])) && Agreeing(Mentions(records, lower))
    ensures r.Ok? ==>
      r.value.partitionNodes == Mentions(records, lower) && IsNodeList(r.value.nodes, Mentions(records, lower))
    ensures r.Err? && r.error == Conflict ==> !Agreeing(Mentions(records, lower))
  {
    hide ValidDetail, NodeOf, Tabulated, Agreeing, IsNodeList;
    NothingTabulated();
    var t := Tables(map[], map[], []);
    for i := 0 to |records|
      invariant forall j | 0 <= j < i :: Acceptable(records[j])
      invariant Tabulated(t) && t.partitionNodes == Mentions(records[..i], lower)
    {
      var record := records[i];
      MentionsWith(records, i, lower);
      if |record.names| == 0 || record.partition == "" || |record.states| == 0 {
        return Err(Incomplete);
      }
      if record.totalCpus <= 0 || record.allocatedCpus < 0 || record.allocatedCpus > record.totalCpus {
        return Err(InvalidCpus);
      }
      if record.memory < 0 {
        return Err(InvalidMemory);
      }
      if !ValidDetails([record.partition, record.gres] + record.names + record.states) {
        return Err(InvalidText);
      }
      for k := 0 to |record.names|
        invariant Tabulated(t) && t.partitionNodes == Mentions(records[..i], lower) + NodesOf(record, lower)[..k]
      {
        var node := NodeOf(record, record.names[k], lower);
        assert NodesOf(record, lower)[..k + 1] == NodesOf(record, lower)[..k] + [node];
        var added := AddMention(t, node);
        if added.None? {
          MentionsGrow(records, i + 1, lower);
          assert t.partitionNodes + [node] <= Mentions(records[..i + 1], lower);
          PrefixAgrees(Mentions(records, lower), t.partitionNodes + [node]);
          return Err(Conflict);
        }
        t := added.value;
      }
      assert NodesOf(record, lower)[..|record.names|] == NodesOf(record, lower);
    }
    assert records[..|records|] == records;
    TabulatedAgrees(t);
    var nodes := ListNodes(t);
    return Ok(Snapshot(nodes, t.partitionNodes));
  }

  method ListNodes(t: Tables) returns (nodes: seq<Node>)
    requires Tabulated(t)
    ensures IsNodeList(nodes, t.partitionNodes)
  {
    hide IsEntry, StringLess, Join;
    var names := SortedNodePartitions(t.nodesByName.Keys);
    nodes := [];
    for i := 0 to |names|
      invariant |nodes| == i
      invariant forall j | 0 <= j < i :: nodes[j].name == names[j] && IsEntry(nodes[j], t.partitionNodes)
    {
      assert names[i] in Elements(names);
      var partitions := SortedNodePartitions(t.partitionsByNode[names[i]]);
      EntryFor(t, names[i], partitions);
      nodes := nodes + [t.nodesByName[names[i]].(partition := Join(partitions, ", "))];
    }
    SameNames(nodes, names);
  }

  lemma EntryFor(t: Tables, name: string, partitions: seq<string>)
    requires Tabulated(t) && name in t.nodesByName
    requires Ascending(partitions, StringLess) && Elements(partitions) == t.partitionsByNode[name]
    ensures IsEntry(t.nodesByName[name].(partition := Join(partitions, ", ")), t.partitionNodes)
  {
    var n := t.nodesByName[name].(partition := Join(partitions, ", "));
    assert ListsPartitions(partitions, n, t.partitionNodes);
  }

  lemma SameNames(nodes: seq<Node>, names: seq<string>)
    requires |nodes| == |names| && forall j | 0 <= j < |nodes| :: nodes[j].name == names[j]
    ensures Names(nodes) == Elements(names)
  {
  }

  lemma NothingTabulated()
    ensures Tabulated(Tables(map[], map[], []))
  {
  }

  lemma MentionsWith(records: seq<Record>, i: nat, lower: CaseMap)
    requires i < |records|
    ensures Mentions(records[..i + 1], lower) == Mentions(records[..i], lower) + NodesOf(records[i], lower)
  {
    assert records[..i + 1][..i] == records[..i];
  }

  lemma TabulatedAgrees(t: Tables)
    requires Tabulated(t)
    ensures Agreeing(t.partitionNodes)
  {
  }

  lemma {:induction false} MentionsGrow(records: seq<Record>, n: nat, lower: CaseMap)
    requires n <= |records|
    ensures Mentions(records[..n], lower) <= Mentions(records, lower)
  {
    if n < |records| {
      MentionsGrow(records[..|records| - 1], n, lower);
      assert records[..|records| - 1][..n] == records[..n];
    } else {
      assert records[..n] == records;
    }
  }

  lemma PrefixAgrees(mentions: seq<Node>, prefix: seq<Node>)
    requires prefix <= mentions && !Agreeing(prefix)
    ensures !Agreeing(mentions)
  {
  }
}
