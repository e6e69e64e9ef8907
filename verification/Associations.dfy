/**
 The list of Slurm associations: built from the accounting records by internal/slurm/accounting.go,
 filtered and shown in pages by internal/web/app.go.
 */
module Associations {
  import opened Wrappers
  import opened Text
  import opened Int64
  import opened Sorting
  import opened Sets
  import opened Lists
  import Decimal

  /** A decoded JSON record. */
  datatype Record = Record(idSet: bool, idInfinite: bool, idNumber: int64,
                           cluster: string, account: string, user: string, partition: string)

  datatype Association = Association(id: nat, cluster: string, account: string, user: string, partition: string)

  datatype Error = TooMany | Incomplete | InvalidText | Conflict

  const MAX_RECORDS := 10_000

  predicate Complete(r: Record) {
    r.idSet && !r.idInfinite && r.idNumber > 0 && r.cluster != "" && r.account != ""
  }

  predicate ValidRecord(r: Record) {
    Complete(r) && ValidDetails([r.cluster, r.account, r.user, r.partition])
  }

  function AssociationOf(r: Record): Association
    requires ValidRecord(r)
  {
    Association(r.idNumber, r.cluster, r.account, r.user, r.partition)
  }

  ghost predicate AllValid(records: seq<Record>) {
    forall i | 0 <= i < |records| :: ValidRecord(records[i])
  }

  /** No two records share an ID and differ. */
  ghost predicate Consistent(records: seq<Record>)
    requires AllValid(records)
  {
    forall i, j | 0 <= i < |records| && 0 <= j < |records| && records[i].idNumber == records[j].idNumber ::
      AssociationOf(records[i]) == AssociationOf(records[j])
  }

  ghost function Listed(records: seq<Record>): set<Association>
    requires AllValid(records)
  {
    set i | 0 <= i < |records| :: AssociationOf(records[i])
  }

  predicate AssociationLess(a: Association, b: Association) {
    if a.cluster != b.cluster then StringLess(a.cluster, b.cluster)
    else if a.account != b.account then StringLess(a.account, b.account)
    else if a.user != b.user then StringLess(a.user, b.user)
    else if a.partition != b.partition then StringLess(a.partition, b.partition)
    else a.id < b.id
  }

  /** The strictly ordered list of exactly these records' associations. */
  ghost predicate IsListOf(values: seq<Association>, records: seq<Record>)
    requires AllValid(records)
  {
    Ascending(values, AssociationLess) && Elements(values) == Listed(records)
  }

  /** Records with printable texts, a positive id, a cluster and an account are valid. */
  lemma PlainIsValid(r: Record)
    requires r.idSet && !r.idInfinite && 0 < r.idNumber && r.cluster != "" && r.account != ""
    requires Printable(r.cluster) && Printable(r.account) && Printable(r.user) && Printable(r.partition)
    ensures ValidRecord(r)
  {
    PrintablesAreValid([r.cluster, r.account, r.user, r.partition]);
  }

  /** The association carries the data of the record. */
  predicate Carries(a: Association, r: Record) {
    a.id == r.idNumber && a.cluster == r.cluster && a.account == r.account && a.user == r.user
      && a.partition == r.partition
  }

  ghost predicate IsCarried(r: Record, values: seq<Association>) {
    exists a :: a in values && Carries(a, r)
  }

  ghost predicate IsBacked(a: Association, records: seq<Record>) {
    exists r :: r in records && Carries(a, r)
  }

  /** Every record is in the list with its own data, and nothing else is. */
  lemma ListCarriesRecords(values: seq<Association>, records: seq<Record>)
    requires AllValid(records) && IsListOf(values, records)
    ensures forall r | r in records :: IsCarried(r, values)
    ensures forall a | a in values :: IsBacked(a, records)
  {
    forall r | r in records ensures IsCarried(r, values) {
      var k :| 0 <= k < |records| && records[k] == r;
      var a := AssociationOf(records[k]);
      assert a in Listed(records) && a in Elements(values);
      assert a in values && Carries(a, r);
    }
    forall a | a in values ensures IsBacked(a, records) {
      assert a in Elements(values);
      var k :| 0 <= k < |records| && a == AssociationOf(records[k]);
      assert records[k] in records && Carries(a, records[k]);
    }
  }

  /** The list is in the order of the clusters, then the accounts, the users, the partitions and the ids. */
  lemma ListIsOrdered(values: seq<Association>, records: seq<Record>, i: nat, j: nat)
    requires AllValid(records) && IsListOf(values, records) && i < j < |values|
    ensures var a, b := values[i], values[j];
      || StringLess(a.cluster, b.cluster)
      || (a.cluster == b.cluster && StringLess(a.account, b.account))
      || (a.cluster == b.cluster && a.account == b.account && StringLess(a.user, b.user))
      || (a.cluster == b.cluster && a.account == b.account && a.user == b.user && StringLess(a.partition, b.partition))
      || (a.cluster == b.cluster && a.account == b.account && a.user == b.user && a.partition == b.partition
          && a.id < b.id)
  {
    hide StringLess;
  }

  // ---------------------------------------------------------------------------------------
  // Building the list.

  /** Given valid records, fails exactly when there are too many or two of them share an ID and differ. */
  method ParseAssociationRecords(records: seq<Record>) returns (r: Result<seq<Association>, Error>)
    ensures r.Ok? <==> |records| <= MAX_RECORDS && AllValid(records) && Consistent(records)
    ensures r.Ok? ==> IsListOf(r.value, records)
    ensures r.Err? && r.error == TooMany <==> |records| > MAX_RECORDS
    ensures r.Err? && r.error != TooMany ==> exists i :: 0 <= i < |records| && FirstFault(records, i, r.error)
  {
    hide StringLess, AssociationLess, ValidDetails, Consistent;
    if |records| > MAX_RECORDS {
      return Err(TooMany);
    }
    var byId: map<nat, Association> := map[];
    for i := 0 to |records|
      invariant forall j | 0 <= j < i :: ValidRecord(records[j]) && Fault(records, j) == None
      invariant forall j | 0 <= j < i ::
        records[j].idNumber in byId && byId[records[j].idNumber] == AssociationOf(records[j])
      invariant forall id | id in byId ::
        exists j :: 0 <= j < i && byId[id] == AssociationOf(records[j]) && records[j].idNumber == id
    {
      var record := records[i];
      if !record.idSet || record.idInfinite || record.idNumber <= 0 || record.cluster == "" || record.account == "" {
        assert FirstFault(records, i, Incomplete);
        return Err(Incomplete);
      }
      if !ValidDetails([record.cluster, record.account, record.user, record.partition]) {
        assert FirstFault(records, i, InvalidText);
        return Err(InvalidText);
      }
      var association := Association(record.idNumber, record.cluster, record.account, record.user, record.partition);
      if association.id in byId && byId[association.id] != association {
        var j :| 0 <= j < i && byId[association.id] == AssociationOf(records[j])
          && records[j].idNumber == association.id;
        Inconsistent(records, j, i);
        assert FirstFault(records, i, Conflict);
        return Err(Conflict);
      }
      byId := byId[association.id := association];
    }
    CollectedFrom(byId, records);
    var result := Collect(byId);
    return Ok(result);
  }

  lemma Inconsistent(records: seq<Record>, j: nat, i: nat)
    requires j < i < |records| && Differ(records[j], records[i])
    ensures AllValid(records) ==> !Consistent(records)
  {
  }

  lemma CollectedFrom(byId: map<nat, Association>, records: seq<Record>)
    requires forall j | 0 <= j < |records| :: ValidRecord(records[j])
    requires forall j | 0 <= j < |records| ::
      records[j].idNumber in byId && byId[records[j].idNumber] == AssociationOf(records[j])
    requires forall id | id in byId ::
      exists j :: 0 <= j < |records| && byId[id] == AssociationOf(records[j]) && records[j].idNumber == id
    ensures AllValid(records) && Consistent(records)
    ensures (set id | id in byId :: byId[id]) == Listed(records)
  {
  }

  /** What is wrong with a record, seen after those before it. */
  ghost function Fault(records: seq<Record>, i: nat): Option<Error>
    requires i < |records|
  {
    var r := records[i];
    if !Complete(r) then Some(Incomplete)
    else if !ValidRecord(r) then Some(InvalidText)
    else if exists j :: 0 <= j < i && Differ(records[j], r) then Some(Conflict)
    else None
  }

  predicate Differ(a: Record, b: Record) {
    ValidRecord(a) && ValidRecord(b) && a.idNumber == b.idNumber && AssociationOf(a) != AssociationOf(b)
  }

  /** Record `i` is the first with a fault. */
  ghost predicate FirstFault(records: seq<Record>, i: nat, error: Error)
    requires i < |records|
  {
    Fault(records, i) == Some(error) && forall j | 0 <= j < i :: Fault(records, j) == None
  }

  /** The map's values in order, in whatever order the map gives them. */
  method Collect(byId: map<nat, Association>) returns (result: seq<Association>)
    requires forall id | id in byId :: byId[id].id == id
    ensures Ascending(result, AssociationLess)
    ensures Elements(result) == set id | id in byId :: byId[id]
  {
    hide StringLess, AssociationLess;
    result := [];
    var rest := byId.Keys;
    while rest != {}
      invariant rest <= byId.Keys
      invariant Distinct(result)
      invariant Elements(result) == set id | id in byId && id !in rest :: byId[id]
      decreases rest
    {
      var id :| id in rest;
      assert byId[id] !in Elements(result);
      ghost var before := result;
      rest := rest - {id};
      result := result + [byId[id]];
      AppendedElements(before, [byId[id]]);
    }
    AssociationOrder(Elements(result));
    SortBySorts(result, AssociationLess);
    result := SortBy(result, AssociationLess);
  }

  lemma AssociationLessTransitive(a: Association, b: Association, c: Association)
    requires AssociationLess(a, b) && AssociationLess(b, c)
    ensures AssociationLess(a, c)
  {
    if a.cluster != b.cluster || b.cluster != c.cluster {
      Chain(a.cluster, b.cluster, c.cluster);
    } else if a.account != b.account || b.account != c.account {
      Chain(a.account, b.account, c.account);
    } else if a.user != b.user || b.user != c.user {
      Chain(a.user, b.user, c.user);
    } else if a.partition != b.partition || b.partition != c.partition {
      Chain(a.partition, b.partition, c.partition);
    }
  }

  lemma Chain(a: string, b: string, c: string)
    requires a == b || StringLess(a, b)
    requires b == c || StringLess(b, c)
    requires a != b || b != c
    ensures a != c && StringLess(a, c)
  {
  }

  lemma AssociationOrder(s: set<Association>)
    ensures OrderOn(AssociationLess, s)
  {
    forall a, b, c | AssociationLess(a, b) && AssociationLess(b, c) ensures AssociationLess(a, c) {
      AssociationLessTransitive(a, b, c);
    }
    forall a, b | a in s && b in s && a != b ensures AssociationLess(a, b) || AssociationLess(b, a) {
      StringLessTotal(a.cluster, b.cluster);
      StringLessTotal(a.account, b.account);
      StringLessTotal(a.user, b.user);
      StringLessTotal(a.partition, b.partition);
    }
  }

  /** Whether the records are accepted, and the list they give, depend on which records there are and
      not on their order, their repetition or the order of the map. */
  lemma ListIsCanonical(records: seq<Record>, others: seq<Record>, a: seq<Association>, b: seq<Association>)
    requires Elements(records) == Elements(others)
    ensures AllValid(records) == AllValid(others)
    ensures AllValid(records) ==> Consistent(records) == Consistent(others)
    ensures AllValid(records) && IsListOf(a, records) && IsListOf(b, others) ==> a == b
  {
    Accepts(records, others);
    Accepts(others, records);
    if AllValid(records) && IsListOf(a, records) && IsListOf(b, others) {
      AssociationOrder(Elements(a));
      AscendingIsUnique(a, b, AssociationLess);
    }
  }

  lemma Accepts(records: seq<Record>, others: seq<Record>)
    requires Elements(others) <= Elements(records)
    ensures AllValid(records) ==> AllValid(others) && Listed(others) <= Listed(records)
    ensures AllValid(records) && Consistent(records) ==> Consistent(others)
  {
    if AllValid(records) {
      forall i | 0 <= i < |others| ensures exists k :: 0 <= k < |records| && records[k] == others[i] {
        assert others[i] in Elements(others);
      }
    }
  }

  // ---------------------------------------------------------------------------------------
  // The limit on their number.

  method ValidateCombinedAssociationCount(accounts: seq<seq<Record>>, users: seq<seq<Record>>) returns (ok: bool)
    ensures ok <==> |Flat(accounts)| + |Flat(users)| <= MAX_RECORDS
  {
    var total := 0;
    for i := 0 to |accounts|
      invariant total == |Flat(accounts[..i])| <= MAX_RECORDS
    {
      assert accounts[..i + 1][..i] == accounts[..i];
      total := total + |accounts[i]|;
      if total > MAX_RECORDS {
        FlatGrows(accounts, i + 1);
        return false;
      }
    }
    assert accounts[..|accounts|] == accounts;
    for i := 0 to |users|
      invariant total == |Flat(accounts)| + |Flat(users[..i])| <= MAX_RECORDS
    {
      assert users[..i + 1][..i] == users[..i];
      total := total + |users[i]|;
      if total > MAX_RECORDS {
        FlatGrows(users, i + 1);
        return false;
      }
    }
    assert users[..|users|] == users;
    return true;
  }

  /** The records of both replies, at most `MAX_RECORDS` of them; the limit checked again while the
      records are read is never what refuses them. */
  method ParseAssociations(accounts: seq<seq<Record>>, users: seq<seq<Record>>)
    returns (r: Result<seq<Association>, Error>)
    ensures var records := Flat(accounts) + Flat(users);
      && (r.Ok? <==> |records| <= MAX_RECORDS && AllValid(records) && Consistent(records))
      && (r.Ok? ==> IsListOf(r.value, records) && |r.value| <= MAX_RECORDS)
      && (r.Err? && r.error == TooMany <==> |records| > MAX_RECORDS)
  {
    hide Consistent, StringLess, AssociationLess, Fault;
    var few := ValidateCombinedAssociationCount(accounts, users);
    if !few {
      return Err(TooMany);
    }
    var records := Flat(accounts) + Flat(users);
    r := ParseAssociationRecords(records);
    if r.Ok? {
      AtMostAsMany(r.value, records);
    }
  }

  lemma AtMostAsMany(values: seq<Association>, records: seq<Record>)
    requires AllValid(records) && IsListOf(values, records)
    ensures |values| <= |records|
  {
    AssociationOrder({});
    assert Distinct(values);
    DistinctSize(values);
    ListedSize(records);
  }

  lemma {:induction false} DistinctSize(values: seq<Association>)
    requires Distinct(values)
    ensures |Elements(values)| == |values|
  {
    EmptyElements(values);
    if values != [] {
      var front, last := values[..|values| - 1], values[|values| - 1];
      DistinctSize(front);
      assert values == front + [last];
      AppendedElements(front, [last]);
      assert Elements([last]) == {last};
      assert last !in Elements(front);
      assert |Elements(front) + {last}| == |Elements(front)| + 1;
    }
  }

  lemma {:induction false} ListedSize(records: seq<Record>)
    requires AllValid(records)
    ensures |Listed(records)| <= |records|
  {
    if records != [] {
      var front, last := records[..|records| - 1], records[|records| - 1];
      ListedSize(front);
      assert Listed(records) == Listed(front) + {AssociationOf(last)};
    }
  }

  // ---------------------------------------------------------------------------------------
  // Filtering.

  predicate Selected(a: Association, account: string, user: string) {
    (account != "" ==> a.account == account) && (user != "" ==> a.user == user)
  }

  function Kept(values: seq<Association>, account: string, user: string): seq<Association> {
    if values == [] then []
    else
      var last := values[|values| - 1];
      Kept(values[..|values| - 1], account, user) + if Selected(last, account, user) then [last] else []
  }

  method FilterAssociations(values: seq<Association>, account: string, user: string)
    returns (filtered: seq<Association>)
    ensures filtered == Kept(values, account, user)
  {
    filtered := [];
    for i := 0 to |values|
      invariant filtered == Kept(values[..i], account, user)
    {
      assert values[..i + 1][..i] == values[..i];
      if account != "" && values[i].account != account {
        continue;
      }
      if user != "" && values[i].user != user {
        continue;
      }
      filtered := filtered + [values[i]];
    }
    assert values[..|values|] == values;
  }

  /** Filtering the ordered list gives the ordered list of the selected associations: there is no other. */
  lemma KeptExactly(values: seq<Association>, account: string, user: string)
    requires Ascending(values, AssociationLess)
    ensures var kept := Kept(values, account, user);
      && |kept| <= |values|
      && Elements(kept) ==
         (set a | a in values && (account == "" || a.account == account) && (user == "" || a.user == user))
      && Ascending(kept, AssociationLess)
  {
    KeptSelected(values, account, user);
    hide AssociationLess, Ascending, Kept, Elements;
  }

  lemma {:induction false} KeptSelected(values: seq<Association>, account: string, user: string)
    requires Ascending(values, AssociationLess)
    ensures var kept := Kept(values, account, user);
      && |kept| <= |values|
      && Elements(kept) == (set a | a in values && Selected(a, account, user))
      && Ascending(kept, AssociationLess)
  {
    hide AssociationLess, Selected;
    if values != [] {
      var front, last := values[..|values| - 1], values[|values| - 1];
      KeptSelected(front, account, user);
      assert values == front + [last];
      AppendedElements(Kept(front, account, user), if Selected(last, account, user) then [last] else []);
      forall a | a in Kept(front, account, user) ensures AssociationLess(a, last) {
        assert a in Elements(Kept(front, account, user));
        var i :| 0 <= i < |front| && front[i] == a;
        assert AssociationLess(values[i], last);
      }
    }
  }

  // ---------------------------------------------------------------------------------------
  // Pages.

  const PAGE_SIZE := 100
  const MAX_PAGES := 100

  /** The rows of a page. */
  function PageRows(values: seq<Association>, page: int): seq<Association>
    requires 1 <= page
  {
    values[Min((page - 1) * PAGE_SIZE, |values|)..Min(page * PAGE_SIZE, |values|)]
  }

  /** A next page is offered exactly when rows follow; the page before is always offered, except that
      an empty first page offers none. */
  method PaginateAssociations(values: seq<Association>, page: int)
    returns (rows: seq<Association>, previous: int, next: int)
    requires 1 <= page <= MAX_PAGES
    ensures rows == PageRows(values, page)
    ensures previous == page - 1
    ensures next == if |values| > page * PAGE_SIZE then page + 1 else 0
    ensures |values| <= MAX_RECORDS ==>
      (previous != 0 ==> ParseAssociationPage(Decimal.Print(previous)) == Some(previous))
      && (next != 0 ==> ParseAssociationPage(Decimal.Print(next)) == Some(next))
  {
    if 1 < page { PageExactly(Decimal.Print(page - 1), page - 1); }
    if page < MAX_PAGES { PageExactly(Decimal.Print(page + 1), page + 1); }
    var start := (page - 1) * PAGE_SIZE;
    if start >= |values| {
      if page > 1 {
        return [], page - 1, 0;
      }
      return [], 0, 0;
    }
    var end := start + PAGE_SIZE;
    if end > |values| {
      end := |values|;
    }
    previous, next := 0, 0;
    if page > 1 {
      previous := page - 1;
    }
    if end < |values| {
      next := page + 1;
    }
    rows := values[start..end];
  }

  /** The rows of the first pages, one after the other. */
  function FirstPages(values: seq<Association>, pages: nat): seq<Association> {
    if pages == 0 then [] else FirstPages(values, pages - 1) + PageRows(values, pages)
  }

  lemma {:induction false} FirstPagesAre(values: seq<Association>, pages: nat)
    ensures FirstPages(values, pages) == values[..Min(pages * PAGE_SIZE, |values|)]
  {
    if pages > 0 {
      FirstPagesAre(values, pages - 1);
    }
  }

  /** The pages that can be asked for show the whole list exactly when it has at most 10000 entries. */
  lemma PagesShowEverything(values: seq<Association>)
    ensures FirstPages(values, MAX_PAGES) == values <==> |values| <= MAX_RECORDS
  {
    FirstPagesAre(values, MAX_PAGES);
  }

  function ParseAssociationPage(value: string): Option<int> {
    if value == "" then Some(1)
    else if Utf8Length(value) > 3 || value[0] == '0' then None
    else if !Decimal.AllDigits(value) then None
    else
      var page := Decimal.ParseInt(value);
      if page.None? || page.value < 1 || page.value > MAX_PAGES then None else Some(page.value)
  }

  /** The accepted page numbers: nothing for the first page, and the numerals of 1 to 100. */
  lemma PageExactly(value: string, n: int)
    ensures ParseAssociationPage(value) == Some(n) <==>
      (value == "" && n == 1) || (1 <= n <= MAX_PAGES && value == Decimal.Print(n))
  {
    if 1 <= n <= MAX_PAGES && value == Decimal.Print(n) {
      Decimal.PrintedValue(n);
      Decimal.ParsePrinted(n);
      AsciiLength(value);
      assert |value| <= 3 by {
        if n >= 10 { assert Decimal.Print(n) == Decimal.Print(n / 10) + [Decimal.DigitChar(n % 10)]; }
      }
    }
    if value != "" && ParseAssociationPage(value).Some? {
      Decimal.ValuePrinted(value);
      assert !(value[0] == '+' || value[0] == '-') by { assert Decimal.IsDigit(value[0]); }
    }
  }
}
