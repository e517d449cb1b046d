/**
 Eager loading of the edges of queried accounts.  Each loader asks one batched query for all
 accounts, indexes the accounts, and hands every returned neighbour to the accounts it belongs to.
 The contracts say what every account ends with, in terms of what the queries returned;
 `AccountQueries` compares that with a separate lookup per account.
 */
module EagerLoading {
  import opened Sequences
  import opened Wrappers

  /** A row of some table: its id and its non-null integer columns. */
  datatype Record = Record(id: int, columns: map<string, int>)
  {
    function Key(column: string): Option<int> {
      if column in columns then Some(columns[column]) else None
    }
  }

  /** A row of the join of the groups with the account-group table. */
  datatype JoinRow = JoinRow(accountId: int, group: Record)

  datatype ToOne = ProxyEdge | ParentEdge
  datatype ToMany = ChildrenEdge | UsageLogsEdge | AccountGroupsEdge

  datatype EdgeError = NotLoaded | NotFound

  datatype LoadError =
    | QueryFailed(message: string)
    | UnexpectedNode(id: int)
    | NilForeignKey(id: int)

  const FIELD_ID := "id"
  const FIELD_PROXY_ID := "proxy_id"
  const FIELD_PARENT_ACCOUNT_ID := "parent_account_id"
  const FIELD_ACCOUNT_ID := "account_id"

  datatype Loaded = Loaded(groups: bool, proxy: bool, parent: bool, children: bool, usageLogs: bool, accountGroups: bool)

  /** The edges of one account, with the flags saying which were requested. */
  datatype Edges = Edges(
    groups: seq<Record>, proxy: Option<Record>, parent: Option<Record>,
    children: seq<Record>, usageLogs: seq<Record>, accountGroups: seq<Record>, loaded: Loaded)
  {
    function One(edge: ToOne): Option<Record> {
      match edge case ProxyEdge => proxy case ParentEdge => parent
    }

    function WithOne(edge: ToOne, value: Option<Record>): Edges {
      match edge case ProxyEdge => this.(proxy := value) case ParentEdge => this.(parent := value)
    }

    function Many(edge: ToMany): seq<Record> {
      match edge case ChildrenEdge => children case UsageLogsEdge => usageLogs case AccountGroupsEdge => accountGroups
    }

    function WithMany(edge: ToMany, value: seq<Record>): Edges {
      match edge
      case ChildrenEdge => this.(children := value)
      case UsageLogsEdge => this.(usageLogs := value)
      case AccountGroupsEdge => this.(accountGroups := value)
    }

    function GroupsOrErr(): Result<seq<Record>, EdgeError> {
      if loaded.groups then Ok(groups) else Err(NotLoaded)
    }

    function ManyOrErr(edge: ToMany): Result<seq<Record>, EdgeError> {
      if (match edge
          case ChildrenEdge => loaded.children
          case UsageLogsEdge => loaded.usageLogs
          case AccountGroupsEdge => loaded.accountGroups)
      then Ok(Many(edge)) else Err(NotLoaded)
    }

    function OneOrErr(edge: ToOne): Result<Record, EdgeError> {
      if One(edge).Some? then Ok(One(edge).value)
      else if (match edge case ProxyEdge => loaded.proxy case ParentEdge => loaded.parent) then Err(NotFound)
      else Err(NotLoaded)
    }
  }

  class Account {
    const id: int
    const columns: map<string, int>
    var edges: Edges

    constructor (record: Record, loaded: Loaded)
      ensures id == record.id && columns == record.columns
      ensures edges == Edges([], None, None, [], [], [], loaded)
    {
      id := record.id;
      columns := record.columns;
      edges := Edges([], None, None, [], [], [], loaded);
    }

    function Key(column: string): Option<int> {
      if column in columns then Some(columns[column]) else None
    }
  }

  function KeyColumn(edge: ToOne): string {
    match edge case ProxyEdge => FIELD_PROXY_ID case ParentEdge => FIELD_PARENT_ACCOUNT_ID
  }

  function ForeignColumn(edge: ToMany): string {
    match edge
    case ChildrenEdge => FIELD_PARENT_ACCOUNT_ID
    case UsageLogsEdge => FIELD_ACCOUNT_ID
    case AccountGroupsEdge => FIELD_ACCOUNT_ID
  }

  /** The account a neighbour refers to; only the parent column of a child can be null, the other
      two are plain integers and read as 0 when they were not fetched. */
  function ForeignKey(edge: ToMany, n: Record): Option<int> {
    match n.Key(ForeignColumn(edge))
    case Some(key) => Some(key)
    case None => if edge == ChildrenEdge then None else Some(0)
  }

  ghost predicate DistinctNodes(nodes: seq<Account>) {
    forall i, j :: 0 <= i < j < |nodes| ==> nodes[i] != nodes[j]
  }

  /** Of several nodes with one id, an index by id keeps the last. */
  ghost predicate Owns(nodes: seq<Account>, i: nat)
    requires i < |nodes|
  {
    forall j :: i < j < |nodes| ==> nodes[j].id != nodes[i].id
  }

  ghost predicate HasId(nodes: seq<Account>, id: int) {
    exists i :: 0 <= i < |nodes| && nodes[i].id == id
  }

  /** The index by id that the loaders build. */
  ghost predicate IndexesById(index: map<int, Account>, nodes: seq<Account>) {
    && (forall id :: id in index <==> HasId(nodes, id))
    && forall i :: 0 <= i < |nodes| ==> (index[nodes[i].id] == nodes[i] <==> Owns(nodes, i))
  }

  // ---------------------------------------------------------------- many to many: groups

  function Joined(rows: seq<JoinRow>, accountId: int, groupId: int): bool {
    exists r <- rows :: r.accountId == accountId && r.group.id == groupId
  }

  function GroupIds(rows: seq<JoinRow>): set<int> {
    set r | r in rows :: r.group.id
  }

  /** Every group of the join once, in first-seen order. */
  function FirstSeen(rows: seq<JoinRow>): seq<Record> {
    if rows == [] then [] else
    var before, r := FirstSeen(rows[..|rows| - 1]), rows[|rows| - 1];
    if r.group.id in GroupIds(rows[..|rows| - 1]) then before else before + [r.group]
  }

  /** The neighbours that the join connects with one account, in their order. */
  function JoinedTo(rows: seq<JoinRow>, accountId: int, neighbors: seq<Record>): seq<Record> {
    if neighbors == [] then [] else
    var before, n := JoinedTo(rows, accountId, neighbors[..|neighbors| - 1]), neighbors[|neighbors| - 1];
    if Joined(rows, accountId, n.id) then before + [n] else before
  }

  ghost predicate OwnersJoined(nodes: seq<Account>, rows: seq<JoinRow>, groupId: int, owners: set<Account>) {
    && (forall a <- owners :: exists i :: 0 <= i < |nodes| && nodes[i] == a)
    && forall i :: 0 <= i < |nodes| ==>
         (nodes[i] in owners <==> Owns(nodes, i) && Joined(rows, nodes[i].id, groupId))
  }

  method IndexById(nodes: seq<Account>) returns (index: map<int, Account>)
    requires DistinctNodes(nodes)
    ensures IndexesById(index, nodes)
  {
    index := map[];
    hide DistinctNodes, IndexesById;
    NothingIndexed();
    for k := 0 to |nodes|
      invariant IndexesById(index, nodes[..k])
    {
      assert nodes[..k + 1] == nodes[..k] + [nodes[k]];
      OneMoreIndexed(index, nodes, k);
      index := index[nodes[k].id := nodes[k]];
    }
    assert nodes[..|nodes|] == nodes;
  }

  lemma NothingIndexed()
    ensures IndexesById(map[], [])
  {
  }

  lemma OneMoreIndexed(index: map<int, Account>, nodes: seq<Account>, k: nat)
    requires DistinctNodes(nodes) && k < |nodes| && IndexesById(index, nodes[..k])
    ensures IndexesById(index[nodes[k].id := nodes[k]], nodes[..k] + [nodes[k]])
  {
    hide HasId, Owns;
    var before, node := nodes[..k], nodes[k];
    var all, more := before + [node], index[node.id := node];
    forall id ensures HasId(all, id) <==> HasId(before, id) || id == node.id {
      HasIdSnoc(before, node, id);
    }
    forall i | 0 <= i < |all|
      ensures all[i].id in more
      ensures more[all[i].id] == all[i] <==> Owns(all, i)
    {
      OwnsSnoc(before, node, i);
      HasOwnId(all, i);
      if i < k {
        assert all[i] == before[i] == nodes[i] != nodes[k];
      }
    }
  }

  lemma HasOwnId(nodes: seq<Account>, i: nat)
    requires i < |nodes|
    ensures HasId(nodes, nodes[i].id)
  {
  }

  lemma HasIdSnoc(nodes: seq<Account>, node: Account, id: int)
    ensures HasId(nodes + [node], id) <==> HasId(nodes, id) || id == node.id
  {
    var all := nodes + [node];
    if i :| 0 <= i < |nodes| && nodes[i].id == id {
      assert all[i].id == id;
    }
    assert all[|nodes|] == node;
  }

  lemma OwnsSnoc(nodes: seq<Account>, node: Account, i: nat)
    requires i <= |nodes|
    ensures Owns(nodes + [node], i) <==> i == |nodes| || (Owns(nodes, i) && node.id != nodes[i].id)
  {
    var all := nodes + [node];
    if i < |nodes| && Owns(all, i) {
      assert all[|nodes|].id != all[i].id;
      forall j | i < j < |nodes| ensures nodes[j].id != nodes[i].id {
        assert all[j].id != all[i].id;
      }
    }
  }

  /** The scan of the joined rows: the neighbours, and for each the accounts it belongs to. */
  method ScanJoin(nodes: seq<Account>, byId: map<int, Account>, rows: seq<JoinRow>)
    returns (neighbors: seq<Record>, nids: map<int, set<Account>>)
    requires DistinctNodes(nodes) && IndexesById(byId, nodes)
    requires forall r <- rows :: HasId(nodes, r.accountId)
    ensures neighbors == FirstSeen(rows)
    ensures nids.Keys == GroupIds(rows)
    ensures forall g <- nids :: OwnersJoined(nodes, rows, g, nids[g])
  {
    neighbors, nids := [], map[];
    hide OwnersJoined, Joined, IndexesById, HasId, Owns;
    for k := 0 to |rows|
      invariant neighbors == FirstSeen(rows[..k])
      invariant nids.Keys == GroupIds(rows[..k])
      invariant forall g <- nids :: OwnersJoined(nodes, rows[..k], g, nids[g])
    {
      var r := rows[k];
      assert rows[..k + 1][..k] == rows[..k] && rows[..k + 1] == rows[..k] + [r];
      assert r in rows;
      GroupIdsSnoc(rows[..k], r);
      InIndex(nodes, byId, r.accountId);
      var owner := byId[r.accountId];
      ghost var before := nids;
      if r.group.id !in nids {
        nids := nids[r.group.id := {owner}];
        neighbors := neighbors + [r.group];
      } else {
        nids := nids[r.group.id := nids[r.group.id] + {owner}];
      }
      forall g <- nids ensures OwnersJoined(nodes, rows[..k + 1], g, nids[g]) {
        var owners := if g in before then before[g] else {};
        ScanStep(nodes, byId, rows[..k], r, g, owners);
        assert nids[g] == owners + if g == r.group.id then {owner} else {};
      }
    }
    assert rows[..|rows|] == rows;
  }

  lemma GroupIdsSnoc(rows: seq<JoinRow>, r: JoinRow)
    ensures GroupIds(rows + [r]) == GroupIds(rows) + {r.group.id}
  {
    assert forall x :: x in rows + [r] <==> x in rows || x == r;
    assert r in rows + [r];
  }

  lemma JoinedSnoc(rows: seq<JoinRow>, r: JoinRow, id: int, g: int)
    ensures Joined(rows + [r], id, g) <==> Joined(rows, id, g) || (id == r.accountId && g == r.group.id)
  {
    assert forall x :: x in rows + [r] <==> x in rows || x == r;
    assert r in rows + [r];
  }

  lemma NotJoined(rows: seq<JoinRow>, id: int, g: int)
    requires g !in GroupIds(rows)
    ensures !Joined(rows, id, g)
  {
  }

  lemma ScanStep(nodes: seq<Account>, byId: map<int, Account>, rows: seq<JoinRow>, r: JoinRow, g: int, owners: set<Account>)
    requires DistinctNodes(nodes) && IndexesById(byId, nodes) && HasId(nodes, r.accountId)
    requires if g in GroupIds(rows) then OwnersJoined(nodes, rows, g, owners) else owners == {}
    ensures OwnersJoined(nodes, rows + [r], g, owners + if g == r.group.id then {byId[r.accountId]} else {})
  {
    hide Joined, HasId, Owns;
    var at := OwnerAt(nodes, byId, r.accountId);
    forall i | 0 <= i < |nodes|
      ensures nodes[i] in owners <==> Owns(nodes, i) && Joined(rows, nodes[i].id, g)
      ensures Joined(rows + [r], nodes[i].id, g) <==> Joined(rows, nodes[i].id, g) || (nodes[i].id == r.accountId && g == r.group.id)
      ensures nodes[i] == byId[r.accountId] <==> Owns(nodes, i) && nodes[i].id == r.accountId
    {
      JoinedSnoc(rows, r, nodes[i].id, g);
      if g !in GroupIds(rows) {
        NotJoined(rows, nodes[i].id, g);
      }
    }
  }

  lemma InIndex(nodes: seq<Account>, index: map<int, Account>, id: int)
    requires IndexesById(index, nodes) && HasId(nodes, id)
    ensures id in index
  {
  }

  lemma OwnerAt(nodes: seq<Account>, index: map<int, Account>, id: int) returns (k: nat)
    requires IndexesById(index, nodes) && HasId(nodes, id)
    ensures k < |nodes| && nodes[k] == index[id] && nodes[k].id == id && Owns(nodes, k)
  {
    var i :| 0 <= i < |nodes| && nodes[i].id == id;
    LastOwner(nodes, index, i);
    k :| i <= k < |nodes| && nodes[k].id == nodes[i].id && Owns(nodes, k) && nodes[k] == index[nodes[i].id];
  }

  /** Some node with the id of node `i` is the one the index holds. */
  lemma LastOwner(nodes: seq<Account>, index: map<int, Account>, i: nat)
    requires IndexesById(index, nodes) && i < |nodes|
    ensures exists k :: i <= k < |nodes| && nodes[k].id == nodes[i].id && Owns(nodes, k) && nodes[k] == index[nodes[i].id]
    decreases |nodes| - i
  {
    if !Owns(nodes, i) {
      var j :| i < j < |nodes| && nodes[j].id == nodes[i].id;
      LastOwner(nodes, index, j);
    }
  }

  /** What an account's groups are after loading. */
  ghost function ExpectedGroups(nodes: seq<Account>, i: nat, rows: seq<JoinRow>, neighbors: seq<Record>): seq<Record>
    requires i < |nodes|
  {
    if Owns(nodes, i) then JoinedTo(rows, nodes[i].id, neighbors) else []
  }

  /** `loadGroups`: `all` is the joined query for given ids, `inter` what the interceptors make of the
      neighbours; either may fail.  The accounts of one neighbour are visited in any order. */
  method LoadGroups(nodes: seq<Account>, all: seq<int> -> Result<seq<JoinRow>, string>, inter: seq<Record> -> Result<seq<Record>, string>)
    returns (err: Option<LoadError>)
    requires DistinctNodes(nodes)
    requires all(Ids(nodes)).Ok? ==> forall r <- all(Ids(nodes)).value :: HasId(nodes, r.accountId)
    modifies nodes
    ensures match all(Ids(nodes))
            case Err(m) => err == Some(QueryFailed(m))
            case Ok(rows) =>
              match inter(FirstSeen(rows))
              case Err(m) => err == Some(QueryFailed(m))
              case Ok(neighbors) =>
                && (err.None? <==> forall n <- neighbors :: n.id in GroupIds(rows))
                && (err.Some? ==> exists k ::
                      && 0 <= k < |neighbors| && err == Some(UnexpectedNode(neighbors[k].id))
                      && neighbors[k].id !in GroupIds(rows) && forall j :: 0 <= j < k ==> neighbors[j].id in GroupIds(rows))
                && (err.None? ==> forall i :: 0 <= i < |nodes| ==>
                      nodes[i].edges == old(nodes[i].edges).(groups := ExpectedGroups(nodes, i, rows, neighbors)))
  {
    hide Owns, Joined, JoinedTo, IndexesById, HasId, OwnersJoined, ExpectedGroups, FirstSeen, GroupIds;
    var byId := IndexById(nodes);
    InitGroups(nodes);
    var joined := all(Ids(nodes));
    if joined.Err? {
      return Some(QueryFailed(joined.error));
    }
    var rows := joined.value;
    var seen, nids := ScanJoin(nodes, byId, rows);
    var intercepted := inter(seen);
    if intercepted.Err? {
      return Some(QueryFailed(intercepted.error));
    }
    var neighbors := intercepted.value;
    NoGroupsYet(nodes, rows, neighbors);
    for k := 0 to |neighbors|
      invariant forall j :: 0 <= j < k ==> neighbors[j].id in GroupIds(rows)
      invariant forall i :: 0 <= i < |nodes| ==>
                  nodes[i].edges == old(nodes[i].edges).(groups := ExpectedGroups(nodes, i, rows, neighbors[..k]))
    {
      var n := neighbors[k];
      if n.id !in nids {
        assert n in neighbors;
        return Some(UnexpectedNode(n.id));
      }
      HandOut(nodes, rows, nids[n.id], neighbors, k);
    }
    assert neighbors[..|neighbors|] == neighbors;
    err := None;
  }

  method InitGroups(nodes: seq<Account>)
    requires DistinctNodes(nodes)
    modifies nodes
    ensures forall i :: 0 <= i < |nodes| ==> nodes[i].edges == old(nodes[i].edges).(groups := [])
  {
    for k := 0 to |nodes|
      invariant forall i :: 0 <= i < |nodes| ==>
                  nodes[i].edges == if i < k then old(nodes[i].edges).(groups := []) else old(nodes[i].edges)
    {
      nodes[k].edges := nodes[k].edges.(groups := []);
    }
  }

  lemma NoGroupsYet(nodes: seq<Account>, rows: seq<JoinRow>, neighbors: seq<Record>)
    ensures forall i :: 0 <= i < |nodes| ==> ExpectedGroups(nodes, i, rows, neighbors[..0]) == []
  {
  }

  /** The inner loop over the accounts of one neighbour, in whatever order the map yields them. */
  method HandOut(nodes: seq<Account>, rows: seq<JoinRow>, owners: set<Account>, neighbors: seq<Record>, k: nat)
    requires DistinctNodes(nodes) && k < |neighbors| && OwnersJoined(nodes, rows, neighbors[k].id, owners)
    requires forall i :: 0 <= i < |nodes| ==> nodes[i].edges.groups == ExpectedGroups(nodes, i, rows, neighbors[..k])
    modifies nodes
    ensures forall i :: 0 <= i < |nodes| ==>
      nodes[i].edges == old(nodes[i].edges).(groups := ExpectedGroups(nodes, i, rows, neighbors[..k + 1]))
  {
    assert neighbors[..k + 1][..k] == neighbors[..k];
    hide Owns, Joined;
    var todo := owners;
    while todo != {}
      invariant todo <= owners
      invariant forall i :: 0 <= i < |nodes| ==>
        nodes[i].edges == old(nodes[i].edges).(groups := old(nodes[i].edges).groups +
                            if nodes[i] in owners && nodes[i] !in todo then [neighbors[k]] else [])
      decreases |todo|
    {
      var a :| a in todo;
      a.edges := a.edges.(groups := a.edges.groups + [neighbors[k]]);
      todo := todo - {a};
    }
  }

  /** The first row of the join that shows a group, or the number of rows. */
  function FirstAt(rows: seq<JoinRow>, groupId: int): (k: nat)
    ensures k <= |rows|
  {
    if rows == [] then 0
    else if rows[0].group.id == groupId then 0
    else 1 + FirstAt(rows[1..], groupId)
  }

  lemma {:induction false} FirstAtIsFirst(rows: seq<JoinRow>, groupId: int)
    ensures var k := FirstAt(rows, groupId);
            && (k < |rows| ==> rows[k].group.id == groupId)
            && forall j :: 0 <= j < k ==> rows[j].group.id != groupId
  {
    if rows != [] && rows[0].group.id != groupId {
      FirstAtIsFirst(rows[1..], groupId);
      var k := FirstAt(rows[1..], groupId);
      forall j | 0 <= j < k + 1 ensures rows[j].group.id != groupId {
        assert j > 0 ==> rows[j] == rows[1..][j - 1];
      }
    }
  }

  /** Groups of the join, as their first rows show them and in the order of those rows. */
  ghost predicate InFirstSeenOrder(rows: seq<JoinRow>, groups: seq<Record>) {
    && (forall i :: 0 <= i < |groups| ==> FirstAt(rows, groups[i].id) < |rows| && rows[FirstAt(rows, groups[i].id)].group == groups[i])
    && forall i, j :: 0 <= i < j < |groups| ==> FirstAt(rows, groups[i].id) < FirstAt(rows, groups[j].id)
  }

  lemma FirstAtGrows(rows: seq<JoinRow>, r: JoinRow, groupId: int)
    ensures FirstAt(rows + [r], groupId) ==
            if FirstAt(rows, groupId) < |rows| || r.group.id == groupId then FirstAt(rows, groupId) else |rows| + 1
  {
    hide FirstAt;
    FirstAtIsFirst(rows, groupId);
    FirstAtIsFirst(rows + [r], groupId);
    var k, m := FirstAt(rows, groupId), FirstAt(rows + [r], groupId);
    if k < |rows| {
      assert (rows + [r])[k].group.id == groupId;
    }
    if m < |rows| {
      assert rows[m] == (rows + [r])[m];
    }
    assert (rows + [r])[|rows|] == r;
  }

  lemma InGroupIds(rows: seq<JoinRow>, groupId: int)
    ensures groupId in GroupIds(rows) <==> FirstAt(rows, groupId) < |rows|
  {
    hide FirstAt;
    FirstAtIsFirst(rows, groupId);
    var k := FirstAt(rows, groupId);
    if k < |rows| {
      assert rows[k] in rows;
    }
  }

  lemma {:induction false} FirstSeenIsOrdered(rows: seq<JoinRow>)
    ensures InFirstSeenOrder(rows, FirstSeen(rows))
  {
    if rows == [] {
      return;
    }
    hide GroupIds, FirstAt, InFirstSeenOrder;
    var init, r := rows[..|rows| - 1], rows[|rows| - 1];
    assert rows == init + [r];
    FirstSeenIsOrdered(init);
    OneMoreRow(init, r, FirstSeen(init));
    InGroupIds(init, r.group.id);
  }

  lemma OneMoreRow(rows: seq<JoinRow>, r: JoinRow, groups: seq<Record>)
    requires InFirstSeenOrder(rows, groups)
    ensures InFirstSeenOrder(rows + [r], groups)
    ensures FirstAt(rows, r.group.id) == |rows| ==> InFirstSeenOrder(rows + [r], groups + [r.group])
  {
    hide FirstAt;
    var more := rows + [r];
    forall i | 0 <= i < |groups| ensures SameFirst(rows, more, groups[i].id) {
      FirstAtGrows(rows, r, groups[i].id);
    }
    StillInOrder(rows, more, groups);
    if FirstAt(rows, r.group.id) == |rows| {
      FirstAtGrows(rows, r, r.group.id);
      forall i | 0 <= i < |groups| ensures FirstAt(more, groups[i].id) < |rows| {
        assert SameFirst(rows, more, groups[i].id);
      }
      OneMoreGroup(more, groups, r.group);
    }
  }

  ghost predicate SameFirst(rows: seq<JoinRow>, more: seq<JoinRow>, groupId: int) {
    FirstAt(more, groupId) == FirstAt(rows, groupId) < |rows|
  }

  lemma StillInOrder(rows: seq<JoinRow>, more: seq<JoinRow>, groups: seq<Record>)
    requires rows <= more && InFirstSeenOrder(rows, groups)
    requires forall i :: 0 <= i < |groups| ==> SameFirst(rows, more, groups[i].id)
    ensures InFirstSeenOrder(more, groups)
  {
    hide FirstAt;
  }

  lemma OneMoreGroup(rows: seq<JoinRow>, groups: seq<Record>, group: Record)
    requires InFirstSeenOrder(rows, groups)
    requires FirstAt(rows, group.id) < |rows| && rows[FirstAt(rows, group.id)].group == group
    requires forall i :: 0 <= i < |groups| ==> FirstAt(rows, groups[i].id) < FirstAt(rows, group.id)
    ensures InFirstSeenOrder(rows, groups + [group])
  {
    hide FirstAt;
  }

  lemma {:induction false} JoinedToFilters(rows: seq<JoinRow>, accountId: int, neighbors: seq<Record>)
    ensures forall n :: n in JoinedTo(rows, accountId, neighbors) <==> n in neighbors && Joined(rows, accountId, n.id)
  {
    if neighbors != [] {
      hide Joined;
      JoinedToFilters(rows, accountId, neighbors[..|neighbors| - 1]);
      assert neighbors == neighbors[..|neighbors| - 1] + [neighbors[|neighbors| - 1]];
    }
  }

  lemma {:induction false} JoinedToKeepsOrder(rows: seq<JoinRow>, accountId: int, neighbors: seq<Record>)
    requires InFirstSeenOrder(rows, neighbors)
    ensures InFirstSeenOrder(rows, JoinedTo(rows, accountId, neighbors))
  {
    if neighbors == [] {
      return;
    }
    hide Joined, FirstAt;
    var init, last := neighbors[..|neighbors| - 1], neighbors[|neighbors| - 1];
    JoinedToKeepsOrder(rows, accountId, init);
    JoinedToFilters(rows, accountId, init);
    var before := JoinedTo(rows, accountId, init);
    forall i | 0 <= i < |before| ensures FirstAt(rows, before[i].id) < FirstAt(rows, last.id) {
      assert before[i] in init;
      var k :| 0 <= k < |init| && init[k] == before[i];
      assert neighbors[k] == before[i];
    }
  }

  /** Whatever the join repeats, an account is given exactly the groups joined to it, each once, in
      first-seen order. */
  lemma GroupsAreExactlyTheJoined(rows: seq<JoinRow>, accountId: int)
    ensures var groups := JoinedTo(rows, accountId, FirstSeen(rows));
            && InFirstSeenOrder(rows, groups)
            && (forall i, j :: 0 <= i < j < |groups| ==> groups[i].id != groups[j].id)
            && (forall id :: (exists n <- groups :: n.id == id) <==> Joined(rows, accountId, id))
  {
    hide FirstAt, FirstSeen;
    var groups, seen := JoinedTo(rows, accountId, FirstSeen(rows)), FirstSeen(rows);
    FirstSeenIsOrdered(rows);
    JoinedToKeepsOrder(rows, accountId, seen);
    JoinedToFilters(rows, accountId, seen);
    forall id | Joined(rows, accountId, id) ensures exists n <- groups :: n.id == id {
      var r :| r in rows && r.accountId == accountId && r.group.id == id;
      var n := SeenGroup(rows, r);
      assert n in groups;
    }
  }

  lemma {:induction false} SeenGroup(rows: seq<JoinRow>, r: JoinRow) returns (n: Record)
    requires r in rows
    ensures n in FirstSeen(rows) && n.id == r.group.id
  {
    var init, last := rows[..|rows| - 1], rows[|rows| - 1];
    if last.group.id !in GroupIds(init) && r == last {
      n := last.group;
    } else if r in init {
      n := SeenGroup(init, r);
    } else {
      assert rows == init + [last];
      var other :| other in init && other.group.id == last.group.id;
      n := SeenGroup(init, other);
    }
  }

  // ---------------------------------------------------------------- many to one: proxy and parent

  /** The keys of the accounts, each once, in first-seen order. */
  function DistinctKeys(nodes: seq<Account>, column: string): seq<int> {
    if nodes == [] then [] else
    var before, key := DistinctKeys(nodes[..|nodes| - 1], column), nodes[|nodes| - 1].Key(column);
    if key.None? || key.value in before then before else before + [key.value]
  }

  /** The last returned neighbour with this id: the naive lookup by key. */
  function LastWithId(neighbors: seq<Record>, id: int): Option<Record> {
    if neighbors == [] then None
    else if neighbors[|neighbors| - 1].id == id then Some(neighbors[|neighbors| - 1])
    else LastWithId(neighbors[..|neighbors| - 1], id)
  }

  /** What an account's edge is after loading, given what it was before. */
  function ExpectedOne(key: Option<int>, neighbors: seq<Record>, before: Option<Record>): Option<Record> {
    if key.None? || LastWithId(neighbors, key.value).None? then before else LastWithId(neighbors, key.value)
  }

  ghost predicate KeyOwners(nodes: seq<Account>, column: string, key: int, owners: seq<Account>) {
    && (forall a <- owners :: a in nodes && a.Key(column) == Some(key))
    && (forall a <- nodes :: a.Key(column) == Some(key) ==> a in owners)
  }

  method CollectKeys(nodes: seq<Account>, column: string) returns (ids: seq<int>, nodeIds: map<int, seq<Account>>)
    ensures ids == DistinctKeys(nodes, column)
    ensures forall key :: key in nodeIds <==> key in ids
    ensures forall key <- nodeIds :: KeyOwners(nodes, column, key, nodeIds[key])
  {
    ids, nodeIds := [], map[];
    NoKeys(column);
    assert nodes[..0] == [];
    hide DistinctKeys, KeyOwners;
    for k := 0 to |nodes|
      invariant ids == DistinctKeys(nodes[..k], column)
      invariant forall key :: key in nodeIds <==> key in ids
      invariant forall key <- nodeIds :: KeyOwners(nodes[..k], column, key, nodeIds[key])
      invariant forall key :: key !in nodeIds ==> KeyOwners(nodes[..k], column, key, [])
    {
      assert nodes[..k + 1] == nodes[..k] + [nodes[k]];
      var key := nodes[k].Key(column);
      DistinctKeysStep(nodes, column, k);
      assert forall x :: x in nodeIds <==> x in ids;
      forall x: int
        ensures x in nodeIds && key != Some(x) ==> KeyOwners(nodes[..k + 1], column, x, nodeIds[x])
        ensures x !in nodeIds && key != Some(x) ==> KeyOwners(nodes[..k + 1], column, x, [])
        ensures key == Some(x) ==>
                  KeyOwners(nodes[..k + 1], column, x, (if x in nodeIds then nodeIds[x] else []) + [nodes[k]])
      {
        KeyOwnersSnoc(nodes[..k], nodes[k], column, x, if x in nodeIds then nodeIds[x] else []);
      }
      if key.Some? {
        if key.value !in nodeIds {
          ids := ids + [key.value];
          nodeIds := nodeIds[key.value := []];
        }
        nodeIds := nodeIds[key.value := nodeIds[key.value] + [nodes[k]]];
      }
    }
    assert nodes[..|nodes|] == nodes;
  }

  lemma KeyOwnersSnoc(nodes: seq<Account>, node: Account, column: string, key: int, owners: seq<Account>)
    ensures KeyOwners(nodes, column, key, owners) ==>
              KeyOwners(nodes + [node], column, key, if node.Key(column) == Some(key) then owners + [node] else owners)
  {
  }

  lemma NoKeys(column: string)
    ensures DistinctKeys([], column) == []
    ensures forall key :: KeyOwners([], column, key, [])
  {
  }

  lemma DistinctKeysStep(nodes: seq<Account>, column: string, k: nat)
    requires k < |nodes|
    ensures var before, key := DistinctKeys(nodes[..k], column), nodes[k].Key(column);
            DistinctKeys(nodes[..k + 1], column) ==
            if key.None? || key.value in before then before else before + [key.value]
  {
    assert nodes[..k + 1][..k] == nodes[..k];
  }

  ghost predicate HasKey(nodes: seq<Account>, column: string, key: int) {
    exists i :: 0 <= i < |nodes| && nodes[i].Key(column) == Some(key)
  }

  lemma HasKeySnoc(nodes: seq<Account>, node: Account, column: string, key: int)
    ensures HasKey(nodes + [node], column, key) <==> HasKey(nodes, column, key) || node.Key(column) == Some(key)
  {
    var all := nodes + [node];
    if i :| 0 <= i < |nodes| && nodes[i].Key(column) == Some(key) {
      assert all[i].Key(column) == Some(key);
    }
    if node.Key(column) == Some(key) {
      assert all[|nodes|].Key(column) == Some(key);
    }
  }

  /** The queried ids are exactly the non-null keys, without repetition. */
  lemma {:induction false} KeysAreQueriedOnce(nodes: seq<Account>, column: string)
    ensures forall key :: key in DistinctKeys(nodes, column) <==> HasKey(nodes, column, key)
    ensures Distinct(DistinctKeys(nodes, column))
  {
    if nodes != [] {
      var init, node := nodes[..|nodes| - 1], nodes[|nodes| - 1];
      assert nodes == init + [node];
      KeysAreQueriedOnce(init, column);
      hide HasKey, Distinct;
      forall key ensures HasKey(nodes, column, key) <==> HasKey(init, column, key) || node.Key(column) == Some(key) {
        HasKeySnoc(init, node, column, key);
      }
      if node.Key(column).Some? {
        OneMoreDistinct(DistinctKeys(init, column), node.Key(column).value);
      }
    }
  }

  /** Some node holds this key, and no node up to it the other one. */
  ghost predicate HeldEarlier(nodes: seq<Account>, column: string, key: int, other: int) {
    exists m :: 0 <= m < |nodes| && nodes[m].Key(column) == Some(key) && forall n :: 0 <= n <= m ==> nodes[n].Key(column) != Some(other)
  }

  lemma HeldEarlierStays(nodes: seq<Account>, column: string, key: int, other: int)
    requires nodes != [] && HeldEarlier(nodes[..|nodes| - 1], column, key, other)
    ensures HeldEarlier(nodes, column, key, other)
  {
    var init := nodes[..|nodes| - 1];
    var m :| 0 <= m < |init| && init[m].Key(column) == Some(key) && forall n :: 0 <= n <= m ==> init[n].Key(column) != Some(other);
    assert forall n :: 0 <= n <= m ==> nodes[n] == init[n];
  }

  /** The queried ids are in the order in which the accounts first show them. */
  lemma {:induction false} KeysAreInFirstSeenOrder(nodes: seq<Account>, column: string, i: nat, j: nat)
    requires i < j < |DistinctKeys(nodes, column)|
    ensures HeldEarlier(nodes, column, DistinctKeys(nodes, column)[i], DistinctKeys(nodes, column)[j])
  {
    var init := nodes[..|nodes| - 1];
    var before := DistinctKeys(init, column);
    if j < |before| {
      KeysAreInFirstSeenOrder(init, column, i, j);
      HeldEarlierStays(nodes, column, before[i], before[j]);
    } else {
      KeysAreQueriedOnce(init, column);
      var key, last := before[i], nodes[|nodes| - 1].Key(column).value;
      assert key in before && last !in before;
      assert HasKey(init, column, key) && !HasKey(init, column, last);
      var m :| 0 <= m < |init| && init[m].Key(column) == Some(key);
      assert forall n :: 0 <= n <= m ==> init[n].Key(column) != Some(last);
      assert HeldEarlier(init, column, key, last);
      HeldEarlierStays(nodes, column, key, last);
    }
  }

  lemma KeyIsQueried(nodes: seq<Account>, column: string, i: nat)
    requires i < |nodes|
    ensures nodes[i].Key(column).Some? ==> nodes[i].Key(column).value in DistinctKeys(nodes, column)
  {
    hide DistinctKeys;
    KeysAreQueriedOnce(nodes, column);
    if nodes[i].Key(column).Some? {
      var key := nodes[i].Key(column).value;
      assert HasKey(nodes, column, key);
    }
  }

  /** `loadProxy` and `loadParent`: `all` is the neighbour query restricted to the given ids. */
  method LoadToOne(edge: ToOne, nodes: seq<Account>, all: seq<int> -> Result<seq<Record>, string>) returns (err: Option<LoadError>)
    requires DistinctNodes(nodes)
    modifies nodes
    ensures var ids := DistinctKeys(nodes, KeyColumn(edge));
            var outcome := if ids == [] then Ok([]) else all(ids);
            match outcome
            case Err(m) => err == Some(QueryFailed(m)) && forall i :: 0 <= i < |nodes| ==> nodes[i].edges == old(nodes[i].edges)
            case Ok(neighbors) =>
              && (err.None? <==> forall n <- neighbors :: n.id in ids)
              && (err.Some? ==> exists k ::
                    && 0 <= k < |neighbors| && err == Some(UnexpectedNode(neighbors[k].id))
                    && neighbors[k].id !in ids && forall j :: 0 <= j < k ==> neighbors[j].id in ids)
              && (err.None? ==> forall i :: 0 <= i < |nodes| ==>
                    nodes[i].edges == old(nodes[i].edges).WithOne(edge,
                      ExpectedOne(nodes[i].Key(KeyColumn(edge)), neighbors, old(nodes[i].edges).One(edge))))
  {
    hide DistinctKeys, LastWithId, ExpectedOne, KeyOwners;
    var column := KeyColumn(edge);
    var ids, nodeIds := CollectKeys(nodes, column);
    NothingExpected(edge, nodes);
    if |ids| == 0 {
      return None;
    }
    var outcome := all(ids);
    if outcome.Err? {
      return Some(QueryFailed(outcome.error));
    }
    var neighbors := outcome.value;
    assert neighbors[..0] == [];
    for k := 0 to |neighbors|
      invariant forall j :: 0 <= j < k ==> neighbors[j].id in ids
      invariant forall i :: 0 <= i < |nodes| ==>
        nodes[i].edges == old(nodes[i].edges).WithOne(edge,
          ExpectedOne(nodes[i].Key(column), neighbors[..k], old(nodes[i].edges).One(edge)))
    {
      var n := neighbors[k];
      if n.id !in nodeIds {
        assert n in neighbors;
        return Some(UnexpectedNode(n.id));
      }
      KeyOwnersAre(nodes, column, n.id, nodeIds[n.id]);
      AssignOne(edge, nodes, nodeIds[n.id], n);
      forall key, before ensures ExpectedOne(key, neighbors[..k + 1], before) ==
                                 if key == Some(n.id) then Some(n) else ExpectedOne(key, neighbors[..k], before)
      {
        OneMoreNeighbor(key, neighbors, k, before);
      }
    }
    assert neighbors[..|neighbors|] == neighbors;
    err := None;
  }

  lemma NothingExpected(edge: ToOne, nodes: seq<Account>)
    ensures forall key, before :: ExpectedOne(key, [], before) == before
    ensures forall e: Edges :: e.WithOne(edge, e.One(edge)) == e
  {
  }

  lemma KeyOwnersAre(nodes: seq<Account>, column: string, key: int, owners: seq<Account>)
    requires KeyOwners(nodes, column, key, owners)
    ensures forall i :: 0 <= i < |nodes| ==> (nodes[i] in owners <==> nodes[i].Key(column) == Some(key))
    ensures forall a <- owners :: a in nodes
  {
  }

  lemma OneMoreNeighbor(key: Option<int>, neighbors: seq<Record>, k: nat, before: Option<Record>)
    requires k < |neighbors|
    ensures ExpectedOne(key, neighbors[..k + 1], before) ==
            if key == Some(neighbors[k].id) then Some(neighbors[k]) else ExpectedOne(key, neighbors[..k], before)
  {
    assert neighbors[..k + 1][..k] == neighbors[..k];
  }

  method AssignOne(edge: ToOne, nodes: seq<Account>, owners: seq<Account>, n: Record)
    requires DistinctNodes(nodes) && forall a <- owners :: a in nodes
    modifies nodes
    ensures forall i :: 0 <= i < |nodes| ==>
      nodes[i].edges == if nodes[i] in owners then old(nodes[i].edges).WithOne(edge, Some(n)) else old(nodes[i].edges)
  {
    for j := 0 to |owners|
      invariant forall i :: 0 <= i < |nodes| ==>
        nodes[i].edges == if nodes[i] in owners[..j] then old(nodes[i].edges).WithOne(edge, Some(n)) else old(nodes[i].edges)
    {
      assert owners[j] in owners;
      assert owners[..j + 1] == owners[..j] + [owners[j]];
      owners[j].edges := owners[j].edges.WithOne(edge, Some(n));
    }
    assert owners[..|owners|] == owners;
  }

  // ---------------------------------------------------------------- one to many

  /** The neighbours that refer to one account, in the order returned. */
  function Referring(edge: ToMany, id: int, neighbors: seq<Record>): seq<Record> {
    if neighbors == [] then [] else
    var before, n := Referring(edge, id, neighbors[..|neighbors| - 1]), neighbors[|neighbors| - 1];
    if ForeignKey(edge, n) == Some(id) then before + [n] else before
  }

  ghost function ExpectedMany(edge: ToMany, nodes: seq<Account>, i: nat, neighbors: seq<Record>): seq<Record>
    requires i < |nodes|
  {
    if Owns(nodes, i) then Referring(edge, nodes[i].id, neighbors) else []
  }

  ghost predicate Refers(edge: ToMany, nodes: seq<Account>, n: Record) {
    ForeignKey(edge, n).Some? && HasId(nodes, ForeignKey(edge, n).value)
  }

  function Ids(nodes: seq<Account>): seq<int> {
    seq(|nodes|, i requires 0 <= i < |nodes| => nodes[i].id)
  }

  /** A null key is told from one that no account has. */
  function ReferenceError(edge: ToMany, n: Record): LoadError {
    if edge == ChildrenEdge && n.Key("parent_account_id").None? then NilForeignKey(n.id) else UnexpectedNode(n.id)
  }

  lemma OnlyChildrenMayMissTheirKey(edge: ToMany, n: Record)
    ensures ForeignKey(edge, n) ==
            if edge == ChildrenEdge then n.Key("parent_account_id")
            else Some(if n.Key("account_id").Some? then n.Key("account_id").value else 0)
  {
  }

  /** `loadChildren`, `loadUsageLogs` and `loadAccountGroups`: `all` is the neighbour query
      restricted to the ids of the accounts. */
  method LoadToMany(edge: ToMany, nodes: seq<Account>, all: seq<int> -> Result<seq<Record>, string>) returns (err: Option<LoadError>)
    requires DistinctNodes(nodes)
    modifies nodes
    ensures match all(Ids(nodes))
            case Err(m) => err == Some(QueryFailed(m))
            case Ok(neighbors) =>
              && (err.None? <==> forall n <- neighbors :: Refers(edge, nodes, n))
              && (err.Some? ==> exists k ::
                    && 0 <= k < |neighbors| && !Refers(edge, nodes, neighbors[k])
                    && err == Some(ReferenceError(edge, neighbors[k])) && forall j :: 0 <= j < k ==> Refers(edge, nodes, neighbors[j]))
              && (err.None? ==> forall i :: 0 <= i < |nodes| ==>
                    nodes[i].edges == old(nodes[i].edges).WithMany(edge, ExpectedMany(edge, nodes, i, neighbors)))
  {
    hide Owns, IndexesById, HasId, ExpectedMany, ForeignKey;
    var byId := IndexById(nodes);
    InitMany(edge, nodes);
    var outcome := all(Ids(nodes));
    if outcome.Err? {
      return Some(QueryFailed(outcome.error));
    }
    var neighbors := outcome.value;
    NothingReferring(edge, nodes, neighbors);
    for k := 0 to |neighbors|
      invariant forall j :: 0 <= j < k ==> Refers(edge, nodes, neighbors[j])
      invariant forall i :: 0 <= i < |nodes| ==>
        nodes[i].edges == old(nodes[i].edges).WithMany(edge, ExpectedMany(edge, nodes, i, neighbors[..k]))
    {
      var n := neighbors[k];
      var key := ForeignKey(edge, n);
      OnlyChildrenMayMissTheirKey(edge, n);
      assert n in neighbors;
      if key.None? {
        return Some(NilForeignKey(n.id));
      }
      IndexedIffPresent(nodes, byId, key.value);
      if key.value !in byId {
        return Some(UnexpectedNode(n.id));
      }
      OwnerReceives(edge, nodes, byId, neighbors, k);
      var node := byId[key.value];
      node.edges := node.edges.WithMany(edge, node.edges.Many(edge) + [n]);
    }
    assert neighbors[..|neighbors|] == neighbors;
    err := None;
  }

  method InitMany(edge: ToMany, nodes: seq<Account>)
    requires DistinctNodes(nodes)
    modifies nodes
    ensures forall i :: 0 <= i < |nodes| ==> nodes[i].edges == old(nodes[i].edges).WithMany(edge, [])
  {
    for k := 0 to |nodes|
      invariant forall i :: 0 <= i < |nodes| ==>
                  nodes[i].edges == if i < k then old(nodes[i].edges).WithMany(edge, []) else old(nodes[i].edges)
    {
      nodes[k].edges := nodes[k].edges.WithMany(edge, []);
    }
  }

  lemma NothingReferring(edge: ToMany, nodes: seq<Account>, neighbors: seq<Record>)
    ensures forall i :: 0 <= i < |nodes| ==> ExpectedMany(edge, nodes, i, neighbors[..0]) == []
  {
  }

  lemma IndexedIffPresent(nodes: seq<Account>, index: map<int, Account>, id: int)
    requires IndexesById(index, nodes)
    ensures id in index <==> HasId(nodes, id)
  {
  }

  lemma OwnerReceives(edge: ToMany, nodes: seq<Account>, index: map<int, Account>, neighbors: seq<Record>, k: nat)
    requires DistinctNodes(nodes) && IndexesById(index, nodes) && k < |neighbors| && Refers(edge, nodes, neighbors[k])
    ensures ForeignKey(edge, neighbors[k]).value in index
    ensures var owner := index[ForeignKey(edge, neighbors[k]).value];
            && (exists i :: 0 <= i < |nodes| && nodes[i] == owner)
            && forall i :: 0 <= i < |nodes| ==>
                 ExpectedMany(edge, nodes, i, neighbors[..k + 1]) ==
                 ExpectedMany(edge, nodes, i, neighbors[..k]) + if nodes[i] == owner then [neighbors[k]] else []
  {
    hide HasId, Owns;
    var key := ForeignKey(edge, neighbors[k]).value;
    InIndex(nodes, index, key);
    var at := OwnerAt(nodes, index, key);
    assert neighbors[..k + 1][..k] == neighbors[..k];
  }

  ghost function TotalMany(edge: ToMany, nodes: seq<Account>, neighbors: seq<Record>, k: nat): nat
    requires k <= |nodes|
  {
    if k == 0 then 0 else TotalMany(edge, nodes, neighbors, k - 1) + |ExpectedMany(edge, nodes, k - 1, neighbors)|
  }

  lemma {:induction false} OneMoreInTotal(edge: ToMany, nodes: seq<Account>, neighbors: seq<Record>, n: Record, k: nat)
    requires k <= |nodes| && ForeignKey(edge, n).Some?
    ensures TotalMany(edge, nodes, neighbors + [n], k) ==
            TotalMany(edge, nodes, neighbors, k) + if OwnedBelow(nodes, ForeignKey(edge, n).value, k) then 1 else 0
  {
    hide ForeignKey, Owns, OwnedBelow;
    if k == 0 {
      NoneOwnedBelow(nodes, ForeignKey(edge, n).value);
    } else {
      OneMoreInTotal(edge, nodes, neighbors, n, k - 1);
      assert (neighbors + [n])[..|neighbors|] == neighbors;
      OneOwner(nodes, ForeignKey(edge, n).value, k - 1);
    }
  }

  ghost predicate OwnedBelow(nodes: seq<Account>, id: int, k: nat)
    requires k <= |nodes|
  {
    exists i :: 0 <= i < k && Owns(nodes, i) && nodes[i].id == id
  }

  lemma NoneOwnedBelow(nodes: seq<Account>, id: int)
    ensures !OwnedBelow(nodes, id, 0)
  {
  }

  lemma OneOwner(nodes: seq<Account>, id: int, k: nat)
    requires k < |nodes|
    ensures OwnedBelow(nodes, id, k + 1) <==> OwnedBelow(nodes, id, k) || (Owns(nodes, k) && nodes[k].id == id)
    ensures Owns(nodes, k) && nodes[k].id == id ==> !OwnedBelow(nodes, id, k)
  {
  }

  lemma {:induction false} SomeNodeOwns(nodes: seq<Account>, i: nat) returns (k: nat)
    requires i < |nodes|
    ensures k < |nodes| && Owns(nodes, k) && nodes[k].id == nodes[i].id
    decreases |nodes| - i
  {
    k := i;
    if !Owns(nodes, i) {
      var j :| i < j < |nodes| && nodes[j].id == nodes[i].id;
      k := SomeNodeOwns(nodes, j);
    }
  }

  lemma NoneInTotal(edge: ToMany, nodes: seq<Account>, k: nat)
    requires k <= |nodes|
    ensures TotalMany(edge, nodes, [], k) == 0
  {
  }

  /** The loaders partition the neighbours: no neighbour is lost and none is handed out twice. */
  lemma {:induction false} ManyIsAPartition(edge: ToMany, nodes: seq<Account>, neighbors: seq<Record>)
    requires forall n <- neighbors :: Refers(edge, nodes, n)
    ensures TotalMany(edge, nodes, neighbors, |nodes|) == |neighbors|
  {
    hide TotalMany, ExpectedMany, Owns, ForeignKey;
    if neighbors == [] {
      NoneInTotal(edge, nodes, |nodes|);
    } else {
      var init, n := neighbors[..|neighbors| - 1], neighbors[|neighbors| - 1];
      assert neighbors == init + [n];
      ManyIsAPartition(edge, nodes, init);
      assert n in neighbors && Refers(edge, nodes, n);
      OneMoreInTotal(edge, nodes, init, n, |nodes|);
      var i :| 0 <= i < |nodes| && nodes[i].id == ForeignKey(edge, n).value;
      var k := SomeNodeOwns(nodes, i);
    }
  }

  // ---------------------------------------------------------------- columns

  /** The columns a query reads: all of them, or an explicit list. */
  datatype Projection = All | Only(columns: seq<string>)

  function Fetch(row: Record, projection: Projection): Record {
    match projection
    case All => row
    case Only(columns) =>
      Record(if FIELD_ID in columns then row.id else 0, map c | c in row.columns && c in columns :: row.columns[c])
  }

  function AddOnce(columns: seq<string>, column: string): seq<string> {
    if column in columns then columns else columns + [column]
  }

  function WithoutId(fields: seq<string>): seq<string> {
    if fields == [] then [] else
    WithoutId(fields[..|fields| - 1]) + if fields[|fields| - 1] != FIELD_ID then [fields[|fields| - 1]] else []
  }

  /** The columns of `querySpec` for a select list and the requested foreign-key edges. */
  function SpecColumns(fields: seq<string>, proxy: bool, parent: bool): Projection {
    if fields == [] then All else
    var selected := [FIELD_ID] + WithoutId(fields);
    var withProxy := if proxy then AddOnce(selected, FIELD_PROXY_ID) else selected;
    Only(if parent then AddOnce(withProxy, FIELD_PARENT_ACCOUNT_ID) else withProxy)
  }

  method QuerySpecColumns(fields: seq<string>, proxy: bool, parent: bool) returns (p: Projection)
    ensures p == SpecColumns(fields, proxy, parent)
  {
    if |fields| == 0 {
      return All;
    }
    var columns := [FIELD_ID];
    for i := 0 to |fields|
      invariant columns == [FIELD_ID] + WithoutId(fields[..i])
    {
      assert fields[..i + 1][..i] == fields[..i];
      if fields[i] != FIELD_ID {
        columns := columns + [fields[i]];
      }
    }
    assert fields[..|fields|] == fields;
    if proxy && FIELD_PROXY_ID !in columns {
      columns := columns + [FIELD_PROXY_ID];
    }
    if parent && FIELD_PARENT_ACCOUNT_ID !in columns {
      columns := columns + [FIELD_PARENT_ACCOUNT_ID];
    }
    p := Only(columns);
  }

  lemma {:induction false} WithoutIdKeeps(fields: seq<string>, column: string)
    requires column != FIELD_ID
    ensures column in WithoutId(fields) <==> column in fields
  {
    if fields != [] {
      WithoutIdKeeps(fields[..|fields| - 1], column);
      assert fields == fields[..|fields| - 1] + [fields[|fields| - 1]];
    }
  }

  /** Under every select list the id, and the key of every requested edge, are read. */
  lemma ColumnsKeepKeys(fields: seq<string>, proxy: bool, parent: bool, row: Record)
    ensures var r := Fetch(row, SpecColumns(fields, proxy, parent));
            && r.id == row.id
            && (proxy ==> r.Key(FIELD_PROXY_ID) == row.Key(FIELD_PROXY_ID))
            && (parent ==> r.Key(FIELD_PARENT_ACCOUNT_ID) == row.Key(FIELD_PARENT_ACCOUNT_ID))
            && (forall c <- fields :: r.Key(c) == row.Key(c))
  {
    forall c | c in fields && c != FIELD_ID ensures c in WithoutId(fields) {
      WithoutIdKeeps(fields, c);
    }
  }

  /** Nothing else is read: of a select list the selected columns and the keys, and the whole row without one. */
  lemma ColumnsReadNothingElse(fields: seq<string>, proxy: bool, parent: bool, row: Record)
    ensures var r := Fetch(row, SpecColumns(fields, proxy, parent));
            if fields == [] then r == row
            else forall c <- r.columns :: c in row.columns && r.columns[c] == row.columns[c] &&
                   (c == "id" || c in fields || (proxy && c == "proxy_id") || (parent && c == "parent_account_id"))
  {
    forall c | c in WithoutId(fields) ensures c == "id" || c in fields {
      if c != "id" {
        WithoutIdKeeps(fields, c);
      }
    }
  }

  /** A neighbour query that refers back to the accounts also reads its foreign key. */
  function NeighborColumns(edge: ToMany, fields: seq<string>): Projection {
    ColumnsWith(ForeignColumn(edge), fields)
  }

  function ColumnsWith(column: string, fields: seq<string>): Projection {
    if fields == [] then All else SpecColumns(AddOnce(fields, column), false, false)
  }

  lemma NeighborsKeepKeys(edge: ToMany, fields: seq<string>, row: Record)
    ensures ForeignKey(edge, Fetch(row, NeighborColumns(edge, fields))) == ForeignKey(edge, row)
    ensures Fetch(row, NeighborColumns(edge, fields)).id == row.id
  {
    if fields != [] {
      ColumnsKeepKeys(AddOnce(fields, ForeignColumn(edge)), false, false, row);
    }
  }
}
