/**
 `sqlAll` of the account query: fetch the accounts, then load every requested edge.  Its outcome is
 compared with a lookup that knows one fetched row and the full tables, and no other row.
 */
module AccountQueries {
  import opened Sequences
  import opened Wrappers
  import opened EagerLoading

  /** A neighbour query: the rows its own predicates select, in return order, and its select list. */
  datatype NeighborQuery = NeighborQuery(table: seq<Record>, fields: seq<string>)

  datatype Link = Link(accountId: int, groupId: int)

  /** The group query: the rows of the account-group table that the join shows, in return order, the
      columns of every group, and the select list. */
  datatype GroupQuery = GroupQuery(links: seq<Link>, table: int -> map<string, int>, fields: seq<string>)

  /** The account query; an edge is requested when its query is present. */
  datatype AccountQuery = AccountQuery(
    fields: seq<string>,
    groups: Option<GroupQuery>, proxy: Option<NeighborQuery>, parent: Option<NeighborQuery>,
    children: Option<NeighborQuery>, usageLogs: Option<NeighborQuery>, accountGroups: Option<NeighborQuery>)

  // ---------------------------------------------------------------- the batched neighbour queries

  function FetchAll(rows: seq<Record>, projection: Projection): (r: seq<Record>)
    ensures |r| == |rows|
  {
    seq(|rows|, i requires 0 <= i < |rows| => Fetch(rows[i], projection))
  }

  /** `WHERE id IN (ids)`. */
  function WithIds(table: seq<Record>, ids: seq<int>): seq<Record> {
    if table == [] then [] else
    WithIds(table[..|table| - 1], ids) + if table[|table| - 1].id in ids then [table[|table| - 1]] else []
  }

  /** `WHERE foreign key IN (ids)`; a null key is in no list. */
  function WithKeys(column: string, table: seq<Record>, ids: seq<int>): seq<Record> {
    if table == [] then [] else
    var row := table[|table| - 1];
    WithKeys(column, table[..|table| - 1], ids) +
    if row.Key(column).Some? && row.Key(column).value in ids then [row] else []
  }

  /** A group as the query fetches it. */
  function GroupOf(query: GroupQuery, groupId: int): Record {
    Fetch(Record(groupId, query.table(groupId)), SpecColumns(query.fields, false, false))
  }

  /** `WHERE account id IN (ids)` on the join, with the selected group columns. */
  function JoinRowsIn(query: GroupQuery, ids: seq<int>): seq<JoinRow> {
    RowsIn(query, query.links, ids)
  }

  function RowsIn(query: GroupQuery, links: seq<Link>, ids: seq<int>): seq<JoinRow> {
    if links == [] then [] else
    var last := links[|links| - 1];
    RowsIn(query, links[..|links| - 1], ids) +
    if last.accountId in ids then [JoinRow(last.accountId, GroupOf(query, last.groupId))] else []
  }

  function AllById(query: NeighborQuery): seq<int> -> Result<seq<Record>, string> {
    (ids: seq<int>) => Ok(FetchAll(WithIds(query.table, ids), SpecColumns(query.fields, false, false)))
  }

  function AllByKey(edge: ToMany, query: NeighborQuery): seq<int> -> Result<seq<Record>, string> {
    (ids: seq<int>) =>
      Ok(FetchAll(WithKeys(ForeignColumn(edge), query.table, ids), NeighborColumns(edge, query.fields)))
  }

  // ---------------------------------------------------------------- the lookup per row

  function LookupOne(query: Option<NeighborQuery>, key: Option<int>): Option<Record> {
    if query.None? || key.None? then None else
    match LastWithId(query.value.table, key.value)
    case None => None
    case Some(row) => Some(Fetch(row, SpecColumns(query.value.fields, false, false)))
  }

  /** The rows of the table whose foreign key is this id, in table order. */
  function RowsReferring(column: string, table: seq<Record>, id: int): seq<Record> {
    if table == [] then [] else
    RowsReferring(column, table[..|table| - 1], id) +
    if table[|table| - 1].Key(column) == Some(id) then [table[|table| - 1]] else []
  }

  function LookupMany(column: string, query: Option<NeighborQuery>, id: int): seq<Record> {
    if query.None? then []
    else FetchAll(RowsReferring(column, query.value.table, id), ColumnsWith(column, query.value.fields))
  }

  /** The groups that a join for this account alone shows, each once, in the order it shows them. */
  function LookupGroups(query: Option<GroupQuery>, id: int): seq<Record> {
    if query.None? then [] else FirstSeen(JoinRowsIn(query.value, [id]))
  }

  function LoadedTypes(query: AccountQuery): Loaded {
    Loaded(query.groups.Some?, query.proxy.Some?, query.parent.Some?,
           query.children.Some?, query.usageLogs.Some?, query.accountGroups.Some?)
  }

  /** The edges of one account, looked up for its row alone. */
  function NaiveEdges(query: AccountQuery, row: Record): Edges {
    Edges(LookupGroups(query.groups, row.id),
          LookupOne(query.proxy, row.Key("proxy_id")),
          LookupOne(query.parent, row.Key("parent_account_id")),
          LookupMany("parent_account_id", query.children, row.id),
          LookupMany("account_id", query.usageLogs, row.id),
          LookupMany("account_id", query.accountGroups, row.id),
          LoadedTypes(query))
  }

  // ---------------------------------------------------------------- what the batches load

  predicate OwnsRow(rows: seq<Record>, i: nat)
    requires i < |rows|
  {
    forall j :: i < j < |rows| ==> rows[j].id != rows[i].id
  }

  function RowIds(rows: seq<Record>): seq<int> {
    seq(|rows|, i requires 0 <= i < |rows| => rows[i].id)
  }

  /** The groups of one account in the join for all of them, in the order that join shows them. */
  function SharedGroups(query: GroupQuery, ids: seq<int>, id: int): seq<Record> {
    var joined := JoinRowsIn(query, ids);
    JoinedTo(joined, id, FirstSeen(joined))
  }

  function LoadedGroups(query: Option<GroupQuery>, rows: seq<Record>, i: nat): seq<Record>
    requires i < |rows|
  {
    if query.None? || !OwnsRow(rows, i) then [] else SharedGroups(query.value, RowIds(rows), rows[i].id)
  }

  function LoadedMany(edge: ToMany, query: Option<NeighborQuery>, rows: seq<Record>, i: nat): seq<Record>
    requires i < |rows|
  {
    if OwnsRow(rows, i) then LookupMany(ForeignColumn(edge), query, rows[i].id) else []
  }

  function LoadedEdges(query: AccountQuery, rows: seq<Record>, i: nat): Edges
    requires i < |rows|
  {
    NaiveEdges(query, rows[i]).(
      groups := LoadedGroups(query.groups, rows, i),
      children := LoadedMany(ChildrenEdge, query.children, rows, i),
      usageLogs := LoadedMany(UsageLogsEdge, query.usageLogs, rows, i),
      accountGroups := LoadedMany(AccountGroupsEdge, query.accountGroups, rows, i))
  }

  // ---------------------------------------------------------------- batching changes nothing

  lemma {:induction false} LastOfFetched(rows: seq<Record>, fields: seq<string>, id: int)
    ensures var p := SpecColumns(fields, false, false);
            LastWithId(FetchAll(rows, p), id) ==
            match LastWithId(rows, id) case None => None case Some(row) => Some(Fetch(row, p))
  {
    var p := SpecColumns(fields, false, false);
    if rows != [] {
      var n := |rows| - 1;
      LastOfFetched(rows[..n], fields, id);
      assert FetchAll(rows, p)[..n] == FetchAll(rows[..n], p);
      ColumnsKeepKeys(fields, false, false, rows[n]);
    }
  }

  lemma {:induction false} LastOfFiltered(table: seq<Record>, ids: seq<int>, id: int)
    ensures LastWithId(WithIds(table, ids), id) == if id in ids then LastWithId(table, id) else None
    ensures forall row <- WithIds(table, ids) :: row.id in ids
  {
    if table != [] {
      var n := |table| - 1;
      LastOfFiltered(table[..n], ids, id);
      var before := WithIds(table[..n], ids);
      assert (before + [table[n]])[..|before|] == before;
      assert before + [] == before;
    }
  }

  /** Every key the accounts hold is looked up as if on its own, and no node is unexpected. */
  lemma ToOneIsLookup(query: NeighborQuery, ids: seq<int>, key: Option<int>)
    requires key.Some? ==> key.value in ids
    ensures var neighbors := AllById(query)(ids).value;
            && (forall n <- neighbors :: n.id in ids)
            && ExpectedOne(key, neighbors, None) == LookupOne(Some(query), key)
  {
    var p := SpecColumns(query.fields, false, false);
    var filtered := WithIds(query.table, ids);
    forall n | n in FetchAll(filtered, p) ensures n.id in ids {
      var k :| 0 <= k < |filtered| && Fetch(filtered[k], p) == n;
      ColumnsKeepKeys(query.fields, false, false, filtered[k]);
      LastOfFiltered(query.table, ids, 0);
      assert filtered[k] in filtered;
    }
    if key.Some? {
      LastOfFiltered(query.table, ids, key.value);
      LastOfFetched(filtered, query.fields, key.value);
    }
  }

  lemma FetchAllSnoc(rows: seq<Record>, row: Record, p: Projection)
    ensures FetchAll(rows + [row], p) == FetchAll(rows, p) + [Fetch(row, p)]
  {
  }

  lemma ReferringSnoc(edge: ToMany, id: int, neighbors: seq<Record>, n: Record)
    ensures Referring(edge, id, neighbors + [n]) ==
            Referring(edge, id, neighbors) + if ForeignKey(edge, n) == Some(id) then [n] else []
  {
    assert (neighbors + [n])[..|neighbors|] == neighbors;
  }

  lemma {:induction false} ReferringFetched(edge: ToMany, table: seq<Record>, ids: seq<int>, fields: seq<string>, id: int)
    requires id in ids
    ensures var p := NeighborColumns(edge, fields);
            Referring(edge, id, FetchAll(WithKeys(ForeignColumn(edge), table, ids), p)) ==
            FetchAll(RowsReferring(ForeignColumn(edge), table, id), p)
  {
    if table == [] {
      return;
    }
    var p, column := NeighborColumns(edge, fields), ForeignColumn(edge);
    var n := |table| - 1;
    var row, before, own := table[n], WithKeys(column, table[..n], ids), RowsReferring(column, table[..n], id);
    assert own + [] == own && before + [] == before;
    ReferringFetched(edge, table[..n], ids, fields, id);
    NeighborsKeepKeys(edge, fields, row);
    hide Fetch, FetchAll, Referring, NeighborColumns;
    FetchAllSnoc(own, row, p);
    FetchAllSnoc(before, row, p);
    ReferringSnoc(edge, id, FetchAll(before, p), Fetch(row, p));
  }

  lemma {:induction false} KeysAreIn(column: string, table: seq<Record>, ids: seq<int>)
    ensures forall row <- WithKeys(column, table, ids) :: row.Key(column).Some? && row.Key(column).value in ids
  {
    if table != [] {
      KeysAreIn(column, table[..|table| - 1], ids);
    }
  }

  lemma NeighborsRefer(edge: ToMany, query: NeighborQuery, ids: seq<int>, n: Record)
    requires n in AllByKey(edge, query)(ids).value
    ensures ForeignKey(edge, n).Some? && ForeignKey(edge, n).value in ids
  {
    var column, p := ForeignColumn(edge), NeighborColumns(edge, query.fields);
    var filtered := WithKeys(column, query.table, ids);
    var k :| 0 <= k < |filtered| && Fetch(filtered[k], p) == n;
    KeysAreIn(column, query.table, ids);
    assert filtered[k] in filtered;
    NeighborsKeepKeys(edge, query.fields, filtered[k]);
  }

  lemma {:induction false} JoinIsFiltered(query: GroupQuery, links: seq<Link>, ids: seq<int>)
    ensures forall r <- RowsIn(query, links, ids) :: r.accountId in ids
  {
    if links != [] {
      JoinIsFiltered(query, links[..|links| - 1], ids);
    }
  }

  lemma {:induction false} FirstSeenIsJoined(rows: seq<JoinRow>)
    ensures forall n <- FirstSeen(rows) :: n.id in GroupIds(rows)
  {
    if rows != [] {
      var init, r := rows[..|rows| - 1], rows[|rows| - 1];
      FirstSeenIsJoined(init);
      assert rows == init + [r];
      GroupIdsSnoc(init, r);
    }
  }

  // ---------------------------------------------------------------- the order of the groups

  lemma GroupHasId(query: GroupQuery, groupId: int)
    ensures GroupOf(query, groupId).id == groupId
  {
    ColumnsKeepKeys(query.fields, false, false, Record(groupId, query.table(groupId)));
  }

  predicate Linked(links: seq<Link>, id: int, groupId: int) {
    Link(id, groupId) in links
  }

  lemma {:induction false} RowsAre(query: GroupQuery, links: seq<Link>, ids: seq<int>)
    ensures forall id, groupId :: id in ids && Linked(links, id, groupId) ==> JoinRow(id, GroupOf(query, groupId)) in RowsIn(query, links, ids)
    ensures forall r <- RowsIn(query, links, ids) ::
              Linked(links, r.accountId, r.group.id) && r.group == GroupOf(query, r.group.id)
  {
    if links != [] {
      var init, last := links[..|links| - 1], links[|links| - 1];
      assert links == init + [last];
      RowsAre(query, init, ids);
      GroupHasId(query, last.groupId);
      hide GroupOf, Linked;
      forall id, groupId ensures Linked(links, id, groupId) <==> Linked(init, id, groupId) || last == Link(id, groupId) {
        LinkedSnoc(init, last, id, groupId);
      }
    }
  }

  lemma LinkedSnoc(links: seq<Link>, last: Link, id: int, groupId: int)
    ensures Linked(links + [last], id, groupId) <==> Linked(links, id, groupId) || last == Link(id, groupId)
  {
  }

  lemma JoinedIffLinked(query: GroupQuery, ids: seq<int>, id: int, groupId: int)
    requires id in ids
    ensures Joined(JoinRowsIn(query, ids), id, groupId) <==> Linked(query.links, id, groupId)
  {
    hide RowsIn, Linked, GroupOf;
    RowsAre(query, query.links, ids);
    GroupHasId(query, groupId);
  }

  /** Both lists show exactly the groups linked to the account, each once. */
  lemma ShowsLinked(query: GroupQuery, ids: seq<int>, id: int)
    requires id in ids
    ensures var groups := SharedGroups(query, ids, id);
            && Distinct(groups) && InFirstSeenOrder(JoinRowsIn(query, ids), groups)
            && forall n: Record :: n in groups <==> n == GroupOf(query, n.id) && Linked(query.links, id, n.id)
  {
    hide RowsIn, Linked, GroupOf, Joined, JoinedTo, FirstSeen, InFirstSeenOrder;
    var joined := JoinRowsIn(query, ids);
    var groups := JoinedTo(joined, id, FirstSeen(joined));
    GroupsAreExactlyTheJoined(joined, id);
    JoinedToFilters(joined, id, FirstSeen(joined));
    FirstSeenIsOrdered(joined);
    RowsAre(query, query.links, ids);
    forall n: Record | n in groups ensures n == GroupOf(query, n.id) && Linked(query.links, id, n.id) {
      JoinedIffLinked(query, ids, id, n.id);
      SeenRow(joined, n);
    }
    forall n: Record | n == GroupOf(query, n.id) && Linked(query.links, id, n.id) ensures n in groups {
      JoinedIffLinked(query, ids, id, n.id);
      var m :| m in groups && m.id == n.id;
      SeenRow(joined, m);
    }
  }

  lemma SeenRow(rows: seq<JoinRow>, n: Record)
    requires n in FirstSeen(rows)
    ensures exists r <- rows :: r.group == n
  {
    FirstSeenIsOrdered(rows);
    var i :| 0 <= i < |FirstSeen(rows)| && FirstSeen(rows)[i] == n;
    assert rows[FirstAt(rows, n.id)] in rows;
  }

  /** The join for one account is its own join. */
  lemma OwnJoinIsLookup(query: GroupQuery, id: int)
    ensures SharedGroups(query, [id], id) == LookupGroups(Some(query), id)
  {
    hide RowsIn;
    var own := JoinRowsIn(query, [id]);
    JoinIsFiltered(query, query.links, [id]);
    FirstSeenIsJoined(own);
    forall n | n in FirstSeen(own) ensures Joined(own, id, n.id) {
      var r :| r in own && r.group.id == n.id;
    }
    AllJoined(own, id, FirstSeen(own));
  }

  lemma {:induction false} AllJoined(rows: seq<JoinRow>, id: int, neighbors: seq<Record>)
    requires forall n <- neighbors :: Joined(rows, id, n.id)
    ensures JoinedTo(rows, id, neighbors) == neighbors
  {
    if neighbors != [] {
      hide Joined;
      assert neighbors == neighbors[..|neighbors| - 1] + [neighbors[|neighbors| - 1]];
      AllJoined(rows, id, neighbors[..|neighbors| - 1]);
    }
  }

  /** The batch gives every account the groups of its own lookup, each once. */
  lemma SharedAreOwnGroups(query: GroupQuery, ids: seq<int>, id: int)
    requires id in ids
    ensures multiset(SharedGroups(query, ids, id)) == multiset(LookupGroups(Some(query), id))
    ensures Distinct(SharedGroups(query, ids, id))
  {
    hide SharedGroups, LookupGroups, GroupOf, Linked, InFirstSeenOrder, Distinct;
    ShowsLinked(query, ids, id);
    ShowsLinked(query, [id], id);
    OwnJoinIsLookup(query, id);
    var shared, own := SharedGroups(query, ids, id), LookupGroups(Some(query), id);
    assert Elements(shared) == Elements(own);
    OnceEachIsTheSet(shared, Elements(own));
    OnceEachIsTheSet(own, Elements(own));
  }

  /** The shared join first shows two of the account's groups in the order its own join does. */
  ghost predicate OrdersAgree(query: GroupQuery, ids: seq<int>, id: int) {
    var joined, own := JoinRowsIn(query, ids), JoinRowsIn(query, [id]);
    forall g, h :: Linked(query.links, id, g) && Linked(query.links, id, h) ==>
      (FirstAt(own, g) < FirstAt(own, h) <==> FirstAt(joined, g) < FirstAt(joined, h))
  }

  ghost predicate Ascends(rows: seq<JoinRow>, groups: seq<Record>) {
    forall i, j :: 0 <= i < j < |groups| ==> FirstAt(rows, groups[i].id) < FirstAt(rows, groups[j].id)
  }

  lemma {:induction false} AscendingIsUnique(rows: seq<JoinRow>, a: seq<Record>, b: seq<Record>)
    requires Ascends(rows, a) && Ascends(rows, b) && multiset(a) == multiset(b)
    ensures a == b
    decreases |a|
  {
    hide Ascends;
    HeadsAreShared(a, b);
    if a != [] {
      SameLeast(rows, a, b);
      SameRests(a, b);
      RestAscends(rows, a);
      RestAscends(rows, b);
      AscendingIsUnique(rows, a[1..], b[1..]);
      assert a == [a[0]] + a[1..] && b == [b[0]] + b[1..];
    }
  }

  lemma HeadsAreShared(a: seq<Record>, b: seq<Record>)
    requires multiset(a) == multiset(b)
    ensures |a| == |b|
    ensures a != [] ==> a[0] in b && b[0] in a
  {
    assert |multiset(a)| == |a| && |multiset(b)| == |b|;
    if a != [] {
      assert a[0] in multiset(b) && b[0] in multiset(a);
    }
  }

  lemma SameRests(a: seq<Record>, b: seq<Record>)
    requires a != [] && b != [] && a[0] == b[0] && multiset(a) == multiset(b)
    ensures multiset(a[1..]) == multiset(b[1..])
  {
    SameWithout(a, 0, b, 0);
    assert Without(a, 0) == a[1..] && Without(b, 0) == b[1..];
  }

  lemma SameLeast(rows: seq<JoinRow>, a: seq<Record>, b: seq<Record>)
    requires a != [] && b != [] && a[0] in b && b[0] in a
    requires Ascends(rows, a) && Ascends(rows, b)
    ensures a[0] == b[0]
  {
    hide FirstAt, Ascends;
    var k :| 0 <= k < |b| && b[k] == a[0];
    var m :| 0 <= m < |a| && a[m] == b[0];
    OrderIs(rows, a, 0, m);
    OrderIs(rows, b, 0, k);
  }

  lemma RestAscends(rows: seq<JoinRow>, groups: seq<Record>)
    requires groups != [] && Ascends(rows, groups)
    ensures Ascends(rows, groups[1..])
  {
    hide FirstAt;
  }

  /** The ids of the list are those linked to the account. */
  ghost predicate ListsLinkedIds(query: GroupQuery, id: int, groups: seq<Record>) {
    && (forall i :: 0 <= i < |groups| ==> Linked(query.links, id, groups[i].id))
    && forall g :: Linked(query.links, id, g) ==> exists i :: 0 <= i < |groups| && groups[i].id == g
  }

  lemma SharedAscends(query: GroupQuery, ids: seq<int>, id: int)
    requires id in ids
    ensures Ascends(JoinRowsIn(query, ids), SharedGroups(query, ids, id))
    ensures ListsLinkedIds(query, id, SharedGroups(query, ids, id))
  {
    ShowsLinked(query, ids, id);
    hide SharedGroups, GroupOf, Linked, JoinRowsIn, FirstAt;
    var shared := SharedGroups(query, ids, id);
    forall i | 0 <= i < |shared| ensures Linked(query.links, id, shared[i].id) {
      assert shared[i] in shared;
    }
    forall g | Linked(query.links, id, g) ensures exists i :: 0 <= i < |shared| && shared[i].id == g {
      GroupHasId(query, g);
      assert GroupOf(query, g) in shared;
    }
  }

  lemma AgreeingAscends(query: GroupQuery, ids: seq<int>, id: int, groups: seq<Record>)
    requires OrdersAgree(query, ids, id) && ListsLinkedIds(query, id, groups)
    requires Ascends(JoinRowsIn(query, [id]), groups)
    ensures Ascends(JoinRowsIn(query, ids), groups)
  {
    hide Linked, JoinRowsIn, FirstAt;
  }

  lemma AscendingAgrees(query: GroupQuery, ids: seq<int>, id: int, groups: seq<Record>)
    requires ListsLinkedIds(query, id, groups)
    requires Ascends(JoinRowsIn(query, [id]), groups) && Ascends(JoinRowsIn(query, ids), groups)
    ensures OrdersAgree(query, ids, id)
  {
    hide Linked, JoinRowsIn, FirstAt, Ascends;
    var joined, own := JoinRowsIn(query, ids), JoinRowsIn(query, [id]);
    forall g, h | Linked(query.links, id, g) && Linked(query.links, id, h)
      ensures FirstAt(own, g) < FirstAt(own, h) <==> FirstAt(joined, g) < FirstAt(joined, h)
    {
      var i :| 0 <= i < |groups| && groups[i].id == g;
      var j :| 0 <= j < |groups| && groups[j].id == h;
      OrderIs(own, groups, i, j);
      OrderIs(joined, groups, i, j);
    }
  }

  lemma OrderIs(rows: seq<JoinRow>, groups: seq<Record>, i: nat, j: nat)
    requires Ascends(rows, groups) && i < |groups| && j < |groups|
    ensures FirstAt(rows, groups[i].id) < FirstAt(rows, groups[j].id) <==> i < j
  {
    hide FirstAt;
  }

  /** The batch lists the groups as the account's own lookup does if and only if the orders agree. */
  lemma SameGroupListIff(query: GroupQuery, ids: seq<int>, id: int)
    requires id in ids
    ensures SharedGroups(query, ids, id) == LookupGroups(Some(query), id) <==> OrdersAgree(query, ids, id)
  {
    SharedAscends(query, ids, id);
    SharedAscends(query, [id], id);
    OwnJoinIsLookup(query, id);
    SharedAreOwnGroups(query, ids, id);
    hide SharedGroups, LookupGroups, JoinRowsIn, Ascends, OrdersAgree, ListsLinkedIds;
    var shared, mine := SharedGroups(query, ids, id), LookupGroups(Some(query), id);
    if OrdersAgree(query, ids, id) {
      AgreeingAscends(query, ids, id, mine);
      AscendingIsUnique(JoinRowsIn(query, ids), shared, mine);
    }
    if shared == mine {
      AscendingAgrees(query, ids, id, mine);
    }
  }

  /** The order is not always that of the own lookup: another account's row shows a group earlier. */
  lemma OtherAccountsChangeTheOrder(table: int -> map<string, int>)
    ensures var query := GroupQuery([Link(2, 20), Link(1, 10), Link(1, 20)], table, []);
            && SharedGroups(query, [1, 2], 1) == [GroupOf(query, 20), GroupOf(query, 10)]
            && LookupGroups(Some(query), 1) == [GroupOf(query, 10), GroupOf(query, 20)]
  {
    var query := GroupQuery([Link(2, 20), Link(1, 10), Link(1, 20)], table, []);
    var a, b := GroupOf(query, 10), GroupOf(query, 20);
    GroupHasId(query, 10);
    GroupHasId(query, 20);
    hide GroupOf;
    ThreeLinks(query, [1, 2]);
    ThreeLinks(query, [1]);
    ThreeGroups(a, b);
    assert JoinRowsIn(query, [1, 2]) == [JoinRow(2, b), JoinRow(1, a), JoinRow(1, b)];
    assert JoinRowsIn(query, [1]) == [JoinRow(1, a), JoinRow(1, b)];
  }

  lemma ThreeLinks(query: GroupQuery, ids: seq<int>)
    requires |query.links| == 3
    ensures JoinRowsIn(query, ids) ==
            RowOf(query, query.links[0], ids) + RowOf(query, query.links[1], ids) + RowOf(query, query.links[2], ids)
  {
    hide GroupOf;
    var l := query.links;
    assert l[..3] == l && l[..2][..1] == l[..1] && l[..1][..0] == [];
    assert RowsIn(query, l[..1], ids) == RowOf(query, l[0], ids);
    assert RowsIn(query, l[..2], ids) == RowOf(query, l[0], ids) + RowOf(query, l[1], ids);
  }

  function RowOf(query: GroupQuery, link: Link, ids: seq<int>): seq<JoinRow> {
    if link.accountId in ids then [JoinRow(link.accountId, GroupOf(query, link.groupId))] else []
  }

  lemma ThreeGroups(a: Record, b: Record)
    requires a.id != b.id
    ensures FirstSeen([JoinRow(2, b), JoinRow(1, a), JoinRow(1, b)]) == [b, a]
    ensures FirstSeen([JoinRow(1, a), JoinRow(1, b)]) == [a, b]
    ensures JoinedTo([JoinRow(2, b), JoinRow(1, a), JoinRow(1, b)], 1, [b, a]) == [b, a]
  {
    hide FirstSeen, JoinedTo;
    FirstSeenOne(JoinRow(2, b));
    FirstSeenSnoc([JoinRow(2, b)], JoinRow(1, a));
    FirstSeenSnoc([JoinRow(2, b), JoinRow(1, a)], JoinRow(1, b));
    FirstSeenOne(JoinRow(1, a));
    FirstSeenSnoc([JoinRow(1, a)], JoinRow(1, b));
    var rows := [JoinRow(2, b), JoinRow(1, a), JoinRow(1, b)];
    assert rows[0] in rows[..2] && rows[..2] == [JoinRow(2, b), JoinRow(1, a)];
    assert rows == [JoinRow(2, b), JoinRow(1, a)] + [JoinRow(1, b)];
    assert rows[..2] == [JoinRow(2, b)] + [JoinRow(1, a)];
    assert [JoinRow(1, a), JoinRow(1, b)] == [JoinRow(1, a)] + [JoinRow(1, b)];
    assert rows[1] in rows && rows[2] in rows;
    AllJoined(rows, 1, [b, a]);
  }

  lemma FirstSeenOne(row: JoinRow)
    ensures FirstSeen([row]) == [row.group]
  {
    assert [row][..0] == [];
  }

  lemma FirstSeenSnoc(rows: seq<JoinRow>, row: JoinRow)
    ensures FirstSeen(rows + [row]) == FirstSeen(rows) + if row.group.id in GroupIds(rows) then [] else [row.group]
  {
    assert (rows + [row])[..|rows|] == rows;
  }

  // ---------------------------------------------------------------- sqlAll

  /** `nodes` are the fetched rows, in order. */
  ghost predicate Fetched(query: AccountQuery, rows: seq<Record>, nodes: seq<Account>) {
    var p := SpecColumns(query.fields, query.proxy.Some?, query.parent.Some?);
    && |nodes| == |rows| && DistinctNodes(nodes)
    && forall i :: 0 <= i < |nodes| ==>
         nodes[i].id == Fetch(rows[i], p).id && nodes[i].columns == Fetch(rows[i], p).columns
  }

  lemma FetchedIds(query: AccountQuery, rows: seq<Record>, nodes: seq<Account>)
    requires Fetched(query, rows, nodes)
    ensures Ids(nodes) == RowIds(rows)
    ensures forall i :: 0 <= i < |nodes| ==> (Owns(nodes, i) <==> OwnsRow(rows, i))
    ensures forall id :: HasId(nodes, id) <==> id in RowIds(rows)
  {
    forall i | 0 <= i < |nodes| ensures nodes[i].id == rows[i].id {
      ColumnsKeepKeys(query.fields, query.proxy.Some?, query.parent.Some?, rows[i]);
    }
    assert Ids(nodes) == RowIds(rows);
    forall id ensures HasId(nodes, id) <==> id in RowIds(rows) {
      if id in RowIds(rows) {
        var k :| 0 <= k < |rows| && RowIds(rows)[k] == id;
        assert nodes[k].id == id;
      }
      if HasId(nodes, id) {
        var k :| 0 <= k < |nodes| && nodes[k].id == id;
        assert RowIds(rows)[k] == id;
      }
    }
  }

  /** The key a to-one loader reads from a node is the one of the full row. */
  lemma FetchedKey(query: AccountQuery, rows: seq<Record>, nodes: seq<Account>, edge: ToOne, i: nat)
    requires Fetched(query, rows, nodes) && i < |nodes|
    requires match edge case ProxyEdge => query.proxy.Some? case ParentEdge => query.parent.Some?
    ensures nodes[i].Key(KeyColumn(edge)) == rows[i].Key(KeyColumn(edge))
  {
    ColumnsKeepKeys(query.fields, query.proxy.Some?, query.parent.Some?, rows[i]);
  }

  method LoadProxyOrParent(query: AccountQuery, rows: seq<Record>, nodes: seq<Account>, edge: ToOne, source: NeighborQuery)
    returns (err: Option<LoadError>)
    requires Fetched(query, rows, nodes)
    requires source == match edge
                       case ProxyEdge => (if query.proxy.Some? then query.proxy.value else source)
                       case ParentEdge => (if query.parent.Some? then query.parent.value else source)
    requires match edge case ProxyEdge => query.proxy.Some? case ParentEdge => query.parent.Some?
    requires forall i :: 0 <= i < |nodes| ==> nodes[i].edges.One(edge) == None
    modifies nodes
    ensures err == None
    ensures forall i :: 0 <= i < |nodes| ==>
              nodes[i].edges == old(nodes[i].edges).WithOne(edge, LookupOne(Some(source), rows[i].Key(KeyColumn(edge))))
  {
    hide LookupOne, ExpectedOne, DistinctKeys, WithIds, FetchAll, SpecColumns, Fetch, AllById, Fetched;
    FetchedAreDistinct(query, rows, nodes);
    err := LoadToOne(edge, nodes, AllById(source));
    var ids := DistinctKeys(nodes, KeyColumn(edge));
    NothingExpected(edge, nodes);
    AllByIdSucceeds(source, ids);
    ToOneIsLookup(source, ids, None);
    forall i | 0 <= i < |nodes|
      ensures nodes[i].edges == old(nodes[i].edges).WithOne(edge, LookupOne(Some(source), rows[i].Key(KeyColumn(edge))))
    {
      FetchedKey(query, rows, nodes, edge, i);
      KeyIsQueried(nodes, KeyColumn(edge), i);
      ToOneIsLookup(source, ids, nodes[i].Key(KeyColumn(edge)));
      NoKeyNoLookup(source);
    }
  }

  lemma FetchedAreDistinct(query: AccountQuery, rows: seq<Record>, nodes: seq<Account>)
    requires Fetched(query, rows, nodes)
    ensures |nodes| == |rows| && DistinctNodes(nodes)
  {
  }

  lemma AllByIdSucceeds(query: NeighborQuery, ids: seq<int>)
    ensures AllById(query)(ids).Ok?
  {
  }

  lemma NoKeyNoLookup(query: NeighborQuery)
    ensures LookupOne(Some(query), None) == None && ExpectedOne(None, [], None) == None
  {
  }

  method LoadReferring(query: AccountQuery, rows: seq<Record>, nodes: seq<Account>, edge: ToMany, source: NeighborQuery)
    returns (err: Option<LoadError>)
    requires Fetched(query, rows, nodes)
    modifies nodes
    ensures err == None
    ensures forall i :: 0 <= i < |nodes| ==>
              nodes[i].edges == old(nodes[i].edges).WithMany(edge, LoadedMany(edge, Some(source), rows, i))
  {
    hide Referring, WithKeys, FetchAll, Fetch, AllByKey, Fetched, Owns, OwnsRow, HasId, RowsReferring, ForeignKey, ColumnsWith;
    FetchedAreDistinct(query, rows, nodes);
    FetchedIds(query, rows, nodes);
    err := LoadToMany(edge, nodes, AllByKey(edge, source));
    AllByKeySucceeds(edge, source, Ids(nodes));
    forall n | n in AllByKey(edge, source)(Ids(nodes)).value ensures Refers(edge, nodes, n) {
      NeighborsRefer(edge, source, Ids(nodes), n);
    }
    forall i | 0 <= i < |nodes|
      ensures nodes[i].edges == old(nodes[i].edges).WithMany(edge, LoadedMany(edge, Some(source), rows, i))
    {
      assert RowIds(rows)[i] == rows[i].id == nodes[i].id by { assert Ids(nodes)[i] == nodes[i].id; }
      ReferringFetched(edge, source.table, Ids(nodes), source.fields, rows[i].id);
    }
  }

  lemma AllByKeySucceeds(edge: ToMany, query: NeighborQuery, ids: seq<int>)
    ensures AllByKey(edge, query)(ids) ==
            Ok(FetchAll(WithKeys(ForeignColumn(edge), query.table, ids), NeighborColumns(edge, query.fields)))
  {
  }

  method LoadJoined(query: AccountQuery, rows: seq<Record>, nodes: seq<Account>, source: GroupQuery) returns (err: Option<LoadError>)
    requires Fetched(query, rows, nodes)
    modifies nodes
    ensures err == None
    ensures forall i :: 0 <= i < |nodes| ==>
              nodes[i].edges == old(nodes[i].edges).(groups := LoadedGroups(Some(source), rows, i))
  {
    hide JoinedTo, FirstSeen, RowsIn, Fetch, Fetched, Owns, OwnsRow, HasId, GroupIds;
    FetchedAreDistinct(query, rows, nodes);
    FetchedIds(query, rows, nodes);
    var joined := JoinRowsIn(source, Ids(nodes));
    JoinIsFiltered(source, source.links, Ids(nodes));
    FirstSeenIsJoined(joined);
    err := LoadGroups(nodes, (ids: seq<int>) => Ok(JoinRowsIn(source, ids)), (neighbors: seq<Record>) => Ok(neighbors));
    forall i | 0 <= i < |nodes|
      ensures nodes[i].edges == old(nodes[i].edges).(groups := LoadedGroups(Some(source), rows, i))
    {
      assert RowIds(rows)[i] == rows[i].id == nodes[i].id by { assert Ids(nodes)[i] == nodes[i].id; }
    }
  }

  method FetchAccounts(query: AccountQuery, rows: seq<Record>) returns (nodes: seq<Account>)
    ensures fresh(nodes) && Fetched(query, rows, nodes)
    ensures forall i :: 0 <= i < |nodes| ==> nodes[i].edges == Edges([], None, None, [], [], [], LoadedTypes(query))
  {
    hide SpecColumns, Fetch, DistinctNodes;
    var p := QuerySpecColumns(query.fields, query.proxy.Some?, query.parent.Some?);
    nodes := [];
    NoNodes();
    for k := 0 to |rows|
      invariant |nodes| == k && DistinctNodes(nodes) && fresh(nodes)
      invariant forall i :: 0 <= i < k ==>
        nodes[i].id == Fetch(rows[i], p).id && nodes[i].columns == Fetch(rows[i], p).columns
      invariant forall i :: 0 <= i < k ==> nodes[i].edges == Edges([], None, None, [], [], [], LoadedTypes(query))
    {
      var node := new Account(Fetch(rows[k], p), LoadedTypes(query));
      OneMoreNode(nodes, node);
      nodes := nodes + [node];
    }
  }

  lemma NoNodes()
    ensures DistinctNodes([])
  {
  }

  lemma OneMoreNode(nodes: seq<Account>, node: Account)
    requires DistinctNodes(nodes) && node !in nodes
    ensures DistinctNodes(nodes + [node])
  {
  }

  /** The same edges, up to the order of the groups. */
  predicate SameButForGroupOrder(a: Edges, b: Edges) {
    a.(groups := b.groups) == b && multiset(a.groups) == multiset(b.groups)
  }

  /** The requested edges, one query after the other; none of the loaders fails. */
  method LoadRequested(query: AccountQuery, rows: seq<Record>, nodes: seq<Account>)
    requires Fetched(query, rows, nodes) && |nodes| == |rows|
    requires forall i :: 0 <= i < |nodes| ==> nodes[i].edges == Edges([], None, None, [], [], [], LoadedTypes(query))
    modifies nodes
    ensures forall i :: 0 <= i < |rows| ==> nodes[i].edges == LoadedEdges(query, rows, i)
  {
    hide LookupOne, LookupMany, LookupGroups, LoadedMany, LoadedGroups, Fetched, OwnsRow;
    NotRequested(query, rows);
    var err: Option<LoadError> := None;
    if query.groups.Some? {
      err := LoadJoined(query, rows, nodes, query.groups.value);
    }
    if query.proxy.Some? {
      err := LoadProxyOrParent(query, rows, nodes, ProxyEdge, query.proxy.value);
    }
    if query.parent.Some? {
      err := LoadProxyOrParent(query, rows, nodes, ParentEdge, query.parent.value);
    }
    if query.children.Some? {
      err := LoadReferring(query, rows, nodes, ChildrenEdge, query.children.value);
    }
    if query.usageLogs.Some? {
      err := LoadReferring(query, rows, nodes, UsageLogsEdge, query.usageLogs.value);
    }
    if query.accountGroups.Some? {
      err := LoadReferring(query, rows, nodes, AccountGroupsEdge, query.accountGroups.value);
    }
  }

  /** `sqlAll`: `rows` are the full rows the account query selects.  Whatever is selected, no loader
      fails, and an account ends up with the edges looked up for its row alone, up to the order of the
      groups, if and only if it is the last with its id or has nothing to list; and with the groups in
      the order of its own lookup, if and only if the shared join shows them so too. */
  method SqlAll(query: AccountQuery, rows: seq<Record>) returns (r: Result<seq<Account>, LoadError>)
    ensures r.Ok? && fresh(r.value) && |r.value| == |rows|
    ensures forall i :: 0 <= i < |rows| ==> r.value[i].id == rows[i].id && r.value[i].edges == LoadedEdges(query, rows, i)
    ensures forall i :: 0 <= i < |rows| ==>
              (SameButForGroupOrder(r.value[i].edges, NaiveEdges(query, rows[i])) <==>
               OwnsRow(rows, i) || ListsNothing(NaiveEdges(query, rows[i])))
    ensures forall i :: 0 <= i < |rows| ==>
              (r.value[i].edges == NaiveEdges(query, rows[i]) <==>
               InOwnOrder(query, rows, i) || ListsNothing(NaiveEdges(query, rows[i])))
  {
    hide LookupOne, LookupMany, LookupGroups, LoadedMany, LoadedGroups, Fetched, SpecColumns, Fetch, OwnsRow, DistinctNodes, HasId, Owns,
         SameButForGroupOrder, ListsNothing, InOwnOrder, LoadedEdges, NaiveEdges;
    var nodes := FetchAccounts(query, rows);
    FetchedAreDistinct(query, rows, nodes);
    FetchedIds(query, rows, nodes);
    if |nodes| == 0 {
      return Ok(nodes);
    }
    LoadRequested(query, rows, nodes);
    LoadedAgainstNaive(query, rows);
    forall i | 0 <= i < |rows| ensures nodes[i].id == rows[i].id {
      assert Ids(nodes)[i] == RowIds(rows)[i];
    }
    r := Ok(nodes);
  }

  lemma NotRequested(query: AccountQuery, rows: seq<Record>)
    ensures forall key :: LookupOne(None, key) == None
    ensures forall edge, i :: 0 <= i < |rows| ==> LoadedMany(edge, None, rows, i) == []
    ensures forall i :: 0 <= i < |rows| ==> LoadedGroups(None, rows, i) == []
  {
  }

  // ---------------------------------------------------------------- what the caller reads

  /** The account has no group, child, usage log or account group. */
  predicate ListsNothing(edges: Edges) {
    edges.groups == [] && edges.children == [] && edges.usageLogs == [] && edges.accountGroups == []
  }

  lemma GroupsLoadedForRow(query: Option<GroupQuery>, rows: seq<Record>, i: nat)
    requires i < |rows|
    ensures multiset(LoadedGroups(query, rows, i)) == multiset(LookupGroups(query, rows[i].id)) <==>
            OwnsRow(rows, i) || LookupGroups(query, rows[i].id) == []
  {
    hide SharedGroups, LookupGroups, OwnsRow;
    if query.None? {
      NoGroupQuery(rows[i].id);
    } else if OwnsRow(rows, i) {
      assert RowIds(rows)[i] == rows[i].id;
      SharedAreOwnGroups(query.value, RowIds(rows), rows[i].id);
    } else {
      var own := LookupGroups(query, rows[i].id);
      if own != [] {
        assert own[0] in multiset(own);
      }
    }
  }

  lemma NoGroupQuery(id: int)
    ensures LookupGroups(None, id) == []
  {
  }

  /** What the batches load for a row is its own lookup, up to the order of the groups, if and only if
      the row is the last with its id or its own lookup lists nothing. */
  lemma LoadedIsNaiveIff(query: AccountQuery, rows: seq<Record>, i: nat)
    requires i < |rows|
    ensures SameButForGroupOrder(LoadedEdges(query, rows, i), NaiveEdges(query, rows[i])) <==>
            OwnsRow(rows, i) || ListsNothing(NaiveEdges(query, rows[i]))
  {
    GroupsLoadedForRow(query.groups, rows, i);
    hide LookupGroups, LookupMany, LookupOne, LoadedGroups, OwnsRow;
    NothingWithoutOwner(query.groups, rows, i);
  }

  /** The row is the last with its id, and the shared join shows its groups in the order of its own. */
  ghost predicate InOwnOrder(query: AccountQuery, rows: seq<Record>, i: nat)
    requires i < |rows|
  {
    OwnsRow(rows, i) && (query.groups.Some? ==> OrdersAgree(query.groups.value, RowIds(rows), rows[i].id))
  }

  /** It is its own lookup, order of the groups included, if and only if the row is moreover in its
      own order, or its own lookup lists nothing. */
  lemma LoadedEqualsNaiveIff(query: AccountQuery, rows: seq<Record>, i: nat)
    requires i < |rows|
    ensures LoadedEdges(query, rows, i) == NaiveEdges(query, rows[i]) <==>
            InOwnOrder(query, rows, i) || ListsNothing(NaiveEdges(query, rows[i]))
  {
    LoadedIsNaiveIff(query, rows, i);
    NothingWithoutOwner(query.groups, rows, i);
    assert RowIds(rows)[i] == rows[i].id;
    if query.groups.Some? {
      SameGroupListIff(query.groups.value, RowIds(rows), rows[i].id);
    } else {
      NoGroupQuery(rows[i].id);
    }
    hide LookupGroups, LookupMany, LookupOne, SharedGroups, OwnsRow, OrdersAgree;
    assert OwnsRow(rows, i) && query.groups.Some? ==>
        LoadedGroups(query.groups, rows, i) == SharedGroups(query.groups.value, RowIds(rows), rows[i].id);
  }

  lemma LoadedAgainstNaive(query: AccountQuery, rows: seq<Record>)
    ensures forall i :: 0 <= i < |rows| ==>
              (SameButForGroupOrder(LoadedEdges(query, rows, i), NaiveEdges(query, rows[i])) <==>
               OwnsRow(rows, i) || ListsNothing(NaiveEdges(query, rows[i])))
    ensures forall i :: 0 <= i < |rows| ==>
              (LoadedEdges(query, rows, i) == NaiveEdges(query, rows[i]) <==>
               InOwnOrder(query, rows, i) || ListsNothing(NaiveEdges(query, rows[i])))
  {
    hide *;
    forall i | 0 <= i < |rows|
      ensures SameButForGroupOrder(LoadedEdges(query, rows, i), NaiveEdges(query, rows[i])) <==>
              OwnsRow(rows, i) || ListsNothing(NaiveEdges(query, rows[i]))
      ensures LoadedEdges(query, rows, i) == NaiveEdges(query, rows[i]) <==>
              InOwnOrder(query, rows, i) || ListsNothing(NaiveEdges(query, rows[i]))
    {
      LoadedIsNaiveIff(query, rows, i);
      LoadedEqualsNaiveIff(query, rows, i);
    }
  }

  lemma NothingWithoutOwner(query: Option<GroupQuery>, rows: seq<Record>, i: nat)
    requires i < |rows|
    ensures !OwnsRow(rows, i) ==> LoadedGroups(query, rows, i) == []
  {
  }

  lemma {:induction false} LastIsFound(table: seq<Record>, id: int)
    ensures match LastWithId(table, id)
            case None => forall row <- table :: row.id != id
            case Some(row) =>
              && row in table && row.id == id
              && exists k :: 0 <= k < |table| && table[k] == row && forall j :: k < j < |table| ==> table[j].id != id
  {
    if table != [] {
      LastIsFound(table[..|table| - 1], id);
      assert table == table[..|table| - 1] + [table[|table| - 1]];
    }
  }

  /** A requested to-one edge never reads as not loaded; it reads as not found exactly when the key is
      null or no row of the neighbour query has it, and otherwise as such a row. */
  lemma RequestedEdgeIsFoundOrMissing(query: AccountQuery, rows: seq<Record>, i: nat, edge: ToOne)
    requires i < |rows|
    requires match edge case ProxyEdge => query.proxy.Some? case ParentEdge => query.parent.Some?
    ensures var source := match edge case ProxyEdge => query.proxy.value case ParentEdge => query.parent.value;
            var key := rows[i].Key(KeyColumn(edge));
            match LoadedEdges(query, rows, i).OneOrErr(edge)
            case Ok(n) => key == Some(n.id) &&
                          exists row <- source.table :: row.id == n.id && n == Fetch(row, SpecColumns(source.fields, false, false))
            case Err(e) => e == NotFound && (key.None? || forall row <- source.table :: row.id != key.value)
  {
    var source := match edge case ProxyEdge => query.proxy.value case ParentEdge => query.parent.value;
    var key := rows[i].Key(KeyColumn(edge));
    hide SpecColumns, Fetch, LookupMany, LookupGroups, LoadedMany, LoadedGroups, LastWithId;
    if key.Some? {
      LastIsFound(source.table, key.value);
      if LastWithId(source.table, key.value).Some? {
        ColumnsKeepKeys(source.fields, false, false, LastWithId(source.table, key.value).value);
      }
    }
  }

  lemma NotRequestedIsNotLoaded(query: AccountQuery, rows: seq<Record>, i: nat, edge: ToOne)
    requires i < |rows|
    requires match edge case ProxyEdge => query.proxy.None? case ParentEdge => query.parent.None?
    ensures LoadedEdges(query, rows, i).OneOrErr(edge) == Err(NotLoaded)
  {
  }

  /** The groups read as loaded exactly when they were requested, and the last row with an id then reads
      the groups of its own lookup. */
  lemma RequestedGroupsAreRead(query: AccountQuery, rows: seq<Record>, i: nat)
    requires i < |rows|
    ensures match LoadedEdges(query, rows, i).GroupsOrErr()
            case Err(e) => query.groups.None? && e == NotLoaded
            case Ok(groups) =>
              query.groups.Some? && (OwnsRow(rows, i) ==> multiset(groups) == multiset(LookupGroups(query.groups, rows[i].id)))
  {
    hide LookupGroups, LookupMany, LookupOne, LoadedGroups, OwnsRow;
    GroupsLoadedForRow(query.groups, rows, i);
  }

  /** So do the three lists: they read as loaded exactly when they were requested, and the last row with an
      id then reads those of its own lookup. */
  lemma RequestedListsAreRead(query: AccountQuery, rows: seq<Record>, i: nat)
    requires i < |rows|
    ensures var edges, own := LoadedEdges(query, rows, i), NaiveEdges(query, rows[i]);
            && (edges.ManyOrErr(ChildrenEdge) == if query.children.Some? then Ok(edges.children) else Err(NotLoaded))
            && (edges.ManyOrErr(UsageLogsEdge) == if query.usageLogs.Some? then Ok(edges.usageLogs) else Err(NotLoaded))
            && (edges.ManyOrErr(AccountGroupsEdge) == if query.accountGroups.Some? then Ok(edges.accountGroups) else Err(NotLoaded))
            && (OwnsRow(rows, i) ==>
                  edges.children == own.children && edges.usageLogs == own.usageLogs && edges.accountGroups == own.accountGroups)
  {
    hide LookupGroups, LookupMany, LookupOne, LoadedGroups, OwnsRow;
  }

  /** An account fetched twice has neither its child nor its group at its first row. */
  lemma RepeatedRowLosesItsLists(table: int -> map<string, int>)
    ensures var account, child := Record(1, map[]), Record(2, map[FIELD_PARENT_ACCOUNT_ID := 1]);
            var groups, children := GroupQuery([Link(1, 10)], table, []), NeighborQuery([child], []);
            var query := AccountQuery([], Some(groups), None, None, Some(children), None, None);
            var rows := [account, account];
            && LoadedEdges(query, rows, 0).groups == [] && LoadedEdges(query, rows, 0).children == []
            && LoadedEdges(query, rows, 1).groups == [GroupOf(groups, 10)] && LoadedEdges(query, rows, 1).children == [child]
  {
    var account, child := Record(1, map[]), Record(2, map[FIELD_PARENT_ACCOUNT_ID := 1]);
    var groups, children := GroupQuery([Link(1, 10)], table, []), NeighborQuery([child], []);
    var rows := [account, account];
    assert rows[0].id == rows[1].id && !OwnsRow(rows, 0) && OwnsRow(rows, 1);
    assert [child][..0] == [];
    assert RowsReferring(FIELD_PARENT_ACCOUNT_ID, [child], 1) == [child];
    assert RowIds(rows)[0] == 1;
    OneLink(groups, RowIds(rows), Link(1, 10));
  }

  lemma OneLink(query: GroupQuery, ids: seq<int>, link: Link)
    requires query.links == [link] && link.accountId in ids
    ensures SharedGroups(query, ids, link.accountId) == [GroupOf(query, link.groupId)]
  {
    var group := GroupOf(query, link.groupId);
    GroupHasId(query, link.groupId);
    var row := JoinRow(link.accountId, group);
    hide GroupOf, FirstSeen, JoinedTo;
    assert query.links[..0] == [] && RowsIn(query, [], ids) == [];
    assert JoinRowsIn(query, ids) == [row];
    FirstSeenOne(row);
    assert row in [row];
    AllJoined([row], link.accountId, [group]);
  }
}
