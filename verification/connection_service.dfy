/**
  The paginated list of a user's connections. The store returns each connection
  joined with the profiles of both its users; the listing shows, for each, the
  user on the other side. The pt-BR collation of full names is the sort key
  `collate`.
*/
module ConnectionService {
  import opened Wrappers
  import opened Entities
  import opened Sorting
  import opened Pagination
  import opened Text

  /** A connection as the store returns it, joined with both users' profiles. */
  datatype ConnectionRow = ConnectionRow(id: string, createdAt: int, userA: Profile, userB: Profile)

  /** One entry of the listing: the connection and the user on its other side. */
  datatype ConnectionItem = ConnectionItem(id: string, createdAt: int, user: Profile)

  /** An absent or empty search string filters nothing. */
  predicate SearchActive(search: Option<string>)
  {
    search.Some? && search.value != ""
  }

  /** The profile's username or full name contains the search text, ignoring case. */
  function MatchesSearch(p: Profile, search: Option<string>): (b: bool)
    ensures !SearchActive(search) ==> b
    ensures SearchActive(search) ==>
              (b <==> FoldContains(p.username, search.value) || FoldContains(p.fullName, search.value))
  {
    if !SearchActive(search) then true
    else
      ContainsIgnoringCaseIsFolded(p.username, search.value);
      ContainsIgnoringCaseIsFolded(p.fullName, search.value);
      ContainsIgnoringCase(p.username, search.value) || ContainsIgnoringCase(p.fullName, search.value)
  }

  /** The row is listed because the user is its A side. */
  predicate ListedAsA(row: ConnectionRow, userId: string, search: Option<string>)
  {
    row.userA.id == userId && MatchesSearch(row.userB, search)
  }

  /** The row is listed because the user is its B side. */
  predicate ListedAsB(row: ConnectionRow, userId: string, search: Option<string>)
  {
    row.userB.id == userId && MatchesSearch(row.userA, search)
  }

  /** `connection.count({ where: whereA })`: the rows listed because the user is A. */
  function CountAsA(rows: seq<ConnectionRow>, userId: string, search: Option<string>): (n: nat)
    ensures n <= |rows|
  {
    if |rows| == 0 then 0
    else (if ListedAsA(rows[0], userId, search) then 1 else 0) + CountAsA(rows[1..], userId, search)
  }

  /** `connection.count({ where: whereB })`: the rows listed because the user is B. */
  function CountAsB(rows: seq<ConnectionRow>, userId: string, search: Option<string>): (n: nat)
    ensures n <= |rows|
  {
    if |rows| == 0 then 0
    else (if ListedAsB(rows[0], userId, search) then 1 else 0) + CountAsB(rows[1..], userId, search)
  }

  /** The entries for the rows where the user is A: the B side is shown. */
  function ItemsAsA(rows: seq<ConnectionRow>, userId: string, search: Option<string>): (r: seq<ConnectionItem>)
    ensures |r| == CountAsA(rows, userId, search)
    ensures forall k :: 0 <= k < |r| ==> EntryOfRowA(r[k], rows, userId, search)
    ensures forall j :: 0 <= j < |rows| && ListedAsA(rows[j], userId, search) ==>
              ConnectionItem(rows[j].id, rows[j].createdAt, rows[j].userB) in r
  {
    if |rows| == 0 then []
    else
      var rest := ItemsAsA(rows[1..], userId, search);
      ShiftRows(rows);
      TailEntriesA(rows, userId, search);
      var row := rows[0];
      if ListedAsA(row, userId, search) then
        var r := [ConnectionItem(row.id, row.createdAt, row.userB)] + rest;
        assert forall k :: 1 <= k < |r| ==> r[k] == rest[k - 1];
        r
      else rest
  }

  /** The entries for the rows where the user is B: the A side is shown. */
  function ItemsAsB(rows: seq<ConnectionRow>, userId: string, search: Option<string>): (r: seq<ConnectionItem>)
    ensures |r| == CountAsB(rows, userId, search)
    ensures forall k :: 0 <= k < |r| ==> EntryOfRowB(r[k], rows, userId, search)
    ensures forall j :: 0 <= j < |rows| && ListedAsB(rows[j], userId, search) ==>
              ConnectionItem(rows[j].id, rows[j].createdAt, rows[j].userA) in r
  {
    if |rows| == 0 then []
    else
      var rest := ItemsAsB(rows[1..], userId, search);
      ShiftRows(rows);
      TailEntriesB(rows, userId, search);
      var row := rows[0];
      if ListedAsB(row, userId, search) then
        var r := [ConnectionItem(row.id, row.createdAt, row.userA)] + rest;
        assert forall k :: 1 <= k < |r| ==> r[k] == rest[k - 1];
        r
      else rest
  }

  /** `x` is the entry of some row listed because the user is A. */
  ghost predicate EntryOfRowA(x: ConnectionItem, rows: seq<ConnectionRow>, userId: string, search: Option<string>)
  {
    exists j :: 0 <= j < |rows| && ListedAsA(rows[j], userId, search)
                && x == ConnectionItem(rows[j].id, rows[j].createdAt, rows[j].userB)
  }

  /** `x` is the entry of some row listed because the user is B. */
  ghost predicate EntryOfRowB(x: ConnectionItem, rows: seq<ConnectionRow>, userId: string, search: Option<string>)
  {
    exists j :: 0 <= j < |rows| && ListedAsB(rows[j], userId, search)
                && x == ConnectionItem(rows[j].id, rows[j].createdAt, rows[j].userA)
  }

  lemma TailEntriesA(rows: seq<ConnectionRow>, userId: string, search: Option<string>)
    requires |rows| > 0
    ensures forall x :: EntryOfRowA(x, rows[1..], userId, search) ==> EntryOfRowA(x, rows, userId, search)
  {
    forall x | EntryOfRowA(x, rows[1..], userId, search)
      ensures EntryOfRowA(x, rows, userId, search)
    {
      var j :| 0 <= j < |rows[1..]| && ListedAsA(rows[1..][j], userId, search)
               && x == ConnectionItem(rows[1..][j].id, rows[1..][j].createdAt, rows[1..][j].userB);
      assert rows[1..][j] == rows[j + 1];
    }
  }

  lemma TailEntriesB(rows: seq<ConnectionRow>, userId: string, search: Option<string>)
    requires |rows| > 0
    ensures forall x :: EntryOfRowB(x, rows[1..], userId, search) ==> EntryOfRowB(x, rows, userId, search)
  {
    forall x | EntryOfRowB(x, rows[1..], userId, search)
      ensures EntryOfRowB(x, rows, userId, search)
    {
      var j :| 0 <= j < |rows[1..]| && ListedAsB(rows[1..][j], userId, search)
               && x == ConnectionItem(rows[1..][j].id, rows[1..][j].createdAt, rows[1..][j].userA);
      assert rows[1..][j] == rows[j + 1];
    }
  }

  lemma ShiftRows(rows: seq<ConnectionRow>)
    requires |rows| > 0
    ensures forall j :: 0 <= j < |rows[1..]| ==> rows[1..][j] == rows[j + 1]
  {
  }

  /** The order of the listing: by the shown user's full name, ascending or descending. */
  function NameKey(order: SortOrder, collate: string -> real): ConnectionItem -> real
  {
    match order
    case Asc => (x: ConnectionItem) => collate(x.user.fullName)
    case Desc => (x: ConnectionItem) => -collate(x.user.fullName)
  }

  /** All entries of the listing, merged (A side first) and sorted. */
  function SortedItems(
    rows: seq<ConnectionRow>, userId: string, search: Option<string>, order: SortOrder, collate: string -> real)
    : (r: seq<ConnectionItem>)
    ensures multiset(r) == multiset(ItemsAsA(rows, userId, search)) + multiset(ItemsAsB(rows, userId, search))
    ensures Sorted(r, NameKey(order, collate))
  {
    var merged := ItemsAsA(rows, userId, search) + ItemsAsB(rows, userId, search);
    SortBySorted(merged, NameKey(order, collate));
    SortBy(merged, NameKey(order, collate))
  }

  /**
    `listPaginatedConnections`: one page of the user's connections, each showing
    the other user, filtered by the search text, ordered by full name.
  */
  function ListPaginatedConnections(
    rows: seq<ConnectionRow>, userId: string, page: int, limit: int,
    search: Option<string>, order: SortOrder, collate: string -> real): (r: Page<ConnectionItem>)
    requires limit > 0
    ensures var sorted := SortedItems(rows, userId, search, order, collate);
            var skip := Skip(page, limit);
            page >= 1 ==> 0 <= skip && r.data == sorted[Min(skip, |sorted|)..Min(skip + limit, |sorted|)]
    ensures page == 0 ==> r.data == []
    ensures |r.data| <= limit
    ensures forall k :: 0 <= k < |r.data| ==> r.data[k] in SortedItems(rows, userId, search, order, collate)
    ensures page >= 1 ==> Sorted(r.data, NameKey(order, collate))
    ensures r.total == CountAsA(rows, userId, search) + CountAsB(rows, userId, search)
    ensures r.total == |ItemsAsA(rows, userId, search)| + |ItemsAsB(rows, userId, search)|
    ensures r.total > 0 ==> r.page == page
    ensures r.total == 0 ==> r.page == 0
    ensures r.limit == limit
    ensures PagesCover(r.totalPages, limit, r.total)
  {
    var total := CountAsA(rows, userId, search) + CountAsB(rows, userId, search);
    var sorted := SortedItems(rows, userId, search, order, collate);
    PageIsSorted(sorted, page, limit, NameKey(order, collate));
    Paginate(sorted, total, page, limit)
  }

  /** The entry a row contributes: the connection with the user other than `userId`. */
  ghost predicate IsEntryFor(x: ConnectionItem, row: ConnectionRow, userId: string, search: Option<string>)
  {
    || (ListedAsA(row, userId, search) && x == ConnectionItem(row.id, row.createdAt, row.userB))
    || (ListedAsB(row, userId, search) && x == ConnectionItem(row.id, row.createdAt, row.userA))
  }

  /**
    Every listed entry comes from one of the user's connections that passes the
    search, and shows the user on the other side of it.
  */
  lemma EntriesShowTheOtherUser(
    rows: seq<ConnectionRow>, userId: string, search: Option<string>, order: SortOrder, collate: string -> real)
    ensures forall k :: 0 <= k < |SortedItems(rows, userId, search, order, collate)| ==>
              exists j :: 0 <= j < |rows| && IsEntryFor(SortedItems(rows, userId, search, order, collate)[k], rows[j], userId, search)
  {
    var sorted := SortedItems(rows, userId, search, order, collate);
    var asA := ItemsAsA(rows, userId, search);
    var asB := ItemsAsB(rows, userId, search);
    forall k | 0 <= k < |sorted|
      ensures exists j :: 0 <= j < |rows| && IsEntryFor(sorted[k], rows[j], userId, search)
    {
      assert sorted[k] in multiset(sorted);
      if sorted[k] in multiset(asA) {
        var i :| 0 <= i < |asA| && asA[i] == sorted[k];
        var j :| 0 <= j < |rows| && ListedAsA(rows[j], userId, search)
                 && asA[i] == ConnectionItem(rows[j].id, rows[j].createdAt, rows[j].userB);
        assert IsEntryFor(sorted[k], rows[j], userId, search);
      } else {
        assert sorted[k] in multiset(asB);
        var i :| 0 <= i < |asB| && asB[i] == sorted[k];
        var j :| 0 <= j < |rows| && ListedAsB(rows[j], userId, search)
                 && asB[i] == ConnectionItem(rows[j].id, rows[j].createdAt, rows[j].userA);
        assert IsEntryFor(sorted[k], rows[j], userId, search);
      }
    }
  }

  /** Without a search text, every connection of the user is listed, showing the other user. */
  lemma NoSearchListsEveryConnection(
    rows: seq<ConnectionRow>, userId: string, search: Option<string>, order: SortOrder, collate: string -> real)
    requires !SearchActive(search)
    ensures forall j :: 0 <= j < |rows| && rows[j].userA.id == userId ==>
              ConnectionItem(rows[j].id, rows[j].createdAt, rows[j].userB) in SortedItems(rows, userId, search, order, collate)
    ensures forall j :: 0 <= j < |rows| && rows[j].userB.id == userId ==>
              ConnectionItem(rows[j].id, rows[j].createdAt, rows[j].userA) in SortedItems(rows, userId, search, order, collate)
  {
    var sorted := SortedItems(rows, userId, search, order, collate);
    var asA := ItemsAsA(rows, userId, search);
    var asB := ItemsAsB(rows, userId, search);
    forall j | 0 <= j < |rows| && rows[j].userA.id == userId
      ensures ConnectionItem(rows[j].id, rows[j].createdAt, rows[j].userB) in sorted
    {
      var x := ConnectionItem(rows[j].id, rows[j].createdAt, rows[j].userB);
      assert ListedAsA(rows[j], userId, search);
      assert x in multiset(asA);
      assert x in multiset(sorted);
    }
    forall j | 0 <= j < |rows| && rows[j].userB.id == userId
      ensures ConnectionItem(rows[j].id, rows[j].createdAt, rows[j].userA) in sorted
    {
      var x := ConnectionItem(rows[j].id, rows[j].createdAt, rows[j].userA);
      assert ListedAsB(rows[j], userId, search);
      assert x in multiset(asB);
      assert x in multiset(sorted);
    }
  }

  /** With a search text, every listed user's username or full name contains it, ignoring case. */
  lemma SearchKeepsOnlyMatchingUsers(
    rows: seq<ConnectionRow>, userId: string, search: Option<string>, order: SortOrder, collate: string -> real)
    requires SearchActive(search)
    ensures forall x :: x in SortedItems(rows, userId, search, order, collate) ==>
              ContainsIgnoringCase(x.user.username, search.value) || ContainsIgnoringCase(x.user.fullName, search.value)
  {
    EntriesShowTheOtherUser(rows, userId, search, order, collate);
  }

  /** For a requested page of at least 1, the reported page is 0 exactly when there are no connections. */
  lemma ReportedPageIsZeroIffNoConnections(
    rows: seq<ConnectionRow>, userId: string, page: int, limit: int,
    search: Option<string>, order: SortOrder, collate: string -> real)
    requires limit > 0 && page >= 1
    ensures var r := ListPaginatedConnections(rows, userId, page, limit, search, order, collate);
            r.page == 0 <==> r.total == 0
  {
  }
}
