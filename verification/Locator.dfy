/** The queries behind the API: single connections, and pages of them. */
module Locator {
  import opened Domain
  import opened ConnectionTable
  import Pagination

  const SATELLITE_WORKER := "foreman_rh_cloud"

  // ----- One connection -----

  datatype Access = Strict | Relaxed

  /** The WHERE clauses of the two lookups, apart from the client id. */
  predicate Allows(access: Access, org: OrgId, r: Row) {
    && (r.org == org || (access.Relaxed? && HasKey(r.message.dispatchers, SATELLITE_WORKER)))
    && r.org != ""
  }

  function FirstAllowed(rows: seq<Row>, access: Access, org: OrgId, client: ClientId): Option<Row> {
    if rows == [] then None
    else if rows[0].client == client && Allows(access, org, rows[0]) then Some(rows[0])
    else FirstAllowed(rows[1..], access, org, client)
  }

  /** What the API returns of a row. */
  datatype Connection = Connection(client: ClientId, account: AccountId, org: OrgId, facts: Json, dispatchers: Json, tags: Json)

  function ConnectionOf(r: Row): Connection {
    Connection(r.client, r.account, r.org, r.message.facts, r.message.dispatchers, r.message.tags)
  }

  /** The connection is the row's, column by column. */
  predicate ShowsRow(conn: Connection, r: Row) {
    && conn.client == r.client && conn.account == r.account && conn.org == r.org
    && conn.facts == r.message.facts && conn.dispatchers == r.message.dispatchers && conn.tags == r.message.tags
  }

  datatype Located = InvalidOrgId | InvalidClientId | NoConnection | Found(connection: Connection)

  function GetConnectionByClientId(rows: seq<Row>, access: Access, org: OrgId, client: ClientId): Located {
    if org == "" then InvalidOrgId
    else if client == "" then InvalidClientId
    else
      var o := FirstAllowed(rows, access, org, client);
      if o.Some? then Found(ConnectionOf(o.value)) else NoConnection
  }

  lemma {:induction false} FirstAllowedIsTheRow(rows: seq<Row>, access: Access, org: OrgId, client: ClientId)
    requires Unique(rows)
    ensures var o := Find(rows, client);
            FirstAllowed(rows, access, org, client) == if o.Some? && Allows(access, org, o.value) then o else None
  {
    if rows != [] && rows[0].client != client {
      FirstAllowedIsTheRow(rows[1..], access, org, client);
    } else if rows != [] {
      NoneElsewhere(rows[1..], access, org, client);
    }
  }

  lemma {:induction false} NoneElsewhere(rows: seq<Row>, access: Access, org: OrgId, client: ClientId)
    requires forall i :: 0 <= i < |rows| ==> rows[i].client != client
    ensures FirstAllowed(rows, access, org, client) == None
  {
    if rows != [] { NoneElsewhere(rows[1..], access, org, client); }
  }

  /** What a lookup finds is the client's row, it has a tenant, and strict access is the
      owner's; relaxed access finds what strict access finds, and more only with the
      satellite dispatcher. */
  lemma AccessRules(rows: seq<Row>, org: OrgId, client: ClientId)
    requires Unique(rows) && org != "" && client != ""
    ensures var strict := GetConnectionByClientId(rows, Strict, org, client);
            var relaxed := GetConnectionByClientId(rows, Relaxed, org, client);
            var o := Find(rows, client);
            && (strict.Found? <==> o.Some? && o.value.org == org)
            && (relaxed.Found? <==> o.Some? && o.value.org != "" &&
                                    (o.value.org == org || HasKey(o.value.message.dispatchers, "foreman_rh_cloud")))
            && (strict.Found? ==> relaxed == strict)
            && (relaxed.Found? ==>
                  && relaxed == Found(ConnectionOf(o.value))
                  && ShowsRow(relaxed.connection, o.value) && relaxed.connection.client == client)
            && (!strict.Found? ==> strict == NoConnection) && (!relaxed.Found? ==> relaxed == NoConnection)
  {
    FirstAllowedIsTheRow(rows, Strict, org, client);
    FirstAllowedIsTheRow(rows, Relaxed, org, client);
  }

  // ----- ORDER BY org_id, client_id -----

  predicate TextLeq(a: string, b: string) {
    a == "" || (b != "" && (a[0] < b[0] || (a[0] == b[0] && TextLeq(a[1..], b[1..]))))
  }

  lemma {:induction false} TextLeqTotal(a: string, b: string)
    ensures TextLeq(a, b) || TextLeq(b, a)
  {
    if a != "" && b != "" && a[0] == b[0] { TextLeqTotal(a[1..], b[1..]); }
  }

  lemma {:induction false} TextLeqTransitive(a: string, b: string, c: string)
    requires TextLeq(a, b) && TextLeq(b, c)
    ensures TextLeq(a, c)
  {
    if a != "" && a[0] == b[0] && b[0] == c[0] { TextLeqTransitive(a[1..], b[1..], c[1..]); }
  }

  lemma {:induction false} TextLeqAntisymmetric(a: string, b: string)
    requires TextLeq(a, b) && TextLeq(b, a)
    ensures a == b
  {
    if a != "" {
      TextLeqAntisymmetric(a[1..], b[1..]);
      assert a == [a[0]] + a[1..] && b == [b[0]] + b[1..];
    }
  }

  /** Text order is lexicographic: a common start, after which the first text ends or is smaller. */
  lemma {:induction false} TextLeqIsLexicographic(a: string, b: string)
    ensures TextLeq(a, b) <==> exists k :: IsCommonStart(a, b, k) && (k == |a| || (k < |b| && a[k] < b[k]))
  {
    if a == "" {
      assert IsCommonStart(a, b, 0);
    } else if b != "" && a[0] != b[0] {
      assert IsCommonStart(a, b, 0);
      forall k | IsCommonStart(a, b, k) ensures k == 0 {
        if k > 0 { StartsAlike(a, b, k); }
      }
    } else if b != "" {
      TextLeqIsLexicographic(a[1..], b[1..]);
      if k :| IsCommonStart(a[1..], b[1..], k) && (k == |a[1..]| || (k < |b[1..]| && a[1..][k] < b[1..][k])) {
        CommonStartGrows(a, b, k);
      }
      if k :| IsCommonStart(a, b, k) && (k == |a| || (k < |b| && a[k] < b[k])) {
        CommonStartGrows(a, b, k - 1);
      }
    }
  }

  lemma StartsAlike(a: string, b: string, k: nat)
    requires IsCommonStart(a, b, k) && k > 0
    ensures a[0] == b[0]
  {
    assert a[..k][0] == a[0] && b[..k][0] == b[0];
  }

  predicate IsCommonStart(a: string, b: string, k: int) {
    0 <= k <= |a| && k <= |b| && a[..k] == b[..k]
  }

  lemma CommonStartGrows(a: string, b: string, k: nat)
    requires a != "" && b != "" && a[0] == b[0]
    ensures IsCommonStart(a[1..], b[1..], k) <==> IsCommonStart(a, b, k + 1)
  {
    if k + 1 <= |a| && k + 1 <= |b| {
      assert a[..k + 1] == [a[0]] + a[1..][..k] && b[..k + 1] == [b[0]] + b[1..][..k];
      assert a[..k + 1][1..] == a[1..][..k] && b[..k + 1][1..] == b[1..][..k];
    }
  }

  predicate Leq(r1: Row, r2: Row) {
    if r1.org != r2.org then TextLeq(r1.org, r2.org) else TextLeq(r1.client, r2.client)
  }

  lemma LeqTransitive(r1: Row, r2: Row, r3: Row)
    requires Leq(r1, r2) && Leq(r2, r3)
    ensures Leq(r1, r3)
  {
    if r1.org == r2.org == r3.org {
      TextLeqTransitive(r1.client, r2.client, r3.client);
    } else if r1.org == r3.org {
      TextLeqAntisymmetric(r1.org, r2.org);
      assert false;
    } else {
      if r1.org != r2.org && r2.org != r3.org { TextLeqTransitive(r1.org, r2.org, r3.org); }
    }
  }

  lemma LeqTotal(r1: Row, r2: Row)
    ensures Leq(r1, r2) || Leq(r2, r1)
  {
    TextLeqTotal(r1.org, r2.org);
    TextLeqTotal(r1.client, r2.client);
  }

  ghost predicate Sorted(s: seq<Row>) {
    forall i, j :: 0 <= i < j < |s| ==> Leq(s[i], s[j])
  }

  function InsertInOrder(s: seq<Row>, r: Row): (out: seq<Row>)
    ensures multiset(out) == multiset(s) + multiset{r}
  {
    if s == [] then [r]
    else if Leq(r, s[0]) then [r] + s
    else
      assert s == [s[0]] + s[1..];
      [s[0]] + InsertInOrder(s[1..], r)
  }

  lemma {:induction false} InsertSorts(s: seq<Row>, r: Row)
    requires Sorted(s)
    ensures Sorted(InsertInOrder(s, r))
  {
    if s != [] {
      var out := InsertInOrder(s, r);
      if Leq(r, s[0]) {
        forall i | 0 <= i < |s| ensures Leq(r, s[i]) {
          if i > 0 { LeqTransitive(r, s[0], s[i]); }
        }
      } else {
        InsertSorts(s[1..], r);
        var rest := InsertInOrder(s[1..], r);
        LeqTotal(r, s[0]);
        forall i | 0 <= i < |rest| ensures Leq(s[0], rest[i]) {
          assert rest[i] in multiset(rest);
          assert rest[i] == r || rest[i] in s[1..];
        }
      }
    }
  }

  /** The rows that a listing is over: one organization's, or everyone's with a tenant. */
  datatype Listing = OfOrg(org: OrgId) | All {
    predicate Lists(r: Row) {
      match this
      case OfOrg(org) => r.org == org
      case All => r.org != ""
    }
  }

  function Rows(rows: seq<Row>, l: Listing): seq<Row> {
    if rows == [] then []
    else if l.Lists(rows[0]) then InsertInOrder(Rows(rows[1..], l), rows[0])
    else Rows(rows[1..], l)
  }

  /** A listing is the selected rows, each once, in order. */
  lemma {:induction false} RowsAreListed(rows: seq<Row>, l: Listing)
    requires Unique(rows)
    ensures Sorted(Rows(rows, l)) && Unique(Rows(rows, l))
    ensures forall r :: r in Rows(rows, l) <==> r in rows && l.Lists(r)
    ensures var listed := Rows(rows, l);
            forall i, j :: 0 <= i < j < |listed| ==>
                             if listed[i].org != listed[j].org then TextLeq(listed[i].org, listed[j].org)
                             else TextLeq(listed[i].client, listed[j].client)
  {
    if rows != [] {
      RowsAreListed(rows[1..], l);
      var rest := Rows(rows[1..], l);
      if l.Lists(rows[0]) {
        InsertSorts(rest, rows[0]);
        forall i | 0 <= i < |rest| ensures rest[i].client != rows[0].client {
          assert rest[i] in rest && rest[i] in rows[1..];
        }
        InsertKeepsUnique(rest, rows[0]);
        forall r ensures r in InsertInOrder(rest, rows[0]) <==> r == rows[0] || r in rest {
          assert r in InsertInOrder(rest, rows[0]) <==> r in multiset(InsertInOrder(rest, rows[0]));
        }
      }
    }
  }

  lemma {:induction false} InsertKeepsUnique(s: seq<Row>, r: Row)
    requires Unique(s) && forall i :: 0 <= i < |s| ==> s[i].client != r.client
    ensures Unique(InsertInOrder(s, r))
  {
    if s != [] && !Leq(r, s[0]) {
      InsertKeepsUnique(s[1..], r);
      var rest := InsertInOrder(s[1..], r);
      forall i | 0 <= i < |rest| ensures rest[i].client != s[0].client {
        assert rest[i] in multiset(rest);
        assert rest[i] == r || rest[i] in s[1..];
      }
    }
  }

  // ----- Pages -----

  function Min(a: int, b: int): int {
    if a <= b then a else b
  }

  /** OFFSET and LIMIT. */
  function Slice(s: seq<Row>, offset: nat, limit: nat): seq<Row> {
    s[Min(offset, |s|)..Min(offset + limit, |s|)]
  }

  function ConnectionsOf(page: seq<Row>): map<ClientId, Connection> {
    if page == [] then map[]
    else ConnectionsOf(page[..|page| - 1])[page[|page| - 1].client := ConnectionOf(page[|page| - 1])]
  }

  ghost function ClientsOf(page: seq<Row>): set<ClientId> {
    set r | r in page :: r.client
  }

  lemma {:induction false} ConnectionsAreOfClients(page: seq<Row>)
    ensures ConnectionsOf(page).Keys == ClientsOf(page)
  {
    if page != [] {
      var n := |page| - 1;
      ConnectionsAreOfClients(page[..n]);
      assert page == page[..n] + [page[n]];
      assert ClientsOf(page) == ClientsOf(page[..n]) + {page[n].client};
    }
  }

  lemma {:induction false} ConnectionOfRow(page: seq<Row>, k: nat)
    requires Unique(page) && k < |page|
    ensures page[k].client in ConnectionsOf(page) && ConnectionsOf(page)[page[k].client] == ConnectionOf(page[k])
  {
    var n := |page| - 1;
    if k < n { ConnectionOfRow(page[..n], k); }
  }

  datatype Page = Page(connections: map<ClientId, Connection>, total: nat)

  /** What a listing query answers: every row of the result carries the count of all rows,
      so a page without rows reports none. */
  function PageAt(listed: seq<Row>, offset: nat, limit: nat): Page {
    var page := Slice(listed, offset, limit);
    Page(ConnectionsOf(page), if page == [] then 0 else |listed|)
  }

  function PageOf(rows: seq<Row>, l: Listing, offset: nat, limit: nat): Page {
    PageAt(Rows(rows, l), offset, limit)
  }

  lemma ShownRows(page: seq<Row>)
    requires Unique(page)
    ensures forall c :: c in ConnectionsOf(page) ==>
                          exists r :: r in page && r.client == c && ShowsRow(ConnectionsOf(page)[c], r)
  {
    forall c | c in ConnectionsOf(page) ensures exists r :: r in page && r.client == c && ShowsRow(ConnectionsOf(page)[c], r) {
      ConnectionsAreOfClients(page);
      assert c in ClientsOf(page);
      var i :| 0 <= i < |page| && page[i].client == c;
      ConnectionOfRow(page, i);
    }
  }

  /** By its columns the row is one of the organization, or has some tenant. */
  predicate BelongsTo(r: Row, l: Listing) {
    if l.OfOrg? then r.org == l.org else r.org != ""
  }

  /** Every connection of a page is a row of the listing, column by column. */
  lemma PageShowsItsRows(rows: seq<Row>, l: Listing, offset: nat, limit: nat)
    requires Unique(rows)
    ensures var page := PageOf(rows, l, offset, limit);
            forall c :: c in page.connections ==>
                          exists r :: r in rows && r.client == c && BelongsTo(r, l) && ShowsRow(page.connections[c], r)
  {
    RowsAreListed(rows, l);
    SliceIsUnique(Rows(rows, l), offset, limit);
    var slice := Slice(Rows(rows, l), offset, limit);
    ShownRows(slice);
    var page := PageOf(rows, l, offset, limit);
    forall c | c in page.connections
      ensures exists r :: r in rows && r.client == c && BelongsTo(r, l) && ShowsRow(page.connections[c], r)
    {
      var r :| r in slice && r.client == c && ShowsRow(ConnectionsOf(slice)[c], r);
      assert r in Rows(rows, l);
    }
  }

  /** The connection is that of the client's row, and that is one of the organization. */
  predicate ShowsOrgRow(rows: seq<Row>, org: OrgId, c: ClientId, conn: Connection) {
    exists r :: r in rows && r.client == c && r.org == org && ShowsRow(conn, r)
  }

  lemma OrgPageShowsItsRows(rows: seq<Row>, org: OrgId, offset: nat, limit: nat)
    requires Unique(rows)
    ensures var page := PageOf(rows, OfOrg(org), offset, limit);
            forall c :: c in page.connections ==> ShowsOrgRow(rows, org, c, page.connections[c])
  {
    var page := PageOf(rows, OfOrg(org), offset, limit);
    PageShowsItsRows(rows, OfOrg(org), offset, limit);
    forall c | c in page.connections ensures ShowsOrgRow(rows, org, c, page.connections[c]) {
      var r :| r in rows && r.client == c && BelongsTo(r, OfOrg(org)) && ShowsRow(page.connections[c], r);
    }
  }

  method GetConnectionsByOrgId(rows: seq<Row>, org: OrgId, offset: nat, limit: nat) returns (invalid: bool, page: Page)
    requires Unique(rows)
    ensures invalid <==> org == ""
    ensures !invalid ==> page == PageOf(rows, OfOrg(org), offset, limit)
    ensures !invalid ==> forall c :: c in page.connections ==> ShowsOrgRow(rows, org, c, page.connections[c])
  {
    OrgPageShowsItsRows(rows, org, offset, limit);
    if org == "" {
      return true, Page(map[], 0);
    }
    var all := Rows(rows, OfOrg(org));
    var result := Slice(all, offset, limit);
    var connections: map<ClientId, Connection> := map[];
    var totalConnections: nat := 0;
    for i := 0 to |result|
      invariant connections == ConnectionsOf(result[..i])
      invariant totalConnections == if i == 0 then 0 else |all|
    {
      assert result[..i + 1][..i] == result[..i];
      totalConnections := |all|;
      connections := connections[result[i].client := ConnectionOf(result[i])];
    }
    assert result[..|result|] == result;
    return false, Page(connections, totalConnections);
  }

  /** The nested map that the listing of all connections fills. */
  function Grouped(page: seq<Row>): map<AccountId, map<ClientId, Connection>> {
    if page == [] then map[]
    else
      var r, g := page[|page| - 1], Grouped(page[..|page| - 1]);
      g[r.account := (if r.account in g then g[r.account] else map[])[r.client := ConnectionOf(r)]]
  }

  /** Grouping neither loses nor moves a connection. */
  lemma {:induction false} GroupedByAccount(page: seq<Row>, a: AccountId, c: ClientId)
    requires Unique(page)
    ensures a in Grouped(page) && c in Grouped(page)[a] <==>
            c in ConnectionsOf(page) && ConnectionsOf(page)[c].account == a
    ensures a in Grouped(page) && c in Grouped(page)[a] ==> Grouped(page)[a][c] == ConnectionsOf(page)[c]
  {
    if page != [] {
      var n := |page| - 1;
      GroupedByAccount(page[..n], a, c);
      NewClient(page, n);
    }
  }

  lemma NewClient(page: seq<Row>, i: nat)
    requires Unique(page) && i < |page|
    ensures page[i].client !in ConnectionsOf(page[..i])
  {
    ConnectionsAreOfClients(page[..i]);
  }

  lemma SliceIsUnique(s: seq<Row>, offset: nat, limit: nat)
    requires Unique(s)
    ensures Unique(Slice(s, offset, limit))
  {
  }

  /** Connections of all organizations, grouped by account. */
  method GetAllConnections(rows: seq<Row>, offset: nat, limit: nat)
    returns (grouped: map<AccountId, map<ClientId, Connection>>, total: nat)
    requires Unique(rows)
    ensures var page := PageOf(rows, All, offset, limit);
            && total == page.total
            && forall a, c ::
              && (a in grouped && c in grouped[a] <==> c in page.connections && page.connections[c].account == a)
              && (a in grouped && c in grouped[a] ==> grouped[a][c] == page.connections[c])
  {
    var all := Rows(rows, All);
    var result := Slice(all, offset, limit);
    RowsAreListed(rows, All);
    SliceIsUnique(all, offset, limit);
    grouped := map[];
    total := 0;
    for i := 0 to |result|
      invariant total == if i == 0 then 0 else |all|
      invariant grouped == Grouped(result[..i])
    {
      assert result[..i + 1][..i] == result[..i];
      total := |all|;
      var r := result[i];
      if r.account !in grouped {
        grouped := grouped[r.account := map[]];
      }
      grouped := grouped[r.account := grouped[r.account][r.client := ConnectionOf(r)]];
    }
    assert result[..|result|] == result;
    forall a, c
      ensures a in grouped && c in grouped[a] <==> c in ConnectionsOf(result) && ConnectionsOf(result)[c].account == a
      ensures a in grouped && c in grouped[a] ==> grouped[a][c] == ConnectionsOf(result)[c]
    {
      GroupedByAccount(result, a, c);
    }
  }

  // ----- Walking the pages -----

  /** Limits and counts are machine integers. */
  predicate Fits(limit: int, total: int) {
    0 < limit <= Pagination.MAX_INT && total <= Pagination.MAX_INT
  }

  /** The pages that a client sees who follows `Next` from an offset until there is none
      or the link is refused. */
  function WalkFrom(listed: seq<Row>, offset: nat, limit: nat): seq<Page>
    requires Fits(limit, |listed|) && offset <= |listed|
    decreases |listed| - offset
  {
    var page := PageAt(listed, offset, limit);
    var next := Pagination.NextAccepted(offset, limit, page.total);
    if next.Some?
    then [page] + WalkFrom(listed, next.value, limit)
    else [page]
  }

  function Walk(rows: seq<Row>, l: Listing, limit: nat): seq<Page>
    requires Fits(limit, |Rows(rows, l)|)
  {
    WalkFrom(Rows(rows, l), 0, limit)
  }

  /** Page `i` of a walk shows the row. */
  predicate ShowsAt(walk: seq<Page>, i: int, r: Row) {
    0 <= i < |walk| && r.client in walk[i].connections && ShowsRow(walk[i].connections[r.client], r)
  }

  lemma SliceShows(listed: seq<Row>, offset: nat, limit: nat, k: nat)
    requires Unique(listed) && offset <= k < Min(offset + limit, |listed|)
    ensures var conns := ConnectionsOf(Slice(listed, offset, limit));
            listed[k].client in conns && conns[listed[k].client] == ConnectionOf(listed[k])
  {
    var page := Slice(listed, offset, limit);
    assert page[k - offset] == listed[k];
    SliceIsUnique(listed, offset, limit);
    ConnectionOfRow(page, k - offset);
  }

  lemma SliceShowsOnly(listed: seq<Row>, offset: nat, limit: nat, c: ClientId) returns (k: nat)
    requires c in ConnectionsOf(Slice(listed, offset, limit))
    ensures offset <= k < Min(offset + limit, |listed|) && listed[k].client == c
  {
    var page := Slice(listed, offset, limit);
    ConnectionsAreOfClients(page);
    assert c in ClientsOf(page);
    var i :| 0 <= i < |page| && page[i].client == c;
    k := offset + i;
  }

  /** The walk goes on where the page ends, until the list does. */
  lemma WalkUnfolds(listed: seq<Row>, offset: nat, limit: nat)
    requires Fits(limit, |listed|) && offset <= |listed|
    ensures WalkFrom(listed, offset, limit) == [PageAt(listed, offset, limit)] +
            if offset + limit < |listed| then WalkFrom(listed, offset + limit, limit) else []
  {
  }

  /** The offset of page `i` of a walk. */
  function PageOffset(offset: nat, limit: nat, i: nat): nat {
    if i == 0 then offset else PageOffset(offset, limit, i - 1) + limit
  }

  lemma {:induction false} PageOffsetShifts(offset: nat, limit: nat, i: nat)
    ensures PageOffset(offset + limit, limit, i) == PageOffset(offset, limit, i + 1)
  {
    if i > 0 { PageOffsetShifts(offset, limit, i - 1); }
  }

  lemma {:induction false} PageOffsetGrows(offset: nat, limit: nat, i: nat, j: nat)
    requires i <= j
    ensures PageOffset(offset, limit, i) <= PageOffset(offset, limit, j)
    ensures i < j ==> PageOffset(offset, limit, i) + limit <= PageOffset(offset, limit, j)
  {
    if i < j { PageOffsetGrows(offset, limit, i, j - 1); }
  }

  /** Page `i` of a walk lies where it should, inside the list unless it is the first. */
  ghost predicate InPlace(listed: seq<Row>, offset: nat, limit: nat, walk: seq<Page>, i: nat)
    requires i < |walk|
  {
    var o := PageOffset(offset, limit, i);
    walk[i] == PageAt(listed, o, limit) && (i > 0 ==> o < |listed|)
  }

  /** The pages of a walk lie end to end, and the last one ends the list. */
  ghost predicate EndToEnd(listed: seq<Row>, offset: nat, limit: nat, walk: seq<Page>) {
    && |walk| > 0 && |listed| <= PageOffset(offset, limit, |walk|)
    && forall i :: 0 <= i < |walk| ==> InPlace(listed, offset, limit, walk, i)
  }

  lemma LaterPage(listed: seq<Row>, offset: nat, limit: nat, page: Page, rest: seq<Page>, i: nat)
    requires i < |rest| && InPlace(listed, offset + limit, limit, rest, i) && offset + limit < |listed|
    ensures InPlace(listed, offset, limit, [page] + rest, i + 1)
  {
    PageOffsetShifts(offset, limit, i);
    assert ([page] + rest)[i + 1] == rest[i];
  }

  lemma OneMorePage(listed: seq<Row>, offset: nat, limit: nat, page: Page, rest: seq<Page>)
    requires offset + limit < |listed| && EndToEnd(listed, offset + limit, limit, rest)
    requires page == PageAt(listed, offset, limit)
    ensures EndToEnd(listed, offset, limit, [page] + rest)
  {
    PageOffsetShifts(offset, limit, |rest|);
    forall i | 0 <= i < |[page] + rest| ensures InPlace(listed, offset, limit, [page] + rest, i) {
      if i > 0 { LaterPage(listed, offset, limit, page, rest, i - 1); }
    }
  }

  lemma OnlyPage(listed: seq<Row>, offset: nat, limit: nat)
    requires offset + limit >= |listed|
    ensures EndToEnd(listed, offset, limit, [PageAt(listed, offset, limit)])
  {
    assert PageOffset(offset, limit, 1) == offset + limit;
  }

  lemma {:induction false} WalkIsEndToEnd(listed: seq<Row>, offset: nat, limit: nat) returns (walk: seq<Page>)
    requires Fits(limit, |listed|) && offset <= |listed|
    ensures walk == WalkFrom(listed, offset, limit) && EndToEnd(listed, offset, limit, walk)
    decreases |listed| - offset
  {
    if offset + limit < |listed| {
      var rest := WalkIsEndToEnd(listed, offset + limit, limit);
      var page := PageAt(listed, offset, limit);
      OneMorePage(listed, offset, limit, page, rest);
      walk := [page] + rest;
    } else {
      OnlyPage(listed, offset, limit);
      walk := [PageAt(listed, offset, limit)];
    }
    WalkUnfolds(listed, offset, limit);
  }

  /** The number of the page that index `k` of the list falls on. */
  lemma {:induction false} PageNumberOf(limit: nat, n: nat, k: nat) returns (i: nat)
    requires k < PageOffset(0, limit, n)
    ensures i < n && PageOffset(0, limit, i) <= k < PageOffset(0, limit, i) + limit
  {
    if PageOffset(0, limit, n - 1) <= k { i := n - 1; } else { i := PageNumberOf(limit, n - 1, k); }
  }

  lemma WalkShows(listed: seq<Row>, limit: nat, walk: seq<Page>, k: nat) returns (i: nat)
    requires Unique(listed) && EndToEnd(listed, 0, limit, walk) && k < |listed|
    ensures ShowsAt(walk, i, listed[k])
  {
    i := PageNumberOf(limit, |walk|, k);
    assert InPlace(listed, 0, limit, walk, i);
    SliceShows(listed, PageOffset(0, limit, i), limit, k);
  }

  lemma WalkShowsOnly(listed: seq<Row>, limit: nat, walk: seq<Page>, i: nat, c: ClientId) returns (k: nat)
    requires EndToEnd(listed, 0, limit, walk) && i < |walk| && c in walk[i].connections
    ensures PageOffset(0, limit, i) <= k < PageOffset(0, limit, i) + limit
    ensures k < |listed| && listed[k].client == c
  {
    assert InPlace(listed, 0, limit, walk, i);
    k := SliceShowsOnly(listed, PageOffset(0, limit, i), limit, c);
  }

  lemma WalkShowsOnce(listed: seq<Row>, limit: nat, walk: seq<Page>, i: nat, j: nat, c: ClientId)
    requires Unique(listed) && EndToEnd(listed, 0, limit, walk) && i < j < |walk|
    requires c in walk[i].connections
    ensures c !in walk[j].connections
  {
    if c in walk[j].connections {
      var k := WalkShowsOnly(listed, limit, walk, i, c);
      var k' := WalkShowsOnly(listed, limit, walk, j, c);
      PageOffsetGrows(0, limit, i, j);
    }
  }

  lemma PageReportsTotal(listed: seq<Row>, offset: nat, limit: nat)
    requires limit > 0 && (offset < |listed| || |listed| == 0)
    ensures PageAt(listed, offset, limit).total == |listed|
  {
  }

  /** Following `Next` from the start shows every connection of the listing on exactly one
      page and nothing else, and every page reports the true total. */
  lemma WalkShowsEveryConnectionOnce(rows: seq<Row>, l: Listing, limit: nat)
    requires Unique(rows) && Fits(limit, |Rows(rows, l)|)
    ensures var walk := Walk(rows, l, limit);
            && (forall r :: r in rows && BelongsTo(r, l) ==> exists i :: ShowsAt(walk, i, r))
            && (forall i, c :: 0 <= i < |walk| && c in walk[i].connections ==>
                  exists r :: r in rows && BelongsTo(r, l) && r.client == c)
            && (forall i, j, c :: 0 <= i < j < |walk| && c in walk[i].connections ==> c !in walk[j].connections)
            && (forall i :: 0 <= i < |walk| ==> walk[i].total == |Rows(rows, l)|)
  {
    RowsAreListed(rows, l);
    var listed := Rows(rows, l);
    var walk := Walk(rows, l, limit);
    var pages := WalkIsEndToEnd(listed, 0, limit);
    assert EndToEnd(listed, 0, limit, walk);
    forall r | r in rows && l.Lists(r) ensures exists i :: ShowsAt(walk, i, r) {
      var k :| 0 <= k < |listed| && listed[k] == r;
      var i := WalkShows(listed, limit, walk, k);
    }
    forall i, c | 0 <= i < |walk| && c in walk[i].connections
      ensures exists r :: r in rows && l.Lists(r) && r.client == c
    {
      var k := WalkShowsOnly(listed, limit, walk, i, c);
      assert listed[k] in listed;
    }
    forall i, j, c | 0 <= i < j < |walk| && c in walk[i].connections ensures c !in walk[j].connections {
      WalkShowsOnce(listed, limit, walk, i, j, c);
    }
    forall i | 0 <= i < |walk| ensures walk[i].total == |listed| {
      assert InPlace(listed, 0, limit, walk, i);
      PageReportsTotal(listed, PageOffset(0, limit, i), limit);
    }
  }

  /** The page that the link leads to has rows and reports the true total. */
  predicate LeadsToRows(rows: seq<Row>, l: Listing, limit: nat, link: Pagination.Link) {
    && link.limit == limit && link.offset >= 0
    && var page := PageOf(rows, l, link.offset, limit);
       page.total == |Rows(rows, l)| > 0 && page.connections != map[]
  }

  lemma OffsetsInsideLeadToRows(rows: seq<Row>, l: Listing, limit: nat, link: Pagination.Link)
    requires Unique(rows) && limit > 0 && link.limit == limit
    ensures LeadsToRows(rows, l, limit, link) <==> 0 <= link.offset < |Rows(rows, l)|
  {
    if 0 <= link.offset < |Rows(rows, l)| {
      RowsAreListed(rows, l);
      SliceShows(Rows(rows, l), link.offset, limit, link.offset);
      assert Rows(rows, l)[link.offset].client in PageOf(rows, l, link.offset, limit).connections;
    }
  }

  function LinksOf(rows: seq<Row>, l: Listing, offset: nat, limit: nat): Pagination.Links
    requires limit > 0
  {
    Pagination.BuildNavigationLinks(offset, limit, PageOf(rows, l, offset, limit).total)
  }

  /** `First`, `Last` and `Prev` of any page with rows lead to pages with rows. */
  lemma OtherLinksLeadToRows(rows: seq<Row>, l: Listing, offset: nat, limit: nat)
    requires Unique(rows) && Fits(limit, |Rows(rows, l)|) && offset < |Rows(rows, l)|
    ensures var links := LinksOf(rows, l, offset, limit);
            && links.first.Some? && LeadsToRows(rows, l, limit, links.first.value)
            && links.last.Some? && LeadsToRows(rows, l, limit, links.last.value)
            && (links.prev.Some? ==> LeadsToRows(rows, l, limit, links.prev.value))
  {
    var links := LinksOf(rows, l, offset, limit);
    Pagination.OtherLinksAreInside(offset, limit, |Rows(rows, l)|);
    PageReportsTotal(Rows(rows, l), offset, limit);
    OffsetsInsideLeadToRows(rows, l, limit, links.first.value);
    OffsetsInsideLeadToRows(rows, l, limit, links.last.value);
    if links.prev.Some? { OffsetsInsideLeadToRows(rows, l, limit, links.prev.value); }
  }

  lemma NextLeadsToRows(rows: seq<Row>, l: Listing, offset: nat, limit: nat)
    requires Unique(rows) && Fits(limit, |Rows(rows, l)|) && offset < |Rows(rows, l)|
    ensures var next := LinksOf(rows, l, offset, limit).next;
            (next.None? || LeadsToRows(rows, l, limit, next.value)) <==> offset + limit <= Pagination.MAX_INT
  {
    var next := LinksOf(rows, l, offset, limit).next;
    if next.Some? { OffsetsInsideLeadToRows(rows, l, limit, next.value); }
  }

  predicate IsLinkOf(links: Pagination.Links, link: Pagination.Link) {
    links.first == Some(link) || links.last == Some(link) || links.next == Some(link) || links.prev == Some(link)
  }

  /** Every link of a page, at any offset, leads to a page with rows and the true total,
      exactly when the page has no rows and so no links, or offset and limit add up
      without overflow. */
  lemma LinksLeadToRows(rows: seq<Row>, l: Listing, offset: nat, limit: nat)
    requires Unique(rows) && Fits(limit, |Rows(rows, l)|)
    ensures (forall link :: IsLinkOf(LinksOf(rows, l, offset, limit), link) ==> LeadsToRows(rows, l, limit, link))
            <==> (offset >= |Rows(rows, l)| || offset + limit <= Pagination.MAX_INT)
  {
    var links := LinksOf(rows, l, offset, limit);
    if offset >= |Rows(rows, l)| {
      PagePastTheEnd(rows, l, offset, limit);
    } else {
      NextLeadsToRows(rows, l, offset, limit);
      if links.next.Some? { assert IsLinkOf(links, links.next.value); }
      OtherLinksLeadToRows(rows, l, offset, limit);
    }
  }

  lemma PagePastTheEnd(rows: seq<Row>, l: Listing, offset: nat, limit: nat)
    requires limit > 0
    ensures offset >= |Rows(rows, l)| <==> PageOf(rows, l, offset, limit).total == 0
    ensures offset >= |Rows(rows, l)| ==>
              LinksOf(rows, l, offset, limit) == Pagination.Links(None, None, None, None)
  {
  }
}
