/** What the API can see of a reachable table. */
module Isolation {
  import opened Domain
  import opened ConnectionTable
  import opened MessageLog
  import opened System
  import ExactlyOnce
  import Tenancy
  import Locator

  /** Some read of the API returns the client. */
  ghost predicate Visible(rows: seq<Row>, c: ClientId) {
    || (exists access, org :: Locator.GetConnectionByClientId(rows, access, org, c).Found?)
    || (exists org, offset, limit :: org != "" && c in Locator.PageOf(rows, Locator.OfOrg(org), offset, limit).connections)
    || (exists offset, limit :: c in Locator.PageOf(rows, Locator.All, offset, limit).connections)
  }

  lemma ListedRow(rows: seq<Row>, l: Locator.Listing, offset: nat, limit: nat, c: ClientId)
    requires Unique(rows) && c in Locator.PageOf(rows, l, offset, limit).connections
    ensures Find(rows, c).Some? && l.Lists(Find(rows, c).value)
  {
    Locator.RowsAreListed(rows, l);
    var page := Locator.Slice(Locator.Rows(rows, l), offset, limit);
    Locator.ConnectionsAreOfClients(page);
    assert c in Locator.ClientsOf(page);
    var r :| r in page && r.client == c;
    assert r in Locator.Rows(rows, l);
    FindOnlyRow(rows, r);
  }

  lemma FoundRowHasTenant(rows: seq<Row>, access: Locator.Access, org: OrgId, c: ClientId)
    requires Unique(rows) && Locator.GetConnectionByClientId(rows, access, org, c).Found?
    ensures Find(rows, c).Some? && Find(rows, c).value.org != ""
  {
    Locator.AccessRules(rows, org, c);
    assert access == Locator.Strict || access == Locator.Relaxed;
  }

  lemma VisibleRowHasTenant(rows: seq<Row>, c: ClientId)
    requires Unique(rows) && Visible(rows, c)
    ensures Find(rows, c).Some? && Find(rows, c).value.org != ""
  {
    if access, org :| Locator.GetConnectionByClientId(rows, access, org, c).Found? {
      FoundRowHasTenant(rows, access, org, c);
    } else if org, offset, limit :| org != "" && c in Locator.PageOf(rows, Locator.OfOrg(org), offset, limit).connections {
      ListedRow(rows, Locator.OfOrg(org), offset, limit, c);
    } else {
      var offset, limit :| c in Locator.PageOf(rows, Locator.All, offset, limit).connections;
      ListedRow(rows, Locator.All, offset, limit, c);
    }
  }

  /** A row with a tenant is on some page, even one of a client without an id. */
  lemma RowWithTenantIsVisible(rows: seq<Row>, c: ClientId)
    requires Unique(rows) && Find(rows, c).Some? && Find(rows, c).value.org != ""
    ensures Visible(rows, c)
  {
    Locator.RowsAreListed(rows, Locator.All);
    var listed := Locator.Rows(rows, Locator.All);
    var k :| 0 <= k < |listed| && listed[k] == Find(rows, c).value;
    Locator.SliceShows(listed, 0, |listed|, k);
    assert c in Locator.PageOf(rows, Locator.All, 0, |listed|).connections;
  }

  /** In every reachable table, no read returns a row that awaits a tenant lookup or has
      failed ones behind it, and every row with a tenant is there for some read. */
  lemma TenantlessRowsAreHidden(cfg: Config, es: seq<Event>, c: ClientId)
    ensures var rows := Reached(cfg, es).rows;
            Visible(rows, c) <==> Find(rows, c).Some? && Find(rows, c).value.org != ""
    ensures var rows := Reached(cfg, es).rows;
            Visible(rows, c) ==> Find(rows, c).value.lookupTime == None && Find(rows, c).value.failures == 0
  {
    var rows := Reached(cfg, es).rows;
    RunKeepsUnique(cfg, Init(cfg), es);
    Tenancy.RunKeepsTenantColumns(cfg, es);
    if Visible(rows, c) {
      VisibleRowHasTenant(rows, c);
    }
    if Find(rows, c).Some? && Find(rows, c).value.org != "" {
      RowWithTenantIsVisible(rows, c);
    }
  }

  /** The lookup is one that the connection's tenant is named in, or whose access is relaxed. */
  predicate MayFind(access: Locator.Access, org: OrgId, c: ClientId, owner: OrgId, dispatchers: Json) {
    && org != "" && c != "" && owner != ""
    && (owner == org || (access.Relaxed? && HasKey(dispatchers, Locator.SATELLITE_WORKER)))
  }

  lemma FoundExactlyWhen(rows: seq<Row>, access: Locator.Access, org: OrgId, c: ClientId)
    requires Unique(rows)
    ensures var found := Locator.GetConnectionByClientId(rows, access, org, c);
            var o := Find(rows, c);
            && (found.Found? <==> o.Some? && MayFind(access, org, c, o.value.org, o.value.message.dispatchers))
            && (found.Found? ==> Locator.ShowsRow(found.connection, o.value))
            && (!found.Found? ==>
                  found == if org == "" then Locator.InvalidOrgId else if c == "" then Locator.InvalidClientId
                           else Locator.NoConnection)
  {
    if org != "" && c != "" { Locator.AccessRules(rows, org, c); }
    assert access == Locator.Strict || access == Locator.Relaxed;
  }

  /** From log to API: once a client's partition is committed without a loss, a lookup finds the client
      exactly when it is online and the resolver's organization may be asked for it, and
      shows its latest online message since it last went offline, with the facts of the
      first, under that organization. */
  lemma ApiShowsLatestMessage(cfg: Config, es: seq<Event>, access: Locator.Access, org: OrgId, c: ClientId)
    returns (w: int, f: int)
    requires Partitioned(cfg) && Tenancy.FixedResolver(cfg)
    requires var log := cfg.logs[cfg.partitionOf(c)]; RepeatsWhole(log, |log|, c)
    requires ExactlyOnce.FullyCommitted(cfg, Reached(cfg, es), cfg.partitionOf(c))
    requires Reached(cfg, es).workers[cfg.partitionOf(c)].lost == {}
    ensures var log := cfg.logs[cfg.partitionOf(c)];
            (exists i :: Alive(log, |log|, c, i)) ==> Latest(log, |log|, c, w) && First(log, |log|, c, f)
    ensures var log := cfg.logs[cfg.partitionOf(c)];
            var found := Locator.GetConnectionByClientId(Reached(cfg, es).rows, access, org, c);
            var owner := cfg.resolver(c, 0).org;
            && (found.Found? <==>
                (exists i :: Alive(log, |log|, c, i)) && MayFind(access, org, c, owner, log[w].msg.dispatchers))
            && (found.Found? ==>
                  && found.connection.client == c && found.connection.org == owner
                  && found.connection.account == cfg.resolver(c, 0).account
                  && found.connection.dispatchers == log[w].msg.dispatchers
                  && found.connection.tags == log[w].msg.tags
                  && found.connection.facts == log[f].msg.facts)
  {
    var log := cfg.logs[cfg.partitionOf(c)];
    var rows := Reached(cfg, es).rows;
    RunKeepsUnique(cfg, Init(cfg), es);
    ExactlyOnce.CommittedLogIsAppliedOnce(cfg, es, c);
    w, f := PassClosedForm(log, |log|, c);
    RowIffOnline(log, |log|, c);
    FoundExactlyWhen(rows, access, org, c);
    if Find(rows, c).Some? { TenantOfRow(cfg, es, c); }
  }

  lemma TenantOfRow(cfg: Config, es: seq<Event>, c: ClientId)
    requires Tenancy.FixedResolver(cfg) && Find(Reached(cfg, es).rows, c).Some?
    ensures Find(Reached(cfg, es).rows, c).value.org == cfg.resolver(c, 0).org
    ensures Find(Reached(cfg, es).rows, c).value.account == cfg.resolver(c, 0).account
  {
    Tenancy.RunKeepsTenants(cfg, es);
  }
}
