/**
 * The first configuration collector: the same pass over every server as
 * the newer one, except that a found record is compared with, and
 * overwritten by, the canonical text the older manager emits, so once a
 * pass has gone through an unchanged host the next one writes nothing.
 */
module LegacyConfigSync {
  import opened Wrappers
  import opened WgConfig
  import opened Remote
  import opened Store
  import Builder
  import Connection
  import LegacyBase
  import opened ConfigSync

  /** The work on one file whose canonical text is `canon`: create, overwrite with the canonical text, nothing, or a failed lookup. */
  ghost function LegacyFileSync(db: Db, sid: int, c: Config, canon: string): (r: Option<Db>)
    requires Fresh(db)
    ensures r.None? <==> |MatchingIds(db.conns, sid, c.clientIpV4)| >= 2
    ensures r.Some? ==> Fresh(r.value)
  {
    match LookupSpec(db.conns, sid, c.clientIpV4)
    case NotFound =>
      Some(Db(db.conns[db.nextId := Unassigned(sid, c.clientIpV4, canon, c.name)], db.nextId + 1))
    case Found(id) =>
      if db.conns[id].config != canon then Some(db.(conns := db.conns[id := db.conns[id].(config := canon)]))
      else Some(db)
    case Multiple => None
  }

  /** The files of one server in turn; the first failed lookup ends the server's work, keeping what was done. */
  ghost function LegacyFilesSync(db: Db, sid: int, cs: seq<Config>, canon: Config -> string): (r: (Db, bool))
    requires Fresh(db)
    ensures Fresh(r.0)
  {
    if |cs| == 0 then (db, true)
    else
      var (d, ok) := LegacyFilesSync(db, sid, cs[..|cs| - 1], canon);
      if !ok then (d, false)
      else match LegacyFileSync(d, sid, cs[|cs| - 1], canon(cs[|cs| - 1]))
        case None => (d, false)
        case Some(d') => (d', true)
  }

  /** One server: collect its files, then work through them; a failed collection changes nothing. */
  ghost function LegacyServerSync(db: Db, s: Server, canon: Config -> string): (r: Db)
    requires Fresh(db)
    ensures Fresh(r)
  {
    var (h, cs, err) := Connection.CollectSpec(s.host);
    if err.Some? then db else LegacyFilesSync(db, s.id, cs, canon).0
  }

  /** `config_manager`, one round: every server in turn. */
  ghost function LegacyTaskSpec(db: Db, servers: seq<Server>, canon: Config -> string): (r: Db)
    requires Fresh(db)
    ensures Fresh(r)
  {
    if |servers| == 0 then db
    else LegacyServerSync(LegacyTaskSpec(db, servers[..|servers| - 1], canon), servers[|servers| - 1], canon)
  }

  // ----------------------------------------------------------------- the pass

  /** `config_manager`, one round on the store, with the allowed networks the managers share. */
  method LegacyTask(store: Store, servers: seq<Server>, allowed: Builder.AllowedIps)
    requires store.Valid()
    modifies store
    ensures store.Valid()
    ensures Db(store.conns, store.nextId) == LegacyTaskSpec(Db(old(store.conns), old(store.nextId)), servers, LegacyBase.LegacyTexts(allowed.ips))
    ensures store.bills == old(store.bills)
  {
    ghost var db0 := Db(store.conns, store.nextId);
    var build := LegacyBase.LegacyTexts(allowed.ips);
    for k := 0 to |servers|
      invariant store.Valid() && store.bills == old(store.bills)
      invariant Db(store.conns, store.nextId) == LegacyTaskSpec(db0, servers[..k], build)
    {
      assert servers[..k + 1][..k] == servers[..k];
      LegacySyncServer(store, servers[k], build);
    }
    assert servers[..|servers|] == servers;
  }

  /** The body of the server loop: collect the files over the older session, then work through them. */
  method LegacySyncServer(store: Store, s: Server, build: Config -> string)
    requires store.Valid()
    modifies store
    ensures store.Valid() && store.bills == old(store.bills)
    ensures Db(store.conns, store.nextId) == LegacyServerSync(Db(old(store.conns), old(store.nextId)), s, build)
  {
    var sc := new LegacyBase.LegacyServerConnection(s.host);
    var err := sc.CollectConfigs();
    var cs := sc.configs;
    ghost var db0 := Db(store.conns, store.nextId);
    assert Connection.CollectSpec(s.host).1 == cs && Connection.CollectSpec(s.host).2 == err;
    assert LegacyServerSync(db0, s, build) == if err.Some? then db0 else LegacyFilesSync(db0, s.id, cs, build).0;
    if err.Some? {
      return;
    }
    LegacySyncFiles(store, s.id, cs, build);
  }

  /** The loop over the collected files of server `sid`; a failed lookup ends it. */
  method LegacySyncFiles(store: Store, sid: int, cs: seq<Config>, build: Config -> string)
    requires store.Valid()
    modifies store
    ensures store.Valid() && store.bills == old(store.bills)
    ensures Db(store.conns, store.nextId) == LegacyFilesSync(Db(old(store.conns), old(store.nextId)), sid, cs, build).0
  {
    ghost var db0 := Db(store.conns, store.nextId);
    for i := 0 to |cs|
      invariant store.Valid() && store.bills == old(store.bills)
      invariant LegacyFilesSync(db0, sid, cs[..i], build) == (Db(store.conns, store.nextId), true)
    {
      assert cs[..i + 1][..i] == cs[..i];
      var raised := LegacySyncFile(store, sid, cs[i], build);
      if raised {
        LegacyFilesStop(db0, sid, cs, build, i + 1);
        return;
      }
    }
    assert cs[..|cs|] == cs;
  }

  /** One file: look its record up, then create it or overwrite its text with the canonical one; `raised` when several records match. */
  method LegacySyncFile(store: Store, sid: int, c: Config, build: Config -> string) returns (raised: bool)
    requires store.Valid()
    modifies store
    ensures store.Valid() && store.bills == old(store.bills)
    ensures var r := LegacyFileSync(Db(old(store.conns), old(store.nextId)), sid, c, build(c));
      if raised then r.None? && store.conns == old(store.conns) && store.nextId == old(store.nextId)
      else r == Some(Db(store.conns, store.nextId))
  {
    var canon := build(c);
    var found := store.Get(sid, c.clientIpV4);
    match found {
      case NotFound =>
        var id := store.CreateConn(Unassigned(sid, c.clientIpV4, canon, c.name));
        raised := false;
      case Found(id) =>
        assert id in MatchingIds(store.conns, sid, c.clientIpV4);
        if store.conns[id].config != canon {
          store.UpdateConn(id, store.conns[id].(config := canon));
        }
        raised := false;
      case Multiple =>
        raised := true;
    }
  }

  // ---------------------------------------------------------------- properties

  /** Once a file's lookup fails, the later files of the server are not looked at. */
  lemma {:induction false} LegacyFilesStop(db: Db, sid: int, cs: seq<Config>, canon: Config -> string, j: int)
    requires Fresh(db) && 0 <= j <= |cs| && !LegacyFilesSync(db, sid, cs[..j], canon).1
    ensures LegacyFilesSync(db, sid, cs, canon) == LegacyFilesSync(db, sid, cs[..j], canon)
    decreases |cs| - j
  {
    if j < |cs| {
      assert cs[..j + 1][..j] == cs[..j];
      LegacyFilesStop(db, sid, cs, canon, j + 1);
    } else {
      assert cs[..j] == cs;
    }
  }

  /** The file's address on the server has exactly one record, and it holds `text`. */
  ghost predicate Settled(db: Db, sid: int, c: Config, text: string)
  {
    && |MatchingIds(db.conns, sid, c.clientIpV4)| == 1
    && forall id :: id in MatchingIds(db.conns, sid, c.clientIpV4) ==> db.conns[id].config == text
  }

  /** A settled file is not written. */
  lemma SettledNoWrite(db: Db, sid: int, c: Config, text: string)
    requires Fresh(db) && Settled(db, sid, c, text)
    ensures LegacyFileSync(db, sid, c, text) == Some(db)
  {
    var m := MatchingIds(db.conns, sid, c.clientIpV4);
    var id := TheMember(m);
    assert id in m;
  }

  /** After its work, a file is settled with its canonical text. */
  lemma SyncSettles(db: Db, sid: int, c: Config, text: string)
    requires Fresh(db) && LegacyFileSync(db, sid, c, text).Some?
    ensures Settled(LegacyFileSync(db, sid, c, text).value, sid, c, text)
  {
    var d' := LegacyFileSync(db, sid, c, text).value;
    match LookupSpec(db.conns, sid, c.clientIpV4)
    case NotFound =>
      OnlyNewMatches(db, d', sid, c.clientIpV4, db.nextId);
    case Found(id) =>
      assert id in MatchingIds(db.conns, sid, c.clientIpV4);
      SameMatches(db.conns, id, d'.conns[id], sid, c.clientIpV4);
    case Multiple =>
  }

  /** The work on a file with another address keeps a settled file settled. */
  lemma SyncKeepsSettled(db: Db, sid: int, c: Config, text: string, c2: Config, text2: string)
    requires Fresh(db) && LegacyFileSync(db, sid, c, text).Some? && Settled(db, sid, c2, text2)
    requires c2.clientIpV4 != c.clientIpV4
    ensures Settled(LegacyFileSync(db, sid, c, text).value, sid, c2, text2)
  {
    var d' := LegacyFileSync(db, sid, c, text).value;
    var ip := c2.clientIpV4;
    match LookupSpec(db.conns, sid, c.clientIpV4)
    case NotFound =>
      assert MatchingIds(d'.conns, sid, ip) == MatchingIds(db.conns, sid, ip) by {
        assert db.nextId !in db.conns;
        assert d'.conns[db.nextId].localIp != ip;
      }
    case Found(id) =>
      assert id in MatchingIds(db.conns, sid, c.clientIpV4);
      SameMatches(db.conns, id, d'.conns[id], sid, ip);
      assert id !in MatchingIds(db.conns, sid, ip);
    case Multiple =>
  }

  /** No two files of the list share a tunnel address. */
  predicate DistinctAddresses(cs: seq<Config>)
  {
    forall a, b :: 0 <= a < b < |cs| ==> cs[a].clientIpV4 != cs[b].clientIpV4
  }

  /** After a server's work that met no failed lookup, every one of its files is settled with its canonical text. */
  lemma {:induction false} FilesSettle(db: Db, sid: int, cs: seq<Config>, canon: Config -> string)
    requires Fresh(db) && DistinctAddresses(cs) && LegacyFilesSync(db, sid, cs, canon).1
    ensures forall k :: 0 <= k < |cs| ==> Settled(LegacyFilesSync(db, sid, cs, canon).0, sid, cs[k], canon(cs[k]))
  {
    if |cs| > 0 {
      var init := cs[..|cs| - 1];
      var last := cs[|cs| - 1];
      var d := LegacyFilesSync(db, sid, init, canon).0;
      assert DistinctAddresses(init);
      FilesSettle(db, sid, init, canon);
      SyncSettles(d, sid, last, canon(last));
      forall k | 0 <= k < |cs| - 1
        ensures Settled(LegacyFilesSync(db, sid, cs, canon).0, sid, cs[k], canon(cs[k]))
      {
        assert init[k] == cs[k];
        SyncKeepsSettled(d, sid, last, canon(last), cs[k], canon(cs[k]));
      }
    }
  }

  /** Over files that are all settled, the server's work writes nothing. */
  lemma {:induction false} SettledFilesNoWrite(db: Db, sid: int, cs: seq<Config>, canon: Config -> string)
    requires Fresh(db) && forall k :: 0 <= k < |cs| ==> Settled(db, sid, cs[k], canon(cs[k]))
    ensures LegacyFilesSync(db, sid, cs, canon) == (db, true)
  {
    if |cs| > 0 {
      var init := cs[..|cs| - 1];
      assert forall k :: 0 <= k < |init| ==> init[k] == cs[k];
      SettledFilesNoWrite(db, sid, init, canon);
      SettledNoWrite(db, sid, cs[|cs| - 1], canon(cs[|cs| - 1]));
    }
  }

  /**
   * Over the same files with distinct addresses, a second round of the
   * server's work after one that met no failed lookup writes nothing.
   */
  lemma SecondPassWritesNothing(db: Db, sid: int, cs: seq<Config>, canon: Config -> string)
    requires Fresh(db) && DistinctAddresses(cs) && LegacyFilesSync(db, sid, cs, canon).1
    ensures var d1 := LegacyFilesSync(db, sid, cs, canon).0;
      LegacyFilesSync(d1, sid, cs, canon) == (d1, true)
  {
    FilesSettle(db, sid, cs, canon);
    SettledFilesNoWrite(LegacyFilesSync(db, sid, cs, canon).0, sid, cs, canon);
  }

  /** A failing server is skipped without a write, and the servers after it still run. */
  lemma LegacyLaterServersStillRun(db: Db, servers: seq<Server>, canon: Config -> string, j: int)
    requires Fresh(db) && 0 <= j < |servers| && Connection.CollectSpec(servers[j].host).2.Some?
    ensures LegacyTaskSpec(db, servers[..j + 1], canon) == LegacyTaskSpec(db, servers[..j], canon)
    ensures LegacyTaskSpec(db, servers, canon) ==
      LegacyTaskSpec(LegacyTaskSpec(db, servers[..j], canon), servers[j + 1..], canon)
  {
    assert servers[..j + 1][..j] == servers[..j];
    LegacyTaskSplit(db, servers, canon, j + 1);
  }

  /** A round over `servers` is a round over its first `j` servers followed by a round over the rest. */
  lemma {:induction false} LegacyTaskSplit(db: Db, servers: seq<Server>, canon: Config -> string, j: int)
    requires Fresh(db) && 0 <= j <= |servers|
    ensures LegacyTaskSpec(db, servers, canon) == LegacyTaskSpec(LegacyTaskSpec(db, servers[..j], canon), servers[j..], canon)
    decreases |servers|
  {
    if j == |servers| {
      assert servers[..j] == servers;
      assert servers[j..] == [];
    } else {
      var init := servers[..|servers| - 1];
      LegacyTaskSplit(db, init, canon, j);
      assert init[..j] == servers[..j];
      assert servers[j..][..|servers[j..]| - 1] == init[j..];
    }
  }
}
