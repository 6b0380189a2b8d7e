/**
 * The configuration collector: one pass over every server reads the client
 * files on the host and makes the store hold one record per (server,
 * tunnel address). A file without a record gets a new, unassigned record
 * holding the canonical text; a record whose text differs from the file's
 * raw text gets the raw text. Any failure for a server ends the work on
 * that server and the pass moves on to the next one.
 */
module ConfigSync {
  import opened Wrappers
  import opened WgConfig
  import opened Remote
  import opened Store
  import Builder
  import Connection

  /** A server row with the host its session reaches. */
  datatype Server = Server(id: int, host: Host)

  /** The store's records and the next id it hands out. */
  datatype Db = Db(conns: map<int, Conn>, nextId: int)

  /** Every record id is below the next id. */
  predicate Fresh(db: Db)
  {
    forall id :: id in db.conns ==> id < db.nextId
  }

  /** The work on one parsed file, whose canonical text is `canon`: create, overwrite with the raw text, nothing, or a failed lookup (`None`). */
  ghost function FileSync(db: Db, sid: int, c: Config, canon: string): (r: Option<Db>)
    requires Fresh(db)
    ensures r.None? <==> |MatchingIds(db.conns, sid, c.clientIpV4)| >= 2
    ensures r.Some? ==> Fresh(r.value)
  {
    match LookupSpec(db.conns, sid, c.clientIpV4)
    case NotFound =>
      var n := Unassigned(sid, c.clientIpV4, canon, c.name);
      Some(Db(db.conns[db.nextId := n], db.nextId + 1))
    case Found(id) =>
      if db.conns[id].config != ConfigText(c) then Some(db.(conns := db.conns[id := db.conns[id].(config := ConfigText(c))]))
      else Some(db)
    case Multiple => None
  }

  /** The files of one server in turn; the first failed lookup ends the server's work, keeping what was done. */
  ghost function FilesSync(db: Db, sid: int, cs: seq<Config>, canon: Config -> string): (r: (Db, bool))
    requires Fresh(db)
    ensures Fresh(r.0)
  {
    if |cs| == 0 then (db, true)
    else
      var (d, ok) := FilesSync(db, sid, cs[..|cs| - 1], canon);
      if !ok then (d, false)
      else match FileSync(d, sid, cs[|cs| - 1], canon(cs[|cs| - 1]))
        case None => (d, false)
        case Some(d') => (d', true)
  }

  /** One server: collect its files, then work through them; a failed collection changes nothing. */
  ghost function ServerSync(db: Db, s: Server, canon: Config -> string): (r: Db)
    requires Fresh(db)
    ensures Fresh(r)
  {
    var (h, cs, err) := Connection.CollectSpec(s.host);
    if err.Some? then db else FilesSync(db, s.id, cs, canon).0
  }

  /** `ConfigManager.task`: every server in turn. */
  ghost function TaskSpec(db: Db, servers: seq<Server>, canon: Config -> string): (r: Db)
    requires Fresh(db)
    ensures Fresh(r)
  {
    if |servers| == 0 then db
    else ServerSync(TaskSpec(db, servers[..|servers| - 1], canon), servers[|servers| - 1], canon)
  }

  /** The text the builder emits for each file, given the shared allowed networks. */
  function Texts(allowed: seq<string>): (canon: Config -> string)
  {
    c => Builder.Canonical(c, allowed)
  }

  // ----------------------------------------------------------------- the pass

  /** `ConfigManager.task` on the store, with the allowed networks the builders share. */
  method Task(store: Store, servers: seq<Server>, allowed: Builder.AllowedIps)
    requires store.Valid()
    modifies store
    ensures store.Valid()
    ensures Db(store.conns, store.nextId) == TaskSpec(Db(old(store.conns), old(store.nextId)), servers, Texts(allowed.ips))
    ensures store.bills == old(store.bills)
  {
    ghost var db0 := Db(store.conns, store.nextId);
    var build := Texts(allowed.ips);
    for k := 0 to |servers|
      invariant store.Valid() && store.bills == old(store.bills)
      invariant Db(store.conns, store.nextId) == TaskSpec(db0, servers[..k], build)
    {
      assert servers[..k + 1][..k] == servers[..k];
      SyncServer(store, servers[k], build);
    }
    assert servers[..|servers|] == servers;
  }

  /**
   * The body of the server loop: collect the files, then work through them;
   * an exception leaves the rest of the server. `build` is `create_config`
   * of the builders, which all share one list of allowed networks.
   */
  method SyncServer(store: Store, s: Server, build: Config -> string)
    requires store.Valid()
    modifies store
    ensures store.Valid() && store.bills == old(store.bills)
    ensures Db(store.conns, store.nextId) == ServerSync(Db(old(store.conns), old(store.nextId)), s, build)
  {
    var sc := new Connection.ServerConnection(s.host);
    var err := sc.CollectConfigs();
    ghost var db0 := Db(store.conns, store.nextId);
    var cs := sc.configs;
    ServerSyncOf(db0, s, build, cs, err);
    if err.Some? {
      return;
    }
    SyncFiles(store, s.id, cs, build);
  }

  /** The loop over the collected files of server `sid`; a failed lookup ends it. */
  method SyncFiles(store: Store, sid: int, cs: seq<Config>, build: Config -> string)
    requires store.Valid()
    modifies store
    ensures store.Valid() && store.bills == old(store.bills)
    ensures Db(store.conns, store.nextId) == FilesSync(Db(old(store.conns), old(store.nextId)), sid, cs, build).0
  {
    ghost var db0 := Db(store.conns, store.nextId);
    for i := 0 to |cs|
      invariant store.Valid() && store.bills == old(store.bills)
      invariant FilesSync(db0, sid, cs[..i], build) == (Db(store.conns, store.nextId), true)
    {
      FilesStep(db0, sid, cs, build, i);
      var raised := SyncFile(store, sid, cs[i], build);
      if raised {
        FilesStop(db0, sid, cs, build, i + 1);
        return;
      }
    }
    assert cs[..|cs|] == cs;
  }

  /** One file: look its record up, then create it or refresh its text; `raised` when the lookup finds several records. */
  method SyncFile(store: Store, sid: int, c: Config, build: Config -> string) returns (raised: bool)
    requires store.Valid()
    modifies store
    ensures store.Valid() && store.bills == old(store.bills)
    ensures var r := FileSync(Db(old(store.conns), old(store.nextId)), sid, c, build(c));
      if raised then r.None? && store.conns == old(store.conns) && store.nextId == old(store.nextId)
      else r == Some(Db(store.conns, store.nextId))
  {
    ghost var d := Db(store.conns, store.nextId);
    ghost var canon := build(c);
    var found := store.Get(sid, c.clientIpV4);
    match found {
      case NotFound =>
        ghost var x := Unassigned(sid, c.clientIpV4, canon, c.name);
        FileSyncCreates(d, sid, c, canon);
        CreateNewConnection(store, sid, c, build);
        assert store.conns == d.conns[d.nextId := x];
        assert store.nextId == d.nextId + 1;
        assert Db(store.conns, store.nextId) == Db(d.conns[d.nextId := x], d.nextId + 1);
        raised := false;
      case Found(id) =>
        FileSyncFound(d, sid, c, canon, id);
        if store.conns[id].config != ConfigText(c) {
          UpdateConnection(store, id, c);
        }
        raised := false;
      case Multiple =>
        raised := true;
    }
  }

  /** `_create_new_connection`: an unassigned record holding the text `build` makes of the file, named after it. */
  method CreateNewConnection(store: Store, sid: int, c: Config, build: Config -> string)
    requires store.Valid()
    modifies store
    ensures store.Valid() && store.bills == old(store.bills) && store.nextId == old(store.nextId) + 1
    ensures store.conns == old(store.conns)[old(store.nextId) := Unassigned(sid, c.clientIpV4, build(c), c.name)]
  {
    var x := Unassigned(sid, c.clientIpV4, build(c), c.name);
    var id := store.CreateConn(x);
    assert store.conns == old(store.conns)[old(store.nextId) := x];
  }

  /** `_update_connection`: the record gets the file's raw text. */
  method UpdateConnection(store: Store, id: int, c: Config)
    requires store.Valid() && id in store.conns
    modifies store
    ensures store.Valid() && store.bills == old(store.bills) && store.nextId == old(store.nextId)
    ensures store.conns == old(store.conns)[id := old(store.conns)[id].(config := ConfigText(c))]
  {
    store.UpdateConn(id, store.conns[id].(config := ConfigText(c)));
  }

  lemma ServerSyncOf(db: Db, s: Server, canon: Config -> string, cs: seq<Config>, err: Option<Connection.Raised>)
    requires Fresh(db) && Connection.CollectSpec(s.host).1 == cs && Connection.CollectSpec(s.host).2 == err
    ensures ServerSync(db, s, canon) == if err.Some? then db else FilesSync(db, s.id, cs, canon).0
  {
  }

  lemma FileSyncCreates(d: Db, sid: int, c: Config, canon: string)
    requires Fresh(d) && LookupSpec(d.conns, sid, c.clientIpV4) == NotFound
    ensures FileSync(d, sid, c, canon) ==
      Some(Db(d.conns[d.nextId := Unassigned(sid, c.clientIpV4, canon, c.name)], d.nextId + 1))
  {
    var x := Unassigned(sid, c.clientIpV4, canon, c.name);
    var r := FileSync(d, sid, c, canon);
    assert r == Some(Db(d.conns[d.nextId := x], d.nextId + 1));
  }

  lemma FileSyncFound(d: Db, sid: int, c: Config, canon: string, id: int)
    requires Fresh(d) && LookupSpec(d.conns, sid, c.clientIpV4) == Found(id)
    ensures id in d.conns
    ensures FileSync(d, sid, c, canon) ==
      if d.conns[id].config != ConfigText(c) then Some(d.(conns := d.conns[id := d.conns[id].(config := ConfigText(c))]))
      else Some(d)
  {
    assert id in MatchingIds(d.conns, sid, c.clientIpV4);
  }

  lemma FilesStep(db: Db, sid: int, cs: seq<Config>, canon: Config -> string, i: int)
    requires Fresh(db) && 0 <= i < |cs| && FilesSync(db, sid, cs[..i], canon).1
    ensures var d := FilesSync(db, sid, cs[..i], canon).0;
      FilesSync(db, sid, cs[..i + 1], canon) ==
        match FileSync(d, sid, cs[i], canon(cs[i]))
        case None => (d, false)
        case Some(d') => (d', true)
  {
    assert cs[..i + 1][..i] == cs[..i];
  }

  /** Once a file's lookup fails, the later files of the server are not looked at. */
  lemma {:induction false} FilesStop(db: Db, sid: int, cs: seq<Config>, canon: Config -> string, j: int)
    requires Fresh(db) && 0 <= j <= |cs| && !FilesSync(db, sid, cs[..j], canon).1
    ensures FilesSync(db, sid, cs, canon) == FilesSync(db, sid, cs[..j], canon)
    decreases |cs| - j
  {
    if j < |cs| {
      assert cs[..j + 1][..j] == cs[..j];
      FilesStop(db, sid, cs, canon, j + 1);
    } else {
      assert cs[..j] == cs;
    }
  }

  // ---------------------------------------------------------------- properties

  /** A file whose address has no record on its server gets one new unassigned record, and nothing else changes. */
  lemma NewFileCreatesOne(db: Db, sid: int, c: Config, canon: string)
    requires Fresh(db) && MatchingIds(db.conns, sid, c.clientIpV4) == {}
    ensures var r := FileSync(db, sid, c, canon);
      && r.Some? && r.value.nextId == db.nextId + 1 && db.nextId !in db.conns
      && r.value.conns == db.conns[db.nextId := r.value.conns[db.nextId]]
      && var n := r.value.conns[db.nextId];
      && n.serverId == sid && n.localIp == c.clientIpV4 && n.userId == None && !n.available && n.availableTo == None
      && n.config == canon && n.clientName == c.name
  {
  }

  /** A drifted record gets the file's raw text, and only its text changes. */
  lemma DriftUpdatesText(db: Db, sid: int, c: Config, canon: string, id: int)
    requires Fresh(db) && MatchingIds(db.conns, sid, c.clientIpV4) == {id}
    ensures var r := FileSync(db, sid, c, canon);
      && r.Some? && r.value.nextId == db.nextId && id in db.conns
      && r.value.conns == db.conns[id := db.conns[id].(config := ConfigText(c))]
  {
    assert id in MatchingIds(db.conns, sid, c.clientIpV4);
  }

  /** A record that already holds the raw text is not written. */
  lemma InSyncNoWrite(db: Db, sid: int, c: Config, canon: string, id: int)
    requires Fresh(db) && MatchingIds(db.conns, sid, c.clientIpV4) == {id} && db.conns[id].config == ConfigText(c)
    ensures FileSync(db, sid, c, canon) == Some(db)
  {
  }

  /**
   * Over an unchanged file: the first pass creates the record with the
   * canonical text, the second overwrites it with the raw text, and every
   * later pass writes nothing.
   */
  lemma SettlesAfterTwoPasses(db: Db, sid: int, c: Config, canon: string)
    requires Fresh(db) && MatchingIds(db.conns, sid, c.clientIpV4) == {}
    ensures FileSync(db, sid, c, canon).Some? && db.nextId in FileSync(db, sid, c, canon).value.conns
    ensures var d1 := FileSync(db, sid, c, canon).value;
      && d1.conns[db.nextId].config == canon
      && FileSync(d1, sid, c, canon).Some?
    ensures var d1 := FileSync(db, sid, c, canon).value;
      var d2 := FileSync(d1, sid, c, canon).value;
      && d2.conns == d1.conns[db.nextId := d1.conns[db.nextId].(config := ConfigText(c))]
      && FileSync(d2, sid, c, canon) == Some(d2)
  {
    var id := db.nextId;
    NewFileCreatesOne(db, sid, c, canon);
    var d1 := FileSync(db, sid, c, canon).value;
    OnlyNewMatches(db, d1, sid, c.clientIpV4, id);
    DriftUpdatesText(d1, sid, c, canon, id);
    var d2 := FileSync(d1, sid, c, canon).value;
    assert MatchingIds(d2.conns, sid, c.clientIpV4) == {id} by {
      SameMatches(d1.conns, id, d2.conns[id], sid, c.clientIpV4);
    }
    InSyncNoWrite(d2, sid, c, canon, id);
  }

  lemma OnlyNewMatches(db: Db, d1: Db, sid: int, ip: string, id: int)
    requires MatchingIds(db.conns, sid, ip) == {} && id !in db.conns && id in d1.conns
    requires d1.conns == db.conns[id := d1.conns[id]] && d1.conns[id].serverId == sid && d1.conns[id].localIp == ip
    ensures MatchingIds(d1.conns, sid, ip) == {id}
  {
    forall x | x in d1.conns && x != id
      ensures x !in MatchingIds(d1.conns, sid, ip)
    {
      assert d1.conns[x] == db.conns[x];
      assert x !in MatchingIds(db.conns, sid, ip);
    }
  }

  /** Changing a record's text keeps the records that match a server and address. */
  lemma SameMatches(conns: map<int, Conn>, id: int, c: Conn, sid: int, ip: string)
    requires id in conns && c.serverId == conns[id].serverId && c.localIp == conns[id].localIp
    ensures MatchingIds(conns[id := c], sid, ip) == MatchingIds(conns, sid, ip)
  {
  }

  /** Records are never deleted and never change owner, lease or availability. */
  lemma {:induction false} FilesKeepOwnership(db: Db, sid: int, cs: seq<Config>, canon: Config -> string, id: int)
    requires Fresh(db) && id in db.conns
    ensures var r := FilesSync(db, sid, cs, canon).0;
      && id in r.conns && r.conns[id].userId == db.conns[id].userId && r.conns[id].available == db.conns[id].available
      && r.conns[id].availableTo == db.conns[id].availableTo && r.conns[id].serverId == db.conns[id].serverId
      && r.conns[id].localIp == db.conns[id].localIp
  {
    if |cs| > 0 {
      FilesKeepOwnership(db, sid, cs[..|cs| - 1], canon, id);
    }
  }

  /** A server whose files cannot be collected is skipped without a write. */
  lemma FailedServerUnchanged(db: Db, s: Server, canon: Config -> string)
    requires Fresh(db) && Connection.CollectSpec(s.host).2.Some?
    ensures ServerSync(db, s, canon) == db
  {
  }

  /** A failing server does not stop the servers after it. */
  lemma LaterServersStillRun(db: Db, servers: seq<Server>, canon: Config -> string, j: int)
    requires Fresh(db) && 0 <= j < |servers| && Connection.CollectSpec(servers[j].host).2.Some?
    ensures TaskSpec(db, servers[..j + 1], canon) == TaskSpec(db, servers[..j], canon)
    ensures TaskSpec(db, servers, canon) ==
      TaskSpec(TaskSpec(db, servers[..j], canon), servers[j + 1..], canon)
  {
    assert servers[..j + 1][..j] == servers[..j];
    TaskSplit(db, servers, canon, j + 1);
  }

  /** A pass over `servers` is a pass over its first `j` servers followed by a pass over the rest. */
  lemma {:induction false} TaskSplit(db: Db, servers: seq<Server>, canon: Config -> string, j: int)
    requires Fresh(db) && 0 <= j <= |servers|
    ensures TaskSpec(db, servers, canon) == TaskSpec(TaskSpec(db, servers[..j], canon), servers[j..], canon)
    decreases |servers|
  {
    if j == |servers| {
      assert servers[..j] == servers;
      assert servers[j..] == [];
    } else {
      var init := servers[..|servers| - 1];
      TaskSplit(db, init, canon, j);
      assert init[..j] == servers[..j];
      assert servers[j..][..|servers[j..]| - 1] == init[j..];
    }
  }
}
