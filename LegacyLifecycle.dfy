/**
 * The first lease handler: the same pass as the newer one written inline,
 * over the older session and configuration manager. A lease that has ended
 * but not by more than the grace window is frozen, including one that ends
 * exactly now, which the newer handler leaves alone.
 */
module LegacyLifecycle {
  import opened Wrappers
  import opened WgConfig
  import opened WgTypes
  import opened Remote
  import opened Store
  import Builder
  import Connection
  import LegacyBase
  import opened Lifecycle

  /** The body of the record loop: the lease end against `now` picks recreate, freeze or nothing. */
  function LegacyProcess(w: World, id: int, row: Conn, now: int, build: Config -> string): (r: World)
  {
    if row.availableTo.None? || row.availableTo.value > now then w
    else if row.availableTo.value < now - Grace then Recreate(w, id, row, LegacyBase.LegacyRegenerateSpec, build)
    else Freeze(w, id, row)
  }

  /** The loop body with the clock and the text builder fixed. */
  function LegacyHandler(now: int, build: Config -> string): Step
  {
    (w, id, row) => LegacyProcess(w, id, row, now, build)
  }

  // ----------------------------------------------------------------- the pass

  /** `vpn_connections_manager`, one round: list the records, then handle each. */
  method LegacyTask(store: Store, hosts: map<int, Host>, now: int, allowed: Builder.AllowedIps)
    returns (rows: seq<(int, Conn)>, hosts': map<int, Host>)
    requires store.Valid()
    modifies store`conns
    ensures store.Valid()
    ensures Lists(rows, old(store.conns))
    ensures World(store.conns, hosts') == TaskSpec(World(old(store.conns), hosts), rows, LegacyHandler(now, LegacyBase.LegacyTexts(allowed.ips)))
  {
    var build := LegacyBase.LegacyTexts(allowed.ips);
    rows := store.All();
    ghost var w0 := World(store.conns, hosts);
    hosts' := hosts;
    for k := 0 to |rows|
      invariant store.Valid()
      invariant World(store.conns, hosts') == TaskSpec(w0, rows[..k], LegacyHandler(now, build))
    {
      assert rows[..k + 1][..k] == rows[..k];
      hosts' := HandleRow(store, hosts', rows[k].0, rows[k].1, now, build);
    }
    assert rows[..|rows|] == rows;
  }

  /** The body of the record loop on the store. */
  method HandleRow(store: Store, hosts: map<int, Host>, id: int, row: Conn, now: int, build: Config -> string)
    returns (hosts': map<int, Host>)
    requires store.Valid()
    modifies store`conns
    ensures store.Valid()
    ensures World(store.conns, hosts') == LegacyProcess(World(old(store.conns), hosts), id, row, now, build)
  {
    hosts' := hosts;
    if row.availableTo.None? || row.availableTo.value > now {
      return;
    }
    var sid := row.serverId;
    if sid !in hosts {
      return;
    }
    var sc := new LegacyBase.LegacyServerConnection(hosts[sid]);
    var e1 := sc.FreezeConnection(row.localIp);
    hosts' := hosts[sid := sc.host];
    if e1.Err? {
      return;
    }
    if row.availableTo.value < now - Grace {
      hosts' := LegacyRegenerateRecord(store, sc, hosts, sid, id, build);
    } else {
      var found := store.Find(id);
      if found.Some? {
        store.UpdateConn(id, found.value.(available := false));
      }
    }
  }

  /** The recreate branch after a successful freeze: read the record, regenerate, store, release. */
  method LegacyRegenerateRecord(store: Store, sc: LegacyBase.LegacyServerConnection, hosts: map<int, Host>, sid: int, id: int, build: Config -> string)
    returns (hosts': map<int, Host>)
    requires store.Valid()
    modifies store`conns, sc
    ensures store.Valid()
    ensures World(store.conns, hosts') ==
      AfterFreeze(World(old(store.conns), hosts), id, sid, (old(sc.host), Ok(())), LegacyBase.LegacyRegenerateSpec, build)
  {
    hosts' := hosts[sid := sc.host];
    var found := store.Find(id);
    if found.None? {
      return;
    }
    var rec := found.value;
    var c := Parse(rec.config, rec.clientName);
    ghost var h1 := sc.host;
    var e2 := sc.RegenerateConfig(c);
    hosts' := hosts[sid := sc.host];
    ghost var w := World(old(store.conns), hosts);
    assert LegacyBase.LegacyRegenerateSpec(h1, c) == (sc.host, e2);
    assert AfterFreeze(w, id, sid, (h1, Ok(())), LegacyBase.LegacyRegenerateSpec, build) == AfterRegen(w, id, sid, rec, (sc.host, e2), build);
    if e2.Err? {
      return;
    }
    StoreRegenerated(store, id, build(e2.value));
  }

  // ---------------------------------------------------------------- properties

  /** A lease that has not ended, or was never set, is not touched. */
  lemma LegacyNotDueUnchanged(w: World, id: int, row: Conn, now: int, build: Config -> string)
    requires row.availableTo.None? || row.availableTo.value > now
    ensures LegacyProcess(w, id, row, now, build) == w
  {
  }

  /** More than the grace window ago means recreate; anything later up to now itself means freeze. */
  lemma LegacyCases(w: World, id: int, row: Conn, now: int, build: Config -> string, t: int)
    requires row.availableTo == Some(t)
    ensures t < now - Grace ==> LegacyProcess(w, id, row, now, build) == Recreate(w, id, row, LegacyBase.LegacyRegenerateSpec, build)
    ensures now - Grace <= t <= now ==> LegacyProcess(w, id, row, now, build) == Freeze(w, id, row)
  {
  }

  /**
   * A lease that ends exactly now: the newer handler leaves the usable
   * record alone, the older one freezes it and marks it unusable.
   */
  lemma EndingNowDiffers(w: World, id: int, row: Conn, now: int, build: Config -> string)
    requires row.availableTo == Some(now) && row.serverId in w.hosts && id in w.conns && w.conns[id].available
    requires Quiet(w.hosts[row.serverId], |w.hosts[row.serverId].log|, 1)
    ensures Process(w, id, row, now, build) == w
    ensures LegacyProcess(w, id, row, now, build).conns == w.conns[id := w.conns[id].(available := false)]
    ensures LegacyProcess(w, id, row, now, build) != w
  {
    Lifecycle.FreezeClean(w, id, row);
    assert LegacyProcess(w, id, row, now, build).conns[id].available != w.conns[id].available;
  }

  /**
   * On a host that does not fail, and for a stored text with an address
   * row and a matching client name, the older recreation does what the
   * newer one does.
   */
  lemma LegacyRecreateAgrees(w: World, id: int, row: Conn, p: WgParams, build: Config -> string)
    requires row.serverId in w.hosts && id in w.conns
    requires Connection.Ready(w.hosts[row.serverId], p) && Quiet(w.hosts[row.serverId], |w.hosts[row.serverId].log|, 11)
    requires LastHit(Parse(w.conns[id].config, w.conns[id].clientName).rows, MatchAddress).Some?
    requires ClientNameMatch(w.conns[id].clientName).Some?
    ensures Recreate(w, id, row, LegacyBase.LegacyRegenerateSpec, build) == Recreate(w, id, row, Connection.RegenerateSpec, build)
  {
    var h := w.hosts[row.serverId];
    FrozenStillReady(h, row.localIp, p);
    var h1 := Connection.FreezeSpec(h, row.localIp).0;
    LegacyBase.LegacyRegenerateAgrees(h1, w.conns[id].config, w.conns[id].clientName, p);
  }

  /** A record whose freeze raises keeps every field. */
  lemma LegacyFailedFreezeKeepsRecords(w: World, id: int, row: Conn, now: int, build: Config -> string)
    requires row.serverId in w.hosts && Connection.FreezeSpec(w.hosts[row.serverId], row.localIp).1.Err?
    ensures LegacyProcess(w, id, row, now, build).conns == w.conns
  {
  }

  /** The older pass never creates or deletes a record either. */
  lemma LegacyTaskKeepsRecords(w: World, rows: seq<(int, Conn)>, now: int, build: Config -> string)
    ensures TaskSpec(w, rows, LegacyHandler(now, build)).conns.Keys == w.conns.Keys
  {
    forall v: World, id: int, row: Conn
      ensures LegacyHandler(now, build)(v, id, row).conns.Keys == v.conns.Keys
    {
      RecreateOnlyOnSuccess(v, id, row, LegacyBase.LegacyRegenerateSpec, build);
      FreezeOnlyAvailability(v, id, row);
    }
    StepsKeepRecords(w, rows, LegacyHandler(now, build));
  }
}
