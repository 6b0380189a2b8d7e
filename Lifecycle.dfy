/**
 * The lease handler: one pass over a snapshot of every record. A record
 * whose lease is unset or still running is left alone; one whose lease
 * ended more than the grace window ago is recreated (its address frozen, its
 * keys regenerated on the host, the new text stored) and then returned to
 * the pool; one whose lease ended within the grace window is frozen and
 * marked unusable. Any failure on one record is logged and the pass moves
 * on to the next record.
 */
module Lifecycle {
  import opened Wrappers
  import opened WgConfig
  import opened WgTypes
  import opened Remote
  import opened Store
  import Builder
  import Connection
  import ConfigSync

  /** The records, and the state of every server host by server id. */
  datatype World = World(conns: map<int, Conn>, hosts: map<int, Host>)

  /** What a regeneration does to a host: the newer `regenerate_config` or the older one. */
  type Regen = (Host, Config) -> (Host, Result<Config, Connection.Raised>)

  /**
   * `_freeze_connection`: route the address to the loopback, then mark the
   * record unusable. A missing server changes nothing; a failed route
   * command raises before the record is written.
   */
  function Freeze(w: World, id: int, row: Conn): (r: World)
  {
    var sid := row.serverId;
    if sid !in w.hosts then w
    else
      var (h, e) := Connection.FreezeSpec(w.hosts[sid], row.localIp);
      var w1 := w.(hosts := w.hosts[sid := h]);
      if e.Err? || id !in w.conns then w1
      else w1.(conns := w.conns[id := w.conns[id].(available := false)])
  }

  /**
   * `_recreate_connection`: freeze, read the full record, regenerate its
   * client on the host, store the text `build` makes of the result, then
   * release the record. A missing server changes nothing; a failed freeze,
   * a missing record or a failed regeneration leaves the record as it was.
   */
  function Recreate(w: World, id: int, row: Conn, regen: Regen, build: Config -> string): (r: World)
  {
    var sid := row.serverId;
    if sid !in w.hosts then w
    else AfterFreeze(w, id, sid, Connection.FreezeSpec(w.hosts[sid], row.localIp), regen, build)
  }

  /** The rest of a recreation once the freeze returned `out` on server `sid`. */
  function AfterFreeze(w: World, id: int, sid: int, out: (Host, Result<(), Connection.Raised>), regen: Regen, build: Config -> string): (r: World)
  {
    if out.1.Err? || id !in w.conns then w.(hosts := w.hosts[sid := out.0])
    else
      var rec := w.conns[id];
      AfterRegen(w, id, sid, rec, regen(out.0, Parse(rec.config, rec.clientName)), build)
  }

  /** The rest of a recreation of record `rec` once the regeneration returned `out`. */
  function AfterRegen(w: World, id: int, sid: int, rec: Conn, out: (Host, Result<Config, Connection.Raised>), build: Config -> string): (r: World)
  {
    var w2 := w.(hosts := w.hosts[sid := out.0]);
    if out.1.Err? then w2
    else w2.(conns := w.conns[id := Released(rec.(config := build(out.1.value)))])
  }

  /** `_process_connection`: the lease end against the clock `now` picks recreate, freeze or nothing. */
  function Process(w: World, id: int, row: Conn, now: int, build: Config -> string): (r: World)
  {
    if row.availableTo.None? || row.availableTo.value > now then w
    else if row.availableTo.value < now - Grace then Recreate(w, id, row, Connection.RegenerateSpec, build)
    else if row.availableTo.value < now then Freeze(w, id, row)
    else w
  }

  /** What handling one listed record does to the world. */
  type Step = (World, int, Conn) -> World

  /** `_process_connection` with the clock and the text builder fixed. */
  function Handler(now: int, build: Config -> string): Step
  {
    (w, id, row) => Process(w, id, row, now, build)
  }

  /** A pass: every listed record in turn, each handled by `step`. */
  function TaskSpec(w: World, rows: seq<(int, Conn)>, step: Step): (r: World)
  {
    if |rows| == 0 then w
    else
      var last := rows[|rows| - 1];
      step(TaskSpec(w, rows[..|rows| - 1], step), last.0, last.1)
  }

  // ----------------------------------------------------------------- the pass

  /** `VPNControlManager.task`: list the records, then handle each; returns the listing and the hosts afterwards. */
  method Task(store: Store, hosts: map<int, Host>, now: int, allowed: Builder.AllowedIps)
    returns (rows: seq<(int, Conn)>, hosts': map<int, Host>)
    requires store.Valid()
    modifies store`conns
    ensures store.Valid()
    ensures Lists(rows, old(store.conns))
    ensures World(store.conns, hosts') == TaskSpec(World(old(store.conns), hosts), rows, Handler(now, ConfigSync.Texts(allowed.ips)))
  {
    var build := ConfigSync.Texts(allowed.ips);
    rows := store.All();
    ghost var w0 := World(store.conns, hosts);
    hosts' := hosts;
    for k := 0 to |rows|
      invariant store.Valid()
      invariant World(store.conns, hosts') == TaskSpec(w0, rows[..k], Handler(now, build))
    {
      assert rows[..k + 1][..k] == rows[..k];
      hosts' := ProcessConnection(store, hosts', rows[k].0, rows[k].1, now, build);
    }
    assert rows[..|rows|] == rows;
  }

  /** `_process_connection` on the store. */
  method ProcessConnection(store: Store, hosts: map<int, Host>, id: int, row: Conn, now: int, build: Config -> string)
    returns (hosts': map<int, Host>)
    requires store.Valid()
    modifies store`conns
    ensures store.Valid()
    ensures World(store.conns, hosts') == Process(World(old(store.conns), hosts), id, row, now, build)
  {
    hosts' := hosts;
    if row.availableTo.None? || row.availableTo.value > now {
      return;
    }
    if row.availableTo.value < now - Grace {
      hosts' := RecreateConnection(store, hosts, id, row, build);
    } else if row.availableTo.value < now {
      hosts' := FreezeConnection(store, hosts, id, row);
    }
  }

  /** `_recreate_connection` on the store, over one session to the record's server. */
  method RecreateConnection(store: Store, hosts: map<int, Host>, id: int, row: Conn, build: Config -> string)
    returns (hosts': map<int, Host>)
    requires store.Valid()
    modifies store`conns
    ensures store.Valid()
    ensures World(store.conns, hosts') == Recreate(World(old(store.conns), hosts), id, row, Connection.RegenerateSpec, build)
  {
    var sid := row.serverId;
    hosts' := hosts;
    if sid !in hosts {
      return;
    }
    var sc := new Connection.ServerConnection(hosts[sid]);
    var e1 := sc.FreezeConnection(row.localIp);
    hosts' := hosts[sid := sc.host];
    if e1.Err? {
      return;
    }
    hosts' := RegenerateRecord(store, sc, hosts, sid, id, build);
  }

  /** The part of `_recreate_connection` after a successful freeze: read the record, regenerate, store, release. */
  method RegenerateRecord(store: Store, sc: Connection.ServerConnection, hosts: map<int, Host>, sid: int, id: int, build: Config -> string)
    returns (hosts': map<int, Host>)
    requires store.Valid()
    modifies store`conns, sc
    ensures store.Valid()
    ensures World(store.conns, hosts') ==
      AfterFreeze(World(old(store.conns), hosts), id, sid, (old(sc.host), Ok(())), Connection.RegenerateSpec, build)
  {
    hosts' := hosts[sid := sc.host];
    var found := store.Find(id);
    if found.None? {
      return;
    }
    var rec := found.value;
    var c := Parse(rec.config, rec.clientName);
    ghost var h1 := sc.host;
    var e2 := sc.RegenerateConfig(c);
    hosts' := hosts[sid := sc.host];
    ghost var w := World(old(store.conns), hosts);
    assert Connection.RegenerateSpec(h1, c) == (sc.host, e2);
    assert AfterFreeze(w, id, sid, (h1, Ok(())), Connection.RegenerateSpec, build) == AfterRegen(w, id, sid, rec, (sc.host, e2), build);
    if e2.Err? {
      return;
    }
    StoreRegenerated(store, id, build(e2.value));
  }

  /** The two writes that end a recreation: the new text, then the release. */
  method StoreRegenerated(store: Store, id: int, text: string)
    requires store.Valid() && id in store.conns
    modifies store`conns
    ensures store.Valid()
    ensures store.conns == old(store.conns)[id := Released(old(store.conns)[id].(config := text))]
  {
    store.UpdateConn(id, store.conns[id].(config := text));
    store.UpdateConn(id, Released(store.conns[id]));
  }

  /** `_freeze_connection` on the store, over one session to the record's server. */
  method FreezeConnection(store: Store, hosts: map<int, Host>, id: int, row: Conn)
    returns (hosts': map<int, Host>)
    requires store.Valid()
    modifies store`conns
    ensures store.Valid()
    ensures World(store.conns, hosts') == Freeze(World(old(store.conns), hosts), id, row)
  {
    var sid := row.serverId;
    hosts' := hosts;
    if sid !in hosts {
      return;
    }
    var sc := new Connection.ServerConnection(hosts[sid]);
    var e := sc.FreezeConnection(row.localIp);
    hosts' := hosts[sid := sc.host];
    if e.Err? {
      return;
    }
    var found := store.Find(id);
    if found.Some? {
      store.UpdateConn(id, found.value.(available := false));
    }
  }

  // ---------------------------------------------------------------- properties

  /** A record without a lease, or whose lease has not ended, is not touched, nor is its host. */
  lemma NotDueUnchanged(w: World, id: int, row: Conn, now: int, build: Config -> string)
    requires row.availableTo.None? || row.availableTo.value > now
    ensures Process(w, id, row, now, build) == w
  {
  }

  /**
   * The lease end picks the action: more than the grace window ago means
   * recreate, within the window means freeze, and a lease ending exactly
   * now is left alone.
   */
  lemma ProcessCases(w: World, id: int, row: Conn, now: int, build: Config -> string, t: int)
    requires row.availableTo == Some(t)
    ensures t < now - Grace ==> Process(w, id, row, now, build) == Recreate(w, id, row, Connection.RegenerateSpec, build)
    ensures now - Grace <= t < now ==> Process(w, id, row, now, build) == Freeze(w, id, row)
    ensures t >= now ==> Process(w, id, row, now, build) == w
  {
  }

  /** Freezing writes nothing but the record's availability, and only after the route command succeeded. */
  lemma FreezeOnlyAvailability(w: World, id: int, row: Conn)
    ensures var r := Freeze(w, id, row);
      || r.conns == w.conns
      || (id in w.conns && row.serverId in w.hosts
          && Connection.FreezeSpec(w.hosts[row.serverId], row.localIp).1.Ok?
          && r.conns == w.conns[id := w.conns[id].(available := false)])
  {
  }

  /** On a host that does not fail, freezing routes the address to the loopback and marks the record unusable. */
  lemma FreezeClean(w: World, id: int, row: Conn)
    requires row.serverId in w.hosts && id in w.conns
    requires Quiet(w.hosts[row.serverId], |w.hosts[row.serverId].log|, 1)
    ensures var r := Freeze(w, id, row);
      && r.conns == w.conns[id := w.conns[id].(available := false)]
      && row.serverId in r.hosts
      && r.hosts[row.serverId].frozen == w.hosts[row.serverId].frozen + {row.localIp}
  {
    Connection.FreezeClean(w.hosts[row.serverId], row.localIp);
  }

  /**
   * The record changes only when the freeze and the regeneration both
   * succeeded on an existing server and record, and then it is released
   * with the text of the regenerated client.
   */
  lemma RecreateOnlyOnSuccess(w: World, id: int, row: Conn, regen: Regen, build: Config -> string)
    ensures var r := Recreate(w, id, row, regen, build);
      || r.conns == w.conns
      || (&& row.serverId in w.hosts && id in w.conns
          && var (h1, e1) := Connection.FreezeSpec(w.hosts[row.serverId], row.localIp);
          && e1.Ok?
          && var rec := w.conns[id];
          && var e2 := regen(h1, Parse(rec.config, rec.clientName)).1;
          && e2.Ok?
          && r.conns == w.conns[id := Released(rec.(config := build(e2.value)))])
  {
  }

  /** A host that does not fail stays ready for a regeneration after the freeze, and the address ends up frozen. */
  lemma FrozenStillReady(h: Host, ip: string, p: WgParams)
    requires Connection.Ready(h, p) && Quiet(h, |h.log|, 11)
    ensures var (h1, e) := Connection.FreezeSpec(h, ip);
      && e.Ok? && ip in h1.frozen && Connection.Ready(h1, p)
      && h1.keyOutput == h.keyOutput && h1.publicOf == h.publicOf
  {
    Connection.FreezeClean(h, ip);
    var h1 := Connection.FreezeSpec(h, ip).0;
    assert Quiet(h1, |h1.log|, 10) by {
      assert |h1.log| == |h.log| + 1 && h1.faults == h.faults;
    }
  }

  /**
   * On a host that does not fail, a lapsed record is released holding the
   * text of its regenerated client, whose tunnel addresses are those of
   * the old one, and its address stays frozen.
   */
  lemma RecreateReleases(w: World, id: int, row: Conn, p: WgParams, build: Config -> string)
    requires row.serverId in w.hosts && id in w.conns
    requires Connection.Ready(w.hosts[row.serverId], p) && Quiet(w.hosts[row.serverId], |w.hosts[row.serverId].log|, 11)
    ensures var rec := w.conns[id];
      var c := Parse(rec.config, rec.clientName);
      var n := Parse(Connection.ClientText(c, p, Connection.NextKeys(w.hosts[row.serverId])), c.name);
      var r := Recreate(w, id, row, Connection.RegenerateSpec, build);
      && r.conns == w.conns[id := Released(rec.(config := build(n)))]
      && n.clientIpV4 == c.clientIpV4 && n.clientIpV6 == c.clientIpV6
      && row.serverId in r.hosts && row.localIp in r.hosts[row.serverId].frozen
  {
    var h := w.hosts[row.serverId];
    FrozenStillReady(h, row.localIp, p);
    var h1 := Connection.FreezeSpec(h, row.localIp).0;
    var rec := w.conns[id];
    var c := Parse(rec.config, rec.clientName);
    assert Connection.NextKeys(h1) == Connection.NextKeys(h);
    Connection.RegenerateClean(h1, c, p);
    Connection.RegenerateOnePeer(h1, rec.config, rec.clientName, p);
  }

  /** Handling one record changes no other record, creates or deletes none, and touches only that record's host. */
  lemma ProcessFrame(w: World, id: int, row: Conn, now: int, build: Config -> string)
    ensures var r := Process(w, id, row, now, build);
      && r.conns.Keys == w.conns.Keys && r.hosts.Keys == w.hosts.Keys
      && (forall j :: j in w.conns && j != id ==> r.conns[j] == w.conns[j])
      && (forall s :: s in w.hosts && s != row.serverId ==> r.hosts[s] == w.hosts[s])
  {
  }

  /** A pass never creates or deletes a record. */
  lemma TaskKeepsRecords(w: World, rows: seq<(int, Conn)>, now: int, build: Config -> string)
    ensures TaskSpec(w, rows, Handler(now, build)).conns.Keys == w.conns.Keys
  {
    forall v: World, id: int, row: Conn
      ensures Handler(now, build)(v, id, row).conns.Keys == v.conns.Keys
    {
      ProcessFrame(v, id, row, now, build);
    }
    StepsKeepRecords(w, rows, Handler(now, build));
  }

  /** A pass of steps that each keep the set of records keeps it too. */
  lemma {:induction false} StepsKeepRecords(w: World, rows: seq<(int, Conn)>, step: Step)
    requires forall v: World, id: int, row: Conn :: step(v, id, row).conns.Keys == v.conns.Keys
    ensures TaskSpec(w, rows, step).conns.Keys == w.conns.Keys
  {
    if |rows| > 0 {
      StepsKeepRecords(w, rows[..|rows| - 1], step);
    }
  }

  /** A record whose freeze raises keeps every field, whichever action its lease picked. */
  lemma FailedFreezeKeepsRecords(w: World, id: int, row: Conn, now: int, build: Config -> string)
    requires row.serverId in w.hosts && Connection.FreezeSpec(w.hosts[row.serverId], row.localIp).1.Err?
    ensures Process(w, id, row, now, build).conns == w.conns
  {
  }

  /**
   * A record whose handling leaves the records as they were does not stop
   * the pass: the records after it are still handled, as a pass over the
   * rest.
   */
  lemma LaterRowsStillRun(w: World, rows: seq<(int, Conn)>, step: Step, j: int)
    requires 0 <= j < |rows|
    requires var before := TaskSpec(w, rows[..j], step);
      step(before, rows[j].0, rows[j].1).conns == before.conns
    ensures TaskSpec(w, rows[..j + 1], step).conns == TaskSpec(w, rows[..j], step).conns
    ensures TaskSpec(w, rows, step) == TaskSpec(TaskSpec(w, rows[..j + 1], step), rows[j + 1..], step)
  {
    assert rows[..j + 1][..j] == rows[..j];
    TaskSplit(w, rows, step, j + 1);
  }

  /** A pass over `rows` is a pass over its first `j` rows followed by a pass over the rest. */
  lemma {:induction false} TaskSplit(w: World, rows: seq<(int, Conn)>, step: Step, j: int)
    requires 0 <= j <= |rows|
    ensures TaskSpec(w, rows, step) == TaskSpec(TaskSpec(w, rows[..j], step), rows[j..], step)
    decreases |rows|
  {
    if j == |rows| {
      assert rows[..j] == rows;
      assert rows[j..] == [];
    } else {
      var init := rows[..|rows| - 1];
      TaskSplit(w, init, step, j);
      assert init[..j] == rows[..j];
      assert rows[j..][..|rows[j..]| - 1] == init[j..];
    }
  }
}
