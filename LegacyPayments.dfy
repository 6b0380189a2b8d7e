/**
 * The first payment reconciler, written inline over the older session. A
 * rejected or expired new-slot bill drops the owner and marks the slots
 * unusable but keeps their lease end; a paid bill starts a new slot's
 * lease now and extends an existing one from its old end. No bill is ever
 * deleted, so every bill is looked at again on the next pass.
 */
module LegacyPayments {
  import opened Wrappers
  import opened Remote
  import opened Store
  import Connection
  import LegacyBase
  import opened Payments

  /** The older release of a linked record: owner cleared, unusable, lease end kept. */
  function Dropped(c: Conn): (r: Conn)
    ensures r.userId == None && !r.available && r.availableTo == c.availableTo
    ensures r.serverId == c.serverId && r.localIp == c.localIp && r.config == c.config && r.clientName == c.clientName
  {
    c.(userId := None, available := false)
  }

  /** Each linked record that still exists, dropped by the older release. */
  function DropLinked(conns: map<int, Conn>, linked: seq<(int, Conn)>): (r: map<int, Conn>)
    ensures r.Keys == conns.Keys
    ensures forall j :: j in conns ==> r[j] == if j in LinkedIds(linked) then Dropped(conns[j]) else conns[j]
  {
    if |linked| == 0 then conns
    else
      var prev := DropLinked(conns, linked[..|linked| - 1]);
      var id := linked[|linked| - 1].0;
      assert forall k :: 0 <= k < |linked| - 1 ==> linked[..|linked| - 1][k] == linked[k];
      assert LinkedIds(linked) == LinkedIds(linked[..|linked| - 1]) + {id};
      if id in prev then prev[id := Dropped(prev[id])] else prev
  }

  /**
   * The body of the older activation loop: a missing server raises, as does
   * a failed unfreeze or an extension of a record without a lease end; a
   * bill of another kind goes on without an update.
   */
  function LegacyActivateOne(l: Ledger, b: Bill, link: (int, Conn), now: int): (r: (Ledger, bool))
  {
    var (cid, c) := link;
    if c.serverId !in l.hosts then (l, false)
    else
      var (h, e) := Connection.UnfreezeSpec(l.hosts[c.serverId], c.localIp);
      var l1 := l.(hosts := l.hosts[c.serverId := h]);
      if e.Err? then (l1, false)
      else if b.kind != "new" && b.kind != "extend" then (l1, true)
      else if b.kind == "extend" && c.availableTo.None? then (l1, false)
      else if cid !in l.conns then (l1, true)
      else
        var from := if b.kind == "new" then now else c.availableTo.value;
        var end := from + 31 * b.rentMonth * Day;
        (l1.(conns := l.conns[cid := l.conns[cid].(available := true, userId := Some(b.user), availableTo := Some(end))]), true)
  }

  /** `LegacyActivateOne` with the clock fixed. */
  function LegacyActivator(now: int): LinkStep
  {
    (l, b, link) => LegacyActivateOne(l, b, link, now)
  }

  /** The body of the older bill loop, with the gateway's answer `status`. */
  function LegacyProcessBill(l: Ledger, x: Listed, status: Option<string>, now: int): (r: Ledger)
  {
    match status
    case None => l
    case Some(s) =>
      if Lapsed(s) && x.bill.kind == "new" then l.(conns := DropLinked(l.conns, x.linked))
      else if s == "PAID" then Activate(l, x.bill, x.linked, LegacyActivator(now)).0
      else l
  }

  /** `payment_manager`, one round: every listed bill in turn. */
  function LegacyTaskSpec(l: Ledger, items: seq<Listed>, gateway: Gateway, now: int): (r: Ledger)
  {
    if |items| == 0 then l
    else
      var x := items[|items| - 1];
      LegacyProcessBill(LegacyTaskSpec(l, items[..|items| - 1], gateway, now), x, gateway(x.bill.billId), now)
  }

  // ----------------------------------------------------------------- the pass

  /** `payment_manager`, one round on the store. */
  method LegacyTask(store: Store, hosts: map<int, Host>, gateway: Gateway, now: int)
    returns (items: seq<Listed>, hosts': map<int, Host>)
    requires store.Valid()
    modifies store`conns
    ensures store.Valid()
    ensures ListsBills(items, old(store.bills), old(store.conns))
    ensures Ledger(store.conns, store.bills, hosts') == LegacyTaskSpec(Ledger(old(store.conns), store.bills, hosts), items, gateway, now)
  {
    items := store.AllBills();
    ghost var l0 := Ledger(store.conns, store.bills, hosts);
    hosts' := hosts;
    for k := 0 to |items|
      invariant store.Valid()
      invariant Ledger(store.conns, store.bills, hosts') == LegacyTaskSpec(l0, items[..k], gateway, now)
    {
      assert items[..k + 1][..k] == items[..k];
      var status := gateway(items[k].bill.billId);
      hosts' := LegacyBill(store, hosts', items[k], status, now);
    }
    assert items[..|items|] == items;
  }

  /** The body of the older bill loop on the store. */
  method LegacyBill(store: Store, hosts: map<int, Host>, x: Listed, status: Option<string>, now: int)
    returns (hosts': map<int, Host>)
    requires store.Valid()
    modifies store`conns
    ensures store.Valid()
    ensures Ledger(store.conns, store.bills, hosts') == LegacyProcessBill(Ledger(old(store.conns), store.bills, hosts), x, status, now)
  {
    hosts' := hosts;
    if status.None? {
      return;
    }
    var s := status.value;
    if Lapsed(s) && x.bill.kind == "new" {
      ghost var c0 := store.conns;
      for k := 0 to |x.linked|
        invariant store.Valid()
        invariant store.conns == DropLinked(c0, x.linked[..k])
      {
        assert x.linked[..k + 1][..k] == x.linked[..k];
        var id := x.linked[k].0;
        var found := store.Find(id);
        if found.Some? {
          store.UpdateConn(id, Dropped(found.value));
        }
      }
      assert x.linked[..|x.linked|] == x.linked;
    } else if s == "PAID" {
      var ok;
      hosts', ok := LegacyActivate(store, hosts, x.bill, x.linked, now);
    }
  }

  /** The older activation loop on the store; `ok` is false when a record raised. */
  method LegacyActivate(store: Store, hosts: map<int, Host>, b: Bill, linked: seq<(int, Conn)>, now: int)
    returns (hosts': map<int, Host>, ok: bool)
    requires store.Valid()
    modifies store`conns
    ensures store.Valid()
    ensures (Ledger(store.conns, store.bills, hosts'), ok) == Activate(Ledger(old(store.conns), store.bills, hosts), b, linked, LegacyActivator(now))
  {
    ghost var l0 := Ledger(store.conns, store.bills, hosts);
    hosts' := hosts;
    ok := true;
    for k := 0 to |linked|
      invariant store.Valid() && store.bills == l0.bills
      invariant Activate(l0, b, linked[..k], LegacyActivator(now)) == (Ledger(store.conns, store.bills, hosts'), true)
    {
      assert linked[..k + 1][..k] == linked[..k];
      hosts', ok := LegacyActivateLink(store, hosts', b, linked[k], now);
      if !ok {
        ActivateStops(l0, b, linked, LegacyActivator(now), k + 1);
        return;
      }
    }
    assert linked[..|linked|] == linked;
  }

  /** One record of the older activation loop, over a session of its own. */
  method LegacyActivateLink(store: Store, hosts: map<int, Host>, b: Bill, link: (int, Conn), now: int)
    returns (hosts': map<int, Host>, ok: bool)
    requires store.Valid()
    modifies store`conns
    ensures store.Valid()
    ensures (Ledger(store.conns, store.bills, hosts'), ok) == LegacyActivateOne(Ledger(old(store.conns), store.bills, hosts), b, link, now)
  {
    var (cid, c) := link;
    hosts' := hosts;
    ok := false;
    if c.serverId !in hosts {
      return;
    }
    var sc := new LegacyBase.LegacyServerConnection(hosts[c.serverId]);
    var e := sc.UnfreezeConnection(c.localIp);
    hosts' := hosts[c.serverId := sc.host];
    if e.Err? {
      return;
    }
    var from;
    if b.kind == "new" {
      from := now;
    } else if b.kind == "extend" {
      if c.availableTo.None? {
        return;
      }
      from := c.availableTo.value;
    } else {
      ok := true;
      return;
    }
    ok := true;
    var found := store.Find(cid);
    if found.Some? {
      store.UpdateConn(cid, found.value.(available := true, userId := Some(b.user), availableTo := Some(from + 31 * b.rentMonth * Day)));
    }
  }

  // ---------------------------------------------------------------- properties

  /** The older pass never deletes, adds or changes a bill. */
  lemma {:induction false} BillsNeverDeleted(l: Ledger, items: seq<Listed>, gateway: Gateway, now: int)
    ensures LegacyTaskSpec(l, items, gateway, now).bills == l.bills
  {
    if |items| > 0 {
      var x := items[|items| - 1];
      var before := LegacyTaskSpec(l, items[..|items| - 1], gateway, now);
      BillsNeverDeleted(l, items[..|items| - 1], gateway, now);
      LegacyActivateKeepsBills(before, x.bill, x.linked, now);
    }
  }

  lemma {:induction false} LegacyActivateKeepsBills(l: Ledger, b: Bill, linked: seq<(int, Conn)>, now: int)
    ensures Activate(l, b, linked, LegacyActivator(now)).0.bills == l.bills
  {
    if |linked| > 0 {
      LegacyActivateKeepsBills(l, b, linked[..|linked| - 1], now);
    }
  }

  /**
   * A rejected or expired new-slot bill drops the owner of every linked
   * record and marks it unusable, but keeps its lease end, where the newer
   * reconciler clears it; the bill stays.
   */
  lemma LegacyLapsedKeepsLease(l: Ledger, x: Listed, s: string, now: int, j: int)
    requires Lapsed(s) && x.bill.kind == "new" && j in l.conns && j in LinkedIds(x.linked)
    ensures var r := LegacyProcessBill(l, x, Some(s), now);
      && r.bills == l.bills && j in r.conns
      && r.conns[j].userId == None && !r.conns[j].available && r.conns[j].availableTo == l.conns[j].availableTo
    ensures ProcessBill(l, x, Some(s), now).conns[j].availableTo == None
  {
    LapsedNewReleases(l, x, s, now);
  }

  /**
   * On a host that does not fail, a paid new-slot bill starts the lease now
   * and a paid extension moves it on from its old end, whatever `now` is.
   */
  lemma LegacyPaidBase(l: Ledger, b: Bill, cid: int, c: Conn, now: int)
    requires c.serverId in l.hosts && Quiet(l.hosts[c.serverId], |l.hosts[c.serverId].log|, 1) && cid in l.conns
    ensures b.kind == "new" ==>
      && LegacyActivateOne(l, b, (cid, c), now).1
      && LegacyActivateOne(l, b, (cid, c), now).0.conns[cid].availableTo == Some(now + 31 * b.rentMonth * Day)
    ensures b.kind == "extend" && c.availableTo.Some? ==>
      && LegacyActivateOne(l, b, (cid, c), now).1
      && LegacyActivateOne(l, b, (cid, c), now).0.conns[cid].availableTo == Some(c.availableTo.value + 31 * b.rentMonth * Day)
    ensures b.kind == "extend" && c.availableTo.None? ==> !LegacyActivateOne(l, b, (cid, c), now).1
  {
    Connection.UnfreezeClean(l.hosts[c.serverId], c.localIp);
  }

  /** A record whose server is gone raises in the older loop, ending the bill's work, where the newer one skips it as its handler intends. */
  lemma LegacyMissingServerRaises(l: Ledger, b: Bill, cid: int, c: Conn, now: int)
    requires c.serverId !in l.hosts
    ensures LegacyActivateOne(l, b, (cid, c), now) == (l, false)
    ensures ActivateOne(l, b, (cid, c), now) == (l, true)
  {
  }
}
