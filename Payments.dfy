/**
 * The payment reconciler: one pass over every pending bill, asking the
 * payment gateway for its status. A rejected or expired bill for new slots
 * returns those slots to the pool and is deleted; a paid bill unfreezes
 * each linked slot on its host, hands it to the payer until the lease end
 * moves by 31 days per month paid, and is then deleted. A failure on one
 * bill keeps that bill for the next pass and moves on to the next bill.
 */
module Payments {
  import opened Wrappers
  import opened Remote
  import opened Store
  import Connection

  /** The records, the bills, and the state of every server host by server id. */
  datatype Ledger = Ledger(conns: map<int, Conn>, bills: map<int, Bill>, hosts: map<int, Host>)

  /** The gateway's answer for a bill id: its status, or `None` when it turns the request away. */
  type Gateway = string -> Option<string>

  /** What activating one linked record does: the new ledger and whether the bill goes on (false: raised). */
  type LinkStep = (Ledger, Bill, (int, Conn)) -> (Ledger, bool)

  /** The ids of the linked records. */
  function LinkedIds(linked: seq<(int, Conn)>): set<int>
  {
    set k | 0 <= k < |linked| :: linked[k].0
  }

  /** The statuses that give a new-slot bill up. */
  predicate Lapsed(status: string)
  {
    status == "REJECTED" || status == "EXPIRED"
  }

  /** Each linked record that still exists, returned to the pool. */
  function ReleaseLinked(conns: map<int, Conn>, linked: seq<(int, Conn)>): (r: map<int, Conn>)
    ensures r.Keys == conns.Keys
    ensures forall j :: j in conns ==> r[j] == if j in LinkedIds(linked) then Released(conns[j]) else conns[j]
  {
    if |linked| == 0 then conns
    else
      var prev := ReleaseLinked(conns, linked[..|linked| - 1]);
      var id := linked[|linked| - 1].0;
      assert forall k :: 0 <= k < |linked| - 1 ==> linked[..|linked| - 1][k] == linked[k];
      assert LinkedIds(linked) == LinkedIds(linked[..|linked| - 1]) + {id};
      if id in prev then prev[id := Released(prev[id])] else prev
  }

  /** The lease end after paying for `months` months, counted from the current end or, without one, from `now`. */
  function LeaseEnd(from: Option<int>, now: int, months: int): int
  {
    (if from.Some? then from.value else now) + 31 * months * Day
  }

  /** `_reject_bill`: release the linked records, then delete the bill. */
  function Reject(l: Ledger, x: Listed): (r: Ledger)
  {
    l.(conns := ReleaseLinked(l.conns, x.linked), bills := l.bills - {x.id})
  }

  /** The body of the record loop of `_activate_connections`, for the linked record `link`. */
  function ActivateOne(l: Ledger, b: Bill, link: (int, Conn), now: int): (r: (Ledger, bool))
  {
    var (cid, c) := link;
    if c.serverId !in l.hosts then (l, true)
    else
      var (h, e) := Connection.UnfreezeSpec(l.hosts[c.serverId], c.localIp);
      var l1 := l.(hosts := l.hosts[c.serverId := h]);
      if e.Err? then (l1, false)
      else if b.kind != "new" && b.kind != "extend" then (l1, true)
      else if cid !in l.conns then (l1, true)
      else
        var end := LeaseEnd(c.availableTo, now, b.rentMonth);
        (l1.(conns := l.conns[cid := l.conns[cid].(available := true, userId := Some(b.user), availableTo := Some(end))]), true)
  }

  /** The linked records in turn; the first one that raises ends the loop, keeping what was done. */
  function Activate(l: Ledger, b: Bill, linked: seq<(int, Conn)>, one: LinkStep): (r: (Ledger, bool))
  {
    if |linked| == 0 then (l, true)
    else
      var (l1, ok) := Activate(l, b, linked[..|linked| - 1], one);
      if !ok then (l1, false) else one(l1, b, linked[|linked| - 1])
  }

  /** `ActivateOne` with the clock fixed. */
  function Activator(now: int): LinkStep
  {
    (l, b, link) => ActivateOne(l, b, link, now)
  }

  /** `_processing_bill`, with the gateway's answer `status`. */
  function ProcessBill(l: Ledger, x: Listed, status: Option<string>, now: int): (r: Ledger)
  {
    match status
    case None => l
    case Some(s) =>
      if Lapsed(s) && x.bill.kind == "new" then Reject(l, x)
      else if s == "PAID" then
        var (l1, ok) := Activate(l, x.bill, x.linked, Activator(now));
        if ok then l1.(bills := l1.bills - {x.id}) else l1
      else l
  }

  /** `PaymentManager.task`: every listed bill in turn. */
  function TaskSpec(l: Ledger, items: seq<Listed>, gateway: Gateway, now: int): (r: Ledger)
  {
    if |items| == 0 then l
    else
      var x := items[|items| - 1];
      ProcessBill(TaskSpec(l, items[..|items| - 1], gateway, now), x, gateway(x.bill.billId), now)
  }

  // ----------------------------------------------------------------- the pass

  /** `PaymentManager.task` on the store: list the bills with their records, then handle each. */
  method Task(store: Store, hosts: map<int, Host>, gateway: Gateway, now: int)
    returns (items: seq<Listed>, hosts': map<int, Host>)
    requires store.Valid()
    modifies store`conns, store`bills
    ensures store.Valid()
    ensures ListsBills(items, old(store.bills), old(store.conns))
    ensures Ledger(store.conns, store.bills, hosts') == TaskSpec(Ledger(old(store.conns), old(store.bills), hosts), items, gateway, now)
  {
    items := store.AllBills();
    ghost var l0 := Ledger(store.conns, store.bills, hosts);
    hosts' := hosts;
    for k := 0 to |items|
      invariant store.Valid()
      invariant Ledger(store.conns, store.bills, hosts') == TaskSpec(l0, items[..k], gateway, now)
    {
      assert items[..k + 1][..k] == items[..k];
      var status := gateway(items[k].bill.billId);
      hosts' := ProcessingBill(store, hosts', items[k], status, now);
    }
    assert items[..|items|] == items;
  }

  /** `_processing_bill` on the store; an exception from the activation keeps the bill. */
  method ProcessingBill(store: Store, hosts: map<int, Host>, x: Listed, status: Option<string>, now: int)
    returns (hosts': map<int, Host>)
    requires store.Valid()
    modifies store`conns, store`bills
    ensures store.Valid()
    ensures Ledger(store.conns, store.bills, hosts') == ProcessBill(Ledger(old(store.conns), old(store.bills), hosts), x, status, now)
  {
    hosts' := hosts;
    if status.None? {
      return;
    }
    var s := status.value;
    if Lapsed(s) && x.bill.kind == "new" {
      RejectBill(store, x);
    } else if s == "PAID" {
      var ok;
      hosts', ok := ActivateConnections(store, hosts, x.bill, x.linked, now);
      if ok {
        store.DeleteBill(x.id);
      }
    }
  }

  /** `_reject_bill` on the store. */
  method RejectBill(store: Store, x: Listed)
    requires store.Valid()
    modifies store`conns, store`bills
    ensures store.Valid()
    ensures store.conns == ReleaseLinked(old(store.conns), x.linked)
    ensures store.bills == old(store.bills) - {x.id}
  {
    ghost var c0 := store.conns;
    for k := 0 to |x.linked|
      invariant store.Valid() && store.bills == old(store.bills)
      invariant store.conns == ReleaseLinked(c0, x.linked[..k])
    {
      assert x.linked[..k + 1][..k] == x.linked[..k];
      var id := x.linked[k].0;
      var found := store.Find(id);
      if found.Some? {
        store.UpdateConn(id, Released(found.value));
      }
    }
    assert x.linked[..|x.linked|] == x.linked;
    store.DeleteBill(x.id);
  }

  /** `_activate_connections` on the store; `ok` is false when a record's unfreeze raised. */
  method ActivateConnections(store: Store, hosts: map<int, Host>, b: Bill, linked: seq<(int, Conn)>, now: int)
    returns (hosts': map<int, Host>, ok: bool)
    requires store.Valid()
    modifies store`conns
    ensures store.Valid()
    ensures (Ledger(store.conns, store.bills, hosts'), ok) == Activate(Ledger(old(store.conns), store.bills, hosts), b, linked, Activator(now))
  {
    ghost var l0 := Ledger(store.conns, store.bills, hosts);
    hosts' := hosts;
    ok := true;
    for k := 0 to |linked|
      invariant store.Valid() && store.bills == l0.bills
      invariant Activate(l0, b, linked[..k], Activator(now)) == (Ledger(store.conns, store.bills, hosts'), true)
    {
      assert linked[..k + 1][..k] == linked[..k];
      hosts', ok := ActivateLink(store, hosts', b, linked[k], now);
      if !ok {
        ActivateStops(l0, b, linked, Activator(now), k + 1);
        return;
      }
    }
    assert linked[..|linked|] == linked;
  }

  /** One record of `_activate_connections`: unfreeze it on its server, then hand it to the payer. */
  method ActivateLink(store: Store, hosts: map<int, Host>, b: Bill, link: (int, Conn), now: int)
    returns (hosts': map<int, Host>, ok: bool)
    requires store.Valid()
    modifies store`conns
    ensures store.Valid()
    ensures (Ledger(store.conns, store.bills, hosts'), ok) == ActivateOne(Ledger(old(store.conns), store.bills, hosts), b, link, now)
  {
    var (cid, c) := link;
    hosts' := hosts;
    ok := true;
    if c.serverId !in hosts {
      return;
    }
    var sc := new Connection.ServerConnection(hosts[c.serverId]);
    var e := sc.UnfreezeConnection(c.localIp);
    hosts' := hosts[c.serverId := sc.host];
    if e.Err? {
      ok := false;
      return;
    }
    if b.kind != "new" && b.kind != "extend" {
      return;
    }
    var end := LeaseEnd(c.availableTo, now, b.rentMonth);
    var found := store.Find(cid);
    if found.Some? {
      store.UpdateConn(cid, found.value.(available := true, userId := Some(b.user), availableTo := Some(end)));
    }
  }

  // ---------------------------------------------------------------- properties

  /** Once a linked record raises, the records after it are not looked at. */
  lemma {:induction false} ActivateStops(l: Ledger, b: Bill, linked: seq<(int, Conn)>, one: LinkStep, j: int)
    requires 0 <= j <= |linked| && !Activate(l, b, linked[..j], one).1
    ensures Activate(l, b, linked, one) == Activate(l, b, linked[..j], one)
    decreases |linked| - j
  {
    if j < |linked| {
      assert linked[..j + 1][..j] == linked[..j];
      ActivateStops(l, b, linked, one, j + 1);
    } else {
      assert linked[..j] == linked;
    }
  }

  /** Without an answer from the gateway nothing changes. */
  lemma NoStatusUntouched(l: Ledger, x: Listed, now: int)
    ensures ProcessBill(l, x, None, now) == l
  {
  }

  /**
   * A rejected or expired bill for new slots returns every linked record
   * to the pool, leaves every other record and every host alone, and is
   * deleted.
   */
  lemma LapsedNewReleases(l: Ledger, x: Listed, s: string, now: int)
    requires Lapsed(s) && x.bill.kind == "new"
    ensures var r := ProcessBill(l, x, Some(s), now);
      && r.bills == l.bills - {x.id} && r.hosts == l.hosts && r.conns.Keys == l.conns.Keys
      && (forall j :: j in l.conns && j in LinkedIds(x.linked) ==> r.conns[j] == Released(l.conns[j]))
      && (forall j :: j in l.conns && j !in LinkedIds(x.linked) ==> r.conns[j] == l.conns[j])
  {
  }

  /** Any status but a paid one, or a lapsed one on a new-slot bill, changes nothing, and the bill stays. */
  lemma OtherStatusUntouched(l: Ledger, x: Listed, s: string, now: int)
    requires s != "PAID" && !(Lapsed(s) && x.bill.kind == "new")
    ensures ProcessBill(l, x, Some(s), now) == l
  {
  }

  /** A paid bill is deleted exactly when none of its records raised; the records keep what was done either way. */
  lemma PaidDeletesOnlyAfterAll(l: Ledger, x: Listed, now: int)
    ensures var r := ProcessBill(l, x, Some("PAID"), now);
      var (a, ok) := Activate(l, x.bill, x.linked, Activator(now));
      && r.conns == a.conns && r.hosts == a.hosts
      && (ok ==> r.bills == l.bills - {x.id})
      && (!ok ==> r.bills == l.bills)
  {
    ActivateKeeps(l, x.bill, x.linked, now);
  }

  /** Activation never touches a bill and never creates or deletes a record. */
  lemma {:induction false} ActivateKeeps(l: Ledger, b: Bill, linked: seq<(int, Conn)>, now: int)
    ensures Activate(l, b, linked, Activator(now)).0.bills == l.bills
    ensures Activate(l, b, linked, Activator(now)).0.conns.Keys == l.conns.Keys
  {
    if |linked| > 0 {
      ActivateKeeps(l, b, linked[..|linked| - 1], now);
    }
  }

  /**
   * On a host that does not fail, a linked record of a new or extend bill
   * is unfrozen and handed to the payer, its lease moved from its old end,
   * or from now when it had none, by 31 days per month; nothing else
   * changes in the store.
   */
  lemma ActivateOneClean(l: Ledger, b: Bill, cid: int, c: Conn, now: int)
    requires c.serverId in l.hosts && Quiet(l.hosts[c.serverId], |l.hosts[c.serverId].log|, 1)
    requires cid in l.conns && (b.kind == "new" || b.kind == "extend")
    ensures var (r, ok) := ActivateOne(l, b, (cid, c), now);
      var base := if c.availableTo.Some? then c.availableTo.value else now;
      && ok && r.bills == l.bills
      && r.conns == l.conns[cid := l.conns[cid].(available := true, userId := Some(b.user), availableTo := Some(base + 31 * b.rentMonth * Day))]
      && c.serverId in r.hosts && c.localIp !in r.hosts[c.serverId].frozen
  {
    Connection.UnfreezeClean(l.hosts[c.serverId], c.localIp);
  }

  /** A record whose server is gone is skipped, and the bill goes on. */
  lemma MissingServerSkipped(l: Ledger, b: Bill, cid: int, c: Conn, now: int)
    requires c.serverId !in l.hosts
    ensures ActivateOne(l, b, (cid, c), now) == (l, true)
  {
  }

  /**
   * A paid bill none of whose records has a server left: every record is
   * skipped, so nothing changes but the bill, which is deleted.
   */
  lemma {:induction false} AllServersGoneDeletes(l: Ledger, x: Listed, now: int)
    requires forall k :: 0 <= k < |x.linked| ==> x.linked[k].1.serverId !in l.hosts
    ensures ProcessBill(l, x, Some("PAID"), now) == l.(bills := l.bills - {x.id})
  {
    SkippedAll(l, x.bill, x.linked, now);
  }

  lemma {:induction false} SkippedAll(l: Ledger, b: Bill, linked: seq<(int, Conn)>, now: int)
    requires forall k :: 0 <= k < |linked| ==> linked[k].1.serverId !in l.hosts
    ensures Activate(l, b, linked, Activator(now)) == (l, true)
  {
    if |linked| > 0 {
      SkippedAll(l, b, linked[..|linked| - 1], now);
    }
  }

  // ----------------------------------------------- the missing server as written

  /**
   * One record of `_activate_connections` as the code runs: for a missing
   * server `Server.get` answers `None`, building the session from it raises,
   * and the `except Server.DoesNotExists` clause cannot catch that, the
   * model class having no such attribute; the exception ends the bill's work.
   */
  function ActivateOneAsWritten(l: Ledger, b: Bill, link: (int, Conn), now: int): (r: (Ledger, bool))
    ensures link.1.serverId !in l.hosts ==> r == (l, false)
    ensures link.1.serverId in l.hosts ==> r == ActivateOne(l, b, link, now)
  {
    if link.1.serverId !in l.hosts then (l, false) else ActivateOne(l, b, link, now)
  }

  /** The paid branch of `_processing_bill` with the record step as written. */
  function PaidAsWritten(l: Ledger, x: Listed, now: int): (r: Ledger)
  {
    var (l1, ok) := Activate(l, x.bill, x.linked, (l', b, link) => ActivateOneAsWritten(l', b, link, now));
    if ok then l1.(bills := l1.bills - {x.id}) else l1
  }

  /**
   * A paid bill whose first record's server is gone: as written, nothing
   * changes and the bill stays, to fail the same way on every later pass;
   * with the skip the handler intends, a bill whose servers are all gone is
   * deleted.
   */
  lemma MissingServerKeepsBill(l: Ledger, x: Listed, now: int)
    requires |x.linked| >= 1 && x.linked[0].1.serverId !in l.hosts
    ensures PaidAsWritten(l, x, now) == l
    ensures |x.linked| == 1 && x.id in l.bills ==> ProcessBill(l, x, Some("PAID"), now) != l
  {
    var one: LinkStep := (l', b, link) => ActivateOneAsWritten(l', b, link, now);
    assert x.linked[..1][..0] == [];
    assert Activate(l, x.bill, x.linked[..1], one) == (l, false);
    ActivateStops(l, x.bill, x.linked, one, 1);
    if |x.linked| == 1 && x.id in l.bills {
      AllServersGoneDeletes(l, x, now);
      assert x.id !in ProcessBill(l, x, Some("PAID"), now).bills;
    }
  }

  /** A bill of another kind unfreezes its records but updates none of them. */
  lemma UnknownKindNoUpdate(l: Ledger, b: Bill, cid: int, c: Conn, now: int)
    requires b.kind != "new" && b.kind != "extend"
    ensures ActivateOne(l, b, (cid, c), now).0.conns == l.conns
  {
  }

  /** A failed unfreeze raises before the record is written. */
  lemma FailedUnfreezeRaises(l: Ledger, b: Bill, cid: int, c: Conn, now: int)
    requires c.serverId in l.hosts && Connection.UnfreezeSpec(l.hosts[c.serverId], c.localIp).1.Err?
    ensures !ActivateOne(l, b, (cid, c), now).1 && ActivateOne(l, b, (cid, c), now).0.conns == l.conns
  {
  }

  /** Paying for at least one month moves the lease end strictly past its starting point, and so past `now` for a running lease. */
  lemma LeaseEndLater(from: Option<int>, now: int, months: int)
    requires months >= 1
    ensures LeaseEnd(from, now, months) >= (if from.Some? then from.value else now) + 31 * Day
    ensures (from.None? || from.value >= now) ==> LeaseEnd(from, now, months) > now
  {
  }

  /** A pass over `items` is a pass over its first `j` bills followed by a pass over the rest. */
  lemma {:induction false} TaskSplit(l: Ledger, items: seq<Listed>, gateway: Gateway, now: int, j: int)
    requires 0 <= j <= |items|
    ensures TaskSpec(l, items, gateway, now) == TaskSpec(TaskSpec(l, items[..j], gateway, now), items[j..], gateway, now)
    decreases |items|
  {
    if j == |items| {
      assert items[..j] == items;
      assert items[j..] == [];
    } else {
      var init := items[..|items| - 1];
      TaskSplit(l, init, gateway, now, j);
      assert init[..j] == items[..j];
      assert items[j..][..|items[j..]| - 1] == init[j..];
    }
  }

  /**
   * A paid bill whose activation raised stays for the next pass, and the
   * bills after it are still handled.
   */
  lemma LaterBillsStillRun(l: Ledger, items: seq<Listed>, gateway: Gateway, now: int, j: int)
    requires 0 <= j < |items| && gateway(items[j].bill.billId) == Some("PAID")
    requires !Activate(TaskSpec(l, items[..j], gateway, now), items[j].bill, items[j].linked, Activator(now)).1
    ensures items[j].id in TaskSpec(l, items[..j], gateway, now).bills ==> items[j].id in TaskSpec(l, items[..j + 1], gateway, now).bills
    ensures TaskSpec(l, items, gateway, now) == TaskSpec(TaskSpec(l, items[..j + 1], gateway, now), items[j + 1..], gateway, now)
  {
    assert items[..j + 1][..j] == items[..j];
    PaidDeletesOnlyAfterAll(TaskSpec(l, items[..j], gateway, now), items[j], now);
    TaskSplit(l, items, gateway, now, j + 1);
  }
}
