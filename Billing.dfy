/**
 * Bill creation from the chat handlers. Buying new slots reserves the
 * requested number of free slots on the chosen server for the user, asks
 * the payment gateway for a form, and records a "new" bill linked to those
 * slots, or gives the slots back when the gateway has no form. Extending a
 * rent records an "extend" bill for one slot and leaves the slot alone.
 */
module Billing {
  import opened Wrappers
  import opened Store

  /** How long a payment form stays open: ten minutes, in seconds. */
  const FormLifetime: int := 10 * 60

  /** The gateway's answer to a new form: its id and payment address. */
  datatype Form = Form(billId: string, payUrl: string)

  /** The store's records and bills, and the next id it hands out. */
  datatype Shop = Shop(conns: map<int, Conn>, bills: map<int, Bill>, nextId: int)

  /** A chosen id: given and not zero. */
  predicate Chosen(id: Option<int>)
  {
    id.Some? && id.value != 0
  }

  /** The records `ids` set to `f` of their old value. */
  function Each(conns: map<int, Conn>, ids: seq<int>, f: Conn -> Conn): (r: map<int, Conn>)
    ensures r.Keys == conns.Keys
    ensures forall j :: j in conns && j !in ids ==> r[j] == conns[j]
  {
    if |ids| == 0 then conns
    else
      var prev := Each(conns, ids[..|ids| - 1], f);
      var id := ids[|ids| - 1];
      if id in prev then prev[id := f(prev[id])] else prev
  }

  /** A slot held for `user` while the payment is open: owned, not yet usable, lease end untouched. */
  function Held(user: int): (f: Conn -> Conn)
  {
    (c: Conn) => c.(userId := Some(user), available := false)
  }

  /** A held slot given back: no owner, not usable, lease end untouched. */
  function Freed(): (f: Conn -> Conn)
  {
    (c: Conn) => c.(userId := None, available := false)
  }

  /**
   * `create_bill_for_new_rent`, once `get_free` answered `ids`: no server
   * chosen or too few free slots changes nothing; otherwise the slots are
   * held, then either linked to a new "new" bill or given back.
   */
  function NewRent(s: Shop, sid: Option<int>, count: int, month: int, user: int, ids: seq<int>, form: Option<Form>, now: int): (r: Shop)
  {
    if !Chosen(sid) || |ids| == 0 || |ids| < count then s
    else
      var held := Each(s.conns, ids, Held(user));
      match form
      case Some(f) =>
        var b := Bill(f.billId, user, Some(now + FormLifetime), "new", month, f.payUrl, ids);
        Shop(held, s.bills[s.nextId := b], s.nextId + 1)
      case None => s.(conns := Each(held, ids, Freed()))
  }

  /**
   * `create_bill_for_exist_rent`: with a chosen slot and a form from the
   * gateway, one "extend" bill linked to that slot; a slot that no longer
   * exists makes the bill creation raise.
   */
  function ExtendRent(s: Shop, cid: Option<int>, month: int, user: int, form: Option<Form>, now: int): (r: Shop)
  {
    if !Chosen(cid) || form.None? || cid.value !in s.conns then s
    else
      var b := Bill(form.value.billId, user, Some(now + FormLifetime), "extend", month, form.value.payUrl, [cid.value]);
      s.(bills := s.bills[s.nextId := b], nextId := s.nextId + 1)
  }

  // --------------------------------------------------------------- handlers

  /** `create_bill_for_new_rent` on the store, with the gateway's answer `form`; returns the slots `get_free` gave. */
  method CreateBillForNewRent(store: Store, sid: Option<int>, count: int, month: int, user: int, form: Option<Form>, now: int)
    returns (ids: seq<int>)
    requires store.Valid()
    modifies store
    ensures store.Valid()
    ensures Chosen(sid) ==> Fetched(ids, old(store.conns), sid.value, count)
    ensures Shop(store.conns, store.bills, store.nextId) == NewRent(Shop(old(store.conns), old(store.bills), old(store.nextId)), sid, count, month, user, ids, form, now)
  {
    ids := [];
    if !Chosen(sid) {
      return;
    }
    ids := store.GetFree(sid.value, count);
    if |ids| == 0 || |ids| < count {
      return;
    }
    UpdateEach(store, ids, Held(user));
    match form {
      case Some(f) =>
        var b := Bill(f.billId, user, Some(now + FormLifetime), "new", month, f.payUrl, ids);
        var key := store.AddBill(b);
      case None =>
        UpdateEach(store, ids, Freed());
    }
  }

  /** `create_bill_for_exist_rent` on the store, with the gateway's answer `form`. */
  method CreateBillForExistRent(store: Store, cid: Option<int>, month: int, user: int, form: Option<Form>, now: int)
    requires store.Valid()
    modifies store
    ensures store.Valid()
    ensures Shop(store.conns, store.bills, store.nextId) == ExtendRent(Shop(old(store.conns), old(store.bills), old(store.nextId)), cid, month, user, form, now)
  {
    if !Chosen(cid) || form.None? {
      return;
    }
    var found := store.Find(cid.value);
    if found.None? {
      return;
    }
    var b := Bill(form.value.billId, user, Some(now + FormLifetime), "extend", month, form.value.payUrl, [cid.value]);
    var key := store.AddBill(b);
  }

  /** The bulk update of the records `ids`, one after another. */
  method UpdateEach(store: Store, ids: seq<int>, f: Conn -> Conn)
    requires store.Valid()
    modifies store`conns
    ensures store.Valid()
    ensures store.conns == Each(old(store.conns), ids, f)
  {
    ghost var c0 := store.conns;
    for k := 0 to |ids|
      invariant store.Valid()
      invariant store.conns == Each(c0, ids[..k], f)
    {
      assert ids[..k + 1][..k] == ids[..k];
      var found := store.Find(ids[k]);
      if found.Some? {
        store.UpdateConn(ids[k], f(found.value));
      }
    }
    assert ids[..|ids|] == ids;
  }

  // ---------------------------------------------------------------- properties

  /** An update of distinct records gives each of them `f` of its old value once. */
  lemma {:induction false} EachOnce(conns: map<int, Conn>, ids: seq<int>, f: Conn -> Conn, k: int)
    requires forall a, b :: 0 <= a < b < |ids| ==> ids[a] != ids[b]
    requires 0 <= k < |ids| && ids[k] in conns
    ensures Each(conns, ids, f)[ids[k]] == f(conns[ids[k]])
  {
    var last := |ids| - 1;
    var init := ids[..last];
    if k == last {
      assert ids[k] !in init;
      assert Each(conns, init, f)[ids[k]] == conns[ids[k]];
    } else {
      assert init[k] == ids[k];
      EachOnce(conns, init, f, k);
    }
  }

  /** Without a chosen server, or with fewer free slots than asked for, nothing is reserved or billed. */
  lemma ShortSupplyNothing(s: Shop, sid: Option<int>, count: int, month: int, user: int, ids: seq<int>, form: Option<Form>, now: int)
    requires !Chosen(sid) || (Fetched(ids, s.conns, sid.value, count) && |FreeIds(s.conns, sid.value)| < count)
    ensures NewRent(s, sid, count, month, user, ids, form, now) == s
  {
  }

  /**
   * With enough free slots and a form, exactly the fetched slots are held
   * for the user, with their lease ends untouched, every other record is
   * unchanged, and one "new" bill is added, linked to exactly those slots.
   */
  lemma NewRentBills(s: Shop, sid: int, count: int, month: int, user: int, ids: seq<int>, f: Form, now: int)
    requires sid != 0 && Fetched(ids, s.conns, sid, count) && count >= 1 && |FreeIds(s.conns, sid)| >= count
    requires forall id :: id in s.bills ==> id < s.nextId
    ensures var r := NewRent(s, Some(sid), count, month, user, ids, Some(f), now);
      && |ids| == count && s.nextId !in s.bills && s.nextId in r.bills
      && r.bills == s.bills[s.nextId := r.bills[s.nextId]] && r.nextId == s.nextId + 1
      && r.bills[s.nextId].kind == "new" && r.bills[s.nextId].user == user && r.bills[s.nextId].conns == ids
      && r.bills[s.nextId].rentMonth == month && r.bills[s.nextId].billId == f.billId
      && r.conns.Keys == s.conns.Keys
      && (forall k :: 0 <= k < |ids| ==> r.conns[ids[k]] == s.conns[ids[k]].(userId := Some(user), available := false))
      && (forall j :: j in s.conns && j !in ids ==> r.conns[j] == s.conns[j])
  {
    var held := Each(s.conns, ids, Held(user));
    var b := Bill(f.billId, user, Some(now + FormLifetime), "new", month, f.payUrl, ids);
    assert NewRent(s, Some(sid), count, month, user, ids, Some(f), now) == Shop(held, s.bills[s.nextId := b], s.nextId + 1);
    forall k | 0 <= k < |ids|
      ensures held[ids[k]] == s.conns[ids[k]].(userId := Some(user), available := false)
    {
      assert ids[k] in FreeIds(s.conns, sid);
      EachOnce(s.conns, ids, Held(user), k);
    }
  }

  /**
   * Without a form the fetched slots, free before, are free again, though
   * no longer usable; their lease ends are untouched, no bill is added and
   * every other record is unchanged.
   */
  lemma NoFormGivesBack(s: Shop, sid: int, count: int, month: int, user: int, ids: seq<int>, now: int)
    requires sid != 0 && Fetched(ids, s.conns, sid, count) && count >= 1 && |FreeIds(s.conns, sid)| >= count
    ensures var r := NewRent(s, Some(sid), count, month, user, ids, None, now);
      && r.bills == s.bills && r.nextId == s.nextId && r.conns.Keys == s.conns.Keys
      && (forall k :: 0 <= k < |ids| ==> r.conns[ids[k]] == s.conns[ids[k]].(available := false))
      && (forall j :: j in s.conns && j !in ids ==> r.conns[j] == s.conns[j])
  {
    var held := Each(s.conns, ids, Held(user));
    var back := Each(held, ids, Freed());
    assert NewRent(s, Some(sid), count, month, user, ids, None, now) == s.(conns := back);
    forall k | 0 <= k < |ids|
      ensures back[ids[k]] == s.conns[ids[k]].(available := false)
    {
      assert ids[k] in FreeIds(s.conns, sid);
      EachOnce(s.conns, ids, Held(user), k);
      EachOnce(held, ids, Freed(), k);
    }
  }

  /** Extending a rent never touches a record, and adds at most one bill: an "extend" bill for the chosen slot. */
  lemma ExtendNeverTouchesSlot(s: Shop, cid: Option<int>, month: int, user: int, form: Option<Form>, now: int)
    ensures var r := ExtendRent(s, cid, month, user, form, now);
      && r.conns == s.conns
      && (r.bills == s.bills
          || (&& Chosen(cid) && form.Some? && cid.value in s.conns && r.nextId == s.nextId + 1
              && r.bills == s.bills[s.nextId := r.bills[s.nextId]]
              && r.bills[s.nextId].kind == "extend" && r.bills[s.nextId].conns == [cid.value]))
  {
  }

  /** Without a form from the gateway, extending a rent changes nothing. */
  lemma ExtendNoFormNothing(s: Shop, cid: Option<int>, month: int, user: int, now: int)
    ensures ExtendRent(s, cid, month, user, None, now) == s
  {
  }
}
