/**
 * The persistent records the reconciliation passes read and write: one
 * record per peer slot (a connection) and one per pending payment (a bill),
 * kept by id, each create, update and delete applied atomically.
 */
module Store {
  import opened Wrappers

  /** Seconds in a day; times are whole seconds on one clock. */
  const Day: int := 86400

  /** The grace window after a lease ends: five days. */
  const Grace: int := 5 * Day

  /** One peer slot on one server. `availableTo` is the lease end, when one is set. */
  datatype Conn = Conn(
    serverId: int,
    userId: Option<int>,
    available: bool,
    availableTo: Option<int>,
    localIp: string,
    config: string,
    clientName: string)

  /** One payment form: its gateway id, owner, kind ("new" or "extend"), months and linked slots. */
  datatype Bill = Bill(
    billId: string,
    user: int,
    availableTo: Option<int>,
    kind: string,
    rentMonth: int,
    payUrl: string,
    conns: seq<int>)

  /** A slot returned to the pool: no owner, no lease, not usable. */
  function Released(c: Conn): (r: Conn)
    ensures r.userId == None && r.availableTo == None && !r.available
    ensures r.serverId == c.serverId && r.localIp == c.localIp && r.config == c.config && r.clientName == c.clientName
  {
    c.(userId := None, availableTo := None, available := false)
  }

  /** The record a newly discovered peer file gets: no owner, no lease, not usable. */
  function Unassigned(serverId: int, ip: string, config: string, clientName: string): (r: Conn)
    ensures r.userId == None && !r.available && r.availableTo == None
    ensures r.serverId == serverId && r.localIp == ip && r.config == config && r.clientName == clientName
  {
    Conn(serverId, None, false, None, ip, config, clientName)
  }

  /** The ids of the records of server `sid` whose tunnel address is `ip`. */
  function MatchingIds(conns: map<int, Conn>, sid: int, ip: string): set<int>
  {
    set id | id in conns && conns[id].serverId == sid && conns[id].localIp == ip
  }

  /** What a get-by-filter returns: no record, the one record, or an error for several. */
  datatype Lookup = NotFound | Found(id: int) | Multiple

  lemma HasMember(s: set<int>)
    requires |s| >= 1
    ensures exists x :: x in s
  {
    if forall x :: x !in s {
      assert false;
    }
  }

  lemma SingletonOf(s: set<int>, x: int)
    requires |s| == 1 && x in s
    ensures s == {x}
  {
    var rest := s - {x};
    assert |rest| == 0;
    assert rest == {};
  }

  /** The one member of a one-member set. */
  function TheMember(s: set<int>): (x: int)
    requires |s| == 1
    ensures s == {x}
  {
    HasMember(s);
    var x :| x in s;
    SingletonOf(s, x);
    x
  }

  /** The lookup of the record of server `sid` with tunnel address `ip`. */
  ghost function LookupSpec(conns: map<int, Conn>, sid: int, ip: string): (r: Lookup)
    ensures r == NotFound <==> MatchingIds(conns, sid, ip) == {}
    ensures r.Found? ==> MatchingIds(conns, sid, ip) == {r.id}
    ensures r == Multiple <==> |MatchingIds(conns, sid, ip)| >= 2
  {
    var m := MatchingIds(conns, sid, ip);
    if |m| == 0 then NotFound
    else if |m| == 1 then Found(TheMember(m))
    else Multiple
  }

  /** `rows` lists every record of `conns` once, each with its value at listing time. */
  predicate Lists(rows: seq<(int, Conn)>, conns: map<int, Conn>)
  {
    && (forall k :: 0 <= k < |rows| ==> rows[k].0 in conns && conns[rows[k].0] == rows[k].1)
    && (forall id :: id in conns ==> exists k :: 0 <= k < |rows| && rows[k].0 == id)
    && (forall k, l :: 0 <= k < l < |rows| ==> rows[k].0 != rows[l].0)
  }

  /** The records linked to a bill, as loaded with it: the linked ids that have a record, in link order. */
  function Linked(ids: seq<int>, conns: map<int, Conn>): (r: seq<(int, Conn)>)
    ensures |r| <= |ids|
    ensures forall k :: 0 <= k < |r| ==> r[k].0 in conns && conns[r[k].0] == r[k].1 && r[k].0 in ids
  {
    if |ids| == 0 then []
    else
      var id := ids[|ids| - 1];
      Linked(ids[..|ids| - 1], conns) + (if id in conns then [(id, conns[id])] else [])
  }

  /** A bill as a pass lists it: its id, its fields and its linked records. */
  datatype Listed = Listed(id: int, bill: Bill, linked: seq<(int, Conn)>)

  /** `x` is the bill `x.id` of `bills` with its linked records as they are in `conns`. */
  predicate ListedAs(x: Listed, bills: map<int, Bill>, conns: map<int, Conn>)
  {
    x.id in bills && bills[x.id] == x.bill && x.linked == Linked(x.bill.conns, conns)
  }

  /** `items` lists every bill of `bills` once, each with its linked records as they are in `conns`. */
  predicate ListsBills(items: seq<Listed>, bills: map<int, Bill>, conns: map<int, Conn>)
  {
    && (forall k :: 0 <= k < |items| ==> ListedAs(items[k], bills, conns))
    && (forall id :: id in bills ==> exists k :: 0 <= k < |items| && items[k].id == id)
    && (forall k, l :: 0 <= k < l < |items| ==> items[k].id != items[l].id)
  }

  /** Listing one more id keeps every id already outside `left` listed and adds that id. */
  lemma AppendCovers(items: seq<Listed>, x: Listed, ids: set<int>, left: set<int>)
    requires forall id :: id in ids && id !in left ==> exists k :: 0 <= k < |items| && items[k].id == id
    ensures forall id :: id in ids && id !in left - {x.id} ==> exists k :: 0 <= k < |items + [x]| && (items + [x])[k].id == id
  {
    forall id | id in ids && id !in left - {x.id}
      ensures exists k :: 0 <= k < |items + [x]| && (items + [x])[k].id == id
    {
      if id == x.id {
        assert (items + [x])[|items|].id == id;
      } else {
        var k :| 0 <= k < |items| && items[k].id == id;
        assert (items + [x])[k].id == id;
      }
    }
  }

  /** The records of server `sid` that no user holds. */
  function FreeIds(conns: map<int, Conn>, sid: int): set<int>
  {
    set id | id in conns && conns[id].serverId == sid && conns[id].userId.None?
  }

  /** How many rows a query limited to `limit` returns out of `n` matching ones; a limit below one returns none. */
  function Limited(n: nat, limit: int): nat
  {
    if limit <= 0 then 0 else if limit < n then limit else n
  }

  /** `ids` is an answer of `get_free(sid, limit)`: distinct free records of the server, as many as the limit allows. */
  predicate Fetched(ids: seq<int>, conns: map<int, Conn>, sid: int, limit: int)
  {
    && (forall k :: 0 <= k < |ids| ==> ids[k] in FreeIds(conns, sid))
    && (forall k, l :: 0 <= k < l < |ids| ==> ids[k] != ids[l])
    && |ids| == Limited(|FreeIds(conns, sid)|, limit)
  }

  /** The records and bills, and the next id the store hands out. */
  class Store {
    var conns: map<int, Conn>
    var bills: map<int, Bill>
    var nextId: int

    /** Every id in use is below the next one handed out. */
    ghost predicate Valid()
      reads this
    {
      nextId >= 1
      && (forall id :: id in conns ==> 1 <= id < nextId)
      && (forall id :: id in bills ==> 1 <= id < nextId)
    }

    constructor (conns: map<int, Conn>, bills: map<int, Bill>, nextId: int)
      requires nextId >= 1
      requires forall id :: id in conns ==> 1 <= id < nextId
      requires forall id :: id in bills ==> 1 <= id < nextId
      ensures Valid()
      ensures this.conns == conns && this.bills == bills && this.nextId == nextId
    {
      this.conns := conns;
      this.bills := bills;
      this.nextId := nextId;
    }

    /** `VPNConnection.get(server_id=..., local_ip=...)`. */
    method Get(sid: int, ip: string) returns (r: Lookup)
      ensures r == LookupSpec(conns, sid, ip)
    {
      var m := set id | id in conns && conns[id].serverId == sid && conns[id].localIp == ip;
      assert m == MatchingIds(conns, sid, ip);
      if |m| == 0 {
        r := NotFound;
      } else if |m| == 1 {
        r := Found(TheMember(m));
      } else {
        r := Multiple;
      }
    }

    /** `VPNConnection.all()`: every record once, in the order the store yields them. */
    method All() returns (rows: seq<(int, Conn)>)
      ensures Lists(rows, conns)
    {
      rows := [];
      var left := conns.Keys;
      while left != {}
        invariant left <= conns.Keys
        invariant forall k :: 0 <= k < |rows| ==> rows[k].0 in conns && conns[rows[k].0] == rows[k].1 && rows[k].0 !in left
        invariant forall id :: id in conns && id !in left ==> exists k :: 0 <= k < |rows| && rows[k].0 == id
        invariant forall k, l :: 0 <= k < l < |rows| ==> rows[k].0 != rows[l].0
        decreases |left|
      {
        HasMember(left);
        var id :| id in left;
        ghost var prev := rows;
        rows := rows + [(id, conns[id])];
        left := left - {id};
        forall x | x in conns && x !in left
          ensures exists k :: 0 <= k < |rows| && rows[k].0 == x
        {
          if x == id {
            assert rows[|rows| - 1].0 == x;
          } else {
            var k :| 0 <= k < |prev| && prev[k].0 == x;
            assert rows[k].0 == x;
          }
        }
      }
    }

    /** `ActiveBills.all` with the linked records loaded: every bill once. */
    method AllBills() returns (items: seq<Listed>)
      ensures ListsBills(items, bills, conns)
    {
      items := [];
      var left := bills.Keys;
      while left != {}
        invariant left <= bills.Keys
        invariant forall k :: 0 <= k < |items| ==> ListedAs(items[k], bills, conns) && items[k].id !in left
        invariant forall id :: id in bills && id !in left ==> exists k :: 0 <= k < |items| && items[k].id == id
        invariant forall k, l :: 0 <= k < l < |items| ==> items[k].id != items[l].id
        decreases |left|
      {
        HasMember(left);
        var id :| id in left;
        var x := Listed(id, bills[id], Linked(bills[id].conns, conns));
        AppendCovers(items, x, bills.Keys, left);
        items := items + [x];
        left := left - {x.id};
      }
    }

    /** `VPNConnection.get_free`: up to `limit` records of server `sid` that no user holds, in no set order. */
    method GetFree(sid: int, limit: int) returns (ids: seq<int>)
      ensures Fetched(ids, conns, sid, limit)
    {
      ghost var free := FreeIds(conns, sid);
      var left := set id | id in conns && conns[id].serverId == sid && conns[id].userId.None?;
      ids := [];
      while left != {} && |ids| < limit
        invariant left <= free
        invariant forall k :: 0 <= k < |ids| ==> ids[k] in free && ids[k] !in left
        invariant forall k, l :: 0 <= k < l < |ids| ==> ids[k] != ids[l]
        invariant |ids| + |left| == |free|
        invariant limit <= 0 ==> ids == []
        invariant |ids| <= limit || ids == []
        decreases |left|
      {
        HasMember(left);
        var id :| id in left;
        ids := ids + [id];
        left := left - {id};
      }
    }

    /** `VPNConnection.get(id=...)`: the record, or nothing when there is none. */
    method Find(id: int) returns (r: Option<Conn>)
      ensures r.Some? <==> id in conns
      ensures r.Some? ==> r.value == conns[id]
    {
      if id in conns {
        r := Some(conns[id]);
      } else {
        r := None;
      }
    }

    /** Inserts a connection record under a fresh id. */
    method CreateConn(c: Conn) returns (id: int)
      requires Valid()
      modifies this
      ensures Valid()
      ensures id == old(nextId) && id !in old(conns)
      ensures conns == old(conns)[id := c] && bills == old(bills) && nextId == old(nextId) + 1
    {
      id := nextId;
      conns := conns[id := c];
      nextId := nextId + 1;
    }

    /** Replaces the record `id`. */
    method UpdateConn(id: int, c: Conn)
      requires Valid() && id in conns
      modifies this`conns
      ensures Valid()
      ensures conns == old(conns)[id := c]
    {
      conns := conns[id := c];
    }

    /** Inserts a bill under a fresh id. */
    method AddBill(b: Bill) returns (id: int)
      requires Valid()
      modifies this
      ensures Valid()
      ensures id == old(nextId) && id !in old(bills)
      ensures bills == old(bills)[id := b] && conns == old(conns) && nextId == old(nextId) + 1
    {
      id := nextId;
      bills := bills[id := b];
      nextId := nextId + 1;
    }

    /** Removes the bill `id`. */
    method DeleteBill(id: int)
      requires Valid()
      modifies this`bills
      ensures Valid()
      ensures bills == old(bills) - {id}
    {
      bills := bills - {id};
    }
  }
}
