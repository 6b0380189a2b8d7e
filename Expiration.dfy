/**
 * The daily expiry notifier: once a day, around 13:00, every owned
 * connection whose lease has ended or ends within five days is announced
 * to every registered notifier, in connection order and notifier order.
 */
module Expiration {
  import opened Wrappers
  import opened Store

  /** 13:00 as seconds after midnight. */
  const NotifierTime: int := 13 * 3600

  /** The slack around the notifier time: five minutes either side. */
  const Slack: int := 5 * 60

  /** The calendar day of an instant. */
  function Today(now: int): int
  {
    now / Day
  }

  /** The time of day of an instant, in seconds after midnight. */
  function TimeOfDay(t: int): (s: int)
    ensures 0 <= s < Day
  {
    t % Day
  }

  /**
   * Whether a check is due: not yet done today, and 13:00 lies between the
   * time of day five minutes ago and the time of day five minutes ahead.
   */
  function IsDue(lastDayChecked: int, now: int): (due: bool)
    ensures due <==> lastDayChecked != Today(now) && NotifierTime - Slack <= TimeOfDay(now) <= NotifierTime + Slack
  {
    ShiftedTime(now, -Slack);
    ShiftedTime(now, Slack);
    if lastDayChecked == Today(now) then false
    else TimeOfDay(now - Slack) <= NotifierTime <= TimeOfDay(now + Slack)
  }

  /** Shifting an instant by less than a day shifts its time of day, wrapping at midnight. */
  lemma ShiftedTime(t: int, d: int)
    requires -Day < d < Day
    ensures 0 <= TimeOfDay(t) + d < Day ==> TimeOfDay(t + d) == TimeOfDay(t) + d
    ensures TimeOfDay(t) + d < 0 ==> TimeOfDay(t + d) == TimeOfDay(t) + d + Day
    ensures TimeOfDay(t) + d >= Day ==> TimeOfDay(t + d) == TimeOfDay(t) + d - Day
  {
    var q := t / Day;
    var r := t % Day;
    assert t == q * Day + r;
    if 0 <= r + d < Day {
      ModOf(q, r + d);
    } else if r + d < 0 {
      ModOf(q - 1, r + d + Day);
    } else {
      ModOf(q + 1, r + d - Day);
    }
  }

  lemma ModOf(q: int, r: int)
    requires 0 <= r < Day
    ensures (q * Day + r) % Day == r
  {
  }

  /** What a connection is announced as: lease ended (days until deletion) or ending soon (days left). */
  datatype Alert = ConnectionExpired(daysToDelete: int) | SoonExpired(daysLeft: int)

  /** One message handed to one notifier. */
  datatype Notice = Notice(conn: Conn, alert: Alert, notifier: nat)

  /** A user id of 0 is falsy and skipped like a missing one. */
  predicate Owned(c: Conn)
  {
    c.userId.Some? && c.userId.value != 0
  }

  /** The alert a connection gets at `now`, if any. */
  function AlertFor(c: Conn, now: int): (a: Option<Alert>)
    ensures a.Some? <==> Owned(c) && c.availableTo.Some? && (!c.available || c.availableTo.value <= now + Grace)
    ensures a.Some? && a.value.ConnectionExpired? <==> Owned(c) && c.availableTo.Some? && !c.available
  {
    if !Owned(c) || c.availableTo.None? then None
    else if !c.available then Some(ConnectionExpired((c.availableTo.value + Grace - now) / Day))
    else if c.availableTo.value <= now + Grace then Some(SoonExpired((c.availableTo.value - now) / Day))
    else None
  }

  /** The day counts are whole days rounded down, within the five-day window where it applies. */
  lemma AlertDays(c: Conn, now: int)
    requires AlertFor(c, now).Some?
    ensures AlertFor(c, now).value.SoonExpired? ==>
      AlertFor(c, now).value.daysLeft * Day <= c.availableTo.value - now < (AlertFor(c, now).value.daysLeft + 1) * Day
      && AlertFor(c, now).value.daysLeft <= 5
    ensures AlertFor(c, now).value.ConnectionExpired? ==>
      AlertFor(c, now).value.daysToDelete * Day <= c.availableTo.value + Grace - now < (AlertFor(c, now).value.daysToDelete + 1) * Day
    ensures AlertFor(c, now).value.ConnectionExpired? && c.availableTo.value + Grace >= now ==>
      AlertFor(c, now).value.daysToDelete >= 0
  {
  }

  /** The messages for one alerted connection, one per notifier in order. */
  function Fanout(c: Conn, a: Alert, k: nat): (ns: seq<Notice>)
    ensures |ns| == k
    ensures forall j :: 0 <= j < k ==> ns[j] == Notice(c, a, j)
  {
    if k == 0 then [] else Fanout(c, a, k - 1) + [Notice(c, a, k - 1)]
  }

  /** The messages of one pass over `conns` with `k` notifiers. */
  function Notices(conns: seq<Conn>, now: int, k: nat): seq<Notice>
  {
    if conns == [] then []
    else
      var last := conns[|conns| - 1];
      var prev := Notices(conns[..|conns| - 1], now, k);
      match AlertFor(last, now)
      case None => prev
      case Some(a) => prev + Fanout(last, a, k)
  }

  /** Every message of a pass is the alert of one of the connections, sent to an existing notifier. */
  lemma {:induction false} NoticesSound(conns: seq<Conn>, now: int, k: nat, n: Notice)
    requires n in Notices(conns, now, k)
    ensures n.conn in conns && n.notifier < k && AlertFor(n.conn, now) == Some(n.alert)
  {
    if conns != [] {
      var init := conns[..|conns| - 1];
      var last := conns[|conns| - 1];
      assert conns == init + [last];
      if n in Notices(init, now, k) {
        NoticesSound(init, now, k, n);
      } else {
        var ns := Fanout(last, AlertFor(last, now).value, k);
        var j :| 0 <= j < |ns| && ns[j] == n;
      }
    }
  }

  /** Every alerted connection is announced to every notifier. */
  lemma {:induction false} NoticesComplete(conns: seq<Conn>, now: int, k: nat, i: int, j: int)
    requires 0 <= i < |conns| && 0 <= j < k && AlertFor(conns[i], now).Some?
    ensures Notice(conns[i], AlertFor(conns[i], now).value, j) in Notices(conns, now, k)
  {
    var init := conns[..|conns| - 1];
    var last := conns[|conns| - 1];
    if i < |conns| - 1 {
      assert conns[i] == init[i];
      NoticesComplete(init, now, k, i, j);
    } else {
      var ns := Fanout(last, AlertFor(last, now).value, k);
      assert ns[j] == Notice(last, AlertFor(last, now).value, j);
    }
  }

  /** Connections without an owner or a lease, or whose lease is more than five days away, get no message. */
  lemma NoticesSkip(conns: seq<Conn>, now: int, k: nat, c: Conn)
    requires AlertFor(c, now).None?
    ensures forall n :: n in Notices(conns, now, k) ==> n.conn != c
  {
    forall n | n in Notices(conns, now, k)
      ensures n.conn != c
    {
      NoticesSound(conns, now, k, n);
    }
  }

  lemma NoticesStep(conns: seq<Conn>, now: int, k: nat, i: int)
    requires 0 <= i < |conns|
    ensures Notices(conns[..i + 1], now, k) ==
      match AlertFor(conns[i], now)
      case None => Notices(conns[..i], now, k)
      case Some(a) => Notices(conns[..i], now, k) + Fanout(conns[i], a, k)
  {
    assert conns[..i + 1][..i] == conns[..i];
  }

  /** The notifier's state: the registered notifiers (by position) and the last day a check ran. */
  class ExpirationManager {
    const notifiers: nat
    var lastDayChecked: int

    /** A new manager counts yesterday as checked, so a check can run today. */
    constructor (notifiers: nat, now: int)
      ensures this.notifiers == notifiers && lastDayChecked == Today(now) - 1
    {
      this.notifiers := notifiers;
      lastDayChecked := Today(now) - 1;
    }

    function IsTimeToCheck(now: int): bool
      reads this
    {
      IsDue(lastDayChecked, now)
    }

    /** `_notify_connection_expired` and `_notify_soon_expired`: the alert goes to every notifier, in order. */
    method Notify(c: Conn, alert: Alert) returns (sent: seq<Notice>)
      ensures sent == Fanout(c, alert, notifiers)
    {
      sent := [];
      var j := 0;
      while j < notifiers
        invariant 0 <= j <= notifiers
        invariant sent == Fanout(c, alert, j)
      {
        sent := sent + [Notice(c, alert, j)];
        j := j + 1;
      }
    }

    /** One pass over all connections, handing each alert to each notifier in turn. */
    method CheckVpnConnections(conns: seq<Conn>, now: int) returns (sent: seq<Notice>)
      ensures sent == Notices(conns, now, notifiers)
    {
      sent := [];
      var i := 0;
      while i < |conns|
        invariant 0 <= i <= |conns|
        invariant sent == Notices(conns[..i], now, notifiers)
      {
        var c := conns[i];
        NoticesStep(conns, now, notifiers, i);
        if Owned(c) && c.availableTo.Some? {
          if !c.available {
            var ns := Notify(c, ConnectionExpired((c.availableTo.value + Grace - now) / Day));
            sent := sent + ns;
          } else if c.availableTo.value <= now + Grace {
            var ns := Notify(c, SoonExpired((c.availableTo.value - now) / Day));
            sent := sent + ns;
          }
        }
        i := i + 1;
      }
      assert conns[..i] == conns;
    }

    /** One turn of the polling loop: when due, check and record today as checked. */
    method Tick(conns: seq<Conn>, now: int) returns (sent: seq<Notice>)
      modifies this
      ensures old(IsTimeToCheck(now)) ==> sent == Notices(conns, now, notifiers) && lastDayChecked == Today(now)
      ensures !old(IsTimeToCheck(now)) ==> sent == [] && lastDayChecked == old(lastDayChecked)
    {
      sent := [];
      if IsTimeToCheck(now) {
        sent := CheckVpnConnections(conns, now);
        lastDayChecked := Today(now);
      }
    }
  }

  /** Once a check has run, no other check is due the same day. */
  lemma OncePerDay(now: int, later: int)
    requires Today(later) == Today(now)
    ensures !IsDue(Today(now), later)
  {
  }

  /** On a new day, a check is due exactly in the ten minutes around 13:00. */
  lemma DueEachDay(last: int, now: int)
    requires last < Today(now)
    ensures IsDue(last, now) <==> 46500 <= now % 86400 <= 47100
  {
  }
}
