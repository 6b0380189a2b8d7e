/**
 * The price list offered when renting or extending connections, and the
 * device-count stepper of the purchase dialogue.
 */
module Pricing {

  /** What the period keyboard is built for: a number of new devices, or an extension of one connection. */
  datatype Choice =
    | DeviceCount(count: int, serverId: int)
    | ExtendRent(connectionId: int, serverId: int)

  /** One period button: the months it rents and the cost packed into it (also the cost displayed). */
  datatype Offer = Offer(months: int, cost: int)

  /** 50 plus 100 per device for new devices, a flat 150 for an extension. */
  function BaseCost(c: Choice): (base: int)
    ensures c.DeviceCount? ==> base == 50 + 100 * c.count
    ensures c.ExtendRent? ==> base == 150
  {
    match c
    case DeviceCount(count, _) => 50 + 100 * count
    case ExtendRent(_, _) => 150
  }

  /**
   * The period buttons in keyboard order. The six-month button costs the
   * base times 6 times 0.8 and the yearly one the base times 12 times 0.7,
   * rounded; as every base is a multiple of 50, these are the exact integers
   * 24/5 and 42/5 of the base.
   */
  function Offers(c: Choice): (offers: seq<Offer>)
    ensures |offers| == 7
  {
    var base := BaseCost(c);
    [Offer(1, base), Offer(2, base * 2), Offer(3, base * 3), Offer(4, base * 4),
     Offer(5, base * 5), Offer(6, base * 24 / 5), Offer(12, base * 42 / 5)]
  }

  /** Every base cost is a multiple of 50, so the discounted prices are whole numbers. */
  lemma BaseMultipleOfFifty(c: Choice)
    ensures BaseCost(c) % 50 == 0
    ensures (BaseCost(c) * 24) % 5 == 0 && (BaseCost(c) * 42) % 5 == 0
  {
    match c
    case DeviceCount(count, _) =>
      assert BaseCost(c) == 50 * (1 + 2 * count);
    case ExtendRent(_, _) =>
  }

  /** The offered periods are exactly 1..6 and 12 months, each once. */
  lemma OfferedPeriods(c: Choice)
    ensures (set o | o in Offers(c) :: o.months) == {1, 2, 3, 4, 5, 6, 12}
    ensures forall i, j :: 0 <= i < j < |Offers(c)| ==> Offers(c)[i].months != Offers(c)[j].months
  {
    var os := Offers(c);
    assert os[0].months == 1 && os[1].months == 2 && os[2].months == 3 && os[3].months == 4;
    assert os[4].months == 5 && os[5].months == 6 && os[6].months == 12;
  }

  /** Up to five months the price is the base times the months; the six-month price undercuts the five-month one. */
  lemma OfferPrices(c: Choice)
    requires BaseCost(c) > 0
    ensures forall o :: o in Offers(c) && o.months <= 5 ==> o.cost == BaseCost(c) * o.months
    ensures Offers(c)[5].cost * 5 == BaseCost(c) * 24 && Offers(c)[6].cost * 5 == BaseCost(c) * 42
    ensures Offers(c)[5].cost < Offers(c)[4].cost
    ensures Offers(c)[6].cost < BaseCost(c) * 12
  {
    BaseMultipleOfFifty(c);
  }

  /** The counts the stepper offers next: one fewer above 1, one more below 4. */
  function NextCounts(count: int): (next: set<int>)
    ensures count - 1 in next <==> count > 1
    ensures count + 1 in next <==> count < 4
    ensures |next| <= 2
  {
    (if count > 1 then {count - 1} else {}) + (if count < 4 then {count + 1} else {})
  }

  /** The stepper keeps the count within 1..4. */
  lemma StepperKeepsRange(count: int, next: int)
    requires 1 <= count <= 4 && next in NextCounts(count)
    ensures 1 <= next <= 4
  {
  }

  /** The counts reachable from 1 in at most `n` steps. */
  function Reachable(n: nat): (r: set<int>)
    ensures 1 in r
  {
    if n == 0 then {1}
    else
      var prev := Reachable(n - 1);
      prev + set c, d | c in prev && d in NextCounts(c) :: d
  }

  /** Starting from one device, the dialogue never leaves the counts 1..4. */
  lemma {:induction false} ReachableBounded(n: nat)
    ensures forall c :: c in Reachable(n) ==> 1 <= c <= 4
  {
    if n > 0 {
      ReachableBounded(n - 1);
      var prev := Reachable(n - 1);
      forall c, d | c in prev && d in NextCounts(c)
        ensures 1 <= d <= 4
      {
        StepperKeepsRange(c, d);
      }
    }
  }

  /** From three steps on, exactly the counts 1..4 are reachable. */
  lemma ReachableRange(n: nat)
    requires n >= 3
    ensures Reachable(n) == {1, 2, 3, 4}
  {
    ReachableBounded(n);
    ReachableGrows(n);
    forall c | c in Reachable(n)
      ensures c in {1, 2, 3, 4}
    {
      assert 1 <= c <= 4;
    }
  }

  /** After `n` steps every count 1..min(n + 1, 4) has been reached. */
  lemma {:induction false} ReachableGrows(n: nat)
    ensures forall k :: 1 <= k <= n + 1 && k <= 4 ==> k in Reachable(n)
  {
    if n > 0 {
      ReachableGrows(n - 1);
      var prev := Reachable(n - 1);
      forall k | 1 <= k <= n + 1 && k <= 4
        ensures k in Reachable(n)
      {
        if k <= n {
          assert k in prev;
        } else {
          assert k - 1 in prev && k in NextCounts(k - 1);
        }
      }
    }
  }
}
