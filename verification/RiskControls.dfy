/** The pre-trade risk gate: a stateful check with categorised counters and a session-wide duplicate guard. */
module RiskControls {
  import opened Types

  datatype RejectReason = Accepted | MaxOrderSize | MaxNotional | PriceCollar | KillSwitch | DuplicateOrder

  /** A zero limit disables its check. */
  datatype RiskConfig = RiskConfig(maxOrderSize: Quantity, maxNotional: U64, collarBps: U32, enforceUniqueIds: bool)

  datatype Metrics = Metrics(accepted: nat, maxOrderSize: nat, maxNotional: nat, priceCollar: nat, killSwitch: nat,
                             duplicate: nat) {
    function TotalRejected(): nat {
      maxOrderSize + maxNotional + priceCollar + killSwitch + duplicate
    }
  }

  datatype Risk = Risk(config: RiskConfig, killed: bool, seen: set<OrderId>, metrics: Metrics)

  function Fresh(config: RiskConfig): Risk {
    Risk(config, false, {}, Metrics(0, 0, 0, 0, 0, 0))
  }

  /** Conversion to an unsigned 64-bit word, and products in that arithmetic. */
  function Unsigned(x: int): U64 {
    x % TWO_64
  }

  predicate OverNotional(config: RiskConfig, price: Price, quantity: Quantity) {
    config.maxNotional != 0 && Unsigned(Unsigned(price) * quantity) > config.maxNotional
  }

  predicate OutsideCollar(config: RiskConfig, price: Price, reference: Option<Price>) {
    && config.collarBps != 0 && reference.Some? && reference.value > 0
    && (var ref := reference.value;
        var diff := if price > ref then price - ref else ref - price;
        Unsigned(Unsigned(diff) * 10000) > Unsigned(config.collarBps * ref))
  }

  /** The first check that fails, in the order the gate runs them. */
  function Verdict(r: Risk, id: OrderId, price: Price, quantity: Quantity, reference: Option<Price>): RejectReason {
    if r.killed then KillSwitch
    else if r.config.maxOrderSize != 0 && quantity > r.config.maxOrderSize then MaxOrderSize
    else if OverNotional(r.config, price, quantity) then MaxNotional
    else if OutsideCollar(r.config, price, reference) then PriceCollar
    else if r.config.enforceUniqueIds && id in r.seen then DuplicateOrder
    else Accepted
  }

  function Count(m: Metrics, reason: RejectReason): Metrics {
    match reason
    case Accepted => m.(accepted := m.accepted + 1)
    case MaxOrderSize => m.(maxOrderSize := m.maxOrderSize + 1)
    case MaxNotional => m.(maxNotional := m.maxNotional + 1)
    case PriceCollar => m.(priceCollar := m.priceCollar + 1)
    case KillSwitch => m.(killSwitch := m.killSwitch + 1)
    case DuplicateOrder => m.(duplicate := m.duplicate + 1)
  }

  /** The gate after one order: exactly one counter moves, and an accepted id is remembered. */
  function After(r: Risk, id: OrderId, reason: RejectReason): Risk {
    r.(metrics := Count(r.metrics, reason),
       seen := if reason == Accepted && r.config.enforceUniqueIds then r.seen + {id} else r.seen)
  }

  /** The reject categories, with every check written out: each is the verdict exactly when its check fails and none
      ahead of it does; an order that fails none is accepted. */
  lemma VerdictTerms(r: Risk, id: OrderId, price: Price, quantity: Quantity, reference: Option<Price>)
    ensures var v, c := Verdict(r, id, price, quantity, reference), r.config;
      var size := c.maxOrderSize != 0 && quantity > c.maxOrderSize;
      var notional := c.maxNotional != 0 && (price % TWO_64 * quantity) % TWO_64 > c.maxNotional;
      var collar := c.collarBps != 0 && reference.Some? && reference.value > 0
                    && (if price > reference.value then price - reference.value else reference.value - price)
                       % TWO_64 * 10000 % TWO_64 > (c.collarBps * reference.value) % TWO_64;
      var duplicate := c.enforceUniqueIds && id in r.seen;
      && (v == KillSwitch <==> r.killed)
      && (v == MaxOrderSize <==> !r.killed && size)
      && (v == MaxNotional <==> !r.killed && !size && notional)
      && (v == PriceCollar <==> !r.killed && !size && !notional && collar)
      && (v == DuplicateOrder <==> !r.killed && !size && !notional && !collar && duplicate)
      && (v == Accepted <==> !r.killed && !size && !notional && !collar && !duplicate)
  {
  }

  /** The gate after a verdict: exactly one counter moves, by one, the one of the verdict; an id is remembered exactly
      when it is accepted and unique ids are enforced. */
  lemma AfterTerms(r: Risk, id: OrderId, reason: RejectReason)
    ensures var m, m' := r.metrics, After(r, id, reason).metrics;
      && m'.accepted == m.accepted + (if reason == Accepted then 1 else 0)
      && m'.maxOrderSize == m.maxOrderSize + (if reason == MaxOrderSize then 1 else 0)
      && m'.maxNotional == m.maxNotional + (if reason == MaxNotional then 1 else 0)
      && m'.priceCollar == m.priceCollar + (if reason == PriceCollar then 1 else 0)
      && m'.killSwitch == m.killSwitch + (if reason == KillSwitch then 1 else 0)
      && m'.duplicate == m.duplicate + (if reason == DuplicateOrder then 1 else 0)
    ensures After(r, id, reason).config == r.config && After(r, id, reason).killed == r.killed
    ensures forall x :: x in After(r, id, reason).seen
                   <==> x in r.seen || (x == id && reason == Accepted && r.config.enforceUniqueIds)
  {
  }

  /** A new gate: its own configuration, the switch released, no id seen and nothing counted. */
  lemma FreshTerms(config: RiskConfig)
    ensures var r := Fresh(config);
      && r.config == config && !r.killed && r.seen == {}
      && r.metrics.accepted == r.metrics.maxOrderSize == r.metrics.maxNotional == r.metrics.priceCollar == 0
      && r.metrics.killSwitch == r.metrics.duplicate == 0
  {
  }

  /** Comparing two integers as words decides their true order exactly when they lie in the same 2^64-range, or when the
      remainders happen to be ordered as the ranges are. */
  predicate WordsAgree(x: int, y: int) {
    || x / TWO_64 == y / TWO_64
    || (x / TWO_64 > y / TWO_64 && x % TWO_64 > y % TWO_64)
    || (x / TWO_64 < y / TWO_64 && x % TWO_64 <= y % TWO_64)
  }

  lemma WordCompare(x: int, y: int)
    ensures (Unsigned(x) > Unsigned(y) <==> x > y) <==> WordsAgree(x, y)
  {
  }

  lemma UnsignedOfWord(x: U64)
    ensures Unsigned(x) == x
  {
  }

  lemma SameRange(x: nat, y: nat)
    requires x < TWO_64 && y < TWO_64
    ensures WordsAgree(x, y)
  {
  }

  lemma UnsignedProduct(x: int, y: int)
    ensures Unsigned(Unsigned(x) * y) == Unsigned(x * y)
  {
    var q, r := x / TWO_64, Unsigned(x);
    assert x == q * TWO_64 + r;
    Expand(q, r, y);
    WholeWords(q * y, r * y);
  }

  lemma Expand(q: int, r: int, y: int)
    ensures (q * TWO_64 + r) * y == q * y * TWO_64 + r * y
  {
  }

  lemma WholeWords(q: int, r: int)
    ensures (q * TWO_64 + r) % TWO_64 == r % TWO_64
  {
  }

  /** The gate decides the notional cap exactly when the words agree; in particular for every product within 64 bits. */
  lemma NotionalExact(config: RiskConfig, price: Price, quantity: Quantity)
    requires config.maxNotional != 0
    ensures (OverNotional(config, price, quantity) <==> price * quantity > config.maxNotional)
       <==> WordsAgree(price * quantity, config.maxNotional)
    ensures 0 <= price * quantity < TWO_64 ==> WordsAgree(price * quantity, config.maxNotional)
  {
    hide Unsigned, WordsAgree;
    var notional := price * quantity;
    UnsignedProduct(price, quantity);
    WordCompare(notional, config.maxNotional);
    UnsignedOfWord(config.maxNotional);
    if 0 <= notional < TWO_64 {
      SameRange(notional, config.maxNotional);
    }
  }

  /** A notional of 2^64 wraps to nothing and passes the least cap. */
  lemma NotionalWraps()
    ensures var config := RiskConfig(0, 1, 0, false);
      !OverNotional(config, TWO_32, TWO_32) && TWO_32 * TWO_32 > config.maxNotional
  {
  }

  /** Likewise for the collar: whether the price is more than `collarBps` away from a positive reference. */
  lemma CollarExact(config: RiskConfig, price: Price, ref: Price)
    requires config.collarBps != 0 && ref > 0
    ensures var distance := if price > ref then price - ref else ref - price;
      && ((OutsideCollar(config, price, Some(ref)) <==> distance * 10000 > config.collarBps * ref)
          <==> WordsAgree(distance * 10000, config.collarBps * ref))
      && (distance * 10000 < TWO_64 && config.collarBps * ref < TWO_64
          ==> WordsAgree(distance * 10000, config.collarBps * ref))
  {
    hide Unsigned, WordsAgree;
    var distance := if price > ref then price - ref else ref - price;
    var scaled, limit := distance * 10000, config.collarBps * ref;
    UnsignedProduct(distance, 10000);
    WordCompare(scaled, limit);
    if scaled < TWO_64 && limit < TWO_64 {
      SameRange(scaled, limit);
    }
  }

  /** A price 2^60 ticks from the reference wraps to none and passes a collar of one basis point. */
  lemma CollarWraps()
    ensures var config, price := RiskConfig(0, 0, 1, false), 0x1000_0000_0000_0001;
      !OutsideCollar(config, price, Some(1)) && (price - 1) * 10000 > config.collarBps * 1
  {
  }

  class RiskManager {
    const config: RiskConfig
    var killed: bool
    var seen: set<OrderId>
    var accepted: nat
    var rejectedSize: nat
    var rejectedNotional: nat
    var rejectedCollar: nat
    var rejectedKill: nat
    var rejectedDuplicate: nat

    function State(): Risk
      reads this
    {
      Risk(config, killed, seen,
           Metrics(accepted, rejectedSize, rejectedNotional, rejectedCollar, rejectedKill, rejectedDuplicate))
    }

    /** The counters as they are reported, by category. */
    method Report() returns (m: Metrics)
      ensures m == State().metrics
      ensures m.accepted == accepted && m.maxOrderSize == rejectedSize && m.maxNotional == rejectedNotional
      ensures m.priceCollar == rejectedCollar && m.killSwitch == rejectedKill && m.duplicate == rejectedDuplicate
    {
      m := Metrics(accepted, rejectedSize, rejectedNotional, rejectedCollar, rejectedKill, rejectedDuplicate);
    }

    constructor (config: RiskConfig)
      ensures State() == Fresh(config) && this.config == config
    {
      this.config := config;
      killed, seen := false, {};
      accepted, rejectedSize, rejectedNotional, rejectedCollar, rejectedKill, rejectedDuplicate := 0, 0, 0, 0, 0, 0;
    }

    method EngageKillSwitch(on: bool)
      modifies `killed
      ensures State() == old(State()).(killed := on) && killed == on
    {
      killed := on;
    }

    method Check(id: OrderId, price: Price, quantity: Quantity, reference: Option<Price>) returns (reason: RejectReason)
      modifies this
      ensures reason == Verdict(old(State()), id, price, quantity, reference)
      ensures State() == After(old(State()), id, reason)
      ensures accepted == old(accepted) + (if reason == Accepted then 1 else 0)
      ensures rejectedSize == old(rejectedSize) + (if reason == MaxOrderSize then 1 else 0)
      ensures rejectedNotional == old(rejectedNotional) + (if reason == MaxNotional then 1 else 0)
      ensures rejectedCollar == old(rejectedCollar) + (if reason == PriceCollar then 1 else 0)
      ensures rejectedKill == old(rejectedKill) + (if reason == KillSwitch then 1 else 0)
      ensures rejectedDuplicate == old(rejectedDuplicate) + (if reason == DuplicateOrder then 1 else 0)
      ensures killed == old(killed)
      ensures seen == old(seen) + (if reason == Accepted && config.enforceUniqueIds then {id} else {})
    {
      hide Unsigned;
      if killed {
        rejectedKill := rejectedKill + 1;
        return KillSwitch;
      }
      if config.maxOrderSize != 0 && quantity > config.maxOrderSize {
        rejectedSize := rejectedSize + 1;
        return MaxOrderSize;
      }
      if config.maxNotional != 0 {
        var notional := Unsigned(Unsigned(price) * quantity);
        if notional > config.maxNotional {
          rejectedNotional := rejectedNotional + 1;
          return MaxNotional;
        }
      }
      if config.collarBps != 0 && reference.Some? && reference.value > 0 {
        var ref := reference.value;
        var diff := if price > ref then price - ref else ref - price;
        var scaled := Unsigned(Unsigned(diff) * 10000);
        var limit := Unsigned(config.collarBps * ref);
        if scaled > limit {
          rejectedCollar := rejectedCollar + 1;
          return PriceCollar;
        }
      }
      if config.enforceUniqueIds {
        if id in seen {
          rejectedDuplicate := rejectedDuplicate + 1;
          return DuplicateOrder;
        }
        seen := seen + {id};
      }
      accepted := accepted + 1;
      return Accepted;
    }
  }
}
