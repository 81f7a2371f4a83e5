/** Commands in plain terms: what each raw command does to the state of the engine, with the bytes written out. */
module EngineTerms {
  import opened Types
  import opened BookSpec
  import opened BookLaws
  import opened RiskControls
  import opened Engine
  import BookTerms

  /** A new engine: an empty book whose first order at rest gets sequence number 1, and nothing counted. */
  lemma StartTerms(policy: SelfTradePolicy, gate: Option<RiskConfig>)
    ensures var s := Start(policy, gate);
      && s.book.policy == policy && s.book.bids == [] && s.book.asks == [] && s.book.nextSeq == 1
      && s.stats.commands == s.stats.submits == s.stats.cancels == s.stats.trades == 0
      && (s.risk.Some? <==> gate.Some?)
      && (gate.Some? ==> s.risk.value.config == gate.value && !s.risk.value.killed && s.risk.value.seen == {})
  {
  }

  /** What a command does, by its bytes. Kind 0 submits, for side 0 a buy and otherwise a sell, under its own id,
      trader, price and quantity, if the gate lets it; kind 1 cancels; no other kind does anything. */
  lemma CommandBytes(s: State, c: Command)
    ensures var s' := Apply(s, c);
      var out := Submit(s.book, Taker(c.id, c.trader, if c.side == 0 then Buy else Sell, c.price), c.quantity);
      && (c.kind == 0 && VerdictOn(s, c) == Accepted ==>
            && s'.book == out.book && Prints(s, c) == out.trades
            && s'.stats.commands == s.stats.commands + 1 && s'.stats.submits == s.stats.submits + 1
            && s'.stats.cancels == s.stats.cancels && s'.stats.trades == s.stats.trades + |out.trades|)
      && (c.kind == 0 && VerdictOn(s, c) != Accepted ==>
            && s'.book == s.book && Prints(s, c) == []
            && s'.stats.commands == s.stats.commands + 1 && s'.stats.submits == s.stats.submits
            && s'.stats.cancels == s.stats.cancels && s'.stats.trades == s.stats.trades)
      && (c.kind == 0 ==>
            s'.risk == if s.risk.Some? then Some(After(s.risk.value, c.id, VerdictOn(s, c))) else None)
      && (c.kind == 1 ==>
            && s'.book == Cancel(s.book, c.id).0 && s'.risk == s.risk && Prints(s, c) == []
            && s'.stats.commands == s.stats.commands + 1 && s'.stats.submits == s.stats.submits
            && s'.stats.cancels == s.stats.cancels + 1 && s'.stats.trades == s.stats.trades)
      && (c.kind > 1 ==> s' == s && Prints(s, c) == [])
  {
    hide Submit, Cancel, Verdict, After;
  }

  /** What the gate compares a price with: for side 0 the lowest ask, otherwise the highest bid, and nothing if there is
      none. */
  lemma ReferenceBytes(s: State, c: Command) returns (reference: Option<Price>)
    requires WellFormed(s.book) && s.risk.Some?
    ensures VerdictOn(s, c) == Verdict(s.risk.value, c.id, c.price, c.quantity, reference)
    ensures reference == None <==> (if c.side == 0 then s.book.asks == [] else s.book.bids == [])
    ensures c.side == 0 && reference.Some? ==>
              (exists o :: o in s.book.asks && o.price == reference.value)
              && forall o :: o in s.book.asks ==> o.price >= reference.value
    ensures c.side != 0 && reference.Some? ==>
              (exists o :: o in s.book.bids && o.price == reference.value)
              && forall o :: o in s.book.bids ==> o.price <= reference.value
  {
    hide Verdict, WellFormed, BestPrice;
    reference := if c.side == 0 then BestPrice(s.book.asks) else BestPrice(s.book.bids);
    BookTerms.BestTerms(s.book);
  }

  /** An accepted sell adds nothing to the bids, reports its trades as a sell at its price or above, and joins the asks,
      if at all, under its own id, trader and price. */
  lemma SellBytes(s: State, c: Command)
    requires WellFormed(s.book) && c.kind == 0 && c.side == 1 && VerdictOn(s, c) == Accepted
    ensures var b, b' := s.book, Apply(s, c).book;
      && |b'.bids| <= |b.bids|
      && (forall o :: o in b'.bids ==>
            exists p :: p in b.bids && o == p.(remaining := o.remaining) && o.remaining <= p.remaining)
      && (forall trade :: trade in Prints(s, c) ==>
            && trade.takerSide == Sell && trade.takerId == c.id && trade.takerTrader == c.trader
            && trade.price >= c.price)
      && (forall o :: o in b.asks ==> o in b'.asks)
      && (forall o :: o in b'.asks && o !in b.asks ==>
            && o == Resting(c.id, c.trader, Sell, c.price, o.quantity, o.quantity, b.nextSeq)
            && 0 < o.quantity <= c.quantity)
      && ((exists o :: o in b'.asks && o !in b.asks) <==> b'.nextSeq > b.nextSeq)
  {
    hide Submit, Apply, VerdictOn, WellFormed;
    CommandBytes(s, c);
    SellTerms(s.book, Taker(c.id, c.trader, Sell, c.price), c.quantity);
  }

  /** An accepted buy adds nothing to the asks, reports its trades as a buy at its price or below, and joins the bids,
      if at all, under its own id, trader and price. */
  lemma BuyBytes(s: State, c: Command)
    requires WellFormed(s.book) && c.kind == 0 && c.side == 0 && VerdictOn(s, c) == Accepted
    ensures var b, b' := s.book, Apply(s, c).book;
      && |b'.asks| <= |b.asks|
      && (forall o :: o in b'.asks ==>
            exists p :: p in b.asks && o == p.(remaining := o.remaining) && o.remaining <= p.remaining)
      && (forall trade :: trade in Prints(s, c) ==>
            && trade.takerSide == Buy && trade.takerId == c.id && trade.takerTrader == c.trader
            && trade.price <= c.price)
      && (forall o :: o in b.bids ==> o in b'.bids)
      && (forall o :: o in b'.bids && o !in b.bids ==>
            && o == Resting(c.id, c.trader, Buy, c.price, o.quantity, o.quantity, b.nextSeq)
            && 0 < o.quantity <= c.quantity)
      && ((exists o :: o in b'.bids && o !in b.bids) <==> b'.nextSeq > b.nextSeq)
  {
    hide Submit, Apply, VerdictOn, WellFormed;
    CommandBytes(s, c);
    BuyTerms(s.book, Taker(c.id, c.trader, Buy, c.price), c.quantity);
  }

  lemma SellTerms(b: Book, t: Taker, quantity: Quantity)
    requires WellFormed(b) && t.side == Sell
    ensures var out := Submit(b, t, quantity);
      && |out.book.bids| <= |b.bids|
      && (forall o :: o in out.book.bids ==>
            exists p :: p in b.bids && o == p.(remaining := o.remaining) && o.remaining <= p.remaining)
      && (forall trade :: trade in out.trades ==>
            && trade.takerSide == Sell && trade.takerId == t.id && trade.takerTrader == t.trader
            && trade.price >= t.limit)
      && (forall o :: o in b.asks ==> o in out.book.asks)
      && (forall o :: o in out.book.asks && o !in b.asks ==>
            && o == Resting(t.id, t.trader, Sell, t.limit, o.quantity, o.quantity, b.nextSeq)
            && 0 < o.quantity <= quantity)
      && ((exists o :: o in out.book.asks && o !in b.asks) <==> out.book.nextSeq > b.nextSeq)
  {
    hide Submit, WellFormed;
    var k := BookTerms.FarTerms(b, t, quantity);
    BookTerms.NearTerms(b, t, quantity);
    BookTerms.TradeTerms(b, t, quantity);
    BookTerms.RejectTerms(b, t, quantity);
    BookTerms.WellFormedTerms(b);
    var left := Submit(b, t, quantity).book.bids;
    forall o | o in left
      ensures exists p :: p in b.bids && o == p.(remaining := o.remaining) && o.remaining <= p.remaining
    {
      var i :| 0 <= i < |left| && left[i] == o;
      assert b.bids[k + i] in b.bids;
    }
  }

  lemma BuyTerms(b: Book, t: Taker, quantity: Quantity)
    requires WellFormed(b) && t.side == Buy
    ensures var out := Submit(b, t, quantity);
      && |out.book.asks| <= |b.asks|
      && (forall o :: o in out.book.asks ==>
            exists p :: p in b.asks && o == p.(remaining := o.remaining) && o.remaining <= p.remaining)
      && (forall trade :: trade in out.trades ==>
            && trade.takerSide == Buy && trade.takerId == t.id && trade.takerTrader == t.trader
            && trade.price <= t.limit)
      && (forall o :: o in b.bids ==> o in out.book.bids)
      && (forall o :: o in out.book.bids && o !in b.bids ==>
            && o == Resting(t.id, t.trader, Buy, t.limit, o.quantity, o.quantity, b.nextSeq)
            && 0 < o.quantity <= quantity)
      && ((exists o :: o in out.book.bids && o !in b.bids) <==> out.book.nextSeq > b.nextSeq)
  {
    hide Submit, WellFormed;
    var k := BookTerms.FarTerms(b, t, quantity);
    BookTerms.NearTerms(b, t, quantity);
    BookTerms.TradeTerms(b, t, quantity);
    BookTerms.RejectTerms(b, t, quantity);
    BookTerms.WellFormedTerms(b);
    var left := Submit(b, t, quantity).book.asks;
    forall o | o in left
      ensures exists p :: p in b.asks && o == p.(remaining := o.remaining) && o.remaining <= p.remaining
    {
      var i :| 0 <= i < |left| && left[i] == o;
      assert b.asks[k + i] in b.asks;
    }
  }

  /** The operator's events: the switch takes the value given, a gate put in is new, and a journal start changes
      nothing. */
  lemma OperatorTerms(s: State, e: Event)
    ensures e.Kill? && s.risk.Some? ==>
              Happen(s, e) == s.(risk := Some(Risk(s.risk.value.config, e.on, s.risk.value.seen, s.risk.value.metrics)))
    ensures e.Kill? && s.risk.None? ==> Happen(s, e) == s
    ensures e.Install? ==>
              Happen(s, e) == s.(risk := Some(Risk(e.config, false, {}, Metrics(0, 0, 0, 0, 0, 0))))
    ensures e.StartLog? ==> Happen(s, e) == s
  {
  }

  /** The trades of a session are those of its commands, in order. */
  lemma {:induction false} TradesTerms(s: State, es: seq<Event>, e: Event)
    ensures SessionTrades(s, []) == []
    ensures SessionTrades(s, es + [e])
         == SessionTrades(s, es) + if e.Do? then Prints(Session(s, es), e.command) else []
    decreases |es|
  {
    hide Happen, Prints;
    if es == [] {
      assert [] + [e] == [e] && [e][1..] == [];
      assert SessionTrades(Happen(s, e), []) == [];
    } else {
      var s' := Happen(s, es[0]);
      ConcatTail(es, [e]);
      TradesTerms(s', es[1..], e);
      Regroup(if es[0].Do? then Prints(s, es[0].command) else [], SessionTrades(s', es[1..]),
              if e.Do? then Prints(Session(s, es), e.command) else []);
    }
  }
}
