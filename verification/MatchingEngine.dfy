/** The mutable engine: book, optional risk gate, optional journal and counters, proved to compute Engine.Apply. */
module MatchingEngines {
  import opened Types
  import opened BookSpec
  import opened BookLaws
  import opened OrderBooks
  import opened RiskControls
  import opened EventLogs
  import Engine
  import Replays

  class MatchingEngine {
    const host: Host
    const book: OrderBook
    var risk: RiskManager?
    var log: EventLogWriter?
    var commands: nat
    var submits: nat
    var cancels: nat
    var trades: nat

    ghost predicate Valid()
      reads this, book, book.bids, book.asks, book.index, book.pool, book.bids.levels, book.asks.levels,
        book.bids.nodes, book.asks.nodes, book.pool.free, book.pool.live
    {
      book.Valid() && (log != null ==> log.host == host)
    }

    ghost function State(): Engine.State
      reads this, book, book.bids, book.asks, (if risk == null then {} else {risk})
    {
      Engine.State(book.Abs(), if risk == null then None else Some(risk.State()),
                   Engine.Stats(commands, submits, cancels, trades))
    }

    /** What is in the file of the journal, if there is one. */
    ghost function Journal(): Option<seq<U8>>
      reads this, (if log == null then {} else {log})
    {
      if log == null then None else Some(log.out)
    }

    constructor (host: Host, policy: SelfTradePolicy, poolCapacity: U64, hash: OrderId -> U64)
      ensures Valid() && State() == Engine.Start(policy, None) && log == null && this.host == host
      ensures fresh(book) && fresh(book.bids) && fresh(book.asks) && fresh(book.index) && fresh(book.pool)
      ensures fresh(book.pool.slots) && book.bids.levels == [] && book.asks.levels == [] && risk == null
    {
      hide *;
      this.host := host;
      book := new OrderBook(policy, poolCapacity, hash);
      risk, log := null, null;
      commands, submits, cancels, trades := 0, 0, 0, 0;
      new;
      StartsEmpty(policy);
    }

    lemma StartsEmpty(policy: SelfTradePolicy)
      requires book.Valid() && book.Abs() == Empty(policy) && risk == null
      requires log == null && commands == 0 && submits == 0 && cancels == 0 && trades == 0
      ensures Valid() && State() == Engine.Start(policy, None)
    {
    }

    /** Puts a risk gate in, in the place of the one there is, if any. */
    method EnableRisk(config: RiskConfig)
      modifies `risk
      ensures risk != null && fresh(risk)
      ensures State() == Engine.Happen(old(State()), Engine.Install(config))
    {
      risk := new RiskManager(config);
    }

    /** Works the kill switch of the gate, if there is one. */
    method EngageKillSwitch(on: bool)
      modifies (if risk == null then {} else {risk})
      ensures State() == Engine.Happen(old(State()), Engine.Kill(on))
    {
      if risk != null {
        risk.EngageKillSwitch(on);
      }
    }

    /** Starts a journal, in the place of the one there is, if any. */
    method EnableLogging()
      requires Valid()
      modifies `log
      ensures Valid() && log != null && fresh(log) && Journal() == Some(Header(host))
      ensures State() == old(State())
    {
      hide OrderBook.Valid, OrderBook.Abs, Header;
      log := new EventLogWriter(host);
    }

    /** Journals the command as received, then gates and executes it; returns how many trades it produced. */
    method Apply(c: Command) returns (produced: nat)
      requires Valid()
      modifies this, (if risk == null then {} else {risk}), (if log == null then {} else {log})
      modifies book, book.bids, book.asks, book.index, book.pool, book.bids.levels, book.asks.levels, book.pool.slots
      ensures Valid() && book.Grown() && risk == old(risk) && log == old(log)
      ensures State() == Engine.Apply(old(State()), c)
      ensures produced == |Engine.Prints(old(State()), c)|
      ensures produced > 0 ==> book.trades == Engine.Prints(old(State()), c)
      ensures Journal() == Replays.WriteOne(host, old(Journal()), Engine.Do(c))
    {
      hide State, OrderBook.Valid, Engine.VerdictOn, Engine.Gated, Submit, Cancel, Body, RecordAt, Journalled;
      NothingJournalled(host, if log == null then [] else log.out, c);
      if log != null && c.kind != SHUTDOWN {
        log.Append(c);
      }
      produced := Execute(c);
    }

    /** A command, once it is journalled. */
    method Execute(c: Command) returns (produced: nat)
      requires Valid()
      modifies this, (if risk == null then {} else {risk})
      modifies book, book.bids, book.asks, book.index, book.pool, book.bids.levels, book.asks.levels, book.pool.slots
      ensures Valid() && book.Grown() && risk == old(risk) && log == old(log)
      ensures State() == Engine.Apply(old(State()), c)
      ensures produced == |Engine.Prints(old(State()), c)|
      ensures produced > 0 ==> book.trades == Engine.Prints(old(State()), c)
    {
      hide State, OrderBook.Valid, Engine.VerdictOn, Engine.Gated, Submit, Cancel;
      if c.kind == SUBMIT {
        produced := Admit(c);
      } else if c.kind == CANCEL {
        Withdraw(c.id);
        produced := 0;
      } else {
        produced := 0;
      }
    }

    /** A cancel is counted whether or not the order is there. */
    method Withdraw(id: OrderId)
      requires Valid()
      modifies `cancels, `commands
      modifies book, book.bids, book.asks, book.index, book.pool, book.bids.levels, book.asks.levels, book.pool.slots
      ensures Valid() && book.Grown()
      ensures var s := old(State());
        State() == s.(book := Cancel(s.book, id).0,
                      stats := s.stats.(commands := s.stats.commands + 1, cancels := s.stats.cancels + 1))
    {
      hide OrderBook.Valid, OrderBook.Abs, OrderBook.Grown, Cancel;
      var present := book.Cancel(id);
      cancels := cancels + 1;
      commands := commands + 1;
    }

    /** A submit: the gate, if there is one, and then the book. */
    method Admit(c: Command) returns (produced: nat)
      requires Valid() && c.kind == SUBMIT
      modifies this, (if risk == null then {} else {risk})
      modifies book, book.bids, book.asks, book.index, book.pool, book.bids.levels, book.asks.levels, book.pool.slots
      ensures Valid() && book.Grown() && risk == old(risk) && log == old(log)
      ensures State() == Engine.Apply(old(State()), c)
      ensures produced == |Engine.Prints(old(State()), c)|
      ensures produced > 0 ==> book.trades == Engine.Prints(old(State()), c)
    {
      hide State, OrderBook.Valid, Engine.VerdictOn, Engine.Gated, Submit;
      NoGate(c);
      if risk != null {
        var reason := Check(c);
        if reason != Accepted {
          CountCommand();
          return 0;
        }
      }
      produced := Enter(c);
    }

    /** Without a gate everything is accepted. */
    lemma NoGate(c: Command)
      ensures risk == null ==> Engine.VerdictOn(State(), c) == Accepted && Engine.Gated(State(), c) == State().risk
    {
    }

    method CountCommand()
      modifies `commands
      ensures State() == old(State()).(stats := old(State()).stats.(commands := old(State()).stats.commands + 1))
    {
      commands := commands + 1;
    }

    /** The gate's verdict on a submit. */
    method Check(c: Command) returns (reason: RejectReason)
      requires Valid() && risk != null
      modifies risk
      ensures Valid() && reason == Engine.VerdictOn(old(State()), c)
      ensures State() == old(State()).(risk := Engine.Gated(old(State()), c))
    {
      hide OrderBook.Valid, OrderBook.Abs, Verdict, After;
      var reference := Touch(SideOfByte(c.side));
      reason := risk.Check(c.id, c.price, c.quantity, reference);
    }

    /** An accepted submit reaches the book. */
    method Enter(c: Command) returns (produced: nat)
      requires Valid()
      modifies `submits, `trades, `commands
      modifies book, book.bids, book.asks, book.index, book.pool, book.bids.levels, book.asks.levels, book.pool.slots
      ensures Valid() && book.Grown()
      ensures var s, out := old(State()), Submit(old(State()).book, Engine.TakerOf(c), c.quantity);
        && State() == s.(book := out.book,
                         stats := Engine.Stats(s.stats.commands + 1, s.stats.submits + 1, s.stats.cancels,
                                               s.stats.trades + |out.trades|))
        && produced == |out.trades| && book.trades == out.trades
    {
      hide OrderBook.Valid, OrderBook.Abs, OrderBook.Grown, Submit;
      SubmitCounts(book.Abs(), Engine.TakerOf(c), c.quantity);
      var r := book.Submit(c.id, c.trader, SideOfByte(c.side), c.price, c.quantity);
      submits := submits + 1;
      trades := trades + r.tradeCount;
      commands := commands + 1;
      return r.tradeCount;
    }

    /** The best price a submit on `side` would trade against. */
    method Touch(side: Side) returns (reference: Option<Price>)
      requires Valid()
      ensures reference == Engine.Reference(book.Abs(), side)
    {
      if side == Buy {
        reference := book.BestAsk();
      } else {
        reference := book.BestBid();
      }
    }

    method Show() returns (shown: seq<OrderSnapshot>)
      requires Valid()
      ensures shown == Snapshot(State().book)
    {
      hide OrderBook.Valid, OrderBook.Abs, Snapshot;
      shown := book.Snapshot();
    }

    /** One event of a session, and the trades it prints. */
    method Handle(e: Engine.Event) returns (printed: seq<Trade>)
      requires Valid()
      modifies this, (if risk == null then {} else {risk}), (if log == null then {} else {log})
      modifies book, book.bids, book.asks, book.index, book.pool, book.bids.levels, book.asks.levels, book.pool.slots
      ensures Valid() && book.Grown() && (log == old(log) || fresh(log)) && (risk == old(risk) || fresh(risk))
      ensures State() == Engine.Happen(old(State()), e)
      ensures printed == (if e.Do? then Engine.Prints(old(State()), e.command) else [])
      ensures Journal() == Replays.WriteOne(host, old(Journal()), e)
    {
      hide State, OrderBook.Valid, Body, Engine.Apply, Engine.Prints;
      printed := [];
      match e {
        case Do(c) =>
          var produced := Apply(c);
          printed := if produced > 0 then book.trades else [];
          assert printed == old(Engine.Prints(State(), c));
        case Kill(on) => EngageKillSwitch(on);
        case Install(config) => EnableRisk(config);
        case StartLog => EnableLogging();
      }
    }

    /** A whole session; returns the trades it prints, in order. */
    method Serve(es: seq<Engine.Event>) returns (printed: seq<Trade>)
      requires Valid()
      modifies this, (if risk == null then {} else {risk}), (if log == null then {} else {log})
      modifies book, book.bids, book.asks, book.index, book.pool, book.bids.levels, book.asks.levels, book.pool.slots
      ensures Valid()
      ensures State() == Engine.Session(old(State()), es)
      ensures printed == Engine.SessionTrades(old(State()), es)
      ensures Journal() == Replays.Write(host, old(Journal()), es)
    {
      hide State, Journal, OrderBook.Valid, Engine.Session, Engine.SessionTrades, Engine.Happen, Engine.Prints,
        Replays.Write, Replays.WriteOne;
      printed := [];
      for i := 0 to |es|
        invariant Valid() && book.Grown() && (log == old(log) || fresh(log)) && (risk == old(risk) || fresh(risk))
        invariant Engine.Session(State(), es[i..]) == Engine.Session(old(State()), es)
        invariant printed + Engine.SessionTrades(State(), es[i..]) == Engine.SessionTrades(old(State()), es)
        invariant Replays.Write(host, Journal(), es[i..]) == Replays.Write(host, old(Journal()), es)
      {
        SessionUnfolds(State(), host, Journal(), es, i);
        var some := Handle(es[i]);
        printed := printed + some;
      }
      SessionEnds(State(), host, Journal());
      assert es[|es|..] == [];
    }

    /** Applies a recorded stream. An engine that keeps a journal records it again. */
    method Replay(events: seq<Command>)
      requires Valid()
      modifies this, (if risk == null then {} else {risk}), (if log == null then {} else {log})
      modifies book, book.bids, book.asks, book.index, book.pool, book.bids.levels, book.asks.levels, book.pool.slots
      ensures Valid() && risk == old(risk) && log == old(log)
      ensures State() == Engine.Fold(old(State()), events)
      ensures log != null ==> log.out == old(log.out) + Body(host, events)
    {
      hide State, OrderBook.Valid, Body, Engine.Apply, Engine.Prints;
      EmptyBody(host);
      for i := 0 to |events|
        invariant Valid() && book.Grown() && risk == old(risk) && log == old(log)
        invariant Engine.Fold(State(), events[i..]) == Engine.Fold(old(State()), events)
        invariant log != null ==> log.out == old(log.out) + Body(host, events[..i])
      {
        ReplayStep(events, i);
        var produced := Apply(events[i]);
      }
      assert events[|events|..] == [] && events[..|events|] == events;
    }
  }

  lemma NothingJournalled(host: Host, out: seq<U8>, c: Command)
    ensures c.kind == SHUTDOWN ==> out + Body(host, [c]) == out
  {
    assert [c][1..] == [];
  }

  lemma ReplayStep(events: seq<Command>, i: nat)
    requires i < |events|
    ensures events[i..] != [] && events[i..][0] == events[i] && events[i..][1..] == events[i + 1..]
    ensures forall host: Host :: Body(host, events[..i + 1]) == Body(host, events[..i]) + Body(host, [events[i]])
  {
    hide Body;
    assert events[..i + 1] == events[..i] + [events[i]];
    forall host: Host
      ensures Body(host, events[..i + 1]) == Body(host, events[..i]) + Body(host, [events[i]])
    {
      BodySnoc(host, events[..i], events[i]);
    }
  }

  lemma SessionUnfolds(s: Engine.State, host: Host, file: Option<seq<U8>>, es: seq<Engine.Event>, i: nat)
    requires i < |es|
    ensures var e, rest := es[i], es[i + 1..];
      && Engine.Session(s, es[i..]) == Engine.Session(Engine.Happen(s, e), rest)
      && Engine.SessionTrades(s, es[i..])
           == (if e.Do? then Engine.Prints(s, e.command) else []) + Engine.SessionTrades(Engine.Happen(s, e), rest)
      && Replays.Write(host, file, es[i..]) == Replays.Write(host, Replays.WriteOne(host, file, e), rest)
  {
    hide Engine.Happen, Engine.Prints, Replays.WriteOne;
    assert es[i..][0] == es[i] && es[i..][1..] == es[i + 1..];
  }

  lemma SessionEnds(s: Engine.State, host: Host, file: Option<seq<U8>>)
    ensures Engine.Session(s, []) == s && Engine.SessionTrades(s, []) == [] && Replays.Write(host, file, []) == file
  {
  }

  /** Replays what is left of a journal. */
  method Recover(file: seq<U8>, engine: MatchingEngine) returns (r: ReadResult)
    requires engine.Valid() && engine.log == null
    modifies engine, (if engine.risk == null then {} else {engine.risk})
    modifies engine.book, engine.book.bids, engine.book.asks, engine.book.index, engine.book.pool
    modifies engine.book.bids.levels, engine.book.asks.levels, engine.book.pool.slots
    ensures engine.Valid()
    ensures r == ReadSpec(engine.host, file)
    ensures engine.State() == if r.Events? then Engine.Fold(old(engine.State()), r.events) else old(engine.State())
  {
    hide OrderBook.Valid, OrderBook.Abs, ReadSpec, Engine.Fold;
    r := ReadEventLog(engine.host, file);
    if r.Events? {
      engine.Replay(r.events);
    }
  }

  /** A new engine, with or without a risk gate. */
  method Configured(host: Host, policy: SelfTradePolicy, gate: Option<RiskConfig>, capacity: U64, hash: OrderId -> U64)
    returns (engine: MatchingEngine)
    ensures fresh(engine) && engine.Valid() && engine.State() == Engine.Start(policy, gate) && engine.log == null
    ensures engine.host == host
    ensures engine.risk != null ==> fresh(engine.risk)
    ensures fresh(engine.book) && fresh(engine.book.bids) && fresh(engine.book.asks) && fresh(engine.book.index)
    ensures fresh(engine.book.pool) && fresh(engine.book.pool.slots)
    ensures engine.book.bids.levels == [] && engine.book.asks.levels == []
  {
    hide OrderBook.Valid, OrderBook.Abs;
    engine := new MatchingEngine(host, policy, capacity, hash);
    if gate.Some? {
      engine.EnableRisk(gate.value);
    }
  }

  /** A new engine that recovers from what is left of a journal. */
  method Rebuild(host: Host, policy: SelfTradePolicy, gate: Option<RiskConfig>, capacity: U64, hash: OrderId -> U64,
                 file: seq<U8>)
    returns (engine: MatchingEngine, r: ReadResult)
    ensures fresh(engine) && engine.Valid() && r == ReadSpec(host, file)
    ensures var start := Engine.Start(policy, gate);
      engine.State() == if r.Events? then Engine.Fold(start, r.events) else start
  {
    hide MatchingEngine.Valid, MatchingEngine.State, ReadSpec, Engine.Fold, Engine.Start;
    engine := Configured(host, policy, gate, capacity, hash);
    r := Recover(file, engine);
  }

  /** A session of a new engine: the trades it prints, the book it shows at the end, and the file of its current
      journal, if it started one. */
  method LiveSession(host: Host, policy: SelfTradePolicy, gate: Option<RiskConfig>, capacity: U64, hash: OrderId -> U64,
                     es: seq<Engine.Event>)
    returns (engine: MatchingEngine, printed: seq<Trade>, shown: seq<OrderSnapshot>, file: Option<seq<U8>>)
    ensures fresh(engine) && engine.Valid()
    ensures engine.State() == Engine.Session(Engine.Start(policy, gate), es)
    ensures printed == Engine.SessionTrades(Engine.Start(policy, gate), es)
    ensures shown == Snapshot(engine.State().book)
    ensures file == if Replays.Starts(es) then Some(Header(host) + Body(host, Replays.Logged(es))) else None
  {
    hide MatchingEngine.Valid, MatchingEngine.State, Engine.Session, Engine.SessionTrades, Header, Body,
      Replays.Logged, Replays.Starts, Replays.Write, Snapshot;
    engine := Configured(host, policy, gate, capacity, hash);
    printed := engine.Serve(es);
    shown := engine.Show();
    file := if engine.log == null then None else Some(engine.log.out);
    Replays.Written(host, None, es);
  }

  /** Crash recovery end to end: a session that started a journal at some time, or several, the file of the last one cut
      off anywhere beyond the header, and a second engine that recovers from what is left. It reaches the state of a
      replay of the commands whose records are complete, whatever the pool capacities and hash functions. That is, up to
      the kill switch, the state the live engine had after the first `q` events, exactly under the condition of
      `ReplayExact` on those. With the whole file, those are all the events. */
  method CrashAndRecover(host: Host, policy: SelfTradePolicy, gate: Option<RiskConfig>, es: seq<Engine.Event>, len: nat,
                         replayPolicy: SelfTradePolicy, replayGate: Option<RiskConfig>,
                         capacityA: U64, hashA: OrderId -> U64, capacityB: U64, hashB: OrderId -> U64)
    returns (live: MatchingEngine, rebuilt: MatchingEngine, ghost q: nat)
    requires Replays.Starts(es) && 8 <= len <= 8 + |Body(host, Replays.Logged(es))|
    ensures live.Valid() && rebuilt.Valid() && live != rebuilt
    ensures live.State() == Engine.Session(Engine.Start(policy, gate), es)
    ensures q <= |es| && Replays.Current(es, q) && |Journalled(Replays.Logged(es[..q]))| == (len - 8) / RECORD_SIZE
    ensures len == 8 + |Body(host, Replays.Logged(es))| ==> q == |es|
    ensures rebuilt.State() == Engine.Fold(Engine.Start(replayPolicy, replayGate), Replays.Logged(es[..q]))
    ensures Replays.Released(Engine.Session(Engine.Start(policy, gate), es[..q])) == rebuilt.State()
       <==> replayPolicy == policy && Engine.GateAfter(gate, es[..q]) == replayGate && !Engine.LateGate(es[..q])
            && Replays.Halted(Engine.Start(policy, gate), es[..q]) == 0 && !Replays.LateLog(es[..q])
  {
    hide MatchingEngine.Valid, MatchingEngine.State, Engine.Start, Engine.Fold, Engine.Session, Engine.SessionTrades,
      Header, Body, Journalled, ReadSpec, Replays.Logged, Replays.Starts, Replays.Current, Replays.LateLog,
      Engine.GateAfter, Engine.LateGate, Replays.Halted, Replays.Released, Snapshot;
    var printed, shown, file;
    live, printed, shown, file := LiveSession(host, policy, gate, capacityA, hashA, es);
    q := Replays.SessionRecovery(host, Engine.Start(replayPolicy, replayGate), es, len);
    Replays.ReplayExact(policy, gate, es[..q], replayPolicy, replayGate);
    var r;
    rebuilt, r := Rebuild(host, replayPolicy, replayGate, capacityB, hashB, file.value[..len]);
  }

  /** Two engines of the same configuration, whatever their pool capacities and hash functions, are in the same state
      after the same session, and have printed the same trades, shown the same book and left the same journal. */
  method Replicate(host: Host, policy: SelfTradePolicy, gate: Option<RiskConfig>, es: seq<Engine.Event>,
                   capacityA: U64, hashA: OrderId -> U64, capacityB: U64, hashB: OrderId -> U64)
    returns (a: MatchingEngine, b: MatchingEngine, printedA: seq<Trade>, printedB: seq<Trade>,
             shownA: seq<OrderSnapshot>, shownB: seq<OrderSnapshot>, fileA: Option<seq<U8>>, fileB: Option<seq<U8>>)
    ensures a != b && a.Valid() && b.Valid()
    ensures a.State() == b.State() == Engine.Session(Engine.Start(policy, gate), es)
    ensures printedA == printedB == Engine.SessionTrades(Engine.Start(policy, gate), es)
    ensures shownA == shownB && fileA == fileB
  {
    hide MatchingEngine.Valid, MatchingEngine.State, Engine.Start, Engine.Session, Engine.SessionTrades, Header, Body,
      Replays.Logged, Replays.Starts, Snapshot;
    a, printedA, shownA, fileA := LiveSession(host, policy, gate, capacityA, hashA, es);
    b, printedB, shownB, fileB := LiveSession(host, policy, gate, capacityB, hashB, es);
  }
}
