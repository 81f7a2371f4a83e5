/** What the engine does with one command, whole sessions of events, and their accounting. */
module Engine {
  import opened Types
  import opened BookSpec
  import opened BookLaws
  import opened RiskControls

  datatype Stats = Stats(commands: nat, submits: nat, cancels: nat, trades: nat)

  datatype State = State(book: Book, risk: Option<Risk>, stats: Stats)

  function Start(policy: SelfTradePolicy, config: Option<RiskConfig>): State {
    State(Empty(policy), if config.Some? then Some(Fresh(config.value)) else None, Stats(0, 0, 0, 0))
  }

  function TakerOf(c: Command): Taker {
    Taker(c.id, c.trader, SideOfByte(c.side), c.price)
  }

  /** The collar anchors on the opposite touch. */
  function Reference(b: Book, side: Side): Option<Price> {
    BestPrice(SideOf(b, Opposite(side)))
  }

  function VerdictOn(s: State, c: Command): RejectReason {
    if s.risk.None? then Accepted
    else Verdict(s.risk.value, c.id, c.price, c.quantity, Reference(s.book, SideOfByte(c.side)))
  }

  function Gated(s: State, c: Command): Option<Risk> {
    if s.risk.None? then None else Some(After(s.risk.value, c.id, VerdictOn(s, c)))
  }

  /** The trades a command prints. */
  function Prints(s: State, c: Command): seq<Trade> {
    if c.kind == SUBMIT && VerdictOn(s, c) == Accepted then Submit(s.book, TakerOf(c), c.quantity).trades else []
  }

  function Apply(s: State, c: Command): State {
    if c.kind == SUBMIT then
      if VerdictOn(s, c) != Accepted then
        s.(risk := Gated(s, c), stats := s.stats.(commands := s.stats.commands + 1))
      else
        State(Submit(s.book, TakerOf(c), c.quantity).book, Gated(s, c),
              Stats(s.stats.commands + 1, s.stats.submits + 1, s.stats.cancels, s.stats.trades + |Prints(s, c)|))
    else if c.kind == CANCEL then
      s.(book := Cancel(s.book, c.id).0,
         stats := s.stats.(commands := s.stats.commands + 1, cancels := s.stats.cancels + 1))
    else s
  }

  function Fold(s: State, cs: seq<Command>): State
    decreases |cs|
  {
    if cs == [] then s else Fold(Apply(s, cs[0]), cs[1..])
  }

  lemma {:induction false} FoldConcat(s: State, xs: seq<Command>, ys: seq<Command>)
    ensures Fold(s, xs + ys) == Fold(Fold(s, xs), ys)
    decreases |xs|
  {
    hide Apply;
    if xs == [] {
      assert xs + ys == ys;
    } else {
      FoldConcat(Apply(s, xs[0]), xs[1..], ys);
      assert (xs + ys)[1..] == xs[1..] + ys;
    }
  }

  // ---- Sessions ------------------------------------------------------------------------------------------------

  /** What can happen to an engine: a command, the operator working the kill switch, a risk gate put in, in the place of
      the one there is, if any, or a journal started, in the place of the one there is, if any. */
  datatype Event = Do(command: Command) | Kill(on: bool) | Install(config: RiskConfig) | StartLog

  function Happen(s: State, e: Event): State {
    match e
    case Do(c) => Apply(s, c)
    case Kill(on) => if s.risk.Some? then s.(risk := Some(s.risk.value.(killed := on))) else s
    case Install(config) => s.(risk := Some(Fresh(config)))
    case StartLog => s
  }

  predicate Submits(e: Event) {
    e.Do? && e.command.kind == SUBMIT
  }

  predicate Installs(es: seq<Event>) {
    exists i :: 0 <= i < |es| && es[i].Install?
  }

  /** The configuration of the gate at the end of a session that starts with gate `gate`. */
  function GateAfter(gate: Option<RiskConfig>, es: seq<Event>): Option<RiskConfig>
    decreases |es|
  {
    if es == [] then gate else GateAfter(if es[0].Install? then Some(es[0].config) else gate, es[1..])
  }

  /** A gate is put in after a submit. */
  predicate LateGate(es: seq<Event>) {
    exists i, j :: 0 <= i < j < |es| && Submits(es[i]) && es[j].Install?
  }

  lemma InstallsTail(es: seq<Event>)
    ensures Installs(es) <==> es != [] && (es[0].Install? || Installs(es[1..]))
  {
    if Installs(es) && !es[0].Install? {
      var i :| 0 <= i < |es| && es[i].Install?;
      assert es[1..][i - 1].Install?;
    }
    if es != [] && Installs(es[1..]) {
      var i :| 0 <= i < |es[1..]| && es[1..][i].Install?;
      assert es[i + 1].Install?;
    }
  }

  lemma LateGateTail(es: seq<Event>)
    ensures LateGate(es) <==> es != [] && ((Submits(es[0]) && Installs(es[1..])) || LateGate(es[1..]))
  {
    if LateGate(es) {
      var i, j :| 0 <= i < j < |es| && Submits(es[i]) && es[j].Install?;
      assert es[1..][j - 1].Install?;
      assert i > 0 ==> Submits(es[1..][i - 1]);
    }
    if es == [] {
      return;
    }
    if Submits(es[0]) && Installs(es[1..]) {
      var j :| 0 <= j < |es[1..]| && es[1..][j].Install?;
      assert es[j + 1].Install?;
    }
    if LateGate(es[1..]) {
      var i, j :| 0 <= i < j < |es[1..]| && Submits(es[1..][i]) && es[1..][j].Install?;
      assert Submits(es[i + 1]) && es[j + 1].Install?;
    }
  }

  lemma {:induction false} GateInForce(s: State, es: seq<Event>, gate: Option<RiskConfig>)
    requires gate == (if s.risk.Some? then Some(s.risk.value.config) else None)
    ensures var r := Session(s, es).risk; GateAfter(gate, es) == if r.Some? then Some(r.value.config) else None
    decreases |es|
  {
    hide Submit, Cancel, Verdict, Installs, LateGate;
    if es != [] {
      GateInForce(Happen(s, es[0]), es[1..], if es[0].Install? then Some(es[0].config) else gate);
    }
  }

  lemma {:induction false} InstalledGate(gate: Option<RiskConfig>, es: seq<Event>)
    ensures Installs(es) ==> GateAfter(gate, es).Some?
    ensures !Installs(es) ==> GateAfter(gate, es) == gate
    decreases |es|
  {
    hide Installs;
    InstallsTail(es);
    if es != [] {
      InstalledGate(if es[0].Install? then Some(es[0].config) else gate, es[1..]);
    }
  }

  function Session(s: State, es: seq<Event>): State
    decreases |es|
  {
    if es == [] then s else Session(Happen(s, es[0]), es[1..])
  }

  lemma {:induction false} SessionConcat(s: State, xs: seq<Event>, ys: seq<Event>)
    ensures Session(s, xs + ys) == Session(Session(s, xs), ys)
    decreases |xs|
  {
    hide Happen;
    if xs == [] {
      assert xs + ys == ys;
    } else {
      SessionConcat(Happen(s, xs[0]), xs[1..], ys);
      assert (xs + ys)[1..] == xs[1..] + ys;
    }
  }

  /** A session one event further. */
  lemma SessionSnoc(s: State, es: seq<Event>, i: nat)
    requires i < |es|
    ensures Session(s, es[..i + 1]) == Happen(Session(s, es[..i]), es[i])
  {
    hide Happen;
    SessionConcat(s, es[..i], [es[i]]);
    assert es[..i + 1] == es[..i] + [es[i]] && [es[i]][1..] == [];
    assert Session(Session(s, es[..i]), [es[i]]) == Session(Happen(Session(s, es[..i]), es[i]), []);
  }

  /** The trades a session prints, in order. */
  function SessionTrades(s: State, es: seq<Event>): seq<Trade>
    decreases |es|
  {
    if es == [] then []
    else (if es[0].Do? then Prints(s, es[0].command) else []) + SessionTrades(Happen(s, es[0]), es[1..])
  }

  /** The ids the gate accepts, in order. */
  function AcceptedIds(s: State, es: seq<Event>): seq<OrderId>
    decreases |es|
  {
    if es == [] then []
    else (if es[0].Do? && es[0].command.kind == SUBMIT && VerdictOn(s, es[0].command) == Accepted
          then [es[0].command.id] else [])
         + AcceptedIds(Happen(s, es[0]), es[1..])
  }

  /** The submits a gate rejects. */
  function Rejections(s: State, es: seq<Event>): nat
    decreases |es|
  {
    if es == [] then 0
    else (if Submits(es[0]) && VerdictOn(s, es[0].command) != Accepted then 1 else 0)
         + Rejections(Happen(s, es[0]), es[1..])
  }

  function SubmitCount(es: seq<Event>): nat {
    if es == [] then 0 else (if Submits(es[0]) then 1 else 0) + SubmitCount(es[1..])
  }

  /** The gate's own counters account for every counted command. */
  predicate Balanced(s: State) {
    && s.risk.Some?
    && s.stats.commands == s.stats.submits + s.stats.cancels + s.risk.value.metrics.TotalRejected()
    && s.risk.value.metrics.accepted == s.stats.submits
  }

  lemma {:induction false} SessionCounts(s: State, es: seq<Event>)
    ensures var s' := Session(s, es);
      && s'.stats.commands + s.stats.submits + s.stats.cancels
           == s.stats.commands + s'.stats.submits + s'.stats.cancels + Rejections(s, es)
      && s'.stats.submits == s.stats.submits + |AcceptedIds(s, es)|
      && s'.stats.trades == s.stats.trades + |SessionTrades(s, es)|
      && SubmitCount(es) == |AcceptedIds(s, es)| + Rejections(s, es)
    decreases |es|
  {
    hide Submit, Cancel, Verdict, Installs, LateGate;
    if es != [] {
      SessionCounts(Happen(s, es[0]), es[1..]);
    }
  }

  function Checked(r: Risk): nat {
    r.metrics.accepted + r.metrics.TotalRejected()
  }

  /** A gate counts one verdict for every submit, and nothing else. */
  lemma GateStep(s: State, e: Event)
    requires s.risk.Some? && !e.Install?
    ensures var r, r' := s.risk.value, Happen(s, e).risk;
      && r'.Some?
      && r'.value.config == r.config
      && (if Submits(e) then CountedOnce(r.metrics, r'.value.metrics, VerdictOn(s, e.command))
          else r'.value.metrics == r.metrics)
      && Checked(r'.value) == Checked(r) + (if Submits(e) then 1 else 0)
  {
    hide Submit, Cancel, Verdict;
  }

  lemma FreshCounts(s: State, config: RiskConfig)
    ensures var r := Happen(s, Install(config)).risk; r.Some? && Checked(r.value) == 0
  {
  }

  predicate CountedOnce(m: Metrics, m': Metrics, reason: RejectReason) {
    && m'.accepted == m.accepted + (if reason == Accepted then 1 else 0)
    && m'.TotalRejected() == m.TotalRejected() + (if reason == Accepted then 0 else 1)
    && m'.killSwitch == m.killSwitch + (if reason == KillSwitch then 1 else 0)
  }

  /** A gate counts every submit since it was put in. */
  lemma {:induction false} GateCounts(s: State, es: seq<Event>)
    requires s.risk.Some? || Installs(es)
    ensures var r := Session(s, es).risk;
      && r.Some?
      && (!Installs(es) ==> Checked(r.value) == Checked(s.risk.value) + SubmitCount(es))
      && (Installs(es) ==> Checked(r.value) <= SubmitCount(es))
      && (Installs(es) ==> (LateGate(es) <==> Checked(r.value) < SubmitCount(es)))
    decreases |es|
  {
    hide Apply, Checked, CountedOnce, VerdictOn, Installs, LateGate;
    InstallsTail(es);
    LateGateTail(es);
    if es != [] {
      if es[0].Install? {
        FreshCounts(s, es[0].config);
      } else if s.risk.Some? {
        GateStep(s, es[0]);
      }
      if s.risk.Some? || es[0].Install? || Installs(es[1..]) {
        GateCounts(Happen(s, es[0]), es[1..]);
      }
      if !Installs(es[1..]) {
        NotLate(es[1..]);
      }
    }
  }

  lemma NotLate(es: seq<Event>)
    requires !Installs(es)
    ensures !LateGate(es)
  {
  }

  lemma {:induction false} GateBalances(s: State, es: seq<Event>)
    requires !Installs(es) && s.risk.Some?
    ensures var r, r' := s.risk.value, Session(s, es).risk;
      && r'.Some?
      && r'.value.metrics.accepted == r.metrics.accepted + |AcceptedIds(s, es)|
      && r'.value.metrics.TotalRejected() == r.metrics.TotalRejected() + Rejections(s, es)
    decreases |es|
  {
    hide Apply, VerdictOn, Installs, LateGate;
    InstallsTail(es);
    if es != [] {
      GateStep(s, es[0]);
      GateBalances(Happen(s, es[0]), es[1..]);
    }
  }

  /** As long as a gate is put in before the first submit, its counters are those of the session. */
  lemma {:induction false} EarlyGateBalances(s: State, es: seq<Event>)
    requires Installs(es) && !LateGate(es)
    ensures var r := Session(s, es).risk;
      && r.Some?
      && r.value.metrics.accepted == |AcceptedIds(s, es)|
      && r.value.metrics.TotalRejected() == Rejections(s, es)
    decreases |es|
  {
    hide Submit, Cancel, Verdict, Installs, LateGate;
    InstallsTail(es);
    LateGateTail(es);
    if Installs(es[1..]) {
      EarlyGateBalances(Happen(s, es[0]), es[1..]);
    } else {
      GateBalances(Happen(s, es[0]), es[1..]);
    }
  }

  /** Whole-session accounting, whatever the kill switch does. Every counted command was submitted to the book,
      cancelled or rejected. The counters of the gate agree with this exactly when no gate was put in after a submit:
      they start from zero with the gate. */
  lemma SessionAccounting(policy: SelfTradePolicy, gate: Option<RiskConfig>, es: seq<Event>)
    ensures var start := Start(policy, gate);
      var s := Session(start, es);
      && s.stats.commands == s.stats.submits + s.stats.cancels + Rejections(start, es)
      && s.stats.submits == |AcceptedIds(start, es)|
      && s.stats.trades == |SessionTrades(start, es)|
      && (GateAfter(gate, es).Some? ==> (Balanced(s) <==> !LateGate(es)))
  {
    hide Apply, Session, Fold, Installs, LateGate;
    var start := Start(policy, gate);
    SessionCounts(start, es);
    InstalledGate(gate, es);
    if GateAfter(gate, es).Some? {
      GateCounts(start, es);
      if Installs(es) {
        if !LateGate(es) {
          EarlyGateBalances(start, es);
        }
      } else {
        NotLate(es);
        GateBalances(start, es);
      }
    }
  }

  // ---- An order to try things with -------------------------------------------------------------------------------

  const BUY_FIVE := Command(SUBMIT, 0, 1, 7, 0, 100, 5, 0)

  lemma BuyRests(policy: SelfTradePolicy, gate: Option<RiskConfig>)
    requires gate.Some? ==> gate.value == RiskConfig(0, 0, 0, true)
    ensures VerdictOn(Start(policy, gate), BUY_FIVE) == Accepted
    ensures Happen(Start(policy, gate), Do(BUY_FIVE)).book == Book(policy, [Resting(1, 7, Buy, 100, 5, 5, 1)], [], 2)
  {
  }
}
