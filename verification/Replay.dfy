/** What replaying a journal reproduces of a session, and recovery from what is left of one. */
module Replays {
  import opened Types
  import opened BookSpec
  import opened RiskControls
  import opened EventLogs
  import opened Engine

  // ---- What replay reproduces ------------------------------------------------------------------------------------

  /** The commands of a session; neither the kill switch nor the gate leaves a trace in a journal. */
  function Commands(es: seq<Event>): seq<Command> {
    if es == [] then [] else (if es[0].Do? then [es[0].command] else []) + Commands(es[1..])
  }

  /** The submits that find the switch engaged. */
  function Halted(s: State, es: seq<Event>): nat
    decreases |es|
  {
    if es == [] then 0
    else (if Submits(es[0]) && s.risk.Some? && s.risk.value.killed then 1 else 0) + Halted(Happen(s, es[0]), es[1..])
  }

  function Released(s: State): State {
    if s.risk.Some? then s.(risk := Some(s.risk.value.(killed := false))) else s
  }

  lemma CommandsTail(es: seq<Event>)
    requires es != []
    ensures es[0].Do? ==>
              Commands(es) != [] && Commands(es)[0] == es[0].command && Commands(es)[1..] == Commands(es[1..])
    ensures !es[0].Do? ==> Commands(es) == Commands(es[1..])
  {
  }

  lemma CommandsCons(es: seq<Event>)
    requires es != []
    ensures Commands(es) == (if es[0].Do? then [es[0].command] else []) + Commands(es[1..])
  {
  }

  lemma {:induction false} CommandsConcat(xs: seq<Event>, ys: seq<Event>)
    ensures Commands(xs + ys) == Commands(xs) + Commands(ys)
    decreases |xs|
  {
    if xs == [] {
      assert xs + ys == ys && Commands(xs) == [];
    } else {
      hide Commands;
      CommandsCons(xs);
      CommandsCons(xs + ys);
      ConcatTail(xs, ys);
      CommandsConcat(xs[1..], ys);
      Regroup(if xs[0].Do? then [xs[0].command] else [], Commands(xs[1..]), Commands(ys));
    }
  }

  lemma {:induction false} HaltedCounted(s: State, es: seq<Event>)
    requires !Installs(es) && s.risk.Some?
    ensures Session(s, es).risk.Some?
    ensures Session(s, es).risk.value.metrics.killSwitch == s.risk.value.metrics.killSwitch + Halted(s, es)
    decreases |es|
  {
    hide Submit, Cancel, Installs, LateGate;
    InstallsTail(es);
    if es != [] {
      HaltedCounted(Happen(s, es[0]), es[1..]);
    }
  }

  lemma {:induction false} EarlyGateHalts(s: State, es: seq<Event>)
    requires Installs(es) && !LateGate(es)
    ensures Session(s, es).risk.Some? && Session(s, es).risk.value.metrics.killSwitch == Halted(s, es)
    decreases |es|
  {
    hide Submit, Cancel, Installs, LateGate;
    InstallsTail(es);
    LateGateTail(es);
    if Installs(es[1..]) {
      EarlyGateHalts(Happen(s, es[0]), es[1..]);
    } else {
      HaltedCounted(Happen(s, es[0]), es[1..]);
    }
  }

  lemma {:induction false} UngatedNeverHalts(s: State, es: seq<Event>)
    requires s.risk.None? && !Installs(es)
    ensures Halted(s, es) == 0
    decreases |es|
  {
    hide Submit, Cancel, Verdict, Installs, LateGate;
    InstallsTail(es);
    if es != [] {
      UngatedNeverHalts(Happen(s, es[0]), es[1..]);
    }
  }

  lemma NotHalted(s: State, c: Command)
    requires s.risk.Some? && !s.risk.value.killed
    ensures VerdictOn(s, c) != KillSwitch
    ensures Apply(s, c) == Happen(s, Do(c)) && Apply(s, c).risk.Some? && !Apply(s, c).risk.value.killed
  {
    hide Submit, Cancel;
  }

  /** A replay has the switch released throughout and its gate, if any, checks every submit. */
  lemma {:induction false} FoldNeverHalts(s: State, es: seq<Event>)
    requires s.risk.Some? && !s.risk.value.killed
    ensures var r := Fold(s, Commands(es)).risk;
      && r.Some?
      && r.value.config == s.risk.value.config
      && r.value.metrics.killSwitch == s.risk.value.metrics.killSwitch
      && Checked(r.value) == Checked(s.risk.value) + SubmitCount(es)
    decreases |es|
  {
    hide Apply, VerdictOn, Installs, LateGate;
    if es != [] {
      CommandsTail(es);
      if es[0].Do? {
        GateStep(s, es[0]);
        NotHalted(s, es[0].command);
      }
      FoldNeverHalts(if es[0].Do? then Apply(s, es[0].command) else s, es[1..]);
    }
  }

  lemma {:induction false} UngatedFolds(s: State, cs: seq<Command>)
    requires s.risk.None?
    ensures Fold(s, cs).risk.None?
    decreases |cs|
  {
    hide Submit, Cancel, Verdict, Installs, LateGate;
    if cs != [] {
      UngatedFolds(Apply(s, cs[0]), cs[1..]);
    }
  }

  lemma {:induction false} UnhaltedFolds(s: State, es: seq<Event>)
    requires !Installs(es) && Halted(s, es) == 0
    ensures Released(Session(s, es)) == Fold(Released(s), Commands(es))
    decreases |es|
  {
    hide Submit, Cancel, Installs, LateGate;
    InstallsTail(es);
    if es != [] {
      CommandsTail(es);
      UnhaltedFolds(Happen(s, es[0]), es[1..]);
    }
  }

  /** Before the first submit a gate has no effect, so the last one might as well have been there all along. */
  lemma {:induction false} EarlyGateFolds(s: State, es: seq<Event>, gate: Option<RiskConfig>)
    requires Installs(es) && !LateGate(es) && Halted(s, es) == 0
    requires GateAfter(gate, es).Some?
    ensures Released(Session(s, es)) == Fold(s.(risk := Some(Fresh(GateAfter(gate, es).value))), Commands(es))
    decreases |es|
  {
    hide Submit, Cancel, Installs, LateGate;
    InstallsTail(es);
    LateGateTail(es);
    CommandsTail(es);
    var s' := Happen(s, es[0]);
    var gate' := if es[0].Install? then Some(es[0].config) else gate;
    var last := Some(Fresh(GateAfter(gate, es).value));
    if Installs(es[1..]) {
      EarlyGateFolds(s', es[1..], gate');
      assert es[0].Do? ==> s'.(risk := last) == Apply(s.(risk := last), es[0].command);
    } else {
      InstalledGate(gate', es[1..]);
      UnhaltedFolds(s', es[1..]);
    }
  }

  /** Replaying all the commands of a session reproduces it, but for the switch itself, exactly when the replaying
      engine has the gate the session ended with, no gate was put in after a submit, and no submit arrived while the
      switch was engaged. */
  lemma CommandsReplay(policy: SelfTradePolicy, gate: Option<RiskConfig>, es: seq<Event>,
                       replayGate: Option<RiskConfig>)
    ensures Released(Session(Start(policy, gate), es)) == Fold(Start(policy, replayGate), Commands(es))
       <==> GateAfter(gate, es) == replayGate && !LateGate(es) && Halted(Start(policy, gate), es) == 0
  {
    hide Apply, Session, Fold, Installs, LateGate;
    var start, clean := Start(policy, gate), Start(policy, replayGate);
    if GateAfter(gate, es) == replayGate && !LateGate(es) && Halted(start, es) == 0 {
      ReplayReproduces(policy, gate, es);
    }
    if Released(Session(start, es)) == Fold(clean, Commands(es)) {
      ReplayNeeds(policy, gate, es, replayGate);
    }
  }

  lemma ReplayReproduces(policy: SelfTradePolicy, gate: Option<RiskConfig>, es: seq<Event>)
    requires !LateGate(es) && Halted(Start(policy, gate), es) == 0
    ensures Released(Session(Start(policy, gate), es)) == Fold(Start(policy, GateAfter(gate, es)), Commands(es))
  {
    hide Apply, Session, Fold, Installs, LateGate;
    var start := Start(policy, gate);
    InstalledGate(gate, es);
    if Installs(es) {
      EarlyGateFolds(start, es, gate);
      assert start.(risk := Some(Fresh(GateAfter(gate, es).value))) == Start(policy, GateAfter(gate, es));
    } else {
      UnhaltedFolds(start, es);
    }
  }

  lemma ReplayNeeds(policy: SelfTradePolicy, gate: Option<RiskConfig>, es: seq<Event>, replayGate: Option<RiskConfig>)
    requires Released(Session(Start(policy, gate), es)) == Fold(Start(policy, replayGate), Commands(es))
    ensures GateAfter(gate, es) == replayGate && !LateGate(es) && Halted(Start(policy, gate), es) == 0
  {
    hide Apply, Session, Fold, Installs, LateGate;
    var start, clean := Start(policy, gate), Start(policy, replayGate);
    GateInForce(start, es, gate);
    InstalledGate(gate, es);
    if replayGate.None? {
      UngatedFolds(clean, Commands(es));
      UngatedNeverHalts(start, es);
      NotLate(es);
    } else {
      FoldNeverHalts(clean, es);
      GateCounts(start, es);
      if Installs(es) {
        EarlyGateHalts(start, es);
      } else {
        NotLate(es);
        HaltedCounted(start, es);
      }
    }
  }

  // ---- What a journal holds ------------------------------------------------------------------------------------

  predicate Starts(es: seq<Event>) {
    exists i :: 0 <= i < |es| && es[i].StartLog?
  }

  lemma StartsTail(es: seq<Event>)
    ensures Starts(es) <==> es != [] && (es[0].StartLog? || Starts(es[1..]))
  {
    if Starts(es) && !es[0].StartLog? {
      var i :| 0 <= i < |es| && es[i].StartLog?;
      assert es[1..][i - 1].StartLog?;
    }
    if es != [] && Starts(es[1..]) {
      var i :| 0 <= i < |es[1..]| && es[1..][i].StartLog?;
      assert es[i + 1].StartLog?;
    }
  }

  /** The commands since the last start of a journal: those its file records. */
  function Logged(es: seq<Event>): seq<Command> {
    if es == [] then []
    else (if es[0].Do? && !Starts(es[1..]) then [es[0].command] else []) + Logged(es[1..])
  }

  /** The commands ahead of it: those that no file, or only an earlier one, records. */
  function Unlogged(es: seq<Event>): seq<Command> {
    if es == [] then []
    else (if es[0].Do? && Starts(es[1..]) then [es[0].command] else []) + Unlogged(es[1..])
  }

  /** What a journal holds, event by event: a start empties it, a command is added to it, and nothing else
      changes it. */
  lemma LoggedTerms(es: seq<Event>, e: Event)
    ensures Logged([]) == []
    ensures Logged(es + [e]) == if e.StartLog? then [] else if e.Do? then Logged(es) + [e.command] else Logged(es)
  {
    if e.StartLog? {
      JustStarted(es + [e]);
    } else {
      assert !Starts([e]);
      LoggedConcat(es, [e]);
      assert [e][1..] == [];
      assert Commands([e]) == (if e.Do? then [e.command] else []) + [];
      assert Logged(es) + [] == Logged(es);
    }
  }

  predicate Counts(c: Command) {
    c.kind == SUBMIT || c.kind == CANCEL
  }

  function CountOf(cs: seq<Command>): nat {
    if cs == [] then 0 else (if Counts(cs[0]) then 1 else 0) + CountOf(cs[1..])
  }

  /** A journal is started after a submit or a cancel. */
  predicate LateLog(es: seq<Event>) {
    exists i, j :: 0 <= i < j < |es| && es[i].Do? && Counts(es[i].command) && es[j].StartLog?
  }

  lemma LateLogTail(es: seq<Event>)
    ensures LateLog(es)
       <==> es != [] && ((es[0].Do? && Counts(es[0].command) && Starts(es[1..])) || LateLog(es[1..]))
  {
    if LateLog(es) {
      var i, j :| 0 <= i < j < |es| && es[i].Do? && Counts(es[i].command) && es[j].StartLog?;
      assert es[1..][j - 1].StartLog?;
      assert i > 0 ==> es[1..][i - 1] == es[i];
    }
    if es == [] {
      return;
    }
    if es[0].Do? && Counts(es[0].command) && Starts(es[1..]) {
      var j :| 0 <= j < |es[1..]| && es[1..][j].StartLog?;
      assert es[j + 1].StartLog?;
    }
    if LateLog(es[1..]) {
      var i, j :| 0 <= i < j < |es[1..]| && es[1..][i].Do? && Counts(es[1..][i].command) && es[1..][j].StartLog?;
      assert es[i + 1] == es[1..][i] && es[j + 1].StartLog?;
    }
  }

  lemma {:induction false} NeverStarted(es: seq<Event>)
    requires !Starts(es)
    ensures Logged(es) == Commands(es) && Unlogged(es) == [] && !LateLog(es)
    decreases |es|
  {
    hide Starts, LateLog;
    StartsTail(es);
    LateLogTail(es);
    if es != [] {
      NeverStarted(es[1..]);
    }
  }

  /** A journal records a suffix of the commands. */
  lemma {:induction false} SplitLog(es: seq<Event>)
    ensures Commands(es) == Unlogged(es) + Logged(es)
    decreases |es|
  {
    hide Starts;
    if es != [] {
      SplitLog(es[1..]);
      if es[0].Do? && !Starts(es[1..]) {
        NeverStarted(es[1..]);
      } else {
        Regroup(if es[0].Do? then [es[0].command] else [], Unlogged(es[1..]), Logged(es[1..]));
      }
    }
  }

  lemma {:induction false} UnloggedCounts(es: seq<Event>)
    ensures LateLog(es) <==> CountOf(Unlogged(es)) > 0
    decreases |es|
  {
    hide Starts, LateLog, Counts;
    LateLogTail(es);
    if es != [] {
      var rest := Unlogged(es[1..]);
      UnloggedCounts(es[1..]);
      if es[0].Do? && Starts(es[1..]) {
        assert ([es[0].command] + rest)[1..] == rest;
      } else {
        assert Unlogged(es) == [] + rest == rest;
      }
    }
  }

  lemma {:induction false} CountConcat(xs: seq<Command>, ys: seq<Command>)
    ensures CountOf(xs + ys) == CountOf(xs) + CountOf(ys)
    decreases |xs|
  {
    hide Counts;
    if xs == [] {
      assert xs + ys == ys;
    } else {
      ConcatTail(xs, ys);
      CountConcat(xs[1..], ys);
    }
  }

  /** Every submit and every cancel is counted, whatever becomes of it, and nothing else does anything. */
  lemma CountStep(s: State, c: Command)
    ensures Apply(s, c).stats.commands == s.stats.commands + (if Counts(c) then 1 else 0)
    ensures !Counts(c) ==> Apply(s, c) == s
    ensures Apply(s, c).book.policy == s.book.policy
  {
    hide Match, Insert, RemoveId, Rests, Verdict;
    if c.kind == SUBMIT && c.quantity > 0 {
      var t := TakerOf(c);
      MatchShrinks(s.book.policy, t, SideOf(s.book, Opposite(t.side)), c.quantity);
    }
  }

  lemma {:induction false} FoldCounts(s: State, cs: seq<Command>)
    ensures Fold(s, cs).stats.commands == s.stats.commands + CountOf(cs)
    ensures CountOf(cs) == 0 ==> Fold(s, cs) == s
    ensures Fold(s, cs).book.policy == s.book.policy
    decreases |cs|
  {
    hide Apply, Counts;
    if cs != [] {
      CountStep(s, cs[0]);
      FoldCounts(Apply(s, cs[0]), cs[1..]);
    }
  }

  lemma OperatorStep(s: State, e: Event)
    requires !e.Do?
    ensures Happen(s, e).stats == s.stats && Happen(s, e).book == s.book
  {
  }

  lemma {:induction false} SessionCommands(s: State, es: seq<Event>)
    ensures Session(s, es).stats.commands == s.stats.commands + CountOf(Commands(es))
    ensures CountOf(Commands(es)) == 0 ==> Session(s, es).book == s.book && Session(s, es).stats == s.stats
    ensures Session(s, es).book.policy == s.book.policy
    decreases |es|
  {
    hide Apply, Counts;
    if es != [] {
      CommandsTail(es);
      if es[0].Do? {
        CountStep(s, es[0].command);
      } else {
        OperatorStep(s, es[0]);
      }
      SessionCommands(Happen(s, es[0]), es[1..]);
    }
  }

  // ---- What replay reproduces of the whole state -----------------------------------------------------------------

  /** What replay promises for the state as a whole, the counters of the gate and the ids it has seen included.
      Replaying the journal of a session into a fresh engine reproduces it, but for the switch itself, exactly when the
      replaying engine has the self-trade policy of the session and the gate it ended with, no gate was put in after a
      submit, no submit arrived while the switch was engaged, and the journal was not started after a submit or a
      cancel. */
  lemma ReplayExact(policy: SelfTradePolicy, gate: Option<RiskConfig>, es: seq<Event>,
                    replayPolicy: SelfTradePolicy, replayGate: Option<RiskConfig>)
    ensures Released(Session(Start(policy, gate), es)) == Fold(Start(replayPolicy, replayGate), Logged(es))
       <==> replayPolicy == policy && GateAfter(gate, es) == replayGate && !LateGate(es)
            && Halted(Start(policy, gate), es) == 0 && !LateLog(es)
  {
    hide Apply, Session, Fold, LateGate, LateLog, Halted, GateAfter, Commands, Logged, Unlogged;
    var start, clean := Start(policy, gate), Start(replayPolicy, replayGate);
    SplitLog(es);
    UnloggedCounts(es);
    CountConcat(Unlogged(es), Logged(es));
    SessionCommands(start, es);
    FoldCounts(clean, Logged(es));
    FoldCounts(clean, Unlogged(es));
    FoldConcat(clean, Unlogged(es), Logged(es));
    if replayPolicy == policy && !LateLog(es) {
      CommandsReplay(policy, gate, es, replayGate);
    }
  }

  /** A submit the switch halts changes the counters of the gate in any case. It changes the book that replay reaches
      exactly when the gate would have let it through and it is for some quantity. */
  lemma KillSwitchBreaksReplay(policy: SelfTradePolicy, config: RiskConfig, c: Command)
    requires c.kind == SUBMIT
    ensures var es, start := [StartLog, Kill(true), Do(c)], Start(policy, Some(config));
      && Released(Session(start, es)) != Fold(start, Logged(es))
      && (Session(start, es).book != Fold(start, Logged(es)).book
          <==> VerdictOn(start, c) == Accepted && c.quantity > 0)
  {
    hide Apply, VerdictOn;
    var es, start := [StartLog, Kill(true), Do(c)], Start(policy, Some(config));
    var killed := Happen(start, es[1]);
    assert es[1..] == [es[1], es[2]] && es[1..][1..] == [es[2]] && [es[2]][1..] == [];
    HaltedOnce(killed, c);
    assert Halted(start, es[1..]) == Halted(killed, [es[2]]);
    ReplayExact(policy, Some(config), es, policy, Some(config));
    LoggedThree(es[1], c);
    assert Session(Happen(killed, es[2]), []) == Happen(killed, es[2]);
    assert Session(killed, [es[2]]) == Happen(killed, es[2]);
    assert Session(start, es[1..]) == Session(killed, [es[2]]);
    assert [c][1..] == [];
    assert Fold(start, [c]) == Apply(start, c);
    FirstSubmit(policy, config, c);
  }

  lemma HaltedOnce(killed: State, c: Command)
    requires c.kind == SUBMIT && killed.risk.Some? && killed.risk.value.killed
    ensures Halted(killed, [Do(c)]) == 1 && Happen(killed, Do(c)).book == killed.book
  {
    hide Submit, Cancel;
    assert [Do(c)][1..] == [];
    assert Halted(Happen(killed, Do(c)), []) == 0;
  }

  lemma LoggedThree(e: Event, c: Command)
    requires e.Kill?
    ensures Logged([StartLog, e, Do(c)]) == [c]
  {
    hide Starts;
    var es := [StartLog, e, Do(c)];
    assert es[1..] == [e, Do(c)] && [e, Do(c)][1..] == [Do(c)] && [Do(c)][1..] == [];
    StartsTail([]);
    assert Logged([Do(c)]) == [c] + Logged([]) == [c];
    assert Logged([e, Do(c)]) == [] + [c] == [c];
    assert Logged(es) == [] + Logged(es[1..]);
  }

  lemma FirstSubmit(policy: SelfTradePolicy, config: RiskConfig, c: Command)
    requires c.kind == SUBMIT
    ensures var start := Start(policy, Some(config));
      Apply(start, c).book != start.book <==> VerdictOn(start, c) == Accepted && c.quantity > 0
  {
    hide Verdict, Insert;
    var start, t := Start(policy, Some(config)), TakerOf(c);
    assert !Rests(start.book, t.id);
    assert Match(policy, t, [], c.quantity) == MatchOut([], [], [], c.quantity, false);
  }

  /** A gate put in after an order it would have rejected leaves that order on the live book; a replay behind the same
      gate never lets it rest. */
  lemma LateGateBreaksReplay(policy: SelfTradePolicy)
    ensures var config := RiskConfig(1, 0, 0, false);
      var es := [StartLog, Do(BUY_FIVE), Install(config)];
      && Rests(Session(Start(policy, None), es).book, 1)
      && !Rests(Fold(Start(policy, Some(config)), Logged(es)).book, 1)
  {
    hide Session, Fold, Happen, Apply, Rests;
    var config := RiskConfig(1, 0, 0, false);
    var es := [StartLog, Do(BUY_FIVE), Install(config)];
    assert es[1..] == [Do(BUY_FIVE), Install(config)];
    StartLogFirst(Start(policy, None), es);
    assert es[1..][1..] == [Install(config)] && [Install(config)][1..] == [];
    NeverStarted(es[1..]);
    assert Commands([Install(config)]) == [];
    assert Commands(es[1..]) == [BUY_FIVE] + Commands([Install(config)]) == [BUY_FIVE];
    StaysLive(policy, config);
    NeverRests(policy, config);
  }

  /** A journal started after an order does not hold it. */
  lemma LateLogBreaksReplay(policy: SelfTradePolicy)
    ensures var es := [Do(BUY_FIVE), StartLog];
      && Rests(Session(Start(policy, None), es).book, 1)
      && Logged(es) == []
      && !Rests(Fold(Start(policy, None), Logged(es)).book, 1)
  {
    hide Apply;
    var start, es := Start(policy, None), [Do(BUY_FIVE), StartLog];
    assert es[1..] == [StartLog] && [StartLog][1..] == [];
    assert es[1..][0].StartLog?;
    assert Logged([StartLog]) == [] + Logged([]);
    assert Logged(es) == [] + Logged([StartLog]);
    BuyRests(policy, None);
    var rested := Happen(start, es[0]);
    assert Session(rested, [StartLog]) == Session(Happen(rested, StartLog), []) == rested;
    assert rested.book.bids[0].id == 1;
  }

  lemma StartLogFirst(s: State, es: seq<Event>)
    requires es != [] && es[0].StartLog?
    ensures Session(s, es) == Session(s, es[1..]) && Logged(es) == Logged(es[1..])
  {
  }

  lemma StaysLive(policy: SelfTradePolicy, config: RiskConfig)
    ensures Rests(Session(Start(policy, None), [Do(BUY_FIVE), Install(config)]).book, 1)
  {
    hide Apply;
    var start, es := Start(policy, None), [Do(BUY_FIVE), Install(config)];
    BuyRests(policy, None);
    assert es[1..] == [Install(config)] && [Install(config)][1..] == [];
    var rested := Happen(start, es[0]);
    assert Session(Happen(rested, Install(config)), []) == Happen(rested, Install(config));
    assert Session(rested, [Install(config)]) == Happen(rested, Install(config));
    assert rested.book.bids[0].id == 1;
  }

  lemma NeverRests(policy: SelfTradePolicy, config: RiskConfig)
    requires config == RiskConfig(1, 0, 0, false)
    ensures !Rests(Fold(Start(policy, Some(config)), [BUY_FIVE]).book, 1)
  {
    hide Submit;
    var start := Start(policy, Some(config));
    assert VerdictOn(start, BUY_FIVE) == MaxOrderSize;
    assert [BUY_FIVE][1..] == [];
    assert Fold(start, [BUY_FIVE]) == Apply(start, BUY_FIVE);
  }

  // ---- What replay shows -----------------------------------------------------------------------------------------

  /** Every submit is accepted by the gates of both engines, or by neither. */
  predicate SameVerdicts(s: State, r: State, es: seq<Event>)
    decreases |es|
  {
    if es == [] then true
    else
      && (Submits(es[0]) ==> (VerdictOn(s, es[0].command) == Accepted <==> VerdictOn(r, es[0].command) == Accepted))
      && SameVerdicts(Happen(s, es[0]), if es[0].Do? then Apply(r, es[0].command) else r, es[1..])
  }

  ghost predicate SameStats(s: State, r: State, es: seq<Event>) {
    forall i: nat :: i <= |es| ==> Session(s, es[..i]).stats == Fold(r, Commands(es[..i])).stats
  }

  ghost predicate SameBooks(s: State, r: State, es: seq<Event>) {
    forall i: nat :: i <= |es| ==> Session(s, es[..i]).book == Fold(r, Commands(es[..i])).book
  }

  /** The engine that replays, after one event of the live one. */
  function Follow(r: State, e: Event): State {
    if e.Do? then Apply(r, e.command) else r
  }

  lemma PrefixShift(s: State, r: State, es: seq<Event>, i: nat)
    requires 0 < i <= |es|
    ensures Session(s, es[..i]) == Session(Happen(s, es[0]), es[1..][..i - 1])
    ensures Fold(r, Commands(es[..i])) == Fold(Follow(r, es[0]), Commands(es[1..][..i - 1]))
  {
    hide Happen, Apply;
    assert es[..i][1..] == es[1..][..i - 1] && es[..i][0] == es[0];
    CommandsTail(es[..i]);
  }

  lemma PrefixNone(s: State, r: State, es: seq<Event>)
    ensures Session(s, es[..0]) == s && Fold(r, Commands(es[..0])) == r
  {
    assert es[..0] == [];
  }

  lemma AgreeTail(s: State, r: State, es: seq<Event>)
    requires es != []
    ensures SameStats(s, r, es) <==> s.stats == r.stats && SameStats(Happen(s, es[0]), Follow(r, es[0]), es[1..])
    ensures SameBooks(s, r, es) <==> s.book == r.book && SameBooks(Happen(s, es[0]), Follow(r, es[0]), es[1..])
  {
    hide Happen, Follow, Session, Fold, Commands, SameStats, SameBooks;
    StatsTail(s, r, es);
    BooksTail(s, r, es);
  }

  lemma StatsTail(s: State, r: State, es: seq<Event>)
    requires es != []
    ensures SameStats(s, r, es) <==> s.stats == r.stats && SameStats(Happen(s, es[0]), Follow(r, es[0]), es[1..])
  {
    hide Happen, Follow, Session, Fold, Commands;
    var s', r', rest := Happen(s, es[0]), Follow(r, es[0]), es[1..];
    PrefixNone(s, r, es);
    if SameStats(s, r, es) {
      forall i: nat | i <= |rest|
        ensures Session(s', rest[..i]).stats == Fold(r', Commands(rest[..i])).stats
      {
        PrefixShift(s, r, es, i + 1);
      }
    }
    if s.stats == r.stats && SameStats(s', r', rest) {
      forall i: nat | i <= |es|
        ensures Session(s, es[..i]).stats == Fold(r, Commands(es[..i])).stats
      {
        if i > 0 {
          PrefixShift(s, r, es, i);
        }
      }
    }
  }

  lemma BooksTail(s: State, r: State, es: seq<Event>)
    requires es != []
    ensures SameBooks(s, r, es) <==> s.book == r.book && SameBooks(Happen(s, es[0]), Follow(r, es[0]), es[1..])
  {
    hide Happen, Follow, Session, Fold, Commands;
    var s', r', rest := Happen(s, es[0]), Follow(r, es[0]), es[1..];
    PrefixNone(s, r, es);
    if SameBooks(s, r, es) {
      forall i: nat | i <= |rest|
        ensures Session(s', rest[..i]).book == Fold(r', Commands(rest[..i])).book
      {
        PrefixShift(s, r, es, i + 1);
      }
    }
    if s.book == r.book && SameBooks(s', r', rest) {
      forall i: nat | i <= |es|
        ensures Session(s, es[..i]).book == Fold(r, Commands(es[..i])).book
      {
        if i > 0 {
          PrefixShift(s, r, es, i);
        }
      }
    }
  }

  /** One event on two engines that show the same. */
  lemma FollowStep(s: State, r: State, e: Event)
    requires s.book == r.book && s.stats == r.stats
    ensures var same := Submits(e) ==> (VerdictOn(s, e.command) == Accepted <==> VerdictOn(r, e.command) == Accepted);
      && (same ==> Happen(s, e).book == Follow(r, e).book && Happen(s, e).stats == Follow(r, e).stats)
      && (!same ==> Happen(s, e).stats != Follow(r, e).stats)
  {
    hide Submit, Cancel, VerdictOn, Gated;
  }

  /** Two engines that show the same show the same after every event exactly when their gates agree on every submit. */
  lemma {:induction false} Lockstep(s: State, r: State, es: seq<Event>)
    requires s.book == r.book && s.stats == r.stats
    ensures SameStats(s, r, es) <==> SameVerdicts(s, r, es)
    ensures SameVerdicts(s, r, es) ==> SameBooks(s, r, es)
    decreases |es|
  {
    hide Happen, VerdictOn, Follow, SameStats, SameBooks;
    if es == [] {
      NothingShown(s, r);
    } else {
      var s', r' := Happen(s, es[0]), Follow(r, es[0]);
      FollowIs(r, es[0]);
      FollowStep(s, r, es[0]);
      AgreeTail(s, r, es);
      if s'.stats == r'.stats {
        Lockstep(s', r', es[1..]);
      } else {
        FirstDiffers(s', r', es[1..]);
      }
    }
  }

  lemma FollowIs(r: State, e: Event)
    ensures Follow(r, e) == if e.Do? then Apply(r, e.command) else r
  {
  }

  lemma NothingShown(s: State, r: State)
    requires s.book == r.book && s.stats == r.stats
    ensures SameStats(s, r, []) && SameBooks(s, r, [])
  {
  }

  lemma FirstDiffers(s: State, r: State, es: seq<Event>)
    requires s.stats != r.stats
    ensures !SameStats(s, r, es)
  {
    hide Session, Fold, Commands;
    PrefixNone(s, r, es);
    var i: nat := 0;
    assert Session(s, es[..i]).stats != Fold(r, Commands(es[..i])).stats;
  }

  /** The journal that is current at the end had been started when the first `i` events were done. */
  predicate Current(es: seq<Event>, i: nat) {
    i <= |es| && Starts(es[..i]) && !Starts(es[i..])
  }

  /** What replay promises for all that an engine shows, by which its documentation measures a replay: the book and the
      counts. At every point since the current journal was started, replaying what it holds so far, with the self-trade
      policy of the session and any gate, gives the counts of the live engine, exactly when the journal was not started
      after a submit or a cancel and every submit is accepted by both gates or by neither; and then also its book. */
  lemma ReplayShows(policy: SelfTradePolicy, gate: Option<RiskConfig>, es: seq<Event>, replayGate: Option<RiskConfig>)
    requires Starts(es)
    ensures var start, clean := Start(policy, gate), Start(policy, replayGate);
      && ((forall i: nat :: Current(es, i) ==> Session(start, es[..i]).stats == Fold(clean, Logged(es[..i])).stats)
          <==> !LateLog(es) && SameVerdicts(start, clean, es))
      && (!LateLog(es) && SameVerdicts(start, clean, es) ==>
            forall i: nat :: Current(es, i) ==> Session(start, es[..i]).book == Fold(clean, Logged(es[..i])).book)
  {
    hide Session, Fold, Starts, Logged, Commands, Current, LateLog, SameVerdicts, SameStats, SameBooks;
    var start, clean := Start(policy, gate), Start(policy, replayGate);
    var k := LastStart(es);
    var s, rest := Session(start, es[..k]), es[k..];
    SessionCommands(start, es[..k]);
    LateLogAhead(es, k);
    PointsOfRest(start, clean, es, k);
    if LateLog(es) {
      assert s.stats != clean.stats;
      FirstDiffers(s, clean, rest);
    } else {
      VerdictsOfRest(start, clean, es[..k], rest);
      assert es == es[..k] + rest;
      Lockstep(s, clean, rest);
    }
  }

  /** The point just behind the last start of a journal. */
  lemma {:induction false} LastStart(es: seq<Event>) returns (k: nat)
    requires Starts(es)
    ensures 0 < k <= |es| && es[k - 1].StartLog? && !Starts(es[k..])
    decreases |es|
  {
    StartsTail(es);
    if Starts(es[1..]) {
      k := LastStart(es[1..]);
      assert es[k + 1..] == es[1..][k..];
      k := k + 1;
    } else {
      k := 1;
    }
  }

  lemma {:induction false} LoggedConcat(xs: seq<Event>, ys: seq<Event>)
    requires !Starts(ys)
    ensures Logged(xs + ys) == Logged(xs) + Commands(ys)
    ensures Starts(xs + ys) <==> Starts(xs)
    decreases |xs|
  {
    hide Starts;
    if xs == [] {
      assert xs + ys == ys;
      StartsTail([]);
      NeverStarted(ys);
    } else {
      ConcatTail(xs, ys);
      StartsTail(xs);
      StartsTail(xs + ys);
      LoggedConcat(xs[1..], ys);
      Regroup(if xs[0].Do? && !Starts(xs[1..]) then [xs[0].command] else [], Logged(xs[1..]), Commands(ys));
    }
  }

  /** A journal that has just been started holds nothing. */
  lemma {:induction false} JustStarted(es: seq<Event>)
    requires es != [] && es[|es| - 1].StartLog?
    ensures Logged(es) == [] && Starts(es)
    decreases |es|
  {
    if |es| > 1 {
      JustStarted(es[1..]);
    } else {
      assert es[1..] == [];
    }
  }

  lemma LoggedSince(es: seq<Event>, k: nat, i: nat)
    requires 0 < k <= i <= |es| && es[k - 1].StartLog? && !Starts(es[k..])
    ensures Logged(es[..i]) == Commands(es[k..][..i - k]) && Starts(es[..i]) && !Starts(es[k..][..i - k])
  {
    hide Logged, Commands;
    var ys := es[k..][..i - k];
    assert es[..i] == es[..k] + ys;
    assert forall x :: 0 <= x < |ys| ==> ys[x] == es[k..][x];
    JustStarted(es[..k]);
    LoggedConcat(es[..k], ys);
    assert [] + Commands(ys) == Commands(ys);
  }

  lemma CurrentSince(es: seq<Event>, k: nat, i: nat)
    requires 0 < k <= |es| && es[k - 1].StartLog? && !Starts(es[k..])
    ensures Current(es, i) <==> k <= i <= |es|
  {
    if i < k && i <= |es| {
      assert es[i..][k - 1 - i].StartLog?;
    } else if i <= |es| {
      assert es[..i][k - 1].StartLog?;
      assert forall x :: 0 <= x < |es[i..]| ==> es[i..][x] == es[k..][x + i - k];
    }
  }

  /** The points at which a journal is compared, seen from its start. */
  lemma PointsOfRest(start: State, clean: State, es: seq<Event>, k: nat)
    requires 0 < k <= |es| && es[k - 1].StartLog? && !Starts(es[k..])
    ensures var s, rest := Session(start, es[..k]), es[k..];
      && ((forall i: nat :: Current(es, i) ==> Session(start, es[..i]).stats == Fold(clean, Logged(es[..i])).stats)
          <==> SameStats(s, clean, rest))
      && ((forall i: nat :: Current(es, i) ==> Session(start, es[..i]).book == Fold(clean, Logged(es[..i])).book)
          <==> SameBooks(s, clean, rest))
  {
    hide Session, Fold, Starts, Logged, Commands, Current;
    var s, rest := Session(start, es[..k]), es[k..];
    forall i: nat
      ensures Current(es, i) <==> k <= i <= |es|
      ensures k <= i <= |es| ==> SamePoint(start, clean, es, k, i)
    {
      CurrentSince(es, k, i);
      if k <= i <= |es| {
        Point(start, clean, es, k, i);
      }
    }
    forall x: nat | x <= |rest|
      ensures Session(start, es[..k + x]) == Session(s, rest[..x])
      ensures Fold(clean, Logged(es[..k + x])) == Fold(clean, Commands(rest[..x]))
    {
      Point(start, clean, es, k, k + x);
    }
  }

  ghost predicate SamePoint(start: State, clean: State, es: seq<Event>, k: nat, i: nat)
    requires k <= i <= |es|
  {
    && Session(start, es[..i]) == Session(Session(start, es[..k]), es[k..][..i - k])
    && Fold(clean, Logged(es[..i])) == Fold(clean, Commands(es[k..][..i - k]))
  }

  lemma Point(start: State, clean: State, es: seq<Event>, k: nat, i: nat)
    requires 0 < k <= i <= |es| && es[k - 1].StartLog? && !Starts(es[k..])
    ensures SamePoint(start, clean, es, k, i)
  {
    hide Session, Fold, Starts, Logged, Commands;
    LoggedSince(es, k, i);
    assert es[..i] == es[..k] + es[k..][..i - k];
    SessionConcat(start, es[..k], es[k..][..i - k]);
  }

  lemma LateLogAhead(es: seq<Event>, k: nat)
    requires 0 < k <= |es| && es[k - 1].StartLog? && !Starts(es[k..])
    ensures LateLog(es) <==> CountOf(Commands(es[..k])) > 0
  {
    hide Starts, LateLog, Logged, Unlogged, Commands, CountOf;
    UnloggedCounts(es);
    SplitLog(es);
    SplitLog(es[..k]);
    LoggedSince(es, k, |es|);
    JustStarted(es[..k]);
    assert es[..|es|] == es && es[k..][..|es| - k] == es[k..] && es == es[..k] + es[k..];
    CommandsConcat(es[..k], es[k..]);
    CountConcat(Unlogged(es), Logged(es));
    CountConcat(Commands(es[..k]), Commands(es[k..]));
  }

  /** Ahead of the first submit there is nothing for the gates to disagree about. */
  lemma {:induction false} VerdictsOfRest(s: State, r: State, xs: seq<Event>, ys: seq<Event>)
    requires CountOf(Commands(xs)) == 0
    ensures SameVerdicts(s, r, xs + ys) <==> SameVerdicts(Session(s, xs), r, ys)
    decreases |xs|
  {
    hide Happen, Apply, VerdictOn;
    if xs == [] {
      assert xs + ys == ys;
    } else {
      ConcatTail(xs, ys);
      CommandsTail(xs);
      if xs[0].Do? {
        CountStep(r, xs[0].command);
      }
      VerdictsOfRest(Happen(s, xs[0]), r, xs[1..], ys);
    }
  }

  // ---- Recovery ------------------------------------------------------------------------------------------------

  /** The sentinel changes nothing, so folding the journalled commands is folding them all. */
  lemma {:induction false} FoldJournalled(s: State, cs: seq<Command>)
    ensures Fold(s, Journalled(cs)) == Fold(s, cs)
    decreases |cs|
  {
    if cs != [] {
      FoldJournalled(Apply(s, cs[0]), cs[1..]);
      if cs[0].kind != SHUTDOWN {
        assert Journalled(cs)[1..] == Journalled(cs[1..]);
      } else {
        assert Journalled(cs) == Journalled(cs[1..]);
      }
    }
  }

  /** Some prefix of the commands has exactly the first `n` journalled ones. */
  lemma {:induction false} PrefixJournalled(cs: seq<Command>, n: nat) returns (p: nat)
    requires n <= |Journalled(cs)|
    ensures p <= |cs| && Journalled(cs[..p]) == Journalled(cs)[..n]
    decreases |cs|
  {
    if n == 0 {
      p := 0;
    } else {
      p := PrefixJournalled(cs[1..], if cs[0].kind == SHUTDOWN then n else n - 1);
      assert cs[..p + 1][1..] == cs[1..][..p];
      if cs[0].kind == SHUTDOWN {
        assert Journalled(cs) == Journalled(cs[1..]);
      } else {
        assert Journalled(cs) == [cs[0]] + Journalled(cs[1..]);
        assert Journalled(cs)[..n] == [cs[0]] + Journalled(cs[1..])[..n - 1];
      }
      p := p + 1;
    }
  }

  /** Crash recovery. Whatever commands a session applied, and wherever beyond its header the journal is cut off, what
      can be read replays, in a fresh engine of the same configuration, to the state the live engine had after some
      prefix of its commands: the prefix whose journalled commands are the complete records. */
  lemma CrashRecovery(host: Host, start: State, cs: seq<Command>, len: nat) returns (p: nat)
    requires 8 <= len <= 8 + |Body(host, cs)|
    ensures p <= |cs|
    ensures ReadSpec(host, (Header(host) + Body(host, cs))[..len]) == Events(Journalled(cs[..p]))
    ensures |Journalled(cs[..p])| == (len - 8) / RECORD_SIZE
    ensures Fold(start, Journalled(cs[..p])) == Fold(start, cs[..p])
  {
    hide Fold, Body, Header, Journalled, ReadSpec, Records;
    TornTailRecovery(host, cs, len);
    p := PrefixJournalled(cs, (len - 8) / RECORD_SIZE);
    FoldJournalled(start, cs[..p]);
  }

  /** With the whole file, replay reaches exactly the live state. */
  lemma FullReplay(host: Host, start: State, cs: seq<Command>)
    ensures ReadSpec(host, Header(host) + Body(host, cs)) == Events(Journalled(cs))
    ensures Fold(start, Journalled(cs)) == Fold(start, cs)
  {
    hide Fold, Body, Header, Journalled, ReadSpec, Records;
    var file := Header(host) + Body(host, cs);
    BodyOfJournalled(host, cs);
    TornTailRecovery(host, cs, |file|);
    assert file[..|file|] == file;
    assert Journalled(cs)[..|Journalled(cs)|] == Journalled(cs);
    FoldJournalled(start, cs);
  }

  /** Every prefix of the commands of a session is the commands of a prefix of the session. */
  lemma {:induction false} PrefixCommands(es: seq<Event>, p: nat) returns (q: nat)
    requires p <= |Commands(es)|
    ensures q <= |es| && Commands(es[..q]) == Commands(es)[..p]
    decreases |es|
  {
    if p == 0 {
      q := 0;
    } else {
      CommandsTail(es);
      q := PrefixCommands(es[1..], if es[0].Do? then p - 1 else p);
      assert es[..q + 1][1..] == es[1..][..q];
      CommandsTail(es[..q + 1]);
      if es[0].Do? {
        assert Commands(es)[..p] == [es[0].command] + Commands(es[1..])[..p - 1];
      }
      q := q + 1;
    }
  }

  /** Crash recovery for sessions: what a cut journal yields folds to what the journal held after some prefix of the
      session, and with the whole file that prefix is the session. */
  lemma SessionRecovery(host: Host, start: State, es: seq<Event>, len: nat) returns (q: nat)
    requires Starts(es) && 8 <= len <= 8 + |Body(host, Logged(es))|
    ensures q <= |es| && Current(es, q) && |Journalled(Logged(es[..q]))| == (len - 8) / RECORD_SIZE
    ensures len == 8 + |Body(host, Logged(es))| ==> q == |es|
    ensures var r := ReadSpec(host, (Header(host) + Body(host, Logged(es)))[..len]);
      r.Events? && Fold(start, r.events) == Fold(start, Logged(es[..q]))
  {
    hide Fold, Body, Header, Journalled, ReadSpec, Records, Commands, Logged, Starts, Current;
    var k := LastStart(es);
    var rest := es[k..];
    LoggedSince(es, k, |es|);
    assert es[..|es|] == es && rest[..|es| - k] == rest;
    if len == 8 + |Body(host, Logged(es))| {
      q := |es|;
      WholeJournal(host, start, Logged(es), len);
    } else {
      var p := CrashRecovery(host, start, Commands(rest), len);
      q := PrefixCommands(rest, p);
      q := k + q;
      LoggedSince(es, k, q);
    }
    CurrentSince(es, k, q);
  }

  lemma WholeJournal(host: Host, start: State, cs: seq<Command>, len: nat)
    requires len == 8 + |Body(host, cs)|
    ensures |Journalled(cs)| == (len - 8) / RECORD_SIZE
    ensures ReadSpec(host, (Header(host) + Body(host, cs))[..len]) == Events(Journalled(cs))
    ensures Fold(start, Journalled(cs)) == Fold(start, cs)
  {
    hide Fold, Body, Journalled, ReadSpec, Records;
    FullReplay(host, start, cs);
    BodyOfJournalled(host, cs);
    var file := Header(host) + Body(host, cs);
    assert file[..len] == file;
  }

  // ---- The file ----------------------------------------------------------------------------------------------------

  /** The journal after one event: a command is appended to the journal there is, if any. */
  function WriteOne(host: Host, file: Option<seq<U8>>, e: Event): Option<seq<U8>> {
    match e
    case StartLog => Some(Header(host))
    case Do(c) => if file.Some? then Some(file.value + Body(host, [c])) else None
    case Kill(_) => file
    case Install(_) => file
  }

  function Write(host: Host, file: Option<seq<U8>>, es: seq<Event>): Option<seq<U8>>
    decreases |es|
  {
    if es == [] then file else Write(host, WriteOne(host, file, es[0]), es[1..])
  }

  /** What is in the file at the end of a session. */
  lemma {:induction false} Written(host: Host, file: Option<seq<U8>>, es: seq<Event>)
    ensures Write(host, file, es)
         == if Starts(es) then Some(Header(host) + Body(host, Logged(es)))
            else if file.Some? then Some(file.value + Body(host, Logged(es)))
            else None
    decreases |es|
  {
    hide Starts, Header, Body;
    StartsTail(es);
    if es == [] {
      EmptyBody(host);
      assert file.Some? ==> file.value + [] == file.value;
    } else {
      var rest := Logged(es[1..]);
      Written(host, WriteOne(host, file, es[0]), es[1..]);
      if es[0].Do? && !Starts(es[1..]) {
        BodyCons(host, es[0].command, rest);
        if file.Some? {
          Regroup(file.value, Body(host, [es[0].command]), Body(host, rest));
        }
      } else {
        assert Logged(es) == [] + rest == rest;
      }
    }
  }

  lemma BodyCons(host: Host, c: Command, cs: seq<Command>)
    ensures Body(host, [c] + cs) == Body(host, [c]) + Body(host, cs)
  {
    hide Encoded;
    assert ([c] + cs)[1..] == cs && [c][1..] == [];
  }
}
