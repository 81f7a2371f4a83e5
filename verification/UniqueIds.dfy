/** What enforcing unique ids achieves: which ids a session can accept twice, and which orders can rest twice. */
module UniqueIds {
  import opened Types
  import opened BookSpec
  import opened BookLaws
  import opened RiskControls
  import opened Engine

  /** With unique ids enforced, the ids one gate accepts are new to it and pairwise distinct. */
  lemma {:induction false} GateAcceptsOnce(s: State, es: seq<Event>)
    requires s.risk.Some? && s.risk.value.config.enforceUniqueIds && !Installs(es)
    ensures forall i :: 0 <= i < |AcceptedIds(s, es)| ==> AcceptedIds(s, es)[i] !in s.risk.value.seen
    ensures forall i, j :: 0 <= i < j < |AcceptedIds(s, es)| ==> AcceptedIds(s, es)[i] != AcceptedIds(s, es)[j]
    decreases |es|
  {
    hide Submit, Cancel, Installs, LateGate;
    InstallsTail(es);
    if es != [] {
      GateAcceptsOnce(Happen(s, es[0]), es[1..]);
    }
  }

  lemma {:induction false} EarlyGateAcceptsOnce(s: State, es: seq<Event>, gate: Option<RiskConfig>)
    requires Installs(es) && !LateGate(es)
    requires GateAfter(gate, es).Some? && GateAfter(gate, es).value.enforceUniqueIds
    ensures forall i, j :: 0 <= i < j < |AcceptedIds(s, es)| ==> AcceptedIds(s, es)[i] != AcceptedIds(s, es)[j]
    decreases |es|
  {
    hide Submit, Cancel, Verdict, Installs, LateGate;
    InstallsTail(es);
    LateGateTail(es);
    var gate' := if es[0].Install? then Some(es[0].config) else gate;
    assert AcceptedIds(s, es) == AcceptedIds(Happen(s, es[0]), es[1..]);
    if Installs(es[1..]) {
      EarlyGateAcceptsOnce(Happen(s, es[0]), es[1..], gate');
    } else {
      InstalledGate(gate', es[1..]);
      GateAcceptsOnce(Happen(s, es[0]), es[1..]);
    }
  }

  /** With a gate that enforces unique ids in place before the first submit, no id is accepted twice in a session. */
  lemma AcceptedIdsDistinct(policy: SelfTradePolicy, gate: Option<RiskConfig>, es: seq<Event>)
    requires GateAfter(gate, es).Some? && GateAfter(gate, es).value.enforceUniqueIds && !LateGate(es)
    ensures var ids := AcceptedIds(Start(policy, gate), es);
      forall i, j :: 0 <= i < j < |ids| ==> ids[i] != ids[j]
  {
    hide Apply, Session, Fold, Installs, LateGate;
    InstalledGate(gate, es);
    if Installs(es) {
      EarlyGateAcceptsOnce(Start(policy, gate), es, gate);
    } else {
      GateAcceptsOnce(Start(policy, gate), es);
    }
  }

  /** A submit brings no id but its own onto the book. */
  lemma OnlyTakerJoins(b: Book, t: Taker, quantity: Quantity, id: OrderId)
    requires id != t.id && !Rests(b, id)
    ensures !Rests(Submit(b, t, quantity).book, id)
  {
    hide Match, Insert, HasId;
    if quantity > 0 && !Rests(b, t.id) {
      var far, near := SideOf(b, Opposite(t.side)), SideOf(b, t.side);
      var m := Match(b.policy, t, far, quantity);
      MatchShrinks(b.policy, t, far, quantity);
      SweptIds(b.policy, t, far, quantity, id);
      InsertedIds(t.side, near, Resting(t.id, t.trader, t.side, t.limit, m.remaining, m.remaining, b.nextSeq), id);
    }
  }

  /** With unique ids enforced, an id that the gate has accepted and that no longer rests never rests again under it. */
  lemma {:induction false} NoSecondLife(s: State, es: seq<Event>, id: OrderId)
    requires s.risk.Some? && s.risk.value.config.enforceUniqueIds
    requires id in s.risk.value.seen && !Rests(s.book, id) && !Installs(es)
    ensures !Rests(Session(s, es).book, id)
    decreases |es|
  {
    hide Submit, Cancel, Installs, LateGate;
    InstallsTail(es);
    if es != [] {
      if es[0].Do? {
        var c := es[0].command;
        if c.kind == SUBMIT && VerdictOn(s, c) == Accepted {
          OnlyTakerJoins(s.book, TakerOf(c), c.quantity, id);
        } else if c.kind == CANCEL {
          CancelOnlyRemoves(s.book, c.id, id);
        }
      }
      NoSecondLife(Happen(s, es[0]), es[1..], id);
    }
  }

  /** Every order at rest is known to the gate. */
  ghost predicate RestingSeen(s: State) {
    forall id :: Rests(s.book, id) ==> s.risk.Some? && id in s.risk.value.seen
  }

  lemma RestingSeenStep(s: State, e: Event)
    requires RestingSeen(s) && s.risk.Some? && s.risk.value.config.enforceUniqueIds && !e.Install?
    ensures RestingSeen(Happen(s, e)) && Happen(s, e).risk.Some?
    ensures Happen(s, e).risk.value.config == s.risk.value.config
  {
    hide Happen, Rests;
    SeenStep(s, e);
    forall id | Rests(Happen(s, e).book, id)
      ensures id in Happen(s, e).risk.value.seen
    {
      NewcomerAccepted(s, e, id);
    }
  }

  /** What an event does to the book. */
  lemma StepBook(s: State, e: Event)
    ensures Happen(s, e).book == if Submits(e) && VerdictOn(s, e.command) == Accepted
                                 then Submit(s.book, TakerOf(e.command), e.command.quantity).book
                                 else if e.Do? && e.command.kind == CANCEL then Cancel(s.book, e.command.id).0
                                 else s.book
  {
    hide Submit, Cancel, VerdictOn;
  }

  /** An order that joins the book was submitted under its id, and accepted. */
  lemma NewcomerAccepted(s: State, e: Event, id: OrderId)
    requires Rests(Happen(s, e).book, id)
    ensures Rests(s.book, id) || (Submits(e) && VerdictOn(s, e.command) == Accepted && e.command.id == id)
  {
    hide Happen, Submit, Cancel, VerdictOn, Rests;
    StepBook(s, e);
    if !Rests(s.book, id) {
      if Submits(e) && VerdictOn(s, e.command) == Accepted && e.command.id != id {
        OnlyTakerJoins(s.book, TakerOf(e.command), e.command.quantity, id);
      } else if e.Do? && e.command.kind == CANCEL {
        CancelOnlyRemoves(s.book, e.command.id, id);
      }
    }
  }

  lemma {:induction false} RestingSeenSession(s: State, es: seq<Event>)
    requires RestingSeen(s) && s.risk.Some? && s.risk.value.config.enforceUniqueIds && !Installs(es)
    ensures RestingSeen(Session(s, es))
    decreases |es|
  {
    hide Happen, RestingSeen, Installs;
    InstallsTail(es);
    if es != [] {
      RestingSeenStep(s, es[0]);
      RestingSeenSession(Happen(s, es[0]), es[1..]);
    }
  }

  lemma EmptyUntilSubmit(s: State, e: Event)
    requires (forall id :: !Rests(s.book, id)) && !Submits(e)
    ensures forall id :: !Rests(Happen(s, e).book, id)
  {
    hide Happen, Rests;
    forall id
      ensures !Rests(Happen(s, e).book, id)
    {
      if Rests(Happen(s, e).book, id) {
        NewcomerAccepted(s, e, id);
      }
    }
  }

  /** With an enforcing gate in place before the first submit, every order at rest is known to it. */
  lemma {:induction false} EarlyGateSees(s: State, es: seq<Event>, gate: Option<RiskConfig>)
    requires gate == (if s.risk.Some? then Some(s.risk.value.config) else None)
    requires (forall id :: !Rests(s.book, id)) && !LateGate(es) && Enforcing(GateAfter(gate, es))
    ensures RestingSeen(Session(s, es))
    decreases |es|
  {
    hide Happen, Rests, Installs, LateGate;
    InstalledGate(gate, es);
    if Installs(es) {
      InstallsTail(es);
      LateGateTail(es);
      var s', gate' := Happen(s, es[0]), if es[0].Install? then Some(es[0].config) else gate;
      GateStepped(s, es[0], gate);
      if Installs(es[1..]) {
        EmptyUntilSubmit(s, es[0]);
        EarlyGateSees(s', es[1..], gate');
      } else {
        EmptyUntilSubmit(s, es[0]);
        InstalledGate(gate', es[1..]);
        RestingSeenSession(s', es[1..]);
      }
    } else {
      RestingSeenSession(s, es);
    }
  }

  lemma GateStepped(s: State, e: Event, gate: Option<RiskConfig>)
    requires gate == (if s.risk.Some? then Some(s.risk.value.config) else None)
    ensures var r := Happen(s, e).risk;
      (if e.Install? then Some(e.config) else gate) == if r.Some? then Some(r.value.config) else None
  {
    hide Submit, Cancel, Verdict;
  }

  predicate SomeSubmit(es: seq<Event>) {
    exists i :: 0 <= i < |es| && Submits(es[i])
  }

  lemma {:induction false} NothingRests(s: State, es: seq<Event>)
    requires (forall id :: !Rests(s.book, id)) && !SomeSubmit(es)
    ensures forall id :: !Rests(Session(s, es).book, id)
    decreases |es|
  {
    hide Happen, Rests;
    if es != [] {
      assert forall i :: 0 <= i < |es[1..]| ==> es[1..][i] == es[i + 1];
      EmptyUntilSubmit(s, es[0]);
      NothingRests(Happen(s, es[0]), es[1..]);
    }
  }

  lemma LateGateJoins(xs: seq<Event>, ys: seq<Event>)
    ensures LateGate(xs) || (SomeSubmit(xs) && Installs(ys)) ==> LateGate(xs + ys)
  {
    var es := xs + ys;
    if LateGate(xs) {
      var i, j :| 0 <= i < j < |xs| && Submits(xs[i]) && xs[j].Install?;
      assert Submits(es[i]) && es[j].Install?;
    } else if SomeSubmit(xs) && Installs(ys) {
      var i :| 0 <= i < |xs| && Submits(xs[i]);
      var j :| 0 <= j < |ys| && ys[j].Install?;
      assert Submits(es[i]) && es[|xs| + j].Install?;
    }
  }

  lemma {:induction false} GateAfterConcat(gate: Option<RiskConfig>, xs: seq<Event>, ys: seq<Event>)
    ensures GateAfter(gate, xs + ys) == GateAfter(GateAfter(gate, xs), ys)
    decreases |xs|
  {
    if xs == [] {
      assert xs + ys == ys;
    } else {
      GateAfterConcat(if xs[0].Install? then Some(xs[0].config) else gate, xs[1..], ys);
      assert (xs + ys)[1..] == xs[1..] + ys && (xs + ys)[0] == xs[0];
    }
  }

  /** No id rests twice in a session. With a gate that enforces unique ids in place before the first submit, an id that
      rested at one time and did not at a later one never rests again. */
  lemma RestsOnce(policy: SelfTradePolicy, gate: Option<RiskConfig>, xs: seq<Event>, ys: seq<Event>, zs: seq<Event>,
                  id: OrderId)
    requires !LateGate(xs + (ys + zs)) && Enforcing(GateAfter(gate, xs + (ys + zs)))
    requires Rests(Session(Start(policy, gate), xs).book, id)
    requires !Rests(Session(Start(policy, gate), xs + ys).book, id)
    ensures !Rests(Session(Start(policy, gate), xs + (ys + zs)).book, id)
  {
    hide Session, GateAfter, LateGate, Installs, SomeSubmit, Happen, Rests;
    var start := Start(policy, gate);
    var s := Session(start, xs);
    LateGateJoins(xs, ys + zs);
    StartEmpty(policy, gate);
    if !SomeSubmit(xs) {
      NothingRests(start, xs);
    }
    InstallsSplit(ys, zs);
    GateAfterConcat(gate, xs, ys + zs);
    InstalledGate(GateAfter(gate, xs), ys + zs);
    GateInForce(start, xs, gate);
    EarlyGateSees(start, xs, gate);
    SeenStays(s, ys);
    SessionConcat(start, xs, ys);
    SessionConcat(start, xs, ys + zs);
    SessionConcat(s, ys, zs);
    NoSecondLife(Session(s, ys), zs, id);
  }

  lemma StartEmpty(policy: SelfTradePolicy, gate: Option<RiskConfig>)
    ensures forall id :: !Rests(Start(policy, gate).book, id)
  {
  }

  lemma InstallsSplit(xs: seq<Event>, ys: seq<Event>)
    ensures Installs(xs) ==> Installs(xs + ys)
    ensures Installs(ys) ==> Installs(xs + ys)
  {
    if Installs(xs) {
      var i :| 0 <= i < |xs| && xs[i].Install?;
      assert (xs + ys)[i].Install?;
    }
    if Installs(ys) {
      var i :| 0 <= i < |ys| && ys[i].Install?;
      assert (xs + ys)[|xs| + i].Install?;
    }
  }

  lemma CancelOnlyRemoves(b: Book, cancelled: OrderId, id: OrderId)
    requires !Rests(b, id)
    ensures !Rests(Cancel(b, cancelled).0, id)
  {
    RemoveSubset(b.bids, cancelled, id);
    RemoveSubset(b.asks, cancelled, id);
  }

  lemma RemoveSubset(orders: seq<Resting>, cancelled: OrderId, id: OrderId)
    requires !HasId(orders, id)
    ensures !HasId(RemoveId(orders, cancelled), id)
  {
    if HasId(orders, cancelled) {
      var i := RemoveSplits(orders, cancelled);
    } else {
      RemoveAbsent(orders, cancelled);
    }
  }

  /** A gate put in anew has forgotten the ids of the one before: the same id is accepted twice. */
  lemma ReinstallForgets(policy: SelfTradePolicy)
    ensures var config := RiskConfig(0, 0, 0, true);
      var es := [Do(BUY_FIVE), Do(BUY_FIVE.(kind := CANCEL)), Install(config), Do(BUY_FIVE)];
      AcceptedIds(Start(policy, Some(config)), es) == [1, 1]
  {
    hide Submit, Cancel, Verdict, VerdictOn;
    var config := RiskConfig(0, 0, 0, true);
    var es := [Do(BUY_FIVE), Do(BUY_FIVE.(kind := CANCEL)), Install(config), Do(BUY_FIVE)];
    var s0 := Start(policy, Some(config));
    var s1 := Happen(s0, es[0]);
    var s2 := Happen(s1, es[1]);
    var s3 := Happen(s2, es[2]);
    FreshAccepts(s0, config);
    FreshAccepts(s3, config);
    assert es[1..] == [es[1], es[2], es[3]] && [es[1], es[2], es[3]][1..] == [es[2], es[3]];
    assert [es[2], es[3]][1..] == [es[3]] && [es[3]][1..] == [];
    assert AcceptedIds(Happen(s3, es[3]), []) == [];
    assert AcceptedIds(s3, [es[3]]) == [1];
    assert AcceptedIds(s2, [es[2], es[3]]) == [1];
    assert AcceptedIds(s1, [es[1], es[2], es[3]]) == [1];
  }

  lemma FreshAccepts(s: State, config: RiskConfig)
    requires s.risk == Some(Fresh(config)) && config == RiskConfig(0, 0, 0, true)
    ensures VerdictOn(s, BUY_FIVE) == Accepted
  {
  }

  /** An id the session has accepted once is accepted again behind a gate put in anew exactly when the order does not
      fail one of the limits of that gate. */
  lemma ReinstallAdmits(s: State, es: seq<Event>, config: RiskConfig, c: Command)
    requires c.kind == SUBMIT && c.id in AcceptedIds(s, es) && AllDistinct(AcceptedIds(s, es))
    ensures AllDistinct(AcceptedIds(s, es + [Install(config), Do(c)]))
       <==> FailsLimits(config, c, Reference(Session(s, es).book, SideOfByte(c.side)))
  {
    hide AcceptedIds, Session, Verdict, OverNotional, OutsideCollar;
    var t := Session(s, es);
    AcceptedConcat(s, es, [Install(config), Do(c)]);
    AcceptedOfTwo(t, config, c);
    FreshVerdict(config, c, Reference(t.book, SideOfByte(c.side)));
    var ids := AcceptedIds(s, es);
    assert ids + [] == ids;
    if !FailsLimits(config, c, Reference(t.book, SideOfByte(c.side))) {
      var i :| 0 <= i < |ids| && ids[i] == c.id;
      assert (ids + [c.id])[i] == (ids + [c.id])[|ids|];
    }
  }

  /** The order fails the size limit, the notional limit or the price collar. */
  predicate FailsLimits(config: RiskConfig, c: Command, reference: Option<Price>) {
    || (config.maxOrderSize != 0 && c.quantity > config.maxOrderSize)
    || OverNotional(config, c.price, c.quantity)
    || OutsideCollar(config, c.price, reference)
  }

  lemma FreshVerdict(config: RiskConfig, c: Command, reference: Option<Price>)
    ensures Verdict(Fresh(config), c.id, c.price, c.quantity, reference) == Accepted
       <==> !FailsLimits(config, c, reference)
  {
    hide OverNotional, OutsideCollar;
  }

  lemma AcceptedOfTwo(t: State, config: RiskConfig, c: Command)
    requires c.kind == SUBMIT
    ensures AcceptedIds(t, [Install(config), Do(c)])
         == if Verdict(Fresh(config), c.id, c.price, c.quantity, Reference(t.book, SideOfByte(c.side))) == Accepted
            then [c.id] else []
  {
    hide Verdict, Apply;
    var gated := Happen(t, Install(config));
    var es := [Install(config), Do(c)];
    assert es[1..] == [Do(c)] && [Do(c)][1..] == [];
    assert AcceptedIds(Happen(gated, Do(c)), []) == [];
    assert AcceptedIds(gated, [Do(c)]) == if VerdictOn(gated, c) == Accepted then [c.id] else [];
  }

  lemma {:induction false} AcceptedConcat(s: State, xs: seq<Event>, ys: seq<Event>)
    ensures AcceptedIds(s, xs + ys) == AcceptedIds(s, xs) + AcceptedIds(Session(s, xs), ys)
    decreases |xs|
  {
    hide Happen, VerdictOn;
    if xs == [] {
      assert xs + ys == ys;
    } else {
      var s' := Happen(s, xs[0]);
      var first := if Submits(xs[0]) && VerdictOn(s, xs[0].command) == Accepted then [xs[0].command.id] else [];
      ConcatTail(xs, ys);
      AcceptedConcat(s', xs[1..], ys);
      Regroup(first, AcceptedIds(s', xs[1..]), AcceptedIds(Session(s, xs), ys));
    }
  }

  ghost predicate AllDistinct(ids: seq<OrderId>) {
    forall i, j :: 0 <= i < j < |ids| ==> ids[i] != ids[j]
  }

  // ---- Where in a session an id is accepted ------------------------------------------------------------------------

  /** The event at `i` is a submit, and the gate accepts it. */
  predicate AcceptedAt(s: State, es: seq<Event>, i: nat) {
    i < |es| && Submits(es[i]) && VerdictOn(Session(s, es[..i]), es[i].command) == Accepted
  }

  ghost predicate AcceptedUnder(s: State, es: seq<Event>, id: OrderId) {
    exists i: nat :: AcceptedAt(s, es, i) && es[i].command.id == id
  }

  /** Two events have the gate accept the same id. */
  ghost predicate AcceptedTwice(s: State, es: seq<Event>) {
    exists i: nat, j: nat ::
      i < j && AcceptedAt(s, es, i) && AcceptedAt(s, es, j) && es[i].command.id == es[j].command.id
  }

  lemma AcceptedTail(s: State, es: seq<Event>, i: nat)
    requires 0 < i && es != []
    ensures AcceptedAt(s, es, i) <==> AcceptedAt(Happen(s, es[0]), es[1..], i - 1)
  {
    hide Happen, VerdictOn;
    if i < |es| {
      assert es[..i][1..] == es[1..][..i - 1] && es[..i][0] == es[0];
    }
  }

  lemma AcceptedHead(s: State, es: seq<Event>)
    requires es != []
    ensures AcceptedAt(s, es, 0) <==> Submits(es[0]) && VerdictOn(s, es[0].command) == Accepted
  {
    hide VerdictOn;
    assert Session(s, es[..0]) == s;
  }

  lemma UnderTail(s: State, es: seq<Event>, id: OrderId)
    requires es != []
    ensures AcceptedUnder(s, es, id)
       <==> (AcceptedAt(s, es, 0) && es[0].command.id == id) || AcceptedUnder(Happen(s, es[0]), es[1..], id)
  {
    hide Happen, Session, VerdictOn;
    if AcceptedUnder(s, es, id) {
      var i: nat :| AcceptedAt(s, es, i) && es[i].command.id == id;
      if i > 0 {
        AcceptedTail(s, es, i);
        assert AcceptedAt(Happen(s, es[0]), es[1..], i - 1);
      }
    }
    if AcceptedUnder(Happen(s, es[0]), es[1..], id) {
      var i: nat :| AcceptedAt(Happen(s, es[0]), es[1..], i) && es[1..][i].command.id == id;
      AcceptedTail(s, es, i + 1);
      assert AcceptedAt(s, es, i + 1);
    }
  }

  lemma TwiceTail(s: State, es: seq<Event>)
    requires es != []
    ensures AcceptedTwice(s, es)
       <==> (AcceptedAt(s, es, 0) && AcceptedUnder(Happen(s, es[0]), es[1..], es[0].command.id))
            || AcceptedTwice(Happen(s, es[0]), es[1..])
  {
    hide Happen, Session, VerdictOn, AcceptedUnder, AcceptedTwice;
    if AcceptedTwice(s, es) {
      TwiceAhead(s, es);
    }
    if AcceptedAt(s, es, 0) && AcceptedUnder(Happen(s, es[0]), es[1..], es[0].command.id) {
      HeadAgain(s, es);
    }
    if AcceptedTwice(Happen(s, es[0]), es[1..]) {
      TwiceBehind(s, es);
    }
  }

  lemma TwiceAhead(s: State, es: seq<Event>)
    requires es != [] && AcceptedTwice(s, es)
    ensures (AcceptedAt(s, es, 0) && AcceptedUnder(Happen(s, es[0]), es[1..], es[0].command.id))
            || AcceptedTwice(Happen(s, es[0]), es[1..])
  {
    hide Happen, Session, VerdictOn;
    var i: nat, j: nat :| i < j && AcceptedAt(s, es, i) && AcceptedAt(s, es, j)
                          && es[i].command.id == es[j].command.id;
    AcceptedTail(s, es, j);
    assert AcceptedAt(Happen(s, es[0]), es[1..], j - 1);
    if i > 0 {
      AcceptedTail(s, es, i);
      assert AcceptedAt(Happen(s, es[0]), es[1..], i - 1);
    }
  }

  lemma HeadAgain(s: State, es: seq<Event>)
    requires es != [] && AcceptedAt(s, es, 0) && AcceptedUnder(Happen(s, es[0]), es[1..], es[0].command.id)
    ensures AcceptedTwice(s, es)
  {
    hide Happen, Session, VerdictOn;
    var j: nat :| AcceptedAt(Happen(s, es[0]), es[1..], j) && es[1..][j].command.id == es[0].command.id;
    AcceptedTail(s, es, j + 1);
    assert AcceptedAt(s, es, j + 1);
  }

  lemma TwiceBehind(s: State, es: seq<Event>)
    requires es != [] && AcceptedTwice(Happen(s, es[0]), es[1..])
    ensures AcceptedTwice(s, es)
  {
    hide Happen, Session, VerdictOn;
    var s', rest := Happen(s, es[0]), es[1..];
    var i: nat, j: nat :| i < j && AcceptedAt(s', rest, i) && AcceptedAt(s', rest, j)
                          && rest[i].command.id == rest[j].command.id;
    AcceptedTail(s, es, i + 1);
    AcceptedTail(s, es, j + 1);
    assert AcceptedAt(s, es, i + 1) && AcceptedAt(s, es, j + 1);
  }

  lemma NoneUnder(s: State, id: OrderId)
    ensures !AcceptedUnder(s, [], id)
  {
  }

  lemma {:induction false} UnderIsListed(s: State, es: seq<Event>, id: OrderId)
    ensures AcceptedUnder(s, es, id) <==> id in AcceptedIds(s, es)
    decreases |es|
  {
    hide Happen, VerdictOn, AcceptedAt, AcceptedUnder;
    if es == [] {
      NoneUnder(s, id);
    } else {
      UnderTail(s, es, id);
      AcceptedHead(s, es);
      UnderIsListed(Happen(s, es[0]), es[1..], id);
    }
  }

  lemma ConsDistinct(id: OrderId, ids: seq<OrderId>)
    ensures AllDistinct([id] + ids) <==> id !in ids && AllDistinct(ids)
  {
    var longer := [id] + ids;
    assert forall i :: 0 <= i < |ids| ==> longer[i + 1] == ids[i];
    if id in ids {
      var i :| 0 <= i < |ids| && ids[i] == id;
      assert longer[0] == longer[i + 1];
    }
    if !AllDistinct(ids) {
      var i, j :| 0 <= i < j < |ids| && ids[i] == ids[j];
      assert longer[i + 1] == longer[j + 1];
    }
  }

  /** An id is accepted twice exactly when the accepted ids are not distinct. */
  lemma {:induction false} TwiceIsRepeated(s: State, es: seq<Event>)
    ensures AcceptedTwice(s, es) <==> !AllDistinct(AcceptedIds(s, es))
    decreases |es|
  {
    hide Happen, VerdictOn, AcceptedUnder, AcceptedAt, AllDistinct;
    if es == [] {
      NeverTwice(s);
    } else {
      var s', rest := Happen(s, es[0]), es[1..];
      TwiceTail(s, es);
      AcceptedHead(s, es);
      TwiceIsRepeated(s', rest);
      if AcceptedAt(s, es, 0) {
        var id := es[0].command.id;
        UnderIsListed(s', rest, id);
        ConsDistinct(id, AcceptedIds(s', rest));
      } else {
        assert [] + AcceptedIds(s', rest) == AcceptedIds(s', rest);
      }
    }
  }

  lemma NeverTwice(s: State)
    ensures !AcceptedTwice(s, []) && AllDistinct(AcceptedIds(s, []))
  {
  }

  // ---- Schedules ---------------------------------------------------------------------------------------------------

  /** The same schedule: commands at the same places, of whatever kind, and the same operator events. */
  ghost predicate SameShape(xs: seq<Event>, ys: seq<Event>) {
    |xs| == |ys| && forall i :: 0 <= i < |xs| ==> xs[i] == ys[i] || (xs[i].Do? && ys[i].Do?)
  }

  /** The kill switch after a schedule that starts with gate `gate`. */
  function KilledAfter(gate: Option<RiskConfig>, killed: bool, es: seq<Event>): bool
    decreases |es|
  {
    if es == [] then killed
    else KilledAfter(if es[0].Install? then Some(es[0].config) else gate,
                     if es[0].Install? then false else if es[0].Kill? && gate.Some? then es[0].on else killed,
                     es[1..])
  }

  /** The event at `i` is a command that does not find the switch engaged. */
  predicate Open(gate: Option<RiskConfig>, es: seq<Event>, i: nat) {
    i < |es| && es[i].Do? && !KilledAfter(gate, false, es[..i])
  }

  predicate Enforcing(gate: Option<RiskConfig>) {
    gate.Some? && gate.value.enforceUniqueIds
  }

  /** Two open commands have a gate put in between them, or the later one meets no gate that enforces unique ids. */
  ghost predicate Reusable(gate: Option<RiskConfig>, es: seq<Event>) {
    exists i: nat, j: nat :: i < j && Open(gate, es, i) && Open(gate, es, j)
                             && (Installs(es[i + 1..j]) || !Enforcing(GateAfter(gate, es[..j])))
  }

  /** Which schedules let an id be accepted twice: over all choices of the commands, some id can be, exactly when two
      commands that do not find the switch engaged have a gate put in between them, or the later one meets no gate that
      enforces unique ids. */
  lemma IdsReusable(policy: SelfTradePolicy, gate: Option<RiskConfig>, es: seq<Event>)
    ensures (exists xs :: SameShape(xs, es) && !AllDistinct(AcceptedIds(Start(policy, gate), xs)))
       <==> Reusable(gate, es)
  {
    hide AcceptedIds, AllDistinct, SameShape, Reusable;
    if xs :| SameShape(xs, es) && !AllDistinct(AcceptedIds(Start(policy, gate), xs)) {
      TwiceIsRepeated(Start(policy, gate), xs);
      RepeatNeeds(policy, gate, xs);
      ReusableByShape(gate, xs, es);
    }
    if Reusable(gate, es) {
      var xs := Reuse(policy, gate, es);
      TwiceIsRepeated(Start(policy, gate), xs);
    }
  }

  lemma {:induction false} SwitchInForce(s: State, es: seq<Event>, gate: Option<RiskConfig>, killed: bool)
    requires gate == (if s.risk.Some? then Some(s.risk.value.config) else None)
    requires s.risk.Some? ==> s.risk.value.killed == killed
    ensures var r := Session(s, es).risk; r.Some? ==> r.value.killed == KilledAfter(gate, killed, es)
    decreases |es|
  {
    hide Submit, Cancel, Verdict;
    if es != [] {
      SwitchInForce(Happen(s, es[0]), es[1..], if es[0].Install? then Some(es[0].config) else gate,
                    if es[0].Install? then false else if es[0].Kill? && gate.Some? then es[0].on else killed);
    }
  }

  /** What the gate does to the ids it has seen. */
  lemma SeenStep(s: State, e: Event)
    requires s.risk.Some? && !e.Install?
    ensures var r, r' := s.risk.value, Happen(s, e).risk;
      && r'.Some? && r'.value.config == r.config && r.seen <= r'.value.seen
      && (Submits(e) && VerdictOn(s, e.command) == Accepted && r.config.enforceUniqueIds ==>
            e.command.id in r'.value.seen)
  {
    hide Submit, Cancel, Verdict;
  }

  lemma {:induction false} SeenStays(s: State, es: seq<Event>)
    requires s.risk.Some? && !Installs(es)
    ensures var r := Session(s, es).risk;
      r.Some? && r.value.config == s.risk.value.config && s.risk.value.seen <= r.value.seen
    decreases |es|
  {
    hide Happen, Installs;
    InstallsTail(es);
    if es != [] {
      SeenStep(s, es[0]);
      SeenStays(Happen(s, es[0]), es[1..]);
    }
  }

  lemma SeenRejects(s: State, c: Command)
    requires s.risk.Some?
    ensures VerdictOn(s, c) == Accepted ==>
              !s.risk.value.killed && !(s.risk.value.config.enforceUniqueIds && c.id in s.risk.value.seen)
  {
  }

  /** The schedule of a session that accepts an id twice. */
  lemma RepeatNeeds(policy: SelfTradePolicy, gate: Option<RiskConfig>, es: seq<Event>)
    requires AcceptedTwice(Start(policy, gate), es)
    ensures Reusable(gate, es)
  {
    var start := Start(policy, gate);
    hide Session, GateAfter, KilledAfter, VerdictOn, Installs;
    var i: nat, j: nat :| i < j && AcceptedAt(start, es, i) && AcceptedAt(start, es, j)
                          && es[i].command.id == es[j].command.id;
    AcceptedIsOpen(policy, gate, es, i);
    AcceptedIsOpen(policy, gate, es, j);
    if !Installs(es[i + 1..j]) && Enforcing(GateAfter(gate, es[..j])) {
      NotAgain(policy, gate, es, i, j);
    }
  }

  lemma AcceptedIsOpen(policy: SelfTradePolicy, gate: Option<RiskConfig>, es: seq<Event>, i: nat)
    requires AcceptedAt(Start(policy, gate), es, i)
    ensures Open(gate, es, i)
  {
    hide Session, KilledAfter, VerdictOn, GateAfter;
    var start := Start(policy, gate);
    var s := Session(start, es[..i]);
    SwitchInForce(start, es[..i], gate, false);
    GateInForce(start, es[..i], gate);
    if s.risk.Some? {
      SeenRejects(s, es[i].command);
    } else {
      NeverKilled(gate, es[..i]);
    }
  }

  lemma {:induction false} NeverKilled(gate: Option<RiskConfig>, es: seq<Event>)
    requires GateAfter(gate, es).None?
    ensures !KilledAfter(gate, false, es)
    decreases |es|
  {
    hide Installs;
    if es != [] {
      InstalledGate(gate, es);
      InstallsTail(es);
      NeverKilled(gate, es[1..]);
    }
  }

  /** Under one enforcing gate, an accepted id is not accepted again. */
  lemma NotAgain(policy: SelfTradePolicy, gate: Option<RiskConfig>, es: seq<Event>, i: nat, j: nat)
    requires i < j && AcceptedAt(Start(policy, gate), es, i) && j < |es| && Submits(es[j])
    requires es[i].command.id == es[j].command.id
    requires !Installs(es[i + 1..j]) && Enforcing(GateAfter(gate, es[..j]))
    ensures !AcceptedAt(Start(policy, gate), es, j)
  {
    hide Session, Happen, GateAfter, VerdictOn, Installs;
    var start := Start(policy, gate);
    var s, t := Session(start, es[..i]), Session(start, es[..i + 1]);
    SessionSnoc(start, es, i);
    assert es[..j] == es[..i + 1] + es[i + 1..j];
    SessionConcat(start, es[..i + 1], es[i + 1..j]);
    GateInForce(start, es[..j], gate);
    GateStays(t, es[i + 1..j]);
    NoGateComes(s, es[i]);
    SeenStep(s, es[i]);
    SeenStays(t, es[i + 1..j]);
    SeenRejects(Session(start, es[..j]), es[j].command);
  }

  lemma NoGateComes(s: State, e: Event)
    requires e.Do?
    ensures Happen(s, e).risk.Some? <==> s.risk.Some?
  {
    hide Submit, Cancel, Verdict;
  }

  lemma {:induction false} GateStays(s: State, es: seq<Event>)
    requires !Installs(es)
    ensures Session(s, es).risk.Some? <==> s.risk.Some?
    decreases |es|
  {
    hide Submit, Cancel, Verdict, Installs;
    InstallsTail(es);
    if es != [] {
      GateStays(Happen(s, es[0]), es[1..]);
    }
  }

  // ---- Reusing an id -----------------------------------------------------------------------------------------------

  const BUY_ONE := Command(SUBMIT, 0, 1, 7, 0, 0, 1, 0)

  /** The events of a schedule with two of its commands buying one unit under the same id, and the others doing
      nothing. */
  function TwoBuys(es: seq<Event>, i: nat, j: nat): (xs: seq<Event>)
    ensures |xs| == |es|
  {
    seq(|es|, k requires 0 <= k < |es| =>
      if !es[k].Do? then es[k] else if k == i || k == j then Do(BUY_ONE) else Do(SHUTDOWN_COMMAND))
  }

  ghost predicate Quiet(es: seq<Event>) {
    forall i :: 0 <= i < |es| ==> (es[i].Do? ==> es[i].command == SHUTDOWN_COMMAND)
  }

  /** A schedule without live commands leaves the book alone, and its last gate, if one was put in, has seen no id. */
  lemma {:induction false} QuietSession(s: State, es: seq<Event>)
    requires Quiet(es)
    ensures Session(s, es).book == s.book
    ensures var r := Session(s, es).risk;
      r.Some? ==> if Installs(es) then r.value.seen == {} else s.risk.Some? && r.value.seen == s.risk.value.seen
    decreases |es|
  {
    hide Submit, Cancel, Verdict, Installs;
    InstallsTail(es);
    if es != [] {
      assert forall i :: 0 <= i < |es[1..]| ==> es[1..][i] == es[i + 1];
      QuietSession(Happen(s, es[0]), es[1..]);
    }
  }

  /** A gate that is not switched off and has not seen the id, or no gate, accepts the purchase. */
  lemma BuyOneAccepted(s: State)
    requires s.book.asks == []
    requires s.risk.Some? ==> !s.risk.value.killed && (s.risk.value.config.enforceUniqueIds ==> 1 !in s.risk.value.seen)
    ensures VerdictOn(s, BUY_ONE) == Accepted
  {
  }

  lemma BuyOneKeepsAsks(s: State)
    requires s.book.asks == []
    ensures Happen(s, Do(BUY_ONE)).book.asks == []
  {
    hide Insert, Verdict;
    var t := TakerOf(BUY_ONE);
    assert Match(s.book.policy, t, [], 1) == MatchOut([], [], [], 1, false);
  }

  /** A reusable schedule has a session that reuses an id. */
  lemma Reuse(policy: SelfTradePolicy, gate: Option<RiskConfig>, es: seq<Event>) returns (xs: seq<Event>)
    requires Reusable(gate, es)
    ensures SameShape(xs, es) && AcceptedTwice(Start(policy, gate), xs)
  {
    hide Session, Happen, GateAfter, KilledAfter, VerdictOn, Installs;
    var i: nat, j: nat :| i < j && Open(gate, es, i) && Open(gate, es, j)
                          && (Installs(es[i + 1..j]) || !Enforcing(GateAfter(gate, es[..j])));
    xs := TwoBuys(es, i, j);
    FirstBuy(policy, gate, es, i, j);
    SecondBuy(policy, gate, es, i, j);
    assert xs[i] == Do(BUY_ONE) && xs[j] == Do(BUY_ONE);
  }

  lemma PrefixByShape(gate: Option<RiskConfig>, xs: seq<Event>, ys: seq<Event>, i: nat)
    requires SameShape(xs, ys) && i <= |xs|
    ensures GateAfter(gate, xs[..i]) == GateAfter(gate, ys[..i])
    ensures KilledAfter(gate, false, xs[..i]) == KilledAfter(gate, false, ys[..i])
  {
    ShapeDecides(gate, false, xs[..i], ys[..i]);
  }

  lemma {:induction false} ShapeDecides(gate: Option<RiskConfig>, killed: bool, xs: seq<Event>, ys: seq<Event>)
    requires SameShape(xs, ys)
    ensures GateAfter(gate, xs) == GateAfter(gate, ys) && KilledAfter(gate, killed, xs) == KilledAfter(gate, killed, ys)
    decreases |xs|
  {
    if xs != [] {
      var e := ys[0];
      assert xs[0] == e || (xs[0].Do? && e.Do?);
      ShapeDecides(if e.Install? then Some(e.config) else gate,
                   if e.Install? then false else if e.Kill? && gate.Some? then e.on else killed, xs[1..], ys[1..]);
    }
  }

  lemma InstallsByShape(xs: seq<Event>, ys: seq<Event>)
    requires SameShape(xs, ys)
    ensures Installs(xs) <==> Installs(ys)
  {
    if Installs(xs) {
      var i :| 0 <= i < |xs| && xs[i].Install?;
      assert ys[i].Install?;
    }
    if Installs(ys) {
      var i :| 0 <= i < |ys| && ys[i].Install?;
      assert xs[i].Install?;
    }
  }

  lemma TwoBuysShape(es: seq<Event>, i: nat, j: nat)
    requires i < j < |es| && es[i].Do?
    ensures var xs := TwoBuys(es, i, j);
      && SameShape(xs, es) && SameShape(xs[i + 1..j], es[i + 1..j])
      && Quiet(xs[..i]) && Quiet(xs[i + 1..j])
  {
  }

  lemma FirstBuy(policy: SelfTradePolicy, gate: Option<RiskConfig>, es: seq<Event>, i: nat, j: nat)
    requires i < j < |es| && Open(gate, es, i)
    ensures AcceptedAt(Start(policy, gate), TwoBuys(es, i, j), i)
    ensures Session(Start(policy, gate), TwoBuys(es, i, j)[..i]).book.asks == []
  {
    hide Session, GateAfter, KilledAfter, VerdictOn, Installs, Quiet, SameShape;
    var start, xs := Start(policy, gate), TwoBuys(es, i, j);
    TwoBuysShape(es, i, j);
    PrefixByShape(gate, xs, es, i);
    QuietSession(start, xs[..i]);
    SwitchInForce(start, xs[..i], gate, false);
    BuyOneAccepted(Session(start, xs[..i]));
    assert xs[i] == Do(BUY_ONE);
  }

  lemma SecondBuy(policy: SelfTradePolicy, gate: Option<RiskConfig>, es: seq<Event>, i: nat, j: nat)
    requires i < j && Open(gate, es, i) && Open(gate, es, j)
    requires Installs(es[i + 1..j]) || !Enforcing(GateAfter(gate, es[..j]))
    ensures AcceptedAt(Start(policy, gate), TwoBuys(es, i, j), j)
  {
    hide Session, Happen, GateAfter, KilledAfter, VerdictOn, Installs, Quiet, SameShape;
    var start, xs := Start(policy, gate), TwoBuys(es, i, j);
    FirstBuy(policy, gate, es, i, j);
    TwoBuysShape(es, i, j);
    PrefixByShape(gate, xs, es, j);
    InstallsByShape(xs[i + 1..j], es[i + 1..j]);
    assert xs[i] == Do(BUY_ONE) && xs[j] == Do(BUY_ONE);
    SessionSnoc(start, xs, i);
    var s := Session(start, xs[..i + 1]);
    BuyOneKeepsAsks(Session(start, xs[..i]));
    assert xs[..j] == xs[..i + 1] + xs[i + 1..j];
    SessionConcat(start, xs[..i + 1], xs[i + 1..j]);
    QuietSession(s, xs[i + 1..j]);
    SwitchInForce(start, xs[..j], gate, false);
    GateInForce(start, xs[..j], gate);
    BuyOneAccepted(Session(start, xs[..j]));
  }

  lemma ReusableByShape(gate: Option<RiskConfig>, xs: seq<Event>, ys: seq<Event>)
    requires SameShape(xs, ys) && Reusable(gate, xs)
    ensures Reusable(gate, ys)
  {
    hide GateAfter, KilledAfter, Installs;
    var i: nat, j: nat :| i < j && Open(gate, xs, i) && Open(gate, xs, j)
                          && (Installs(xs[i + 1..j]) || !Enforcing(GateAfter(gate, xs[..j])));
    PrefixByShape(gate, xs, ys, i);
    PrefixByShape(gate, xs, ys, j);
    InstallsByShape(xs[i + 1..j], ys[i + 1..j]);
    assert Open(gate, ys, i) && Open(gate, ys, j);
  }
}
