/** The threaded pipeline: a producer pushing a command list and then the sentinel through the ring, and a consumer
    applying what it pops until it meets the sentinel, as one transition system. */
module Pipeline {
  import opened Types
  import Bits
  import opened RingBuffer
  import opened EventLogs
  import Engine
  import Replays

  /** `todo` is what the producer has yet to push, the sentinel last; `journal` is the file the consumer writes. */
  datatype System = System(ring: Ring<Command>, todo: seq<Command>, engine: Engine.State, exited: bool,
                           host: Host, journal: seq<U8>)

  function Begin(host: Host, capacity: nat, cs: seq<Command>, engine: Engine.State): System {
    System(Init<Command>(capacity), cs + [SHUTDOWN_COMMAND], engine, false, host, Header(host))
  }

  /** The producer pushes its commands in order, retrying on a full ring; the consumer stops for good once it exited. */
  predicate Can(s: System, a: Action<Command>) {
    && Enabled(s.ring, a)
    && (a.StartPush? ==> s.todo != [] && a.value == s.todo[0])
    && (a.StartPop? ==> !s.exited)
  }

  function Advance(s: System, a: Action<Command>): (r: System)
    requires Can(s, a) && Sized(s.ring)
    ensures Sized(r.ring) && r.host == s.host
  {
    var ring := Step(s.ring, a);
    if a.PublishTail? then s.(ring := ring, todo := if s.todo == [] then [] else s.todo[1..])
    else if a.PublishHead? then
      var c := s.ring.consumer.out;
      if c.kind == SHUTDOWN then s.(ring := ring, exited := true)
      else s.(ring := ring, engine := Engine.Apply(s.engine, c), journal := s.journal + Body(s.host, [c]))
    else s.(ring := ring)
  }

  predicate Schedule(s: System, actions: seq<Action<Command>>)
    requires Sized(s.ring)
    decreases |actions|
  {
    actions == [] || (Can(s, actions[0]) && Schedule(Advance(s, actions[0]), actions[1..]))
  }

  function Execute(s: System, actions: seq<Action<Command>>): (r: System)
    requires Sized(s.ring) && Schedule(s, actions)
    ensures Sized(r.ring) && r.host == s.host
    decreases |actions|
  {
    if actions == [] then s else Execute(Advance(s, actions[0]), actions[1..])
  }

  /** The commands up to, and not including, the first sentinel. */
  function UpToSentinel(cs: seq<Command>): seq<Command> {
    if cs == [] || cs[0].kind == SHUTDOWN then [] else [cs[0]] + UpToSentinel(cs[1..])
  }

  /** That is the longest prefix without a command of kind 2. The sentinel pushed at the end is one, with nothing else
      set. */
  lemma {:induction false} SentinelTerms(cs: seq<Command>)
    ensures var n := |UpToSentinel(cs)|;
      && n <= |cs| && UpToSentinel(cs) == cs[..n]
      && (forall i :: 0 <= i < n ==> cs[i].kind != 2)
      && (n < |cs| ==> cs[n].kind == 2)
    ensures SHUTDOWN_COMMAND == Command(2, 0, 0, 0, 0, 0, 0, 0)
    decreases |cs|
  {
    if cs != [] && cs[0].kind != SHUTDOWN {
      SentinelTerms(cs[1..]);
      var n := |UpToSentinel(cs[1..])|;
      assert cs[..n + 1] == [cs[0]] + cs[1..][..n];
      assert forall i :: 0 < i < n + 1 ==> cs[i] == cs[1..][i - 1];
    }
  }

  predicate NoSentinel(cs: seq<Command>) {
    forall i :: 0 <= i < |cs| ==> cs[i].kind != SHUTDOWN
  }

  /** What every schedule keeps, for the stream `all` the producer started with. */
  ghost predicate Flow(s: System, all: seq<Command>, start: Engine.State) {
    && Inv(s.ring)
    && s.ring.pushed + s.todo == all
    && (!s.ring.producer.Idle? ==> s.todo != [] && s.ring.producer.value == s.todo[0])
    && (if s.exited then
          && s.ring.consumer.Waiting?
          && s.ring.popped != [] && s.ring.popped[|s.ring.popped| - 1].kind == SHUTDOWN
          && NoSentinel(s.ring.popped[..|s.ring.popped| - 1])
          && Applied(s, s.ring.popped[..|s.ring.popped| - 1], start)
        else
          && NoSentinel(s.ring.popped)
          && Applied(s, s.ring.popped, start))
  }

  /** The consumer has journalled and applied exactly `cs`, in order. */
  ghost predicate Applied(s: System, cs: seq<Command>, start: Engine.State) {
    s.engine == Engine.Fold(start, cs) && s.journal == Header(s.host) + Body(s.host, cs)
  }

  lemma FoldSnoc(start: Engine.State, cs: seq<Command>, c: Command)
    ensures Engine.Fold(start, cs + [c]) == Engine.Apply(Engine.Fold(start, cs), c)
  {
    Engine.FoldConcat(start, cs, [c]);
    assert [c][1..] == [];
  }

  /** What a step shows of the traffic. */
  lemma StepTraffic(r: Ring<Command>, a: Action<Command>)
    requires Enabled(r, a) && Sized(r)
    ensures var r' := Step(r, a);
      && r'.pushed == (if a.PublishTail? then r.pushed + [r.producer.value] else r.pushed)
      && r'.popped == (if a.PublishHead? then r.popped + [r.consumer.out] else r.popped)
      && (a.PublishTail? ==> r'.producer.Idle?)
      && (!r'.producer.Idle? ==> r'.producer.value == if a.StartPush? then a.value else r.producer.value)
      && (r'.producer.Idle? || a.StartPush? || !r.producer.Idle?)
      && (a.PublishHead? ==> r'.consumer.Waiting?)
      && (r.consumer.Waiting? && !a.StartPop? ==> r'.consumer.Waiting?)
  {
    hide Full, Word, SlotOf;
  }

  lemma AdvanceKeeps(s: System, a: Action<Command>, all: seq<Command>, start: Engine.State)
    requires Flow(s, all, start) && Can(s, a)
    ensures Flow(Advance(s, a), all, start)
  {
    hide Flow, Can, Advance;
    if a.PublishTail? {
      PushKeeps(s, a, all, start);
    } else if a.PublishHead? {
      PopKeeps(s, a, all, start);
    } else {
      InnerKeeps(s, a, all, start);
    }
  }

  lemma InnerKeeps(s: System, a: Action<Command>, all: seq<Command>, start: Engine.State)
    requires Flow(s, all, start) && Can(s, a) && !a.PublishTail? && !a.PublishHead?
    ensures Flow(Advance(s, a), all, start)
  {
    hide Inv, Step, NoSentinel, Engine.Apply, Engine.Fold, Header, Body;
    InvFacts(s.ring);
    StepKeeps(s.ring, a);
    StepTraffic(s.ring, a);
  }

  lemma PushKeeps(s: System, a: Action<Command>, all: seq<Command>, start: Engine.State)
    requires Flow(s, all, start) && Can(s, a) && a.PublishTail?
    ensures Flow(Advance(s, a), all, start)
  {
    hide Inv, Step, NoSentinel, Engine.Apply, Engine.Fold, Header, Body;
    InvFacts(s.ring);
    StepKeeps(s.ring, a);
    StepTraffic(s.ring, a);
    assert s.todo == [s.todo[0]] + s.todo[1..];
    Regroup(s.ring.pushed, [s.todo[0]], s.todo[1..]);
  }

  lemma PopKeeps(s: System, a: Action<Command>, all: seq<Command>, start: Engine.State)
    requires Flow(s, all, start) && Can(s, a) && a.PublishHead?
    ensures Flow(Advance(s, a), all, start)
  {
    hide Inv, Step, Engine.Apply, Engine.Fold, Header, Body;
    InvFacts(s.ring);
    StepKeeps(s.ring, a);
    StepTraffic(s.ring, a);
    var popped, c := s.ring.popped, s.ring.consumer.out;
    assert (popped + [c])[..|popped + [c]| - 1] == popped;
    FoldSnoc(start, popped, c);
    BodySnoc(s.host, popped, c);
    Regroup(Header(s.host), Body(s.host, popped), Body(s.host, [c]));
  }

  lemma InvFacts(r: Ring<Command>)
    requires Inv(r)
    ensures Sized(r) && |r.pushed| == r.tails && |r.popped| == r.heads && r.popped <= r.pushed
    ensures r.heads <= r.seenTail <= r.tails && r.seenHead <= r.heads
    ensures r.consumer.NonEmpty? || r.consumer.MovedOut? || r.consumer.Destroyed? ==> r.heads < r.tails
  {
  }

  lemma {:induction false} ExecuteKeeps(s: System, actions: seq<Action<Command>>, all: seq<Command>,
                                        start: Engine.State)
    requires Flow(s, all, start) && Schedule(s, actions)
    ensures Flow(Execute(s, actions), all, start)
    decreases |actions|
  {
    if actions != [] {
      AdvanceKeeps(s, actions[0], all, start);
      ExecuteKeeps(Advance(s, actions[0]), actions[1..], all, start);
    }
  }

  lemma BeginFlows(host: Host, capacity: nat, cs: seq<Command>, engine: Engine.State)
    requires Bits.IsPow2(capacity) && 2 <= capacity <= TWO_63
    ensures Flow(Begin(host, capacity, cs, engine), cs + [SHUTDOWN_COMMAND], engine)
  {
    InitHolds<Command>(capacity);
    EmptyBody(host);
    assert Header(host) + [] == Header(host);
  }

  lemma {:induction false} SentinelEnds(all: seq<Command>, cs: seq<Command>, popped: seq<Command>)
    requires popped <= all && popped != [] && popped[|popped| - 1].kind == SHUTDOWN
    requires NoSentinel(popped[..|popped| - 1])
    requires all == cs + [SHUTDOWN_COMMAND]
    ensures popped[..|popped| - 1] == UpToSentinel(cs)
    decreases |all|
  {
    assert |popped| > 1 ==> popped[..|popped| - 1][0] == popped[0];
    if cs == [] {
      assert |popped| == 1;
    } else if cs[0].kind == SHUTDOWN {
      assert popped[0] == cs[0];
    } else {
      assert popped[0] == cs[0];
      assert all[1..] == cs[1..] + [SHUTDOWN_COMMAND];
      assert popped[1..][..|popped[1..]| - 1] == popped[..|popped| - 1][1..];
      SentinelEnds(all[1..], cs[1..], popped[1..]);
    }
  }

  lemma {:induction false} NothingToCut(cs: seq<Command>)
    ensures UpToSentinel(cs) == cs <==> NoSentinel(cs)
    decreases |cs|
  {
    if cs != [] {
      NothingToCut(cs[1..]);
      assert forall i :: 0 < i < |cs| ==> cs[i] == cs[1..][i - 1];
      if cs[0].kind != SHUTDOWN && NoSentinel(cs[1..]) {
        assert NoSentinel(cs);
      }
      if NoSentinel(cs) {
        assert forall i :: 0 <= i < |cs[1..]| ==> cs[1..][i] == cs[i + 1];
      }
    }
  }

  /** What the exit means. */
  lemma ExitFacts(s: System, cs: seq<Command>, start: Engine.State)
    requires Flow(s, cs + [SHUTDOWN_COMMAND], start) && s.exited
    ensures s.ring.popped != [] && s.ring.popped[..|s.ring.popped| - 1] == UpToSentinel(cs)
    ensures Applied(s, UpToSentinel(cs), start)
  {
    hide Inv, Applied, UpToSentinel, NoSentinel;
    InvFacts(s.ring);
    SentinelEnds(cs + [SHUTDOWN_COMMAND], cs, s.ring.popped);
  }

  /** Pipeline equals inline: for every schedule and every admissible stale load, once the consumer has exited, the
      engine is in the state that applying the commands ahead of the first sentinel one by one reaches; that is all of
      them exactly when the producer pushed no sentinel of its own. */
  lemma PipelineEqualsInline(host: Host, capacity: nat, cs: seq<Command>, start: Engine.State,
                             actions: seq<Action<Command>>)
    requires Bits.IsPow2(capacity) && 2 <= capacity <= TWO_63
    requires Schedule(Begin(host, capacity, cs, start), actions)
    ensures var s := Execute(Begin(host, capacity, cs, start), actions);
      s.exited ==>
        && s.engine == Engine.Fold(start, UpToSentinel(cs))
        && s.ring.popped != []
        && s.ring.popped[..|s.ring.popped| - 1] == UpToSentinel(cs)
        && (UpToSentinel(cs) == cs <==> NoSentinel(cs))
  {
    hide Flow, Advance, Execute, Schedule, Engine.Fold, UpToSentinel, NoSentinel, Header, Body;
    BeginFlows(host, capacity, cs, start);
    ExecuteKeeps(Begin(host, capacity, cs, start), actions, cs + [SHUTDOWN_COMMAND], start);
    var s := Execute(Begin(host, capacity, cs, start), actions);
    if s.exited {
      ExitFacts(s, cs, start);
      NothingToCut(cs);
    }
  }

  /** The journal of the pipeline. At every moment of every schedule the journal is readable, and replaying it gives the
      state of the engine; once the consumer has exited, it holds exactly the commands ahead of the first sentinel. */
  lemma PipelineJournal(host: Host, capacity: nat, cs: seq<Command>, start: Engine.State, actions: seq<Action<Command>>)
    requires Bits.IsPow2(capacity) && 2 <= capacity <= TWO_63
    requires Schedule(Begin(host, capacity, cs, start), actions)
    ensures var s := Execute(Begin(host, capacity, cs, start), actions);
      var r := ReadSpec(host, s.journal);
      && r.Events? && Engine.Fold(start, r.events) == s.engine
      && (s.exited ==> s.journal == Header(host) + Body(host, UpToSentinel(cs)))
  {
    hide Flow, Advance, Execute, Schedule, Engine.Fold, UpToSentinel, NoSentinel, Header, Body, ReadSpec;
    BeginFlows(host, capacity, cs, start);
    ExecuteKeeps(Begin(host, capacity, cs, start), actions, cs + [SHUTDOWN_COMMAND], start);
    var s := Execute(Begin(host, capacity, cs, start), actions);
    if s.exited {
      ExitFacts(s, cs, start);
      Replays.FullReplay(host, start, UpToSentinel(cs));
    } else {
      RunningFacts(s, cs + [SHUTDOWN_COMMAND], start);
      Replays.FullReplay(host, start, s.ring.popped);
    }
  }

  lemma RunningFacts(s: System, all: seq<Command>, start: Engine.State)
    requires Flow(s, all, start) && !s.exited
    ensures Applied(s, s.ring.popped, start)
  {
  }

  // ---- Progress ------------------------------------------------------------------------------------------------

  /** A step that makes progress: the consumer's while the ring holds something, else the producer's, with fresh
      loads. */
  function NextGood(s: System): Action<Command>
    requires s.ring.heads < s.ring.tails || s.todo != []
  {
    if s.ring.heads < s.ring.tails then
      match s.ring.consumer
      case Waiting => StartPop
      case GotHead(_) => CheckEmpty(s.ring.tails)
      case NonEmpty(_) => MoveOut
      case MovedOut(_, _) => Destroy
      case Destroyed(_, _) => PublishHead
    else
      match s.ring.producer
      case Idle => StartPush(s.todo[0])
      case GotTail(_, _) => CheckFull(s.ring.heads)
      case Admitted(_, _) => Construct
      case Constructed(_, _) => PublishTail
  }

  function PushSteps(p: Producer): nat {
    match p
    case Idle => 0
    case GotTail(_, _) => 1
    case Admitted(_, _) => 2
    case Constructed(_, _) => 3
  }

  function PopSteps(c: Consumer): nat {
    match c
    case Waiting => 0
    case GotHead(_) => 1
    case NonEmpty(_) => 2
    case MovedOut(_, _) => 3
    case Destroyed(_, _) => 4
  }

  /** The steps still needed to push and pop everything. */
  function Work(s: System, all: nat): int {
    4 * |s.todo| - PushSteps(s.ring.producer) + 5 * (all - s.ring.heads) - PopSteps(s.ring.consumer)
  }

  /** A push that found the ring full or a pop that found it empty, on what its load showed. */
  predicate Retry(r: Ring<Command>, a: Action<Command>)
    requires Enabled(r, a) && Sized(r)
  {
    (a.CheckFull? && Step(r, a).producer.Idle?) || (a.CheckEmpty? && Step(r, a).consumer.Waiting?)
  }

  function Retries(s: System, actions: seq<Action<Command>>): nat
    requires Sized(s.ring) && Schedule(s, actions)
    decreases |actions|
  {
    if actions == [] then 0
    else (if Retry(s.ring, actions[0]) then 1 else 0) + Retries(Advance(s, actions[0]), actions[1..])
  }

  /** A pop that got past the empty test finds a constructed value. */
  lemma NoFault(r: Ring<Command>)
    requires Inv(r) && r.consumer.NonEmpty?
    ensures Step(r, MoveOut).consumer.MovedOut?
  {
    MaskedIndex(r.capacity, r.heads);
  }

  /** How far a step takes the two threads. */
  lemma StepLength(r: Ring<Command>, a: Action<Command>)
    requires Inv(r) && Enabled(r, a) && Sized(r)
    ensures var r' := Step(r, a);
      && r'.heads == r.heads + (if a.PublishHead? then 1 else 0)
      && PushSteps(r'.producer) + PopSteps(r'.consumer)
           + (if a.PublishTail? then 4 else if a.PublishHead? then 5 else 0)
         == PushSteps(r.producer) + PopSteps(r.consumer) + 1 - (if Retry(r, a) then 2 else 0)
  {
    if a.MoveOut? {
      NoFault(r);
    }
    hide Inv, Full, Word, SlotOf;
  }

  lemma WorkStep(s: System, a: Action<Command>, all: seq<Command>, start: Engine.State)
    requires Flow(s, all, start) && Can(s, a)
    ensures Work(Advance(s, a), |all|) == Work(s, |all|) - 1 + (if Retry(s.ring, a) then 2 else 0)
  {
    hide Inv, Step, Retry, Engine.Apply, Engine.Fold;
    InvFacts(s.ring);
    StepLength(s.ring, a);
  }

  /** Until the consumer exits there is something to push or to pop. */
  lemma MoreToDo(s: System, cs: seq<Command>, start: Engine.State)
    requires Flow(s, cs + [SHUTDOWN_COMMAND], start) && !s.exited
    ensures s.ring.heads < s.ring.tails || s.todo != []
    ensures s.ring.heads <= |cs|
  {
    hide Inv, Engine.Fold;
    InvFacts(s.ring);
    var all := cs + [SHUTDOWN_COMMAND];
    assert all[|cs|] == SHUTDOWN_COMMAND;
    forall i | 0 <= i < |s.ring.popped|
      ensures s.ring.popped[i] == all[i] && i != |cs|
    {
    }
  }

  /** The step of `NextGood` is enabled and not a retry. */
  lemma GoodEnabled(r: Ring<Command>, todo: seq<Command>, exited: bool, engine: Engine.State, host: Host,
                    journal: seq<U8>)
    requires Inv(r) && !exited && (r.heads < r.tails || todo != [])
    requires !r.producer.Idle? ==> todo != [] && r.producer.value == todo[0]
    ensures var s := System(r, todo, engine, exited, host, journal);
      Can(s, NextGood(s)) && !Retry(r, NextGood(s))
  {
    EmptyIsExact(r.capacity, r.heads, r.tails);
    if r.heads == r.tails {
      FullIsExact(r.capacity, r.tails, r.heads);
    }
    hide Contents, Full, Word, SlotOf;
  }

  /** Until the consumer exits some step is enabled that brings the end nearer. */
  lemma ProgressEnabled(s: System, cs: seq<Command>, start: Engine.State)
    requires Flow(s, cs + [SHUTDOWN_COMMAND], start) && !s.exited
    ensures s.ring.heads < s.ring.tails || s.todo != []
    ensures Can(s, NextGood(s))
    ensures Work(Advance(s, NextGood(s)), |cs| + 1) == Work(s, |cs| + 1) - 1
    ensures Work(s, |cs| + 1) > 0
  {
    hide Inv, Step, Retry, NextGood, Engine.Fold, Engine.Apply;
    InvFacts(s.ring);
    MoreToDo(s, cs, start);
    GoodEnabled(s.ring, s.todo, s.exited, s.engine, s.host, s.journal);
    WorkStep(s, NextGood(s), cs + [SHUTDOWN_COMMAND], start);
  }

  lemma {:induction false} WorkDone(s: System, actions: seq<Action<Command>>, all: seq<Command>, start: Engine.State)
    requires Flow(s, all, start) && Schedule(s, actions)
    ensures Work(Execute(s, actions), |all|) == Work(s, |all|) - |actions| + 2 * Retries(s, actions)
    decreases |actions|
  {
    if actions != [] {
      WorkStep(s, actions[0], all, start);
      AdvanceKeeps(s, actions[0], all, start);
      WorkDone(Advance(s, actions[0]), actions[1..], all, start);
    }
  }

  /** Only retries can delay the pipeline: a schedule in which no push meets a full ring and no pop an empty one ends
      within nine steps a command, sentinel included, and every retry costs two steps more. */
  lemma OnlyRetriesDelay(host: Host, capacity: nat, cs: seq<Command>, start: Engine.State,
                         actions: seq<Action<Command>>)
    requires Bits.IsPow2(capacity) && 2 <= capacity <= TWO_63
    requires Schedule(Begin(host, capacity, cs, start), actions)
    ensures |actions| <= 9 * (|cs| + 1) + 2 * Retries(Begin(host, capacity, cs, start), actions)
  {
    hide Flow, Advance, Execute, Schedule, Retries, Engine.Fold;
    var all := cs + [SHUTDOWN_COMMAND];
    var s := Begin(host, capacity, cs, start);
    BeginFlows(host, capacity, cs, start);
    WorkDone(s, actions, all, start);
    ExecuteKeeps(s, actions, all, start);
    var r := Execute(s, actions);
    if r.exited {
      WorkAtExit(r, all, start);
    } else {
      ProgressEnabled(r, cs, start);
    }
  }

  lemma WorkAtExit(s: System, all: seq<Command>, start: Engine.State)
    requires Flow(s, all, start) && s.exited
    ensures Work(s, |all|) >= 0
  {
    hide Inv, Applied, NoSentinel;
    InvFacts(s.ring);
  }

  /** From every reachable state some schedule leads to the exit: no interleaving can trap the pipeline. */
  lemma {:induction false} CanFinish(s: System, cs: seq<Command>, start: Engine.State)
    returns (actions: seq<Action<Command>>)
    requires Flow(s, cs + [SHUTDOWN_COMMAND], start)
    ensures Schedule(s, actions) && Execute(s, actions).exited
    decreases if s.exited then 0 else Work(s, |cs| + 1)
  {
    if s.exited {
      actions := [];
    } else {
      ProgressEnabled(s, cs, start);
      var a := NextGood(s);
      AdvanceKeeps(s, a, cs + [SHUTDOWN_COMMAND], start);
      var rest := CanFinish(Advance(s, a), cs, start);
      actions := [a] + rest;
    }
  }

  /** No schedule can trap the pipeline: whatever has happened, some continuation reaches the exit, and with it the
      state of the inline run. */
  lemma NoTrap(host: Host, capacity: nat, cs: seq<Command>, start: Engine.State, actions: seq<Action<Command>>)
    returns (more: seq<Action<Command>>)
    requires Bits.IsPow2(capacity) && 2 <= capacity <= TWO_63
    requires Schedule(Begin(host, capacity, cs, start), actions)
    ensures var s := Execute(Begin(host, capacity, cs, start), actions);
      && Schedule(s, more)
      && Execute(s, more).exited
      && Execute(s, more).engine == Engine.Fold(start, UpToSentinel(cs))
  {
    hide Flow, Advance, Execute, Schedule, Engine.Fold, UpToSentinel, NoSentinel, Header, Body;
    var all := cs + [SHUTDOWN_COMMAND];
    var s := Execute(Begin(host, capacity, cs, start), actions);
    BeginFlows(host, capacity, cs, start);
    ExecuteKeeps(Begin(host, capacity, cs, start), actions, all, start);
    more := CanFinish(s, cs, start);
    ExecuteKeeps(s, more, all, start);
    FlowFacts(s, all, start);
    ExitFacts(Execute(s, more), cs, start);
  }

  // ---- Fairness ------------------------------------------------------------------------------------------------

  /** How far the two threads are past their tests: every step but a start or a retry counts. */
  function Mark(r: Ring<Command>): nat {
    3 * r.tails + (match r.producer
                   case Idle => 0
                   case GotTail(_, _) => 0
                   case Admitted(_, _) => 1
                   case Constructed(_, _) => 2)
    + 4 * r.heads + (match r.consumer
                     case Waiting => 0
                     case GotHead(_) => 0
                     case NonEmpty(_) => 1
                     case MovedOut(_, _) => 2
                     case Destroyed(_, _) => 3)
  }

  /** A stretch of a schedule in which each thread gets to its test once, with a load at least as recent as the
      beginning of the stretch, unless it is done by then. */
  predicate Window(s: System, w: seq<Action<Command>>)
    requires Sized(s.ring) && Schedule(s, w)
  {
    var e := Execute(s, w);
    && (e.exited || exists i :: 0 <= i < |w| && w[i].CheckEmpty? && w[i].seen >= s.ring.tails)
    && (e.todo == [] || exists i :: 0 <= i < |w| && w[i].CheckFull? && w[i].seen >= s.ring.heads)
  }

  /** A schedule that consists of such stretches, each of `bound` steps, but for a shorter rest. */
  predicate Fair(s: System, actions: seq<Action<Command>>, bound: nat)
    requires Sized(s.ring) && Schedule(s, actions) && bound > 0
    decreases |actions|
  {
    |actions| >= bound ==>
      && Schedule(s, actions[..bound])
      && Window(s, actions[..bound])
      && Schedule(Execute(s, actions[..bound]), actions[bound..])
      && Fair(Execute(s, actions[..bound]), actions[bound..], bound)
  }

  lemma MarkStep(r: Ring<Command>, a: Action<Command>)
    requires Inv(r) && Enabled(r, a) && Sized(r)
    ensures var still := a.StartPush? || a.StartPop? || Retry(r, a);
      Mark(Step(r, a)) == Mark(r) + if still then 0 else 1
  {
    if a.MoveOut? {
      NoFault(r);
    }
    hide Inv, Full, Word, SlotOf;
  }

  /** A step that leaves the mark where it was changes nothing that a test looks at, and any test it makes fails. */
  lemma StillStep(s: System, a: Action<Command>, all: seq<Command>, start: Engine.State)
    requires Flow(s, all, start) && Can(s, a) && Mark(Advance(s, a).ring) == Mark(s.ring)
    ensures var s' := Advance(s, a);
      && s'.ring.heads == s.ring.heads && s'.ring.tails == s.ring.tails && s'.ring.capacity == s.ring.capacity
      && s'.todo == s.todo && s'.exited == s.exited
    ensures a.CheckEmpty? ==> a.seen == s.ring.heads
    ensures a.CheckFull? ==> s.ring.tails + 1 - a.seen > s.ring.capacity
  {
    hide Contents, Full, Word, SlotOf, Engine.Apply, Engine.Fold, Header, Body, NoSentinel;
    MarkStep(s.ring, a);
    if a.CheckEmpty? {
      EmptyIsExact(s.ring.capacity, s.ring.heads, a.seen);
    } else if a.CheckFull? {
      FullIsExact(s.ring.capacity, s.ring.tails, a.seen);
    }
  }

  lemma {:induction false} MarkGrows(s: System, actions: seq<Action<Command>>, all: seq<Command>, start: Engine.State)
    requires Flow(s, all, start) && Schedule(s, actions)
    ensures Mark(Execute(s, actions).ring) >= Mark(s.ring)
    ensures s.exited ==> Execute(s, actions).exited
    decreases |actions|
  {
    hide Inv, Mark, Flow;
    if actions != [] {
      FlowFacts(s, all, start);
      MarkStep(s.ring, actions[0]);
      AdvanceKeeps(s, actions[0], all, start);
      MarkGrows(Advance(s, actions[0]), actions[1..], all, start);
    }
  }

  lemma FlowFacts(s: System, all: seq<Command>, start: Engine.State)
    requires Flow(s, all, start)
    ensures Inv(s.ring) && Sized(s.ring)
  {
  }

  /** A stretch that leaves the mark where it was: all its tests failed. */
  lemma {:induction false} Stalled(s: System, w: seq<Action<Command>>, all: seq<Command>, start: Engine.State)
    requires Flow(s, all, start) && Schedule(s, w) && Mark(Execute(s, w).ring) == Mark(s.ring)
    ensures var e := Execute(s, w);
      && e.ring.heads == s.ring.heads && e.ring.tails == s.ring.tails && e.ring.capacity == s.ring.capacity
      && e.todo == s.todo && e.exited == s.exited
    ensures forall i :: 0 <= i < |w| && w[i].CheckEmpty? ==> w[i].seen == s.ring.heads
    ensures forall i :: 0 <= i < |w| && w[i].CheckFull? ==> s.ring.tails + 1 - w[i].seen > s.ring.capacity
    decreases |w|
  {
    hide Inv, Mark, Flow, Advance, Can;
    if w != [] {
      FlowFacts(s, all, start);
      var s' := Advance(s, w[0]);
      AdvanceKeeps(s, w[0], all, start);
      MarkGrows(s, [w[0]], all, start);
      OneStep(s, w[0]);
      MarkGrows(s', w[1..], all, start);
      StillStep(s, w[0], all, start);
      Stalled(s', w[1..], all, start);
      assert forall i :: 0 < i < |w| ==> w[i] == w[1..][i - 1];
    }
  }

  lemma OneStep(s: System, a: Action<Command>)
    requires Sized(s.ring) && Can(s, a)
    ensures Schedule(s, [a]) && Execute(s, [a]) == Advance(s, a)
  {
    hide Advance, Can;
    assert [a][1..] == [];
  }

  /** In a fair stretch the mark moves, unless the consumer exits. */
  lemma WindowMoves(s: System, w: seq<Action<Command>>, cs: seq<Command>, start: Engine.State)
    requires Flow(s, cs + [SHUTDOWN_COMMAND], start) && Schedule(s, w) && Window(s, w)
    ensures Execute(s, w).exited || Mark(Execute(s, w).ring) > Mark(s.ring)
  {
    hide Inv, Mark, Flow, Schedule, Execute;
    var all := cs + [SHUTDOWN_COMMAND];
    FlowFacts(s, all, start);
    var e := Execute(s, w);
    InvFacts(s.ring);
    MarkGrows(s, w, all, start);
    if !e.exited && Mark(e.ring) == Mark(s.ring) {
      Stalled(s, w, all, start);
      MoreToDo(s, cs, start);
      Capacious(s.ring);
    }
  }

  lemma Capacious(r: Ring<Command>)
    requires Inv(r)
    ensures r.capacity >= 2
  {
  }

  lemma {:induction false} FairMoves(s: System, actions: seq<Action<Command>>, bound: nat, n: nat, cs: seq<Command>,
                                     start: Engine.State)
    requires Flow(s, cs + [SHUTDOWN_COMMAND], start) && Schedule(s, actions) && bound > 0
    requires Fair(s, actions, bound) && |actions| >= bound * n
    ensures Execute(s, actions).exited || Mark(Execute(s, actions).ring) >= Mark(s.ring) + n
    decreases n
  {
    hide Inv, Mark, Flow, Schedule, Execute, Window;
    var all := cs + [SHUTDOWN_COMMAND];
    FlowFacts(s, all, start);
    if n == 0 {
      MarkGrows(s, actions, all, start);
    } else {
      Multiple(bound, n);
      var w, rest := actions[..bound], actions[bound..];
      var e := Execute(s, w);
      ExecuteKeeps(s, w, all, start);
      WindowMoves(s, w, cs, start);
      assert actions == w + rest;
      ExecuteSplit(s, w, rest);
      FairMoves(e, rest, bound, n - 1, cs, start);
      MarkGrows(e, rest, all, start);
    }
  }

  lemma Multiple(bound: nat, n: nat)
    requires n > 0
    ensures bound * n == bound + bound * (n - 1) >= bound
  {
  }

  lemma {:induction false} ExecuteSplit(s: System, xs: seq<Action<Command>>, ys: seq<Action<Command>>)
    requires Sized(s.ring) && Schedule(s, xs) && Schedule(Execute(s, xs), ys) && Schedule(s, xs + ys)
    ensures Execute(s, xs + ys) == Execute(Execute(s, xs), ys)
    decreases |xs|
  {
    hide Advance, Can;
    if xs == [] {
      assert xs + ys == ys;
    } else {
      ConcatTail(xs, ys);
      ExecuteSplit(Advance(s, xs[0]), xs[1..], ys);
    }
  }

  /** No fair schedule goes on without the exit. If every stretch of `bound` steps lets each thread get to its test with
      a load at least as recent as the beginning of the stretch, then, however the threads are interleaved and however
      stale their other loads are, a schedule that has not reached the exit is shorter than 7 * (|cs| + 1) + 1
      stretches, and some step is enabled; at the exit the engine is in the state of the inline run. */
  lemma FairExits(host: Host, capacity: nat, cs: seq<Command>, start: Engine.State, actions: seq<Action<Command>>,
                  bound: nat)
    requires Bits.IsPow2(capacity) && 2 <= capacity <= TWO_63 && bound > 0
    requires Schedule(Begin(host, capacity, cs, start), actions)
    requires Fair(Begin(host, capacity, cs, start), actions, bound)
    ensures var s := Execute(Begin(host, capacity, cs, start), actions);
      if s.exited then s.engine == Engine.Fold(start, UpToSentinel(cs))
      else
        && |actions| < bound * (7 * (|cs| + 1) + 1)
        && (s.ring.heads < s.ring.tails || s.todo != []) && Can(s, NextGood(s))
  {
    hide Inv, Mark, Flow, Advance, Execute, Schedule, Fair, Can, NextGood, Engine.Fold, UpToSentinel, NoSentinel;
    var all := cs + [SHUTDOWN_COMMAND];
    var b := Begin(host, capacity, cs, start);
    var s := Execute(b, actions);
    BeginFlows(host, capacity, cs, start);
    ExecuteKeeps(b, actions, all, start);
    PipelineEqualsInline(host, capacity, cs, start, actions);
    if !s.exited {
      MarkBounded(s, all, start);
      ProgressEnabled(s, cs, start);
      if |actions| >= bound * (7 * (|cs| + 1) + 1) {
        FairMoves(b, actions, bound, 7 * (|cs| + 1) + 1, cs, start);
      }
    }
  }

  lemma MarkBounded(s: System, all: seq<Command>, start: Engine.State)
    requires Flow(s, all, start)
    ensures Mark(s.ring) <= 7 * |all|
  {
    hide Inv, Engine.Fold, Header, Body, NoSentinel;
    InvFacts(s.ring);
  }
}
