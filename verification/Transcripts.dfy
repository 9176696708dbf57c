/** What the two sides of a migration have said to each other, step by step.

  A history records, along a run, which stages the source has sent, which requests the
  destination has read, how many rounds found dirty memory, after how many of them a
  cancel was asked for, what the status check saw, and whether dirty memory was left
  after the pause.  What was sent is determined by what was found, and what was read is
  what was sent, as far as it has arrived. */
module Transcripts {
  import opened Addresses
  import opened Protocol

  datatype History = History(
    sent: seq<Stage>,
    taken: seq<TransStatus>,
    rounds: nat,
    asked: Option<nat>,
    canceled: Option<bool>,
    leftover: Option<bool>)

  const NOTHING := History([], [], 0, None, None, None)

  /** The migration is active and has not come to the status check. */
  predicate BeforeCheck(s: State, h: History) {
    h.canceled.None? && s.source != Ready(ActiveStage) && !s.source.GaveUp?
  }

  /** The history after one more step. */
  ghost function Record(h: History, s: State, act: Action, maxRounds: nat): History
    requires Enabled(s, act, maxRounds)
  {
    match act
    case Send(_, _) =>
      if |Next(s, act, maxRounds).forth| == |s.forth| then h else h.(sent := h.sent + [s.source.stage])
    case TargetStep(_) =>
      if !s.target.ToRun? && s.forth != [] && s.forth[0].Request? then h.(taken := h.taken + [s.forth[0].status]) else h
    case NextRound(dirty) => if dirty then h.(rounds := h.rounds + 1) else h
    case CheckCanceled => h.(canceled := Some(s.sourceStatus == Canceled))
    case AfterPause(dirty) => h.(leftover := Some(dirty))
    case Cancel => if h.asked.None? && BeforeCheck(s, h) then h.(asked := Some(h.rounds)) else h
    case _ => h
  }

  ghost function HistoryOf(s: State, h: History, acts: seq<Action>, maxRounds: nat): History
    requires IsRun(s, acts, maxRounds)
    decreases |acts|
  {
    if acts == [] then h
    else HistoryOf(Next(s, acts[0], maxRounds), Record(h, s, acts[0], maxRounds), acts[1..], maxRounds)
  }

  // ---- What is to be sent ----

  function DirtyRounds(n: nat): seq<Stage> {
    if n == 0 then [] else DirtyRounds(n - 1) + [DirtyStage(n - 1)]
  }

  /** All memory, and then one message for every round that found dirty memory. */
  function Opening(rounds: nat): seq<Stage> {
    [ActiveStage, ConfigStage, MemoryStage] + DirtyRounds(rounds)
  }

  /** What a source that got so far is to send altogether: after a cancel nothing but
      the cancel, and otherwise the memory left dirty at the pause, the state, the end. */
  function Plan(h: History): seq<Stage> {
    Opening(h.rounds) +
    if h.canceled == Some(true) then [CancelStage]
    else if h.leftover.None? then []
    else (if h.leftover == Some(true) then [LastStage] else []) + [StateStage, CompleteStage]
  }

  function StatusOf(stage: Stage): TransStatus {
    match stage
    case ActiveStage => ReqActive
    case ConfigStage => ReqConfig
    case MemoryStage => ReqMemory
    case DirtyStage(_) => ReqMemory
    case LastStage => ReqMemory
    case StateStage => ReqState
    case CompleteStage => ReqComplete
    case CancelStage => ReqCancel
  }

  function Statuses(stages: seq<Stage>): seq<TransStatus> {
    if stages == [] then [] else Statuses(stages[..|stages| - 1]) + [StatusOf(stages[|stages| - 1])]
  }

  /** The requests on a wire. */
  function Requests(forth: seq<Token>): seq<TransStatus> {
    if forth == [] then []
    else (if forth[0].Request? then [forth[0].status] else []) + Requests(forth[1..])
  }

  // ---- How far the source is ----

  /** All messages with memory, the one after the pause among them. */
  function AllMemory(rounds: nat, leftover: Option<bool>): seq<Stage> {
    Opening(rounds) + if leftover == Some(true) then [LastStage] else []
  }

  /** What has been sent when a stage is due. */
  function Before(stage: Stage, rounds: nat, leftover: Option<bool>): seq<Stage> {
    match stage
    case ActiveStage => []
    case ConfigStage => [ActiveStage]
    case MemoryStage => [ActiveStage, ConfigStage]
    case DirtyStage(i) => Opening(i)
    case CancelStage => Opening(rounds)
    case LastStage => Opening(rounds)
    case StateStage => AllMemory(rounds, leftover)
    case CompleteStage => AllMemory(rounds, leftover) + [StateStage]
  }

  /** The stage comes where the run has found what leads to it. */
  predicate Due(stage: Stage, h: History) {
    match stage
    case DirtyStage(i) => h.rounds == i + 1 && h.canceled == None && h.leftover == None
    case CancelStage => h.canceled == Some(true) && h.leftover == None
    case LastStage => h.canceled == Some(false) && h.leftover == Some(true)
    case StateStage => h.canceled == Some(false) && h.leftover.Some?
    case CompleteStage => h.canceled == Some(false) && h.leftover.Some?
    case _ => h.rounds == 0 && h.canceled == None && h.leftover == None
  }

  /** The stage is due and not yet sent, or sent last. */
  ghost predicate ReadyFor(stage: Stage, h: History) {
    Due(stage, h) && h.sent == Before(stage, h.rounds, h.leftover)
  }

  ghost predicate Said(stage: Stage, h: History) {
    Due(stage, h) && h.sent == Before(stage, h.rounds, h.leftover) + [stage]
  }

  ghost predicate InStep(s: State, h: History) {
    match s.source
    case Ready(stage) => ReadyFor(stage, h)
    case Await(stage) => Said(stage, h)
    case Loop(i) => h.rounds == i && h.canceled == None && h.leftover == None && h.sent == Opening(i)
    case Check => h.canceled == None && h.leftover == None && h.sent == Opening(h.rounds)
    case Paused => h.canceled == Some(false) && h.leftover == None && h.sent == Opening(h.rounds)
    case GaveUp(stage) => ReadyFor(stage, h) || Said(stage, h)
    case Destroyed => Said(CompleteStage, h)
    case Stopped => Said(CancelStage, h)
  }

  lemma {:induction false} SendFits(s: State, h: History, act: Action, maxRounds: nat)
    requires InStep(s, h) && act.Send? && Enabled(s, act, maxRounds)
    ensures InStep(Next(s, act, maxRounds), Record(h, s, act, maxRounds))
  {
    hide TargetNext, TargetCanStep, Transfer, Attempt, Before, Opening;
    assert Message(s.source.stage, act.length, act.total) != [];
    hide Message;
  }

  /** Steps of the source between two messages. */
  lemma {:induction false} WalkFits(s: State, h: History, act: Action, maxRounds: nat)
    requires act.NextRound? || act.LeaveLoop? || act.CheckCanceled? || act.AfterPause?
    requires InStep(s, h) && Enabled(s, act, maxRounds)
    ensures InStep(Next(s, act, maxRounds), Record(h, s, act, maxRounds))
  {
    hide TargetNext, TargetCanStep, Transfer, Attempt, Message, Opening;
    assert h.sent + [] == h.sent;
  }

  /** Steps that say nothing. */
  lemma {:induction false} OtherFits(s: State, h: History, act: Action, maxRounds: nat)
    requires act.PeerGone? || act.Timeout? || act.TargetStep? || act.Cancel?
    requires InStep(s, h) && Enabled(s, act, maxRounds)
    ensures InStep(Next(s, act, maxRounds), Record(h, s, act, maxRounds))
  {
    hide TargetNext, TargetCanStep, Transfer, Attempt, Message, Opening, Before;
  }

  lemma {:induction false} OpeningSteps()
    ensures [ActiveStage] + [ConfigStage] == [ActiveStage, ConfigStage]
    ensures [ActiveStage, ConfigStage] + [MemoryStage] == Opening(0)
    ensures forall i: nat :: Opening(i) + [DirtyStage(i)] == Opening(i + 1)
  {
    forall i: nat ensures Opening(i) + [DirtyStage(i)] == Opening(i + 1) {
      assert DirtyRounds(i + 1) == DirtyRounds(i) + [DirtyStage(i)];
    }
  }

  lemma {:induction false} AnswerFits(s: State, h: History, maxRounds: nat)
    requires InStep(s, h) && Enabled(s, Receive, maxRounds)
    ensures InStep(Next(s, Receive, maxRounds), h)
  {
    hide TargetNext, TargetCanStep, Transfer, Attempt, Message, Opening;
    OpeningSteps();
  }

  lemma {:induction false} StepFits(s: State, h: History, act: Action, maxRounds: nat)
    requires InStep(s, h) && Enabled(s, act, maxRounds)
    ensures InStep(Next(s, act, maxRounds), Record(h, s, act, maxRounds))
  {
    hide InStep, Next, Enabled;
    match act
    case Send(_, _) => SendFits(s, h, act, maxRounds);
    case Receive => AnswerFits(s, h, maxRounds);
    case PeerGone => OtherFits(s, h, act, maxRounds);
    case Timeout => OtherFits(s, h, act, maxRounds);
    case TargetStep(_) => OtherFits(s, h, act, maxRounds);
    case Cancel => OtherFits(s, h, act, maxRounds);
    case _ => WalkFits(s, h, act, maxRounds);
  }

  /** Once a cancel is asked for before the check, no round begins, and the check sees it. */
  ghost predicate Asked(s: State, h: History) {
    h.asked.Some? ==>
      && h.rounds == h.asked.value && h.canceled != Some(false) && s.source != Ready(ActiveStage)
      && (h.canceled.None? && !s.source.GaveUp? ==> s.sourceStatus == Canceled)
  }

  lemma {:induction false} StepAsked(s: State, h: History, act: Action, maxRounds: nat)
    requires InStep(s, h) && Asked(s, h) && StatusFits(s) && Enabled(s, act, maxRounds)
    ensures Asked(Next(s, act, maxRounds), Record(h, s, act, maxRounds))
  {
    hide TargetNext, TargetCanStep, Message, Before, Opening;
  }

  // ---- What arrives is what was sent ----

  lemma {:induction false} NoRequests(forth: seq<Token>)
    requires forall i :: 0 <= i < |forth| ==> !forth[i].Request?
    ensures Requests(forth) == []
  {
    if forth != [] {
      NoRequests(forth[1..]);
    }
  }

  lemma {:induction false} MessageRequest(stage: Stage, length: nat, total: nat)
    ensures Requests(Message(stage, length, total)) == [StatusOf(stage)]
  {
    var m := Message(stage, length, total);
    assert Requests(m) == [StatusOf(stage)] + Requests(m[1..]);
    if |m| == 1 {
      assert m[1..] == [];
    } else {
      NoRequests(m[1..]);
    }
  }

  lemma {:induction false} StatusesSnoc(stages: seq<Stage>, stage: Stage)
    ensures Statuses(stages + [stage]) == Statuses(stages) + [StatusOf(stage)]
  {
    assert (stages + [stage])[..|stages|] == stages;
  }

  lemma {:induction false} RequestsConcat(a: seq<Token>, b: seq<Token>)
    ensures Requests(a + b) == Requests(a) + Requests(b)
  {
    if a == [] {
      assert a + b == b;
    } else {
      RequestsConcat(a[1..], b);
      assert (a + b)[0] == a[0] && (a + b)[1..] == a[1..] + b;
      var first := if a[0].Request? then [a[0].status] else [];
      assert Requests(a + b) == first + Requests(a[1..] + b);
      assert Requests(a) == first + Requests(a[1..]);
      hide Requests;
      assert first + (Requests(a[1..]) + Requests(b)) == (first + Requests(a[1..])) + Requests(b);
    }
  }

  /** Nothing is lost, added or reordered between the two sides. */
  ghost predicate Conserved(s: State, h: History) {
    h.taken + Requests(s.forth) == Statuses(h.sent)
  }

  lemma {:induction false} ReadConserves(s: State, h: History, good: bool, maxRounds: nat)
    requires Conserved(s, h) && Enabled(s, TargetStep(good), maxRounds)
    ensures Conserved(TargetNext(s, good), Record(h, s, TargetStep(good), maxRounds))
  {
    hide Transfer, Attempt, Statuses;
    assert TargetNext(s, good).forth == if s.target.ToRun? then s.forth else s.forth[1..];
    hide TargetNext;
  }

  lemma {:induction false} SendConserves(s: State, h: History, act: Action, maxRounds: nat)
    requires Conserved(s, h) && act.Send? && Enabled(s, act, maxRounds)
    ensures Conserved(Next(s, act, maxRounds), Record(h, s, act, maxRounds))
  {
    hide Transfer, Attempt, TargetNext, TargetCanStep, Requests;
    var stage, m := s.source.stage, Message(s.source.stage, act.length, act.total);
    MessageRequest(stage, act.length, act.total);
    RequestsConcat(s.forth, m);
    StatusesSnoc(h.sent, stage);
    assert m != [];
    hide Message, Statuses;
    assert Next(s, act, maxRounds).forth == s.forth || Next(s, act, maxRounds).forth == s.forth + m;
  }

  lemma {:induction false} OtherConserves(s: State, h: History, act: Action, maxRounds: nat)
    requires Conserved(s, h) && !act.Send? && !act.TargetStep? && Enabled(s, act, maxRounds)
    ensures Conserved(Next(s, act, maxRounds), Record(h, s, act, maxRounds))
  {
    hide Transfer, Attempt, TargetNext, TargetCanStep, Requests, Statuses, Message, AfterStage;
  }

  lemma {:induction false} StepConserves(s: State, h: History, act: Action, maxRounds: nat)
    requires Conserved(s, h) && Enabled(s, act, maxRounds)
    ensures Conserved(Next(s, act, maxRounds), Record(h, s, act, maxRounds))
  {
    hide Conserved, Enabled, Record;
    match act
    case Send(_, _) => SendConserves(s, h, act, maxRounds);
    case TargetStep(good) => ReadConserves(s, h, good, maxRounds);
    case _ => OtherConserves(s, h, act, maxRounds);
  }

  // ---- The statuses ----

  ghost predicate OnTheWay(s: State, stage: Stage) {
    s.sourceStatus == Canceled || (!stage.CancelStage? && s.sourceStatus == Active)
  }

  /** The status goes with the place of the source. */
  ghost predicate SourceTells(s: State) {
    match s.source
    case Ready(stage) => stage.ActiveStage? || OnTheWay(s, stage)
    case Await(stage) => if stage.CompleteStage? then s.sourceStatus == Completed else OnTheWay(s, stage)
    case GaveUp(stage) =>
      if stage.CompleteStage? then s.sourceStatus == Completed
      else s.sourceStatus == Failed || (stage.ActiveStage? && s.sourceStatus == None_)
    case Destroyed => s.sourceStatus == Completed
    case Stopped => s.sourceStatus == Canceled
    case _ => s.sourceStatus == Active || s.sourceStatus == Canceled
  }

  /** So does that of a destination that has ended. */
  ghost predicate StatusTells(s: State) {
    && SourceTells(s)
    && (s.target.Finished? ==> s.targetStatus == Completed)
    && (s.target.CanceledBySource? ==> s.targetStatus == Canceled)
  }

  lemma {:induction false} SourceStatusTells(s: State, act: Action, maxRounds: nat)
    requires StatusTells(s) && Enabled(s, act, maxRounds) && !act.TargetStep?
    ensures StatusTells(Next(s, act, maxRounds))
  {
    hide TargetNext, TargetCanStep, Message;
  }

  /** The status of a destination that ends with this step. */
  lemma {:induction false} TargetEnds(s: State, good: bool)
    requires StatusFits(s) && TargetCanStep(s)
    ensures var s' := TargetNext(s, good);
            && (s'.target.Finished? ==> s'.targetStatus == Completed)
            && (s'.target.CanceledBySource? ==> s'.targetStatus == Canceled)
  {
    match s.target
    case WantComplete =>
    case WantAny =>
    case _ => hide Transfer, Attempt;
  }

  lemma {:induction false} TargetStatusTells(s: State, good: bool)
    requires StatusTells(s) && StatusFits(s) && TargetCanStep(s)
    ensures StatusTells(TargetNext(s, good))
  {
    hide TargetNext, TargetCanStep;
    TargetEnds(s, good);
  }

  // ---- Every run ----

  /** State and history go together. */
  ghost predicate Good(s: State, h: History) {
    Invariant(s) && StatusTells(s) && InStep(s, h) && Asked(s, h) && Conserved(s, h)
  }

  lemma {:induction false} StartIsGood(s: State)
    requires Initial(s)
    ensures Good(s, NOTHING)
  {
  }

  lemma {:induction false} StepIsGood(s: State, h: History, act: Action, maxRounds: nat)
    requires Good(s, h) && Enabled(s, act, maxRounds)
    ensures Good(Next(s, act, maxRounds), Record(h, s, act, maxRounds))
  {
    if act.TargetStep? {
      TargetStatusTells(s, act.good);
    } else {
      SourceStatusTells(s, act, maxRounds);
    }
    hide InStep, Asked, Conserved, StatusTells, Enabled, Record, Next, Aligned, StatusFits;
    StepKeepsInvariant(s, act, maxRounds);
    StepFits(s, h, act, maxRounds);
    StepAsked(s, h, act, maxRounds);
    StepConserves(s, h, act, maxRounds);
  }

  lemma {:induction false} RunIsGood(s: State, h: History, acts: seq<Action>, maxRounds: nat)
    requires Good(s, h) && IsRun(s, acts, maxRounds)
    ensures Good(After(s, acts, maxRounds), HistoryOf(s, h, acts, maxRounds))
    decreases |acts|
  {
    hide Good, Enabled, Record, Next;
    if acts != [] {
      StepIsGood(s, h, acts[0], maxRounds);
      RunIsGood(Next(s, acts[0], maxRounds), Record(h, s, acts[0], maxRounds), acts[1..], maxRounds);
    }
  }

  lemma {:induction false} OpeningInPlan(h: History)
    ensures Opening(h.rounds) <= Plan(h)
  {
    hide Opening;
  }

  lemma {:induction false} StageInPlan(stage: Stage, h: History)
    requires Due(stage, h)
    ensures Before(stage, h.rounds, h.leftover) + [stage] <= Plan(h)
    ensures stage.CompleteStage? || stage.CancelStage? ==> Before(stage, h.rounds, h.leftover) + [stage] == Plan(h)
  {
    match stage
    case ActiveStage => OpeningInPlan(h);
    case ConfigStage => OpeningInPlan(h);
    case MemoryStage => OpeningInPlan(h);
    case DirtyStage(i) =>
      OpeningInPlan(h);
      assert Opening(i) + [stage] == Opening(h.rounds);
    case CancelStage =>
    case LastStage =>
      hide Opening;
      assert Plan(h) == Opening(h.rounds) + [stage] + [StateStage, CompleteStage];
    case StateStage =>
      hide Opening;
      assert Plan(h) == AllMemory(h.rounds, h.leftover) + [stage] + [CompleteStage];
    case CompleteStage =>
      hide Opening;
      assert Plan(h) == AllMemory(h.rounds, h.leftover) + [StateStage] + [stage];
  }

  lemma {:induction false} PrefixOfPlan(s: State, h: History)
    requires InStep(s, h)
    ensures h.sent <= Plan(h)
    ensures s.source.Destroyed? || s.source.Stopped? ==> h.sent == Plan(h)
  {
    hide Plan, Before, Opening;
    match s.source
    case Ready(stage) => StageInPlan(stage, h);
    case Await(stage) => StageInPlan(stage, h);
    case GaveUp(stage) => StageInPlan(stage, h);
    case Destroyed => StageInPlan(CompleteStage, h);
    case Stopped => StageInPlan(CancelStage, h);
    case _ => OpeningInPlan(h);
  }

  /** In every run the source has sent the plan of what it found so far, from its start on
      and without a gap; all of it when it ends by destroying its VM or by a cancel.  The
      destination has read exactly these requests, in this order, save those under way. */
  lemma {:induction false} SaysWhatItFound(s: State, acts: seq<Action>, maxRounds: nat)
    requires Initial(s) && IsRun(s, acts, maxRounds)
    ensures var end, h := After(s, acts, maxRounds), HistoryOf(s, NOTHING, acts, maxRounds);
            && h.sent <= Plan(h)
            && (end.source.Destroyed? || end.source.Stopped? ==> h.sent == Plan(h))
            && h.taken + Requests(end.forth) == Statuses(h.sent)
  {
    hide InStep, Initial, IsRun, After, HistoryOf, Plan, Invariant;
    StartIsGood(s);
    RunIsGood(s, NOTHING, acts, maxRounds);
    PrefixOfPlan(After(s, acts, maxRounds), HistoryOf(s, NOTHING, acts, maxRounds));
  }

  function Memories(n: nat): seq<TransStatus> {
    seq(n, _ => ReqMemory)
  }

  lemma {:induction false} OpeningStatuses(rounds: nat)
    ensures Statuses(Opening(rounds)) == [ReqActive, ReqConfig] + Memories(1 + rounds)
  {
    if rounds == 0 {
      assert Opening(0) == [] + [ActiveStage] + [ConfigStage] + [MemoryStage];
      StatusesSnoc([], ActiveStage);
      StatusesSnoc([] + [ActiveStage], ConfigStage);
      StatusesSnoc([] + [ActiveStage] + [ConfigStage], MemoryStage);
    } else {
      OpeningStatuses(rounds - 1);
      assert Opening(rounds) == Opening(rounds - 1) + [DirtyStage(rounds - 1)];
      StatusesSnoc(Opening(rounds - 1), DirtyStage(rounds - 1));
    }
  }

  lemma {:induction false} PlanStatuses(h: History)
    requires h.canceled == Some(false) && h.leftover.Some?
    ensures Statuses(Plan(h)) == [ReqActive, ReqConfig] +
                                 Memories(1 + h.rounds + if h.leftover.value then 1 else 0) + [ReqState, ReqComplete]
  {
    hide Statuses, Opening;
    OpeningStatuses(h.rounds);
    var memory := if h.leftover.value then Opening(h.rounds) + [LastStage] else Opening(h.rounds);
    if h.leftover.value {
      StatusesSnoc(Opening(h.rounds), LastStage);
    }
    assert Plan(h) == memory + [StateStage] + [CompleteStage];
    StatusesSnoc(memory, StateStage);
    StatusesSnoc(memory + [StateStage], CompleteStage);
  }

  lemma {:induction false} DestroyedHasRead(s: State, h: History)
    requires InStep(s, h) && Conserved(s, h) && Aligned(s) && s.source.Destroyed?
    ensures h.canceled == Some(false) && h.leftover.Some?
    ensures h.taken == [ReqActive, ReqConfig] + Memories(1 + h.rounds + if h.leftover.value then 1 else 0) +
                       [ReqState, ReqComplete]
  {
    hide Plan, Statuses, Opening, Before, Memories;
    PrefixOfPlan(s, h);
    assert h.taken + [] == h.taken;
    PlanStatuses(h);
  }

  /** A migration that completes has read the request for memory once for all of it and once
      for every round that found dirty memory, the one after the pause among them and before
      the state; and the status was not Canceled at the check. */
  lemma {:induction false} CompletedHasRead(s: State, acts: seq<Action>, maxRounds: nat)
    requires Initial(s) && IsRun(s, acts, maxRounds) && After(s, acts, maxRounds).source.Destroyed?
    ensures var h := HistoryOf(s, NOTHING, acts, maxRounds);
            && h.canceled == Some(false) && h.leftover.Some?
            && h.taken == [ReqActive, ReqConfig] + Memories(1 + h.rounds + if h.leftover.value then 1 else 0) +
                          [ReqState, ReqComplete]
  {
    hide Initial, IsRun, After, HistoryOf, Plan, Statuses, Opening, Before;
    StartIsGood(s);
    RunIsGood(s, NOTHING, acts, maxRounds);
    DestroyedHasRead(After(s, acts, maxRounds), HistoryOf(s, NOTHING, acts, maxRounds));
  }

  // ---- Cancels ----

  lemma {:induction false} CanceledState(s: State, h: History)
    requires Good(s, h)
    ensures h.canceled == Some(true) ==>
              && s.sourceRunning && !s.targetRunning && !s.source.Destroyed?
              && (h.sent == Opening(h.rounds) || h.sent == Opening(h.rounds) + [CancelStage])
    ensures s.source.Stopped? ==> h.canceled == Some(true)
  {
    hide Opening, InExchange, Idle, Conserved;
    if s.targetRunning {
      RunningTargetStage(s);
    }
  }

  /** A cancel asked for before the check is seen there, and no round begins any more.  Once
      it is seen the source runs, is not destroyed and says nothing but the cancel, and the
      destination does not run.  No other run stops. */
  lemma {:induction false} CancelIsHeeded(s: State, acts: seq<Action>, maxRounds: nat)
    requires Initial(s) && IsRun(s, acts, maxRounds)
    ensures var end, h := After(s, acts, maxRounds), HistoryOf(s, NOTHING, acts, maxRounds);
            && (h.asked.Some? ==> h.canceled != Some(false) && h.rounds == h.asked.value)
            && (h.canceled == Some(true) ==>
                  && end.sourceRunning && !end.targetRunning && !end.source.Destroyed?
                  && (h.sent == Opening(h.rounds) || h.sent == Opening(h.rounds) + [CancelStage]))
            && (end.source.Stopped? ==> h.canceled == Some(true))
  {
    hide IsRun, After, HistoryOf, Initial, InStep, Invariant, Opening, Conserved;
    StartIsGood(s);
    RunIsGood(s, NOTHING, acts, maxRounds);
    CanceledState(After(s, acts, maxRounds), HistoryOf(s, NOTHING, acts, maxRounds));
  }

  /** Where nothing goes wrong and the first status change is allowed, a run that cannot go on
      has stopped on both sides if the check saw a cancel, and has completed if it did not. */
  lemma {:induction false} BenignRunsHeed(s: State, acts: seq<Action>, maxRounds: nat)
    requires Initial(s) && !Refused(s) && IsRun(s, acts, maxRounds) && Maximal(After(s, acts, maxRounds), maxRounds)
    requires forall i :: 0 <= i < |acts| ==> Benign(acts[i])
    ensures var end, h := After(s, acts, maxRounds), HistoryOf(s, NOTHING, acts, maxRounds);
            && h.canceled.Some?
            && (h.canceled.value ==> end.source.Stopped? && end.target.CanceledBySource?)
            && (!h.canceled.value ==> end.source.Destroyed? && end.target.Finished? && end.targetRunning)
  {
    hide IsRun, After, HistoryOf, Maximal, Benign;
    BenignRunsComplete(s, acts, maxRounds);
    CancelIsHeeded(s, acts, maxRounds);
    if After(s, acts, maxRounds).source.Destroyed? {
      CompletedHasRead(s, acts, maxRounds);
    }
  }

  /** In every run: a source that destroys its VM has completed, one that stops is canceled,
      and one that gives up has failed, unless it had already set Completed or was never
      set up; a destination that finishes has completed, and one that stops is canceled. */
  lemma {:induction false} StatusesEnd(s: State, acts: seq<Action>, maxRounds: nat)
    requires Initial(s) && IsRun(s, acts, maxRounds)
    ensures var end := After(s, acts, maxRounds);
            && (end.source.Destroyed? ==> end.sourceStatus == Completed && end.targetStatus == Completed)
            && (end.source.Stopped? ==> end.sourceStatus == Canceled && end.targetStatus == Canceled)
            && (end.source.GaveUp? ==>
                  if end.source.stage.CompleteStage? then end.sourceStatus == Completed
                  else end.sourceStatus == Failed || (end.source.stage.ActiveStage? && end.sourceStatus == None_))
  {
    hide IsRun, After, HistoryOf, Initial, InStep, Conserved, Asked;
    StartIsGood(s);
    RunIsGood(s, NOTHING, acts, maxRounds);
  }
}
