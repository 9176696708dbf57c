/** The message protocol between the source and the destination of a migration.

  The source walks through stages; each stage sends a request with its payload
  and waits for a response.  The destination reads one message at a time.  Any
  interleaving of the two is a run, with cancels, a destination that gives up,
  and source timeouts at arbitrary points.  Whether the source's VM obeys a pause,
  a resume and a destroy is not looked at by the source, and is a part of the state
  that no step changes: each of the three is asked for at most once. */
module Protocol {
  import opened Addresses

  datatype MigrationStatus = None_ | Setup | Active | Completed | Failed | Canceled

  /** The allowed changes of the migration status. */
  function Transfer(old_: MigrationStatus, new_: MigrationStatus): Option<MigrationStatus> {
    match old_
    case None_ => if new_.Setup? then Some(new_) else None
    case Setup => if new_.Active? || new_.Failed? || new_.Canceled? then Some(new_) else None
    case Active => if new_.Completed? || new_.Failed? || new_.Canceled? then Some(new_) else None
    case Completed => if new_.Active? then Some(new_) else None
    case Failed => if new_.Setup? || new_.Active? then Some(new_) else None
    case Canceled => Some(new_)
  }

  /** Which status can be left for which, seen from the new one. */
  lemma {:induction false} TransferExact(old_: MigrationStatus, new_: MigrationStatus)
    ensures Transfer(old_, new_).Some? <==>
            || old_ == Canceled
            || match new_
               case None_ => false
               case Setup => old_ == None_ || old_ == Failed
               case Active => old_ != None_ && old_ != Active
               case Completed => old_ == Active
               case Failed => old_ == Setup || old_ == Active
               case Canceled => old_ == Setup || old_ == Active
    ensures Transfer(old_, new_).Some? ==> Transfer(old_, new_).value == new_
  {
  }

  function Attempt(old_: MigrationStatus, new_: MigrationStatus): MigrationStatus {
    match Transfer(old_, new_)
    case Some(st) => st
    case None => old_
  }

  datatype TransStatus = ReqActive | ReqConfig | ReqMemory | ReqState | ReqComplete | ReqCancel

  /** What travels from the source: requests with a payload length, and payloads.
      The block headers fix how many bytes of memory follow them. */
  datatype Token =
    | Request(status: TransStatus, length: nat)
    | Config(length: nat)
    | Headers(length: nat, total: nat)
    | Bytes(length: nat)
    | VmState

  datatype Stage =
    | ActiveStage
    | ConfigStage
    | MemoryStage
    | DirtyStage(round: nat)
    | LastStage
    | StateStage
    | CompleteStage
    | CancelStage

  datatype SourcePc =
    | Ready(stage: Stage)
    | Await(stage: Stage)
    | Loop(round: nat)
    | Check
    | Paused
    | GaveUp(stage: Stage)
    | Destroyed
    | Stopped

  datatype TargetPc =
    | WantActive
    | WantConfig
    | InConfig(length: nat)
    | WantAny
    | InHeaders(length: nat)
    | InBytes(length: nat)
    | InState
    | ToRun
    | WantComplete
    | Finished
    | CanceledBySource
    | Closed

  /** What the source's VM does when it is told to. */
  datatype Machine = Machine(stops: bool, resumes: bool, destroys: bool)

  datatype State = State(
    source: SourcePc,
    target: TargetPc,
    forth: seq<Token>,
    back: seq<bool>,
    sourceStatus: MigrationStatus,
    targetStatus: MigrationStatus,
    sourceRunning: bool,
    targetRunning: bool,
    lateTimeout: bool,
    machine: Machine)

  datatype Action =
    | Send(length: nat, total: nat)
    | Receive
    | NextRound(dirty: bool)
    | LeaveLoop
    | CheckCanceled
    | AfterPause(dirty: bool)
    | PeerGone
    | Timeout
    | TargetStep(good: bool)
    | Cancel

  /** The message of a stage; `length` and `total` are its payload sizes. */
  function Message(stage: Stage, length: nat, total: nat): seq<Token> {
    match stage
    case ActiveStage => [Request(ReqActive, 0)]
    case ConfigStage => [Request(ReqConfig, length), Config(length)]
    case MemoryStage => [Request(ReqMemory, length), Headers(length, total), Bytes(total)]
    case DirtyStage(_) => [Request(ReqMemory, length), Headers(length, total), Bytes(total)]
    case LastStage => [Request(ReqMemory, length), Headers(length, total), Bytes(total)]
    case StateStage => [Request(ReqState, 0), VmState]
    case CompleteStage => [Request(ReqComplete, 0)]
    case CancelStage => [Request(ReqCancel, 0)]
  }

  /** Where the source goes when the stage was answered with Ok. */
  function AfterStage(stage: Stage): SourcePc {
    match stage
    case ActiveStage => Ready(ConfigStage)
    case ConfigStage => Ready(MemoryStage)
    case MemoryStage => Loop(0)
    case DirtyStage(i) => Loop(i + 1)
    case LastStage => Ready(StateStage)
    case StateStage => Ready(CompleteStage)
    case CompleteStage => Destroyed
    case CancelStage => Stopped
  }

  /** The stage was answered with Ok; after the last one the VM is destroyed. */
  function Proceed(s: State, stage: Stage): State {
    s.(source := AfterStage(stage),
       sourceRunning := s.sourceRunning && !(stage.CompleteStage? && s.machine.destroys))
  }

  /** An error ends `send_migration`; its caller resumes the VM and sets Failed. */
  function GiveUp(s: State, stage: Stage): State {
    s.(source := GaveUp(stage),
       sourceRunning := s.sourceRunning || s.machine.resumes,
       sourceStatus := Attempt(s.sourceStatus, Failed))
  }

  predicate Enabled(s: State, act: Action, maxRounds: nat) {
    match act
    case Send(_, _) => s.source.Ready?
    case Receive => s.source.Await? && s.back != []
    case NextRound(_) => s.source.Loop? && s.source.round < maxRounds && s.sourceStatus == Active
    case LeaveLoop => s.source.Loop?
    case CheckCanceled => s.source.Check?
    case AfterPause(_) => s.source.Paused?
    case PeerGone => s.source.Await? && s.back == [] && s.target == Closed
    case Timeout => s.source.Await?
    case TargetStep(_) => TargetCanStep(s)
    case Cancel => true
  }

  /** The destination has something to do: a message to read that fits what it is
      waiting for, or the VM to start. */
  predicate TargetCanStep(s: State) {
    match s.target
    case ToRun => true
    case WantActive => s.forth != [] && s.forth[0].Request?
    case WantConfig => s.forth != [] && s.forth[0].Request?
    case WantAny => s.forth != [] && s.forth[0].Request?
    case WantComplete => s.forth != [] && s.forth[0].Request?
    case InConfig(n) => s.forth != [] && s.forth[0] == Config(n)
    case InHeaders(n) => s.forth != [] && s.forth[0].Headers? && s.forth[0].length == n
    case InBytes(n) => s.forth != [] && s.forth[0] == Bytes(n)
    case InState => s.forth != [] && s.forth[0].VmState?
    case _ => false
  }

  function Next(s: State, act: Action, maxRounds: nat): State
    requires Enabled(s, act, maxRounds)
  {
    match act
    case Send(length, total) =>
      var stage := s.source.stage;
      var status := if stage.ActiveStage? then Transfer(s.sourceStatus, Active)
                    else if stage.CompleteStage? then Transfer(s.sourceStatus, Completed)
                    else Some(s.sourceStatus);
      if status.None? then GiveUp(s, stage)
      else s.(source := Await(stage), forth := s.forth + Message(stage, length, total), sourceStatus := status.value)
    case Receive =>
      var s' := s.(back := s.back[1..]);
      if !s.back[0] then GiveUp(s', s.source.stage) else Proceed(s', s.source.stage)
    case NextRound(dirty) => s.(source := if dirty then Ready(DirtyStage(s.source.round)) else Check)
    case LeaveLoop => s.(source := Check)
    case CheckCanceled =>
      if s.sourceStatus == Canceled then s.(source := Ready(CancelStage))
      else s.(source := Paused, sourceRunning := !s.machine.stops)
    case AfterPause(dirty) => s.(source := Ready(if dirty then LastStage else StateStage))
    case PeerGone => GiveUp(s, s.source.stage)
    case Timeout =>
      GiveUp(s, s.source.stage).(
        lateTimeout := s.lateTimeout || s.source.stage.StateStage? || s.source.stage.CompleteStage?)
    case TargetStep(good) => TargetNext(s, good)
    case Cancel => s.(sourceStatus := Attempt(s.sourceStatus, Canceled))
  }

  /** One step of the destination.  `good` says whether the configuration fits,
      the state restores, the VM starts. */
  function TargetNext(s: State, good: bool): (s': State)
    requires TargetCanStep(s)
    ensures s'.source == s.source && s'.sourceStatus == s.sourceStatus && s'.sourceRunning == s.sourceRunning
    ensures s'.lateTimeout == s.lateTimeout && s'.machine == s.machine && !s'.target.WantActive?
    ensures Engaged(s'.target) && !s.target.WantActive? ==> s'.targetStatus == s.targetStatus
  {
    match s.target
    case ToRun => if good then s.(target := WantComplete, targetRunning := true) else s.(target := Closed)
    case WantActive =>
      var s' := s.(forth := s.forth[1..]);
      if s.forth[0].status == ReqActive then
        match Transfer(s.targetStatus, Active)
        case Some(st) => s'.(target := WantConfig, targetStatus := st, back := s.back + [true])
        case None => s'.(target := Closed)
      else s'.(target := Closed, back := s.back + [false])
    case WantConfig =>
      var s' := s.(forth := s.forth[1..]);
      if s.forth[0].status == ReqConfig then s'.(target := InConfig(s.forth[0].length))
      else s'.(target := Closed, back := s.back + [false])
    case InConfig(_) =>
      if good then s.(forth := s.forth[1..], target := WantAny, back := s.back + [true])
      else s.(forth := s.forth[1..], target := Closed)
    case WantAny =>
      var s' := s.(forth := s.forth[1..]);
      if s.forth[0].status == ReqMemory then s'.(target := InHeaders(s.forth[0].length))
      else if s.forth[0].status == ReqState then s'.(target := InState)
      else if s.forth[0].status == ReqCancel then
        s'.(target := CanceledBySource, targetStatus := Attempt(s.targetStatus, Canceled), back := s.back + [true])
      else s'
    case InHeaders(_) => s.(forth := s.forth[1..], target := InBytes(s.forth[0].total))
    case InBytes(_) => s.(forth := s.forth[1..], target := WantAny, back := s.back + [true])
    case InState =>
      if good then s.(forth := s.forth[1..], target := ToRun, back := s.back + [true])
      else s.(forth := s.forth[1..], target := Closed)
    case WantComplete =>
      var s' := s.(forth := s.forth[1..]);
      if s.forth[0].status == ReqComplete then
        match Transfer(s.targetStatus, Completed)
        case Some(st) => s'.(target := Finished, targetStatus := st, back := s.back + [true])
        case None => s'.(target := Closed)
      else s'.(target := Closed)
    case _ => s
  }

  ghost predicate Initial(s: State) {
    && s.source == Ready(ActiveStage) && s.target == WantActive && s.forth == [] && s.back == []
    && s.sourceRunning && !s.targetRunning && !s.lateTimeout && s.targetStatus == Setup
  }

  /** What the destination is waiting for when the message of a stage is due. */
  predicate Expects(t: TargetPc, stage: Stage) {
    match stage
    case ActiveStage => t.WantActive?
    case ConfigStage => t.WantConfig?
    case CompleteStage => t.ToRun? || t.WantComplete?
    case _ => t.WantAny?
  }

  /** Where the destination stands after answering a stage with Ok. */
  predicate Answered(t: TargetPc, stage: Stage) {
    match stage
    case ActiveStage => t.WantConfig?
    case ConfigStage => t.WantAny?
    case StateStage => t.ToRun? || t.WantComplete?
    case CompleteStage => t.Finished?
    case CancelStage => t.CanceledBySource?
    case _ => t.WantAny?
  }

  /** The destination is in the middle of the message of a stage; `forth` is the rest. */
  predicate Midway(t: TargetPc, stage: Stage, forth: seq<Token>) {
    match t
    case InConfig(n) => stage.ConfigStage? && forth == [Config(n)]
    case InHeaders(n) => IsMemory(stage) && |forth| == 2 && forth[0].Headers? && forth[0].length == n &&
                         forth[1] == Bytes(forth[0].total)
    case InBytes(n) => IsMemory(stage) && forth == [Bytes(n)]
    case InState => stage.StateStage? && forth == [VmState]
    case _ => false
  }

  predicate IsMemory(stage: Stage) {
    stage.MemoryStage? || stage.DirtyStage? || stage.LastStage?
  }

  ghost predicate WholeMessage(stage: Stage, forth: seq<Token>) {
    exists length: nat, total: nat :: forth == Message(stage, length, total)
  }

  /** The source waits, or has stopped waiting, for the answer to a stage. */
  ghost predicate InExchange(s: State, stage: Stage) {
    || (WholeMessage(stage, s.forth) && Expects(s.target, stage) && s.back == [])
    || (Midway(s.target, stage, s.forth) && s.back == [])
    || (s.forth == [] && Answered(s.target, stage) && s.back == [true])
    || (s.target.Closed? && (s.back == [] || s.back == [false] ||
                             (s.back == [true] && stage.StateStage? && s.forth == [])))
  }

  /** The source is about to act on its own: nothing is under way. */
  ghost predicate Idle(s: State, stage: Stage) {
    s.forth == [] && s.back == [] && (Expects(s.target, stage) || s.target.Closed?)
  }

  /** Both sides and the wires between them fit together. */
  ghost predicate Aligned(s: State) {
    match s.source
    case Ready(stage) => Idle(s, stage)
    case Await(stage) => InExchange(s, stage)
    case Loop(_) => Idle(s, MemoryStage)
    case Check => Idle(s, MemoryStage)
    case Paused => Idle(s, MemoryStage)
    case GaveUp(stage) => InExchange(s, stage) || (Idle(s, stage) && !stage.CompleteStage?)
    case Destroyed => s.forth == [] && s.back == [] && s.target.Finished?
    case Stopped => s.forth == [] && s.back == [] && s.target.CanceledBySource?
  }

  predicate PausedStage(stage: Stage) {
    stage.LastStage? || stage.StateStage? || stage.CompleteStage?
  }

  /** The source VM runs until the pause, and again once the migration has failed,
      as far as it does what it is told to. */
  predicate SourceRuns(pc: SourcePc, m: Machine) {
    match pc
    case Ready(stage) => PausedStage(stage) ==> !m.stops
    case Await(stage) => PausedStage(stage) ==> !m.stops
    case Paused => !m.stops
    case GaveUp(stage) => PausedStage(stage) ==> !m.stops || m.resumes
    case Destroyed => !m.stops && !m.destroys
    case _ => true
  }

  /** The destination has accepted the migration and not ended it. */
  predicate Engaged(t: TargetPc) {
    !t.WantActive? && !t.Finished? && !t.CanceledBySource? && !t.Closed?
  }

  /** The status lets every later status change through. */
  ghost predicate StatusFits(s: State) {
    && (s.target.WantActive? ==> s.targetStatus == Setup)
    && (Engaged(s.target) ==> s.targetStatus == Active)
    && (s.source == Ready(ActiveStage) || s.source == Await(CompleteStage) || s.source.GaveUp? || s.source.Destroyed? ||
        s.source.Stopped? || s.sourceStatus == Active || s.sourceStatus == Canceled)
  }

  ghost predicate Invariant(s: State) {
    && Aligned(s)
    && StatusFits(s)
    && s.sourceRunning == SourceRuns(s.source, s.machine)
    && (s.targetRunning <==> s.target.WantComplete? || s.target.Finished?)
    && (s.source.GaveUp? && PausedStage(s.source.stage) && !s.source.stage.LastStage? && !s.lateTimeout ==>
        s.target.Closed?)
    && (s.lateTimeout ==> s.source.GaveUp?)
  }

  lemma {:induction false} SendKeeps(s: State, act: Action, maxRounds: nat)
    requires Invariant(s) && act.Send? && Enabled(s, act, maxRounds)
    ensures Invariant(Next(s, act, maxRounds))
  {
    var stage, s' := s.source.stage, Next(s, act, maxRounds);
    if s'.source.Await? {
      assert s'.forth == Message(stage, act.length, act.total);
      assert WholeMessage(stage, s'.forth);
    }
  }

  lemma {:induction false} ReceiveKeeps(s: State, maxRounds: nat)
    requires Invariant(s) && Enabled(s, Receive, maxRounds)
    ensures Invariant(Next(s, Receive, maxRounds))
  {
    assert s.back[1..] == [];
  }

  lemma {:induction false} GivingUpKeeps(s: State, act: Action, maxRounds: nat)
    requires Invariant(s) && Enabled(s, act, maxRounds) && (act.PeerGone? || act.Timeout?)
    ensures Invariant(Next(s, act, maxRounds))
  {
    hide WholeMessage, Midway, Expects, Answered;
  }

  lemma {:induction false} WalkKeeps(s: State, act: Action, maxRounds: nat)
    requires Invariant(s) && Enabled(s, act, maxRounds)
    requires act.NextRound? || act.LeaveLoop? || act.CheckCanceled? || act.AfterPause?
    ensures Invariant(Next(s, act, maxRounds))
  {
    hide InExchange, TargetCanStep;
  }

  lemma {:induction false} CancelKeeps(s: State, maxRounds: nat)
    requires Invariant(s)
    ensures Invariant(Next(s, Cancel, maxRounds))
  {
    hide WholeMessage, Midway, Expects, Answered, TargetCanStep;
  }

  /** The destination reads the start of a message. */
  lemma {:induction false} TargetReadsRequest(s: State, stage: Stage, good: bool)
    requires TargetCanStep(s) && StatusFits(s) && s.back == []
    requires WholeMessage(stage, s.forth) && Expects(s.target, stage) && !s.target.ToRun?
    ensures InExchange(TargetNext(s, good), stage)
    ensures !TargetNext(s, good).target.Closed?
  {
    var length: nat, total: nat :| s.forth == Message(stage, length, total);
  }

  /** The destination reads a payload. */
  lemma {:induction false} TargetReadsPayload(s: State, stage: Stage, good: bool)
    requires TargetCanStep(s) && s.back == [] && Midway(s.target, stage, s.forth)
    ensures InExchange(TargetNext(s, good), stage)
  {
  }

  lemma {:induction false} TargetKeepsExchange(s: State, stage: Stage, good: bool)
    requires TargetCanStep(s) && StatusFits(s) && InExchange(s, stage)
    ensures InExchange(TargetNext(s, good), stage)
  {
    if s.target.ToRun? {
      assert TargetNext(s, good).forth == s.forth;
    } else if WholeMessage(stage, s.forth) && Expects(s.target, stage) && s.back == [] {
      TargetReadsRequest(s, stage, good);
    } else if Midway(s.target, stage, s.forth) && s.back == [] {
      TargetReadsPayload(s, stage, good);
    }
  }

  lemma {:induction false} TargetKeepsAligned(s: State, good: bool)
    requires TargetCanStep(s) && StatusFits(s) && Aligned(s)
    ensures Aligned(TargetNext(s, good))
  {
    if s.source.Await? || (s.source.GaveUp? && InExchange(s, s.source.stage)) {
      hide InExchange;
      TargetKeepsExchange(s, s.source.stage, good);
    }
  }

  lemma {:induction false} TargetKeepsStatus(s: State, good: bool)
    requires TargetCanStep(s) && StatusFits(s)
    ensures StatusFits(TargetNext(s, good))
  {
  }

  /** A destination that runs reads nothing but the completion. */
  lemma {:induction false} RunningReadsComplete(s: State)
    requires Aligned(s) && s.target.WantComplete? && s.forth != []
    ensures s.forth == [Request(ReqComplete, 0)]
  {
  }

  lemma {:induction false} TargetKeepsRunning(s: State, good: bool)
    requires TargetCanStep(s) && StatusFits(s) && Aligned(s)
    requires s.targetRunning <==> s.target.WantComplete? || s.target.Finished?
    ensures var s' := TargetNext(s, good);
            s'.targetRunning <==> s'.target.WantComplete? || s'.target.Finished?
  {
    if s.target.WantComplete? {
      RunningReadsComplete(s);
    }
    hide Aligned;
  }

  lemma {:induction false} TargetKeeps(s: State, good: bool, maxRounds: nat)
    requires Invariant(s) && Enabled(s, TargetStep(good), maxRounds)
    ensures Invariant(Next(s, TargetStep(good), maxRounds))
  {
    TargetKeepsAligned(s, good);
    TargetKeepsStatus(s, good);
    TargetKeepsRunning(s, good);
    hide Aligned, StatusFits, TargetNext;
  }

  lemma {:induction false} StepKeepsInvariant(s: State, act: Action, maxRounds: nat)
    requires Invariant(s) && Enabled(s, act, maxRounds)
    ensures Invariant(Next(s, act, maxRounds))
  {
    match act
    case Send(_, _) => SendKeeps(s, act, maxRounds);
    case Receive => ReceiveKeeps(s, maxRounds);
    case TargetStep(good) => TargetKeeps(s, good, maxRounds);
    case Cancel => CancelKeeps(s, maxRounds);
    case PeerGone => GivingUpKeeps(s, act, maxRounds);
    case Timeout => GivingUpKeeps(s, act, maxRounds);
    case _ => WalkKeeps(s, act, maxRounds);
  }

  ghost predicate IsRun(s: State, acts: seq<Action>, maxRounds: nat)
    decreases |acts|
  {
    acts == [] || (Enabled(s, acts[0], maxRounds) && IsRun(Next(s, acts[0], maxRounds), acts[1..], maxRounds))
  }

  ghost function After(s: State, acts: seq<Action>, maxRounds: nat): State
    requires IsRun(s, acts, maxRounds)
    decreases |acts|
  {
    if acts == [] then s else After(Next(s, acts[0], maxRounds), acts[1..], maxRounds)
  }

  lemma {:induction false} RunKeepsInvariant(s: State, acts: seq<Action>, maxRounds: nat)
    requires Invariant(s) && IsRun(s, acts, maxRounds)
    ensures Invariant(After(s, acts, maxRounds))
    decreases |acts|
  {
    hide Invariant;
    if acts != [] {
      StepKeepsInvariant(s, acts[0], maxRounds);
      RunKeepsInvariant(Next(s, acts[0], maxRounds), acts[1..], maxRounds);
    }
  }

  /** The destination takes a request of this status where it stands, and does not
      end the migration because of it. */
  predicate Fits(t: TargetPc, status: TransStatus) {
    match t
    case WantActive => status == ReqActive
    case WantConfig => status == ReqConfig
    case WantAny => status == ReqMemory || status == ReqState || status == ReqCancel
    case WantComplete => status == ReqComplete
    case ToRun => status == ReqComplete
    case _ => false
  }

  /** The head of the wire is the request or the payload that the destination expects,
      payloads with the lengths announced; a request is always taken. */
  ghost predicate FramingKept(s: State) {
    s.forth != [] && (s.target.WantActive? || Engaged(s.target)) ==>
      && TargetCanStep(s)
      && (s.forth[0].Request? ==>
            && Fits(s.target, s.forth[0].status)
            && forall good :: s.target.ToRun? || !TargetNext(s, good).target.Closed?)
      && (!s.forth[0].Request? ==> s.target.InConfig? || s.target.InHeaders? || s.target.InBytes? || s.target.InState?)
  }

  ghost predicate SourceEnded(s: State) {
    s.source.Destroyed? || s.source.Stopped? || s.source.GaveUp?
  }

  /** The protocol itself, rather than its environment, takes the step. */
  predicate OwnStep(act: Action) {
    !act.Timeout? && !act.Cancel?
  }

  /** Until the source has ended, one of the two sides can always go on. */
  lemma {:induction false} NoDeadlock(s: State, maxRounds: nat)
    requires Invariant(s) && !SourceEnded(s)
    ensures exists act :: OwnStep(act) && Enabled(s, act, maxRounds)
  {
    match s.source
    case Ready(_) => assert Enabled(s, Send(0, 0), maxRounds);
    case Loop(_) => assert Enabled(s, LeaveLoop, maxRounds);
    case Check => assert Enabled(s, CheckCanceled, maxRounds);
    case Paused => assert Enabled(s, AfterPause(true), maxRounds);
    case Await(stage) =>
      if s.back != [] {
        assert Enabled(s, Receive, maxRounds);
      } else if s.target.Closed? {
        assert Enabled(s, PeerGone, maxRounds);
      } else {
        ExchangeGoesOn(s, stage);
        assert Enabled(s, TargetStep(true), maxRounds);
      }
  }

  lemma {:induction false} ExchangeGoesOn(s: State, stage: Stage)
    requires InExchange(s, stage) && s.back == [] && !s.target.Closed?
    ensures TargetCanStep(s)
  {
    if WholeMessage(stage, s.forth) && Expects(s.target, stage) {
      var length: nat, total: nat :| s.forth == Message(stage, length, total);
    }
  }

  lemma {:induction false} FramingIsKept(s: State)
    requires Invariant(s)
    ensures FramingKept(s)
  {
    if s.forth != [] && (s.target.WantActive? || Engaged(s.target)) {
      assert s.source.Await? || s.source.GaveUp?;
      ExchangeFramed(s, s.source.stage);
    }
  }

  lemma {:induction false} ExchangeFramed(s: State, stage: Stage)
    requires InExchange(s, stage) && StatusFits(s) && s.forth != [] && !s.target.Closed?
    ensures FramingKept(s)
  {
    hide TargetNext;
    ExchangeGoesOn(s, stage);
    if WholeMessage(stage, s.forth) && Expects(s.target, stage) {
      var length: nat, total: nat :| s.forth == Message(stage, length, total);
      forall good ensures s.target.ToRun? || !TargetNext(s, good).target.Closed? {
        if !s.target.ToRun? {
          TargetReadsRequest(s, stage, good);
        }
      }
    }
  }

  lemma {:induction false} MachineStays(s: State, acts: seq<Action>, maxRounds: nat)
    requires IsRun(s, acts, maxRounds)
    ensures After(s, acts, maxRounds).machine == s.machine
    decreases |acts|
  {
    hide TargetNext, TargetCanStep, Message, Transfer, Attempt;
    if acts != [] {
      MachineStays(Next(s, acts[0], maxRounds), acts[1..], maxRounds);
    }
  }

  /** In every run: while the destination runs, the source runs if and only if its VM
      did not obey the pause, or obeyed the resume after a timeout waiting for the state
      or the completion to be acknowledged; a VM that is to be destroyed runs on only if
      it obeyed neither pause nor destroy, and it is to be destroyed only once the
      destination has acknowledged completion and runs; a cancel seen at the check
      leaves the source running and the destination never started; and framing is
      never lost. */
  lemma {:induction false} RunsAreSafe(s: State, acts: seq<Action>, maxRounds: nat)
    requires Initial(s) && IsRun(s, acts, maxRounds)
    ensures var end, m := After(s, acts, maxRounds), s.machine;
            && (end.targetRunning && !end.source.Destroyed? ==>
                  (end.sourceRunning <==> !m.stops || (end.lateTimeout && m.resumes)))
            && (end.source.Destroyed? ==>
                  end.target.Finished? && end.targetRunning && (end.sourceRunning <==> !m.stops && !m.destroys))
            && (end.source.Stopped? ==> end.sourceRunning && !end.targetRunning && end.target.CanceledBySource?)
            && FramingKept(end)
            && (SourceEnded(end) || exists act :: OwnStep(act) && Enabled(end, act, maxRounds))
  {
    hide FramingKept;
    RunKeepsInvariant(s, acts, maxRounds);
    MachineStays(s, acts, maxRounds);
    var end := After(s, acts, maxRounds);
    FramingIsKept(end);
    if !SourceEnded(end) {
      NoDeadlock(end, maxRounds);
    }
    hide IsRun, After, Initial;
    if end.targetRunning {
      RunningTargetStage(end);
    }
  }

  /** The run contains a timeout of the source while it waits for the state or the
      completion to be acknowledged. */
  ghost predicate HasLateTimeout(s: State, acts: seq<Action>, maxRounds: nat)
    requires IsRun(s, acts, maxRounds)
    decreases |acts|
  {
    acts != [] &&
    ((acts[0].Timeout? && s.source.Await? && (s.source.stage.StateStage? || s.source.stage.CompleteStage?))
     || HasLateTimeout(Next(s, acts[0], maxRounds), acts[1..], maxRounds))
  }

  lemma {:induction false} LateTimeoutRecorded(s: State, acts: seq<Action>, maxRounds: nat)
    requires IsRun(s, acts, maxRounds)
    ensures After(s, acts, maxRounds).lateTimeout <==> s.lateTimeout || HasLateTimeout(s, acts, maxRounds)
    decreases |acts|
  {
    hide TargetNext, TargetCanStep, Message;
    if acts != [] {
      LateTimeoutRecorded(Next(s, acts[0], maxRounds), acts[1..], maxRounds);
    }
  }

  /** Both VMs run at the end of a run if and only if the destination runs, and the
      source's VM obeyed neither pause nor destroy if it is to be destroyed, or else did
      not obey the pause or obeyed the resume after a late timeout of the run. */
  lemma {:induction false} BothRunExactly(s: State, acts: seq<Action>, maxRounds: nat)
    requires Initial(s) && IsRun(s, acts, maxRounds)
    ensures var end, m := After(s, acts, maxRounds), s.machine;
            end.sourceRunning && end.targetRunning <==>
              && end.targetRunning
              && if end.source.Destroyed? then !m.stops && !m.destroys
                 else !m.stops || (HasLateTimeout(s, acts, maxRounds) && m.resumes)
  {
    hide FramingKept, Enabled, IsRun, After, HasLateTimeout;
    RunsAreSafe(s, acts, maxRounds);
    LateTimeoutRecorded(s, acts, maxRounds);
  }

  // ---- Completion ----

  /** Nothing goes wrong: no timeout, and whatever the destination does succeeds. */
  predicate Benign(act: Action) {
    !act.Timeout? && (act.TargetStep? ==> act.good)
  }

  /** Neither side has given up, and nothing makes it do so. */
  ghost predicate Healthy(s: State) {
    && !s.source.GaveUp? && !s.target.Closed? && false !in s.back
    && (s.source == Ready(ActiveStage) ==> Transfer(s.sourceStatus, Active).Some?)
  }

  lemma {:induction false} TargetStaysHealthy(s: State, maxRounds: nat)
    requires Invariant(s) && Healthy(s) && TargetCanStep(s)
    ensures Healthy(TargetNext(s, true))
  {
    FramingIsKept(s);
    var s' := TargetNext(s, true);
    if s.forth != [] && s.forth[0].Request? && !s.target.ToRun? {
      assert FramingKept(s);
    }
    BackStaysGood(s);
  }

  lemma {:induction false} BackStaysGood(s: State)
    requires TargetCanStep(s) && false !in s.back && !TargetNext(s, true).target.Closed?
    ensures false !in TargetNext(s, true).back
  {
  }

  lemma {:induction false} StepStaysHealthy(s: State, act: Action, maxRounds: nat)
    requires Invariant(s) && Healthy(s) && Enabled(s, act, maxRounds) && Benign(act)
    ensures Healthy(Next(s, act, maxRounds))
  {
    hide TargetNext, FramingKept, Aligned;
    if act.TargetStep? {
      TargetStaysHealthy(s, maxRounds);
    }
  }

  lemma {:induction false} RunStaysHealthy(s: State, acts: seq<Action>, maxRounds: nat)
    requires Invariant(s) && Healthy(s) && IsRun(s, acts, maxRounds)
    requires forall i :: 0 <= i < |acts| ==> Benign(acts[i])
    ensures Invariant(After(s, acts, maxRounds)) && Healthy(After(s, acts, maxRounds))
    decreases |acts|
  {
    hide Invariant, Healthy, Enabled;
    if acts != [] {
      StepKeepsInvariant(s, acts[0], maxRounds);
      StepStaysHealthy(s, acts[0], maxRounds);
      RunStaysHealthy(Next(s, acts[0], maxRounds), acts[1..], maxRounds);
    }
  }

  /** No step of its own is left to the protocol. */
  ghost predicate Maximal(s: State, maxRounds: nat) {
    forall act :: OwnStep(act) ==> !Enabled(s, act, maxRounds)
  }

  /** The first status change is refused to the source. */
  predicate Refused(s: State) {
    Transfer(s.sourceStatus, Active).None?
  }

  /** Where nothing goes wrong, every run that cannot go on has completed the migration
      or, after a cancel, stopped it on both sides; unless the source's status refuses
      the first change, and then it has given up at once.  A cancel can lift a refusal
      by an Active status. */
  lemma {:induction false} BenignRunsComplete(s: State, acts: seq<Action>, maxRounds: nat)
    requires Initial(s) && IsRun(s, acts, maxRounds) && Maximal(After(s, acts, maxRounds), maxRounds)
    requires forall i :: 0 <= i < |acts| ==> Benign(acts[i])
    ensures var end := After(s, acts, maxRounds);
            && (!Refused(s) ==>
                  || (end.source.Destroyed? && end.target.Finished? && end.targetRunning &&
                      (end.sourceRunning <==> !s.machine.stops && !s.machine.destroys))
                  || (end.source.Stopped? && end.target.CanceledBySource? && end.sourceRunning && !end.targetRunning))
            && (Refused(s) && (s.sourceStatus.None_? || NoCancel(acts)) ==>
                  end.source == GaveUp(ActiveStage) && end.sourceRunning && end.target.WantActive?)
  {
    hide Enabled, IsRun, After, FramingKept, HasLateTimeout;
    var end := After(s, acts, maxRounds);
    RunsAreSafe(s, acts, maxRounds);
    if !Refused(s) {
      RunStaysHealthy(s, acts, maxRounds);
    } else if s.sourceStatus.None_? || NoCancel(acts) {
      RefusedGivesUp(s, acts, maxRounds);
    }
  }

  predicate NoCancel(acts: seq<Action>) {
    forall i :: 0 <= i < |acts| ==> !acts[i].Cancel?
  }

  /** Before the first message, or given up at it. */
  ghost predicate AtFirst(s: State) {
    && s.target.WantActive? && s.forth == [] && s.back == [] && s.sourceRunning
    && (s.source == Ready(ActiveStage) || s.source == GaveUp(ActiveStage))
    && (s.source == Ready(ActiveStage) ==> Refused(s))
  }

  lemma {:induction false} RefusedGivesUp(s: State, acts: seq<Action>, maxRounds: nat)
    requires AtFirst(s) && IsRun(s, acts, maxRounds) && (s.sourceStatus.None_? || NoCancel(acts))
    ensures var end := After(s, acts, maxRounds);
            AtFirst(end) && (Maximal(end, maxRounds) ==> end.source.GaveUp?)
    decreases |acts|
  {
    if acts == [] {
      if s.source.Ready? {
        assert OwnStep(Send(0, 0)) && Enabled(s, Send(0, 0), maxRounds);
      }
    } else {
      RefusedGivesUp(Next(s, acts[0], maxRounds), acts[1..], maxRounds);
    }
  }

  /** Without a cancel a benign run ends with the source told to be destroyed and the
      destination running. */
  lemma {:induction false} UncanceledRunsComplete(s: State, acts: seq<Action>, maxRounds: nat)
    requires Initial(s) && s.sourceStatus == Setup && IsRun(s, acts, maxRounds)
    requires Maximal(After(s, acts, maxRounds), maxRounds)
    requires NoCancel(acts) && forall i :: 0 <= i < |acts| ==> Benign(acts[i])
    ensures var end := After(s, acts, maxRounds);
            && end.source.Destroyed? && end.target.Finished? && end.targetRunning
            && (end.sourceRunning <==> !s.machine.stops && !s.machine.destroys)
  {
    hide Maximal, IsRun, After, Benign;
    BenignRunsComplete(s, acts, maxRounds);
    NeverCanceled(s, acts, maxRounds);
  }

  ghost predicate Uncanceled(s: State) {
    s.sourceStatus != Canceled && !s.source.Stopped?
    && ((s.source.Ready? || s.source.Await?) ==> !s.source.stage.CancelStage?)
  }

  lemma {:induction false} StepUncanceled(s: State, act: Action, maxRounds: nat)
    requires Uncanceled(s) && Enabled(s, act, maxRounds) && !act.Cancel?
    ensures Uncanceled(Next(s, act, maxRounds))
  {
    hide TargetNext, TargetCanStep, Message;
    match act
    case Send(_, _) =>
    case Receive =>
    case _ =>
  }

  lemma {:induction false} NeverCanceled(s: State, acts: seq<Action>, maxRounds: nat)
    requires Uncanceled(s) && IsRun(s, acts, maxRounds) && NoCancel(acts)
    ensures Uncanceled(After(s, acts, maxRounds))
    decreases |acts|
  {
    hide Uncanceled, Enabled, Next;
    if acts != [] {
      StepUncanceled(s, acts[0], maxRounds);
      NeverCanceled(Next(s, acts[0], maxRounds), acts[1..], maxRounds);
    }
  }

  /** While the destination runs, the source is past sending the state. */
  lemma {:induction false} RunningTargetStage(s: State)
    requires Aligned(s) && (s.target.WantComplete? || s.target.Finished?)
    ensures s.source.Destroyed? ||
            ((s.source.Ready? || s.source.Await? || s.source.GaveUp?) &&
             (s.source.stage.StateStage? || s.source.stage.CompleteStage?))
  {
  }

  /** Dirty rounds stay within the limit. */
  predicate RoundsFit(s: State, maxRounds: nat) {
    match s.source
    case Ready(stage) => stage.DirtyStage? ==> stage.round < maxRounds
    case Await(stage) => stage.DirtyStage? ==> stage.round < maxRounds
    case Loop(i) => i <= maxRounds
    case _ => true
  }

  function StageRank(stage: Stage, maxRounds: nat): nat
    requires stage.DirtyStage? ==> stage.round < maxRounds
  {
    match stage
    case CompleteStage => 1
    case CancelStage => 1
    case StateStage => 3
    case LastStage => 5
    case DirtyStage(i) => 7 + 3 * (maxRounds - i)
    case MemoryStage => 10 + 3 * maxRounds
    case ConfigStage => 12 + 3 * maxRounds
    case ActiveStage => 14 + 3 * maxRounds
  }

  /** How far the source still has to go at most. */
  function SourceRank(pc: SourcePc, maxRounds: nat): nat
    requires match pc
             case Ready(stage) => stage.DirtyStage? ==> stage.round < maxRounds
             case Await(stage) => stage.DirtyStage? ==> stage.round < maxRounds
             case Loop(i) => i <= maxRounds
             case _ => true
  {
    match pc
    case Ready(stage) => StageRank(stage, maxRounds) + 1
    case Await(stage) => StageRank(stage, maxRounds)
    case Loop(i) => 9 + 3 * (maxRounds - i)
    case Check => 8
    case Paused => 7
    case _ => 0
  }

  function Measure(s: State, maxRounds: nat): nat
    requires RoundsFit(s, maxRounds)
  {
    10 * SourceRank(s.source, maxRounds) + UnderWay(s)
  }

  /** What is under way on the wires and at the destination. */
  function UnderWay(s: State): nat {
    3 * |s.forth| + |s.back| + if s.target.ToRun? then 1 else 0
  }

  lemma {:induction false} TargetStepShrinks(s: State, good: bool)
    requires TargetCanStep(s)
    ensures UnderWay(TargetNext(s, good)) < UnderWay(s)
  {
  }

  lemma {:induction false} SendShrinks(s: State, act: Action, maxRounds: nat)
    requires RoundsFit(s, maxRounds) && act.Send? && Enabled(s, act, maxRounds)
    ensures RoundsFit(Next(s, act, maxRounds), maxRounds)
    ensures Measure(Next(s, act, maxRounds), maxRounds) < Measure(s, maxRounds)
  {
    assert |Message(s.source.stage, act.length, act.total)| <= 3;
  }

  lemma {:induction false} ReceiveShrinks(s: State, maxRounds: nat)
    requires RoundsFit(s, maxRounds) && Enabled(s, Receive, maxRounds)
    ensures RoundsFit(Next(s, Receive, maxRounds), maxRounds)
    ensures Measure(Next(s, Receive, maxRounds), maxRounds) < Measure(s, maxRounds)
  {
    hide StageRank, AfterStage;
    AnswerBringsCloser(s.source.stage, maxRounds);
    var s' := Next(s, Receive, maxRounds);
    assert UnderWay(s') < UnderWay(s);
    assert s'.source == AfterStage(s.source.stage) || s'.source == GaveUp(s.source.stage);
  }

  lemma {:induction false} AnswerBringsCloser(stage: Stage, maxRounds: nat)
    requires stage.DirtyStage? ==> stage.round < maxRounds
    ensures match AfterStage(stage)
            case Ready(next) => !next.DirtyStage?
            case Loop(i) => i <= maxRounds
            case Destroyed => true
            case Stopped => true
            case _ => false
    ensures SourceRank(AfterStage(stage), maxRounds) < StageRank(stage, maxRounds)
  {
  }

  lemma {:induction false} SourceStepShrinks(s: State, act: Action, maxRounds: nat)
    requires RoundsFit(s, maxRounds) && !act.Send? && !act.Receive? && !act.TargetStep? && Enabled(s, act, maxRounds)
    ensures RoundsFit(Next(s, act, maxRounds), maxRounds)
    ensures if act.Cancel? then Measure(Next(s, act, maxRounds), maxRounds) == Measure(s, maxRounds)
            else Measure(Next(s, act, maxRounds), maxRounds) < Measure(s, maxRounds)
  {
    hide TargetNext, TargetCanStep, Message, Transfer, Attempt;
  }

  /** Every step other than a cancel request brings the end closer. */
  lemma {:induction false} StepsRunOut(s: State, act: Action, maxRounds: nat)
    requires RoundsFit(s, maxRounds) && Enabled(s, act, maxRounds)
    ensures RoundsFit(Next(s, act, maxRounds), maxRounds)
    ensures if act.Cancel? then Measure(Next(s, act, maxRounds), maxRounds) == Measure(s, maxRounds)
            else Measure(Next(s, act, maxRounds), maxRounds) < Measure(s, maxRounds)
  {
    if act.TargetStep? {
      hide TargetNext, TargetCanStep, UnderWay;
      TargetStepShrinks(s, act.good);
    } else if act.Send? {
      hide Measure, RoundsFit, Next;
      SendShrinks(s, act, maxRounds);
    } else if act.Receive? {
      hide Measure, RoundsFit, Next;
      ReceiveShrinks(s, maxRounds);
    } else {
      hide Measure, RoundsFit, Next;
      SourceStepShrinks(s, act, maxRounds);
    }
  }

  /** Number of steps of a run that are not cancel requests. */
  function Length(acts: seq<Action>): nat {
    if acts == [] then 0 else (if acts[0].Cancel? then 0 else 1) + Length(acts[1..])
  }

  /** No run is longer than the measure of its first state. */
  lemma {:induction false} RunsEnd(s: State, acts: seq<Action>, maxRounds: nat)
    requires RoundsFit(s, maxRounds) && IsRun(s, acts, maxRounds)
    ensures Length(acts) <= Measure(s, maxRounds)
    decreases |acts|
  {
    if acts != [] {
      StepsRunOut(s, acts[0], maxRounds);
      RunsEnd(Next(s, acts[0], maxRounds), acts[1..], maxRounds);
    }
  }

  ghost predicate Reaches(s: State, acts: seq<Action>, maxRounds: nat, end: State) {
    IsRun(s, acts, maxRounds) && After(s, acts, maxRounds) == end
  }

  lemma {:induction false} Extend(s: State, acts: seq<Action>, maxRounds: nat, mid: State, act: Action)
    requires Reaches(s, acts, maxRounds, mid) && Enabled(mid, act, maxRounds)
    ensures Reaches(s, acts + [act], maxRounds, Next(mid, act, maxRounds))
    decreases |acts|
  {
    if acts == [] {
      assert acts + [act] == [act] && [act][1..] == [];
    } else {
      Extend(Next(s, acts[0], maxRounds), acts[1..], maxRounds, mid, act);
      assert (acts + [act])[1..] == acts[1..] + [act];
    }
  }

  /** A state that some run from `s` reaches. */
  ghost predicate Reachable(s: State, maxRounds: nat, end: State) {
    exists acts :: Reaches(s, acts, maxRounds, end)
  }

  lemma {:induction false} Go(s: State, maxRounds: nat, mid: State, act: Action, end: State)
    requires Reachable(s, maxRounds, mid) && Enabled(mid, act, maxRounds) && Next(mid, act, maxRounds) == end
    ensures Reachable(s, maxRounds, end)
  {
    var acts :| Reaches(s, acts, maxRounds, mid);
    Extend(s, acts, maxRounds, mid, act);
  }

  lemma {:induction false} ReachesConfig(s: State)
    requires Initial(s) && s.sourceStatus == Setup
    ensures Reachable(s, 0, s.(source := Ready(MemoryStage), target := WantAny, sourceStatus := Active,
                               targetStatus := Active))
  {
    hide Reachable;
    assert Reachable(s, 0, s) by { Here(s); }
    var s1 := s.(source := Await(ActiveStage), forth := [Request(ReqActive, 0)], sourceStatus := Active);
    Go(s, 0, s, Send(0, 0), s1);
    var s2 := s1.(target := WantConfig, targetStatus := Active, forth := [], back := [true]);
    Go(s, 0, s1, TargetStep(true), s2);
    var s3 := s2.(source := Ready(ConfigStage), back := []);
    Go(s, 0, s2, Receive, s3);
    var s4 := s3.(source := Await(ConfigStage), forth := [Request(ReqConfig, 0), Config(0)]);
    Go(s, 0, s3, Send(0, 0), s4);
    var s5 := s4.(target := InConfig(0), forth := [Config(0)]);
    Go(s, 0, s4, TargetStep(true), s5);
    var s6 := s5.(target := WantAny, forth := [], back := [true]);
    Go(s, 0, s5, TargetStep(true), s6);
    Go(s, 0, s6, Receive, s6.(source := Ready(MemoryStage), back := []));
  }

  lemma {:induction false} Here(s: State)
    ensures Reachable(s, 0, s)
  {
    assert Reaches(s, [], 0, s);
  }

  lemma {:induction false} MemoryIsSent(s: State, s0: State)
    requires Reachable(s, 0, s0) && s0.source == Ready(MemoryStage) && s0.target == WantAny
    requires s0.forth == [] && s0.back == []
    ensures Reachable(s, 0, s0.(source := Loop(0)))
  {
    hide Reachable;
    var s1 := s0.(source := Await(MemoryStage), forth := [Request(ReqMemory, 0), Headers(0, 0), Bytes(0)]);
    Go(s, 0, s0, Send(0, 0), s1);
    var s2 := s1.(target := InHeaders(0), forth := [Headers(0, 0), Bytes(0)]);
    assert s1.forth[1..] == s2.forth;
    Go(s, 0, s1, TargetStep(true), s2);
    MemoryIsRead(s, s2);
  }

  lemma {:induction false} MemoryIsRead(s: State, s2: State)
    requires Reachable(s, 0, s2) && s2.source == Await(MemoryStage) && s2.target == InHeaders(0)
    requires s2.forth == [Headers(0, 0), Bytes(0)] && s2.back == []
    ensures Reachable(s, 0, s2.(source := Loop(0), target := WantAny, forth := []))
  {
    hide Reachable;
    var s3 := s2.(target := InBytes(0), forth := [Bytes(0)]);
    assert s2.forth[1..] == s3.forth;
    Go(s, 0, s2, TargetStep(true), s3);
    var s4 := s3.(target := WantAny, forth := [], back := [true]);
    Go(s, 0, s3, TargetStep(true), s4);
    Go(s, 0, s4, Receive, s4.(source := Loop(0), back := []));
  }

  lemma {:induction false} SourcePauses(s: State, s0: State)
    requires Reachable(s, 0, s0) && s0.source == Loop(0) && s0.sourceStatus == Active
    ensures Reachable(s, 0, s0.(source := Ready(StateStage), sourceRunning := !s0.machine.stops))
  {
    hide Reachable;
    var s1 := s0.(source := Check);
    Go(s, 0, s0, LeaveLoop, s1);
    var s2 := s0.(source := Paused, sourceRunning := !s0.machine.stops);
    Go(s, 0, s1, CheckCanceled, s2);
    Go(s, 0, s2, AfterPause(false), s2.(source := Ready(StateStage)));
  }

  lemma {:induction false} StateIsRead(s: State, s1: State)
    requires Reachable(s, 0, s1) && s1.source == Ready(StateStage) && s1.target == WantAny
    requires s1.forth == [] && s1.back == []
    ensures Reachable(s, 0, s1.(source := Await(StateStage), target := ToRun, back := [true]))
  {
    hide Reachable;
    var s2 := s1.(source := Await(StateStage), forth := [Request(ReqState, 0), VmState]);
    Go(s, 0, s1, Send(0, 0), s2);
    var s3 := s2.(target := InState, forth := [VmState]);
    assert s2.forth[1..] == s3.forth;
    Go(s, 0, s2, TargetStep(true), s3);
    Go(s, 0, s3, TargetStep(true), s3.(target := ToRun, forth := [], back := [true]));
  }

  /** A timeout while the source waits for the acknowledgement of the state it sent. */
  lemma {:induction false} LateTimeoutReached(s: State)
    requires Initial(s) && s.sourceStatus == Setup
    ensures exists end :: Reachable(s, 0, end) && end.targetRunning &&
                          end.sourceRunning == (!s.machine.stops || s.machine.resumes)
  {
    hide Reachable, Message, Transfer;
    ReachesConfig(s);
    var s0 := s.(source := Ready(MemoryStage), target := WantAny, sourceStatus := Active, targetStatus := Active);
    MemoryIsSent(s, s0);
    SourcePauses(s, s0.(source := Loop(0)));
    var s1 := s0.(source := Ready(StateStage), sourceRunning := !s.machine.stops);
    StateIsRead(s, s1);
    var s4 := s1.(source := Await(StateStage), target := ToRun, back := [true]);
    var s5 := s4.(target := WantComplete, targetRunning := true);
    Go(s, 0, s4, TargetStep(true), s5);
    Go(s, 0, s5, Timeout, Next(s5, Timeout, 0));
  }

  /** Some run leaves both VMs running, unless the source's VM obeys the pause and does
      not obey the resume. */
  lemma {:induction false} BothCanRun(s: State)
    requires Initial(s) && s.sourceStatus == Setup
    ensures (exists end :: Reachable(s, 0, end) && end.sourceRunning && end.targetRunning) <==>
              !s.machine.stops || s.machine.resumes
  {
    hide Initial, IsRun, After, HasLateTimeout;
    LateTimeoutReached(s);
    if end :| Reachable(s, 0, end) && end.sourceRunning && end.targetRunning {
      var acts :| Reaches(s, acts, 0, end);
      BothRunExactly(s, acts, 0);
    }
  }
}
