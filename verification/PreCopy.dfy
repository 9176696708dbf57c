/** Pre-copy live migration of memory as a transition system.

  The source sends all memory, then round after round the pages logged dirty,
  pauses, sends the last dirty pages and hands over.  Guest and VMM write to memory
  at any time, one byte at a time.  An address is a slot, a page of the slot and an
  offset in the page.  KVM's log is an atomic fetch-and-clear set of pages that takes
  every guest write.  A VMM write begins, which may record its page in the VMM's
  log, copies bytes, and ends, as separate steps; it is not stopped by the pause,
  and the pause may fail to stop the guest.

  Two things can lose a byte, and the state records both: a skewed conversion of a
  bitmap to blocks, and a write that lands when no later round will fetch its page.
  `Rule` names what a run must not do to keep both from happening. */
module PreCopy {
  import opened Bytes
  import opened DirtyBlocks

  datatype Page = Page(slot: nat, number: nat)

  datatype Addr = Addr(page: Page, offset: nat)

  /** A write of the VMM to a page. */
  datatype Write = Write(id: nat, page: Page)

  /** Pages of each memory slot, constant during migration, and the page size. */
  datatype Layout = Layout(pages: seq<nat>, pageSize: nat) {
    predicate Has(a: Addr) {
      a.page.slot < |pages| && a.page.number < pages[a.page.slot] && a.offset < pageSize
    }
  }

  /** The migration status, as far as the source looks at it. */
  datatype Status = Active | Canceled | Other

  datatype Phase =
    | Setup
    | Sending(last: bool)
    | Between
    | Checked
    | FetchVmm(slot: nat, last: bool)
    | FetchKvm(slot: nat, last: bool, marked: iset<nat>)
    | HandedOver
    | Aborted

  datatype State = State(
    phase: Phase,
    source: Addr -> Byte,
    target: Addr -> Byte,
    kvmLog: iset<Page>,
    vmmLog: iset<Page>,
    inFlight: iset<Write>,
    queue: iset<Addr>,
    status: Status,
    running: bool,
    skewed: bool,
    unlogged: bool)

  datatype Action =
    | Start
    | SendByte(addr: Addr)
    | SendDone
    | Iterate
    | CheckStatus
    | Pause(stopped: bool)
    | TakeVmmLog
    | TakeKvmLog(words: seq<Word>)
    | CollectDone
    | GuestWrite(addr: Addr, value: Byte)
    | VmmBegin(write: Write, recorded: bool)
    | VmmCopy(write: Write, addr: Addr, value: Byte)
    | VmmEnd(write: Write)
    | SetStatus(status: Status)

  function Written(m: Addr -> Byte, a: Addr, v: Byte): Addr -> Byte {
    x => if x == a then v else m(x)
  }

  ghost predicate Enabled(l: Layout, s: State, act: Action) {
    match act
    case Start => s.phase.Setup?
    case SendByte(a) => s.phase.Sending? && a in s.queue
    case SendDone => s.phase.Sending? && s.queue == iset{}
    case Iterate => s.phase.Between? && s.status == Active
    case CheckStatus => s.phase.Between?
    case Pause(_) => s.phase.Checked?
    case TakeVmmLog => s.phase.FetchVmm? && s.phase.slot < |l.pages|
    case TakeKvmLog(words) =>
      && s.phase.FetchKvm?
      && forall n: int :: Dirty(words, n) <==>
                          n >= 0 && (n in s.phase.marked || Page(s.phase.slot, n) in s.kvmLog)
    case CollectDone => s.phase.FetchVmm? && s.phase.slot == |l.pages|
    case GuestWrite(a, _) => s.running && l.Has(a)
    case VmmBegin(w, _) => w !in s.inFlight
    case VmmCopy(w, a, _) => w in s.inFlight && a.page == w.page && l.Has(a)
    case VmmEnd(w) => w in s.inFlight
    case SetStatus(_) => true
  }

  /** The addresses of the pages that the runs of a slot cover. */
  ghost function AddressesOf(l: Layout, slot: nat, runs: seq<Run>): iset<Addr> {
    iset a: Addr | l.Has(a) && a.page.slot == slot && Covers(runs, a.page.number)
  }

  /** The log without the pages of a slot. */
  ghost function Without(log: iset<Page>, slot: nat): iset<Page> {
    iset p: Page | p in log && p.slot != slot
  }

  /** The pages of a slot that the log holds. */
  ghost function PagesIn(log: iset<Page>, slot: nat): iset<nat> {
    iset n: nat | Page(slot, n) in log
  }

  /** All addresses of guest memory. */
  ghost function All(l: Layout): iset<Addr> {
    iset a: Addr | l.Has(a)
  }

  ghost function Next(l: Layout, s: State, act: Action): State
    requires Enabled(l, s, act)
  {
    match act
    case Start =>
      s.(phase := Sending(false), status := Active, kvmLog := iset{}, vmmLog := iset{}, queue := All(l))
    case SendByte(a) => s.(target := Written(s.target, a, s.source(a)), queue := s.queue - iset{a})
    case SendDone => s.(phase := if s.phase.last then HandedOver else Between)
    case Iterate => s.(phase := FetchVmm(0, false))
    case CheckStatus => s.(phase := if s.status == Canceled then Aborted else Checked)
    case Pause(stopped) => s.(phase := FetchVmm(0, true), running := s.running && !stopped)
    case TakeVmmLog =>
      var k := s.phase.slot;
      s.(phase := FetchKvm(k, s.phase.last, PagesIn(s.vmmLog, k)), vmmLog := Without(s.vmmLog, k))
    case TakeKvmLog(words) =>
      var k := s.phase.slot;
      s.(phase := FetchVmm(k + 1, s.phase.last),
         kvmLog := Without(s.kvmLog, k),
         queue := s.queue + AddressesOf(l, k, ScannedRuns(words)),
         skewed := s.skewed || HasSkew(words))
    case CollectDone => s.(phase := Sending(s.phase.last))
    case GuestWrite(a, v) => Land(l, s.(kvmLog := s.kvmLog + iset{a.page}), a, v)
    case VmmBegin(w, recorded) =>
      s.(inFlight := s.inFlight + iset{w},
         vmmLog := if s.status == Active && recorded then s.vmmLog + iset{w.page} else s.vmmLog)
    case VmmCopy(_, a, v) => Land(l, s, a, v)
    case VmmEnd(w) => s.(inFlight := s.inFlight - iset{w})
    case SetStatus(status) => s.(status := status)
  }

  /** Slots whose KVM log is not fetched any more. */
  ghost function KvmFetched(l: Layout, s: State): nat {
    match s.phase
    case FetchVmm(k, last) => if last then k else 0
    case FetchKvm(k, last, _) => if last then k else 0
    case Sending(last) => if last then |l.pages| else 0
    case HandedOver => |l.pages|
    case _ => 0
  }

  /** Slots whose VMM log is not fetched any more. */
  ghost function VmmFetched(l: Layout, s: State): nat {
    if s.phase.FetchKvm? && s.phase.last then s.phase.slot + 1 else KvmFetched(l, s)
  }

  /** The page will still be fetched in this or a later round. */
  ghost predicate Logged(l: Layout, s: State, p: Page) {
    || (p in s.kvmLog && p.slot >= KvmFetched(l, s))
    || (p in s.vmmLog && p.slot >= VmmFetched(l, s))
    || (s.phase.FetchKvm? && s.phase.slot == p.slot && p.number in s.phase.marked)
  }

  /** Memory has been sent, or is being sent. */
  predicate UnderWay(s: State) {
    !s.phase.Setup? && !s.phase.Aborted?
  }

  /** A byte is written; it is lost if it is neither queued nor going to be. */
  ghost function Land(l: Layout, s: State, a: Addr, v: Byte): State {
    s.(source := Written(s.source, a, v),
       unlogged := s.unlogged || (UnderWay(s) && a !in s.queue && !Logged(l, s, a.page)))
  }

  /** The two sides agree on the byte, or it is queued, or its page is logged. */
  ghost predicate Safe(l: Layout, s: State, a: Addr) {
    s.source(a) == s.target(a) || a in s.queue || Logged(l, s, a.page)
  }

  ghost predicate Control(l: Layout, s: State) {
    && (s.phase.FetchVmm? ==> s.phase.slot <= |l.pages|)
    && (s.phase.FetchKvm? ==> s.phase.slot < |l.pages|)
    && (s.phase.HandedOver? ==> s.queue == iset{})
  }

  ghost predicate Invariant(l: Layout, s: State) {
    && Control(l, s)
    && (UnderWay(s) && !s.skewed && !s.unlogged ==> forall a :: l.Has(a) ==> Safe(l, s, a))
  }

  ghost predicate Initial(s: State) {
    s.phase.Setup? && s.running && !s.skewed && !s.unlogged
  }

  /** Fetching KVM's log without skew queues every page it clears. */
  lemma {:induction false} TakeKvmSafe(l: Layout, s: State, act: Action, a: Addr)
    requires act.TakeKvmLog? && Enabled(l, s, act) && l.Has(a) && Safe(l, s, a) && !HasSkew(act.words)
    ensures Safe(l, Next(l, s, act), a)
  {
    hide Dirty, Covers, HasSkew, ScannedRuns;
    ScanCovers(act.words, a.page.number);
    if a.page.slot == s.phase.slot {
      assert a.page == Page(s.phase.slot, a.page.number);
    }
  }

  lemma {:induction false} StepKeepsSafe(l: Layout, s: State, act: Action, a: Addr)
    requires Control(l, s) && Enabled(l, s, act) && l.Has(a) && UnderWay(s) && Safe(l, s, a)
    requires !Next(l, s, act).skewed && !Next(l, s, act).unlogged && UnderWay(Next(l, s, act))
    ensures Safe(l, Next(l, s, act), a)
  {
    hide Dirty, Covers, HasSkew, ScannedRuns;
    match act
    case TakeKvmLog(_) => TakeKvmSafe(l, s, act, a);
    case TakeVmmLog => assert a.page.slot == s.phase.slot ==> a.page == Page(s.phase.slot, a.page.number);
    case _ =>
  }

  /** Every step keeps every byte equal, queued or logged. */
  lemma {:induction false} StepKeepsInvariant(l: Layout, s: State, act: Action)
    requires Invariant(l, s) && Enabled(l, s, act)
    ensures Invariant(l, Next(l, s, act))
  {
    hide Dirty, Covers, HasSkew, ScannedRuns, Safe;
    var s' := Next(l, s, act);
    if UnderWay(s') && !s'.skewed && !s'.unlogged {
      forall a | l.Has(a) ensures Safe(l, s', a) {
        if UnderWay(s) {
          StepKeepsSafe(l, s, act, a);
        } else {
          QueuedIsSafe(l, s', a);
        }
      }
    }
  }

  lemma {:induction false} QueuedIsSafe(l: Layout, s: State, a: Addr)
    requires a in s.queue
    ensures Safe(l, s, a)
  {
  }

  /** `acts` is a run from `s`: each action is enabled where it happens. */
  ghost predicate IsRun(l: Layout, s: State, acts: seq<Action>)
    decreases |acts|
  {
    acts == [] || (Enabled(l, s, acts[0]) && IsRun(l, Next(l, s, acts[0]), acts[1..]))
  }

  ghost function After(l: Layout, s: State, acts: seq<Action>): State
    requires IsRun(l, s, acts)
    decreases |acts|
  {
    if acts == [] then s else After(l, Next(l, s, acts[0]), acts[1..])
  }

  lemma {:induction false} RunKeepsInvariant(l: Layout, s: State, acts: seq<Action>)
    requires Invariant(l, s) && IsRun(l, s, acts)
    ensures Invariant(l, After(l, s, acts))
    decreases |acts|
  {
    hide Invariant, Enabled;
    if acts != [] {
      StepKeepsInvariant(l, s, acts[0]);
      RunKeepsInvariant(l, Next(l, s, acts[0]), acts[1..]);
    }
  }

  // ---- What a run must not do ----

  datatype Rule =
    | NoneInFlightAtStart    // the dirty log starts while no VMM write is in flight
    | NotTorn                // the VMM's log of a slot is not fetched while a VMM write to the slot is in flight
    | WhileActive            // no VMM write begins while the status is not Active
    | Recorded               // every VMM write records its page
    | VmmBeforeLastFetch     // no VMM write to a slot begins after the last fetch of the VMM's log of the slot
    | GuestBeforeLastFetch   // no guest write to a slot lands after the last fetch of KVM's log of the slot
    | NoSkew                 // no fetched bitmap has a skew

  const RULES := {NoneInFlightAtStart, NotTorn, WhileActive, Recorded, VmmBeforeLastFetch, GuestBeforeLastFetch, NoSkew}

  /** The step keeps the rule. */
  ghost predicate Keeps(l: Layout, s: State, act: Action, rule: Rule) {
    match rule
    case NoneInFlightAtStart => act.Start? ==> s.inFlight == iset{}
    case NotTorn =>
      act.TakeVmmLog? && s.phase.FetchVmm? ==> forall w :: w in s.inFlight ==> w.page.slot != s.phase.slot
    case WhileActive => act.VmmBegin? && UnderWay(s) ==> s.status == Active
    case Recorded => act.VmmBegin? && UnderWay(s) ==> act.recorded
    case VmmBeforeLastFetch => act.VmmBegin? ==> act.write.page.slot >= VmmFetched(l, s)
    case GuestBeforeLastFetch => act.GuestWrite? ==> act.addr.page.slot >= KvmFetched(l, s)
    case NoSkew => act.TakeKvmLog? ==> !HasSkew(act.words)
  }

  ghost predicate StepObeys(l: Layout, s: State, act: Action, rules: set<Rule>) {
    forall rule :: rule in rules ==> Keeps(l, s, act, rule)
  }

  /** Every step of the run keeps all of the rules. */
  ghost predicate Obeys(l: Layout, s: State, acts: seq<Action>, rules: set<Rule>)
    requires IsRun(l, s, acts)
    decreases |acts|
  {
    acts == [] || (StepObeys(l, s, acts[0], rules) && Obeys(l, Next(l, s, acts[0]), acts[1..], rules))
  }

  /** So far no byte can have been lost: the page of every VMM write in flight will
      still be fetched from the VMM's log. */
  ghost predicate Marked(l: Layout, s: State) {
    && !s.skewed && !s.unlogged
    && (UnderWay(s) ==> forall w :: w in s.inFlight ==> w.page in s.vmmLog && w.page.slot >= VmmFetched(l, s))
  }

  lemma {:induction false} StepKeepsMarked(l: Layout, s: State, act: Action)
    requires Control(l, s) && Marked(l, s) && Enabled(l, s, act) && StepObeys(l, s, act, RULES)
    ensures Control(l, Next(l, s, act)) && Marked(l, Next(l, s, act))
  {
    hide Covers, HasSkew, ScannedRuns, Dirty;
    assert Keeps(l, s, act, NoneInFlightAtStart) && Keeps(l, s, act, NotTorn) && Keeps(l, s, act, WhileActive);
    assert Keeps(l, s, act, Recorded) && Keeps(l, s, act, VmmBeforeLastFetch);
    assert Keeps(l, s, act, GuestBeforeLastFetch) && Keeps(l, s, act, NoSkew);
  }

  lemma {:induction false} RunKeepsMarked(l: Layout, s: State, acts: seq<Action>)
    requires Control(l, s) && Marked(l, s) && IsRun(l, s, acts) && Obeys(l, s, acts, RULES)
    ensures Marked(l, After(l, s, acts))
    decreases |acts|
  {
    hide Control, Marked, Enabled, StepObeys;
    if acts != [] {
      StepKeepsMarked(l, s, acts[0]);
      RunKeepsMarked(l, Next(l, s, acts[0]), acts[1..]);
    }
  }

  /** The two sides have the same memory. */
  ghost predicate Equal(l: Layout, s: State) {
    forall a :: l.Has(a) ==> s.source(a) == s.target(a)
  }

  /** Where no conversion was skewed and no write came too late, the last round
      leaves the destination with the source's memory. */
  lemma {:induction false} UnflaggedIsEqual(l: Layout, s: State)
    requires Invariant(l, s) && s.phase.HandedOver? && !s.skewed && !s.unlogged
    ensures Equal(l, s)
  {
    forall a | l.Has(a) ensures s.source(a) == s.target(a) {
      assert Safe(l, s, a);
    }
  }

  /** Every run that keeps the rules and hands over leaves the destination with the
      source's memory. */
  lemma {:induction false} HandOverIsFaithful(l: Layout, s: State, acts: seq<Action>)
    requires Initial(s) && IsRun(l, s, acts) && Obeys(l, s, acts, RULES)
    requires After(l, s, acts).phase.HandedOver?
    ensures Equal(l, After(l, s, acts))
  {
    hide IsRun, After, Obeys, Equal;
    RunKeepsInvariant(l, s, acts);
    RunKeepsMarked(l, s, acts);
    UnflaggedIsEqual(l, After(l, s, acts));
  }

  /** From the pause on the guest does not run. */
  ghost predicate StoppedByPause(s: State) {
    match s.phase
    case FetchVmm(_, last) => last ==> !s.running
    case FetchKvm(_, last, _) => last ==> !s.running
    case Sending(last) => last ==> !s.running
    case HandedOver => !s.running
    case _ => true
  }

  /** Where every pause stops the guest, no guest write lands after the last fetch. */
  lemma {:induction false} PauseStopsGuest(l: Layout, s: State, acts: seq<Action>)
    requires StoppedByPause(s) && IsRun(l, s, acts)
    requires forall i :: 0 <= i < |acts| && acts[i].Pause? ==> acts[i].stopped
    ensures Obeys(l, s, acts, {GuestBeforeLastFetch})
    decreases |acts|
  {
    hide HasSkew, Dirty, ScannedRuns, Covers, Logged;
    if acts != [] {
      assert StepObeys(l, s, acts[0], {GuestBeforeLastFetch});
      PauseStopsGuest(l, Next(l, s, acts[0]), acts[1..]);
    }
  }

  lemma {:induction false} AbortIsFinal(l: Layout, s: State, acts: seq<Action>)
    requires s.phase.Aborted? && IsRun(l, s, acts)
    ensures After(l, s, acts).phase.Aborted? && After(l, s, acts).target == s.target
    decreases |acts|
  {
    hide HasSkew, Dirty, ScannedRuns, Covers, Logged;
    if acts != [] {
      AbortIsFinal(l, Next(l, s, acts[0]), acts[1..]);
    }
  }

  /** A cancel that the status check sees ends the migration: no round begins before the
      check, and after it nothing is sent or handed over. */
  lemma {:induction false} CanceledAborts(l: Layout, s: State, act: Action, acts: seq<Action>)
    requires s.phase.Between? && s.status == Canceled && Enabled(l, s, act) && IsRun(l, Next(l, s, act), acts)
    ensures !act.Iterate?
    ensures act.CheckStatus? ==>
              After(l, Next(l, s, act), acts).phase.Aborted? && After(l, Next(l, s, act), acts).target == s.target
  {
    hide IsRun, After;
    if act.CheckStatus? {
      AbortIsFinal(l, Next(l, s, act), acts);
    }
  }

  // ---- No rule can be dropped ----

  /** The run `acts` leads from `s` to `end` and keeps the rules. */
  ghost predicate Leads(l: Layout, s: State, acts: seq<Action>, end: State, rules: set<Rule>) {
    IsRun(l, s, acts) && After(l, s, acts) == end && Obeys(l, s, acts, rules)
  }

  lemma {:induction false} Stay(l: Layout, s: State, rules: set<Rule>)
    ensures Leads(l, s, [], s, rules)
  {
  }

  lemma {:induction false} Prepend(l: Layout, s: State, act: Action, acts: seq<Action>, end: State, rules: set<Rule>)
    requires Enabled(l, s, act) && StepObeys(l, s, act, rules) && Leads(l, Next(l, s, act), acts, end, rules)
    ensures Leads(l, s, [act] + acts, end, rules)
  {
    assert ([act] + acts)[1..] == acts;
  }

  lemma {:induction false} Concat(l: Layout, s: State, xs: seq<Action>, mid: State, ys: seq<Action>, end: State,
                                  rules: set<Rule>)
    requires Leads(l, s, xs, mid, rules) && Leads(l, mid, ys, end, rules)
    ensures Leads(l, s, xs + ys, end, rules)
    decreases |xs|
  {
    if xs == [] {
      assert xs + ys == ys;
    } else {
      Concat(l, Next(l, s, xs[0]), xs[1..], mid, ys, end, rules);
      assert xs + ys == [xs[0]] + (xs[1..] + ys);
      Prepend(l, s, xs[0], xs[1..] + ys, end, rules);
    }
  }

  /** Some run from `s` that keeps the rules hands over memory that differs. */
  ghost predicate CanLose(l: Layout, s: State, rules: set<Rule>) {
    exists acts, end :: Leads(l, s, acts, end, rules) && end.phase.HandedOver? && !Equal(l, end)
  }

  /** What can be lost after a step can be lost before it. */
  lemma {:induction false} LoseBefore(l: Layout, s: State, act: Action, rules: set<Rule>)
    requires Enabled(l, s, act) && StepObeys(l, s, act, rules) && CanLose(l, Next(l, s, act), rules)
    ensures CanLose(l, s, rules)
  {
    hide Leads, Enabled, Equal, StepObeys;
    var acts, end :| Leads(l, Next(l, s, act), acts, end, rules) && end.phase.HandedOver? && !Equal(l, end);
    Prepend(l, s, act, acts, end, rules);
  }

  lemma {:induction false} LoseAfter(l: Layout, s: State, xs: seq<Action>, mid: State, rules: set<Rule>)
    requires Leads(l, s, xs, mid, rules) && CanLose(l, mid, rules)
    ensures CanLose(l, s, rules)
  {
    hide Leads, Equal;
    var acts, end :| Leads(l, mid, acts, end, rules) && end.phase.HandedOver? && !Equal(l, end);
    Concat(l, s, xs, mid, acts, end, rules);
  }

  /** The last bytes are sent, and one differs. */
  lemma {:induction false} HandOverDiffers(l: Layout, s: State, a: Addr, rules: set<Rule>)
    requires s.phase == Sending(true) && s.queue == iset{} && l.Has(a) && s.source(a) != s.target(a)
    ensures CanLose(l, s, rules)
  {
    var end := Next(l, s, SendDone);
    Stay(l, end, rules);
    Prepend(l, s, SendDone, [], end, rules);
    assert !Equal(l, end);
  }

  /** Guest memory of a single byte. */
  const OneByte := Layout([1], 1)

  const TheByte := Addr(Page(0, 0), 0)

  const TheWrite := Write(0, TheByte.page)

  /** Nothing is logged or queued. */
  ghost predicate Quiet(s: State) {
    s.kvmLog == iset{} && s.vmmLog == iset{} && s.queue == iset{}
  }

  /** The bitmap of a clean page. */
  const CLEAN := [Only(64)]

  /** The bitmap of a dirty page. */
  const DIRTY := [Only(0)]

  lemma {:induction false} CleanScan()
    ensures !HasSkew(CLEAN)
    ensures forall n: int :: !Dirty(CLEAN, n) && !Covers(ScannedRuns(CLEAN), n)
  {
    assert forall n: int :: !Dirty(CLEAN, n);
    hide Dirty, Covers, ScannedRuns;
    forall n: int ensures !Covers(ScannedRuns(CLEAN), n) {
      ScanCovers(CLEAN, n);
    }
  }

  lemma {:induction false} DirtyScan()
    ensures !HasSkew(DIRTY)
    ensures forall n: int :: Dirty(DIRTY, n) <==> n == 0
    ensures forall n: int :: Covers(ScannedRuns(DIRTY), n) <==> n == 0
  {
    assert forall n: int :: Dirty(DIRTY, n) <==> n == 0;
    hide Dirty, Covers, ScannedRuns;
    forall n: int ensures Covers(ScannedRuns(DIRTY), n) <==> n == 0 {
      ScanCovers(DIRTY, n);
    }
  }

  /** With nothing logged and nothing in flight the last round fetches nothing. */
  lemma {:induction false} LastFetch(s: State, rules: set<Rule>) returns (acts: seq<Action>, end: State)
    requires s.phase == FetchVmm(0, true) && Quiet(s) && s.inFlight == iset{}
    ensures Leads(OneByte, s, acts, end, rules) && end == s.(phase := Sending(true))
  {
    hide Leads, Dirty, Covers, HasSkew, ScannedRuns;
    var l, take := OneByte, TakeKvmLog(CLEAN);
    CleanScan();
    var s1 := Next(l, s, TakeVmmLog);
    assert s1.phase == FetchKvm(0, true, iset{}) && Quiet(s1);
    assert Enabled(l, s1, take);
    var s2 := Next(l, s1, take);
    assert Quiet(s2) && s2.skewed == s.skewed;
    end := Next(l, s2, CollectDone);
    Stay(l, end, rules);
    Prepend(l, s2, CollectDone, [], end, rules);
    Prepend(l, s1, take, [CollectDone] + [], end, rules);
    Prepend(l, s, TakeVmmLog, [take] + ([CollectDone] + []), end, rules);
    acts := [TakeVmmLog] + ([take] + ([CollectDone] + []));
  }

  /** All memory is sent once, and no log or flight changes. */
  lemma {:induction false} FirstRound(s: State, rules: set<Rule>) returns (acts: seq<Action>, end: State)
    requires s.phase.Setup? && s.running && (s.inFlight == iset{} || NoneInFlightAtStart !in rules)
    ensures Leads(OneByte, s, acts, end, rules)
    ensures end.phase.Between? && Quiet(end) && end.running && end.status == Active && end.inFlight == s.inFlight
    ensures end.source(TheByte) == end.target(TheByte) == s.source(TheByte)
  {
    hide Leads;
    var l := OneByte;
    var s1 := Next(l, s, Start);
    assert s1.queue == iset{TheByte};
    var s2 := Next(l, s1, SendByte(TheByte));
    assert s2.queue == iset{};
    end := Next(l, s2, SendDone);
    Stay(l, end, rules);
    Prepend(l, s2, SendDone, [], end, rules);
    acts := [SendDone] + [];
    Prepend(l, s1, SendByte(TheByte), acts, end, rules);
    acts := [SendByte(TheByte)] + acts;
    Prepend(l, s, Start, acts, end, rules);
    acts := [Start] + acts;
  }

  /** A difference that is in no log at the pause is there at the hand-over. */
  lemma {:induction false} QuietDifferenceStays(s: State, rules: set<Rule>)
    requires s.phase.Checked? && Quiet(s) && s.inFlight == iset{} && s.source(TheByte) != s.target(TheByte)
    ensures CanLose(OneByte, s, rules)
  {
    hide Leads, CanLose;
    var l := OneByte;
    var s1 := Next(l, s, Pause(true));
    var acts, s2 := LastFetch(s1, rules);
    HandOverDiffers(l, s2, TheByte, rules);
    LoseAfter(l, s1, acts, s2, rules);
    LoseBefore(l, s, Pause(true), rules);
  }

  /** A VMM write whose page is missing from the log when its byte lands is lost:
      the last round finds nothing to send. */
  lemma {:induction false} UnloggedCopyLost(s: State, v: Byte, rules: set<Rule>)
    requires s.phase.Checked? && Quiet(s) && s.inFlight == iset{TheWrite} && v != s.target(TheByte)
    ensures CanLose(OneByte, s, rules)
  {
    hide Leads, CanLose;
    var l, copy := OneByte, VmmCopy(TheWrite, TheByte, v);
    var s1 := Next(l, s, copy);
    var s2 := Next(l, s1, VmmEnd(TheWrite));
    assert s2.inFlight == iset{};
    QuietDifferenceStays(s2, rules);
    LoseBefore(l, s1, VmmEnd(TheWrite), rules);
    LoseBefore(l, s, copy, rules);
  }

  /** A VMM write that began before the log started, and so is in no log, is lost
      when its byte lands after all memory was sent. */
  lemma {:induction false} WriteOverStartIsLost(s: State, v: Byte)
    requires Initial(s) && s.inFlight == iset{} && v != s.source(TheByte)
    ensures CanLose(OneByte, s, RULES - {NoneInFlightAtStart})
  {
    hide Leads, CanLose;
    var l, begin, rules := OneByte, VmmBegin(TheWrite, true), RULES - {NoneInFlightAtStart};
    var s1 := Next(l, s, begin);
    assert s1.inFlight == iset{TheWrite};
    var first, s2 := FirstRound(s1, rules);
    UnloggedCopyLost(Next(l, s2, CheckStatus), v, rules);
    LoseBefore(l, s2, CheckStatus, rules);
    LoseAfter(l, s1, first, s2, rules);
    LoseBefore(l, s, begin, rules);
  }

  /** A VMM write that begins unlogged after the status check is lost. */
  lemma {:induction false} UnloggedBeginLost(s: State, begin: Action, v: Byte, rules: set<Rule>)
    requires s.phase.Checked? && Quiet(s) && s.inFlight == iset{} && v != s.target(TheByte)
    requires begin.VmmBegin? && begin.write == TheWrite && StepObeys(OneByte, s, begin, rules)
    requires s.status != Active || !begin.recorded
    ensures CanLose(OneByte, s, rules)
  {
    hide Leads, CanLose, StepObeys;
    var s1 := Next(OneByte, s, begin);
    assert s1.inFlight == iset{TheWrite};
    UnloggedCopyLost(s1, v, rules);
    LoseBefore(OneByte, s, begin, rules);
  }

  /** A cancel between the status check and the pause stops the VMM's marking, and
      a VMM write after it is lost. */
  lemma {:induction false} LateCancelLosesWrite(s: State, v: Byte)
    requires Initial(s) && s.inFlight == iset{} && v != s.source(TheByte)
    ensures CanLose(OneByte, s, RULES - {WhileActive})
  {
    hide Leads, CanLose;
    var l, cancel, rules := OneByte, SetStatus(Canceled), RULES - {WhileActive};
    var first, s0 := FirstRound(s, rules);
    var s1 := Next(l, s0, CheckStatus);
    UnloggedBeginLost(Next(l, s1, cancel), VmmBegin(TheWrite, true), v, rules);
    LoseBefore(l, s1, cancel, rules);
    LoseBefore(l, s0, CheckStatus, rules);
    LoseAfter(l, s, first, s0, rules);
  }

  /** A VMM write that does not record its page is lost. */
  lemma {:induction false} UnrecordedWriteIsLost(s: State, v: Byte)
    requires Initial(s) && s.inFlight == iset{} && v != s.source(TheByte)
    ensures CanLose(OneByte, s, RULES - {Recorded})
  {
    hide Leads, CanLose;
    var l, rules := OneByte, RULES - {Recorded};
    var first, s0 := FirstRound(s, rules);
    UnloggedBeginLost(Next(l, s0, CheckStatus), VmmBegin(TheWrite, false), v, rules);
    LoseBefore(l, s0, CheckStatus, rules);
    LoseAfter(l, s, first, s0, rules);
  }

  /** After the last fetch of the logs, what is lost then is lost. */
  lemma {:induction false} LoseAfterLastFetch(s: State, mid: State, stopped: bool, rules: set<Rule>)
    requires s.phase.Between? && Quiet(s) && s.inFlight == iset{} && s.status == Active
    requires mid == s.(phase := Sending(true), running := s.running && !stopped)
    requires CanLose(OneByte, mid, rules)
    ensures CanLose(OneByte, s, rules)
  {
    hide Leads, CanLose;
    var l := OneByte;
    var s1 := Next(l, s, CheckStatus);
    var s2 := Next(l, s1, Pause(stopped));
    var acts, s3 := LastFetch(s2, rules);
    LoseAfter(l, s2, acts, s3, rules);
    LoseBefore(l, s1, Pause(stopped), rules);
    LoseBefore(l, s, CheckStatus, rules);
  }

  /** A VMM write that begins after the last fetch of its slot's log, while the guest
      is paused and the status Active, is lost although it is recorded. */
  lemma {:induction false} LateWriteIsLost(s: State, v: Byte)
    requires Initial(s) && s.inFlight == iset{} && v != s.source(TheByte)
    ensures CanLose(OneByte, s, RULES - {VmmBeforeLastFetch})
  {
    hide Leads, CanLose;
    var l, rules := OneByte, RULES - {VmmBeforeLastFetch};
    var begin, copy := VmmBegin(TheWrite, true), VmmCopy(TheWrite, TheByte, v);
    var first, s0 := FirstRound(s, rules);
    var s1 := s0.(phase := Sending(true), running := false);
    var s2 := Next(l, s1, begin);
    HandOverDiffers(l, Next(l, s2, copy), TheByte, rules);
    LoseBefore(l, s2, copy, rules);
    LoseBefore(l, s1, begin, rules);
    LoseAfterLastFetch(s0, s1, true, rules);
    LoseAfter(l, s, first, s0, rules);
  }

  /** When the pause fails, a guest write after the last fetch is lost. */
  lemma {:induction false} RunningGuestLosesWrite(s: State, v: Byte)
    requires Initial(s) && s.inFlight == iset{} && v != s.source(TheByte)
    ensures CanLose(OneByte, s, RULES - {GuestBeforeLastFetch})
  {
    hide Leads, CanLose;
    var l, write, rules := OneByte, GuestWrite(TheByte, v), RULES - {GuestBeforeLastFetch};
    var first, s0 := FirstRound(s, rules);
    var s1 := s0.(phase := Sending(true));
    HandOverDiffers(l, Next(l, s1, write), TheByte, rules);
    LoseBefore(l, s1, write, rules);
    LoseAfterLastFetch(s0, s1, false, rules);
    LoseAfter(l, s, first, s0, rules);
  }

  /** Fetching both logs of the slot finds the byte's page in the VMM's. */
  lemma {:induction false} FetchMarked(s: State, rules: set<Rule>) returns (acts: seq<Action>, end: State)
    requires s.phase == FetchVmm(0, false) && s.vmmLog == iset{TheByte.page} && s.kvmLog == iset{} && s.queue == iset{}
    requires NotTorn !in rules
    ensures Leads(OneByte, s, acts, end, rules)
    ensures end == s.(phase := FetchVmm(1, false), vmmLog := iset{}, queue := iset{TheByte})
  {
    hide Leads, HasSkew, Covers, Dirty, ScannedRuns;
    var l, take := OneByte, TakeKvmLog(DIRTY);
    var s1 := Next(l, s, TakeVmmLog);
    assert s1.phase == FetchKvm(0, false, iset{0}) && s1.vmmLog == iset{};
    DirtyScan();
    assert Enabled(l, s1, take);
    end := Next(l, s1, take);
    assert end.queue == iset{TheByte} && end.kvmLog == iset{};
    Stay(l, end, rules);
    Prepend(l, s1, take, [], end, rules);
    Prepend(l, s, TakeVmmLog, [take] + [], end, rules);
    acts := [TakeVmmLog] + ([take] + []);
  }

  /** One round that finds the byte's page in the VMM's log sends it and empties the log. */
  lemma {:induction false} RoundSendsMarked(s: State, rules: set<Rule>) returns (acts: seq<Action>, end: State)
    requires s.phase.Between? && s.vmmLog == iset{TheByte.page} && s.kvmLog == iset{} && s.queue == iset{}
    requires s.source(TheByte) == s.target(TheByte) && s.status == Active && NotTorn !in rules
    ensures Leads(OneByte, s, acts, end, rules)
    ensures end.phase.Between? && Quiet(end) && end.status == Active
    ensures end.inFlight == s.inFlight && end.target(TheByte) == s.target(TheByte)
  {
    hide Leads, Dirty, Covers, HasSkew, ScannedRuns;
    var l, send := OneByte, SendByte(TheByte);
    var s1 := Next(l, s, Iterate);
    var fetch, s2 := FetchMarked(s1, rules);
    var s3 := Next(l, s2, CollectDone);
    var s4 := Next(l, s3, send);
    assert s4.queue == iset{};
    end := Next(l, s4, SendDone);
    Stay(l, end, rules);
    Prepend(l, s4, SendDone, [], end, rules);
    acts := [SendDone] + [];
    Prepend(l, s3, send, acts, end, rules);
    acts := [send] + acts;
    Prepend(l, s2, CollectDone, acts, end, rules);
    acts := [CollectDone] + acts;
    Concat(l, s1, fetch, s2, acts, end, rules);
    acts := fetch + acts;
    Prepend(l, s, Iterate, acts, end, rules);
    acts := [Iterate] + acts;
  }

  /** A round that fetches the log between the mark and the copy of a VMM write
      loses the write, although the status stays Active throughout. */
  lemma {:induction false} TornWriteIsLost(s: State, v: Byte)
    requires Initial(s) && s.inFlight == iset{} && v != s.source(TheByte)
    ensures CanLose(OneByte, s, RULES - {NotTorn})
  {
    hide Leads, CanLose;
    var l, begin, rules := OneByte, VmmBegin(TheWrite, true), RULES - {NotTorn};
    var first, s0 := FirstRound(s, rules);
    var s1 := Next(l, s0, begin);
    assert s1.vmmLog == iset{TheByte.page} && s1.inFlight == iset{TheWrite};
    var round, s2 := RoundSendsMarked(s1, rules);
    UnloggedCopyLost(Next(l, s2, CheckStatus), v, rules);
    LoseBefore(l, s2, CheckStatus, rules);
    LoseAfter(l, s1, round, s2, rules);
    LoseBefore(l, s0, begin, rules);
    LoseAfter(l, s, first, s0, rules);
  }

  /** The page is logged in `s` only, and no more of it is queued in `s'`. */
  ghost predicate Dropped(l: Layout, s: State, s': State, p: Page) {
    && Logged(l, s, p) && !Logged(l, s', p)
    && forall a :: a in s'.queue && a.page == p ==> a in s.queue
  }

  /** A skewed conversion always drops a page: it was logged, and afterwards it is
      neither logged nor queued by this fetch. */
  lemma {:induction false} SkewedFetchDropsPage(l: Layout, s: State, act: Action)
    requires act.TakeKvmLog? && Enabled(l, s, act) && HasSkew(act.words)
    requires forall p: Page :: p.slot == s.phase.slot ==> p !in s.vmmLog
    ensures exists n: nat :: Dropped(l, s, Next(l, s, act), Page(s.phase.slot, n))
  {
    hide Dirty, Covers, HasSkew, ScannedRuns;
    AllSentIffNoSkew(act.words);
    var n: int :| Dirty(act.words, n) && !Covers(ScannedRuns(act.words), n);
    assert Dropped(l, s, Next(l, s, act), Page(s.phase.slot, n));
  }

  /** A slot of 129 pages of one byte each. */
  const Wide := Layout([129], 1)

  function ByteOf(n: nat): Addr {
    Addr(Page(0, n), 0)
  }

  ghost function Stretch(lo: nat, hi: nat): iset<Addr> {
    iset a: Addr | Wide.Has(a) && lo <= a.page.number < hi
  }

  /** Sending a stretch of the slot empties the queue and copies exactly the stretch. */
  lemma {:induction false} SendStretch(s: State, lo: nat, hi: nat, rules: set<Rule>)
    returns (acts: seq<Action>, end: State)
    requires s.phase.Sending? && lo <= hi <= 129 && s.queue == Stretch(lo, hi)
    ensures Leads(Wide, s, acts, end, rules)
    ensures end == s.(target := end.target, queue := iset{})
    ensures forall a :: end.target(a) == if a in Stretch(lo, hi) then s.source(a) else s.target(a)
    decreases hi - lo
  {
    hide Leads;
    if lo == hi {
      assert s.queue == iset{};
      acts, end := [], s;
      Stay(Wide, s, rules);
    } else {
      var act := SendByte(ByteOf(lo));
      assert ByteOf(lo) in s.queue;
      var s1 := Next(Wide, s, act);
      assert forall a :: a in Stretch(lo, hi) <==> a == ByteOf(lo) || a in Stretch(lo + 1, hi);
      assert s1.queue == Stretch(lo + 1, hi);
      acts, end := SendStretch(s1, lo + 1, hi, rules);
      Prepend(Wide, s, act, acts, end, rules);
      acts := [act] + acts;
    }
  }

  lemma {:induction false} SkewedSend(s: State, rules: set<Rule>)
    requires s.phase == Sending(true) && s.queue == Stretch(63, 65)
    requires s.source(ByteOf(128)) != s.target(ByteOf(128))
    ensures CanLose(Wide, s, rules)
  {
    hide Leads, CanLose;
    var acts, s1 := SendStretch(s, 63, 65, rules);
    assert ByteOf(128) !in Stretch(63, 65) && Wide.Has(ByteOf(128));
    HandOverDiffers(Wide, s1, ByteOf(128), rules);
    LoseAfter(Wide, s, acts, s1, rules);
  }

  /** From the pause on, with pages 63 and 128 in KVM's log: page 128 is never sent. */
  lemma {:induction false} SkewedLastRound(s: State, rules: set<Rule>)
    requires s.phase == FetchVmm(0, true) && s.inFlight == iset{} && NoSkew !in rules
    requires s.kvmLog == iset{Page(0, 63), Page(0, 128)} && s.vmmLog == iset{} && s.queue == iset{}
    requires s.source(ByteOf(128)) != s.target(ByteOf(128))
    ensures CanLose(Wide, s, rules)
  {
    hide Leads, HasSkew, Covers, Dirty, CanLose, ScannedRuns;
    var l, take := Wide, TakeKvmLog(SKEWED);
    var s1 := Next(l, s, TakeVmmLog);
    assert s1.phase == FetchKvm(0, true, iset{});
    SkewExample();
    assert Enabled(l, s1, take);
    var s2 := Next(l, s1, take);
    assert s2.queue == Stretch(63, 65);
    var s3 := Next(l, s2, CollectDone);
    SkewedSend(s3, rules);
    LoseBefore(l, s2, CollectDone, rules);
    LoseBefore(l, s1, take, rules);
    LoseBefore(l, s, TakeVmmLog, rules);
  }

  lemma {:induction false} SkewedPause(s: State, rules: set<Rule>)
    requires s.phase.Between? && s.status == Active && s.inFlight == iset{} && NoSkew !in rules
    requires s.kvmLog == iset{Page(0, 63), Page(0, 128)} && s.vmmLog == iset{} && s.queue == iset{}
    requires s.source(ByteOf(128)) != s.target(ByteOf(128))
    ensures CanLose(Wide, s, rules)
  {
    hide Leads, CanLose, HasSkew, ScannedRuns, Dirty, Covers, Land;
    var s1 := Next(Wide, s, CheckStatus);
    SkewedLastRound(Next(Wide, s1, Pause(true)), rules);
    LoseBefore(Wide, s1, Pause(true), rules);
    LoseBefore(Wide, s, CheckStatus, rules);
  }

  lemma {:induction false} SkewedWrites(s: State, v: Byte, rules: set<Rule>)
    requires s.phase.Between? && s.running && s.status == Active && Quiet(s) && s.inFlight == iset{}
    requires NoSkew !in rules && v != s.target(ByteOf(128))
    ensures CanLose(Wide, s, rules)
  {
    hide Leads, CanLose, HasSkew, ScannedRuns, Dirty, Covers;
    var l := Wide;
    var s1 := Next(l, s, GuestWrite(ByteOf(63), v));
    var s2 := Next(l, s1, GuestWrite(ByteOf(128), v));
    assert s2.kvmLog == iset{Page(0, 63), Page(0, 128)};
    SkewedPause(s2, rules);
    LoseBefore(l, s1, GuestWrite(ByteOf(128), v), rules);
    LoseBefore(l, s, GuestWrite(ByteOf(63), v), rules);
  }

  /** Guest writes to pages 63 and 128 after all memory was sent: the skewed
      conversion of the last bitmap loses one of them. */
  lemma {:induction false} SkewLosesPage(s: State, v: Byte)
    requires Initial(s) && s.inFlight == iset{} && v != s.source(ByteOf(128))
    ensures CanLose(Wide, s, RULES - {NoSkew})
  {
    hide Leads, CanLose, HasSkew, ScannedRuns;
    var l, rules := Wide, RULES - {NoSkew};
    var s1 := Next(l, s, Start);
    assert s1.queue == Stretch(0, 129);
    var acts, s2 := SendStretch(s1, 0, 129, rules);
    SkewedWrites(Next(l, s2, SendDone), v, rules);
    LoseBefore(l, s2, SendDone, rules);
    LoseAfter(l, s1, acts, s2, rules);
    LoseBefore(l, s, Start, rules);
  }

  /** Every run that keeps the rules hands over equal memory. */
  ghost predicate Suffice(rules: set<Rule>) {
    forall l, s :: Initial(s) ==> !CanLose(l, s, rules)
  }

  lemma {:induction false} FewerRules(l: Layout, s: State, acts: seq<Action>, more: set<Rule>, rules: set<Rule>)
    requires rules <= more && IsRun(l, s, acts) && Obeys(l, s, acts, more)
    ensures Obeys(l, s, acts, rules)
    decreases |acts|
  {
    hide Keeps, Enabled;
    if acts != [] {
      FewerRules(l, Next(l, s, acts[0]), acts[1..], more, rules);
    }
  }

  lemma {:induction false} LoseWithFewer(l: Layout, s: State, more: set<Rule>, rules: set<Rule>)
    requires rules <= more && CanLose(l, s, more)
    ensures CanLose(l, s, rules)
  {
    hide Equal, Obeys, IsRun, After;
    var acts, end :| Leads(l, s, acts, end, more) && end.phase.HandedOver? && !Equal(l, end);
    FewerRules(l, s, acts, more, rules);
    assert Leads(l, s, acts, end, rules);
  }

  /** Without any one of the rules some run loses a byte. */
  lemma {:induction false} NoRuleDropped(rule: Rule) returns (l: Layout, s: State)
    ensures Initial(s) && CanLose(l, s, RULES - {rule})
  {
    hide CanLose;
    s := State(Setup, a => 0, a => 0, iset{}, iset{}, iset{}, iset{}, Other, true, false, false);
    l := if rule.NoSkew? then Wide else OneByte;
    match rule
    case NoneInFlightAtStart => WriteOverStartIsLost(s, 1);
    case NotTorn => TornWriteIsLost(s, 1);
    case WhileActive => LateCancelLosesWrite(s, 1);
    case Recorded => UnrecordedWriteIsLost(s, 1);
    case VmmBeforeLastFetch => LateWriteIsLost(s, 1);
    case GuestBeforeLastFetch => RunningGuestLosesWrite(s, 1);
    case NoSkew => SkewLosesPage(s, 1);
  }

  lemma {:induction false} AllRules(rules: set<Rule>)
    ensures rules <= RULES
  {
    forall rule | rule in rules ensures rule in RULES {
      match rule
      case NoneInFlightAtStart =>
      case NotTorn =>
      case WhileActive =>
      case Recorded =>
      case VmmBeforeLastFetch =>
      case GuestBeforeLastFetch =>
      case NoSkew =>
    }
  }

  /** A set of rules guarantees equal memory at every hand-over if and only if it holds
      all seven of them. */
  lemma {:induction false} RulesExact(rules: set<Rule>)
    ensures Suffice(rules) <==> RULES <= rules
  {
    hide Initial, Obeys, IsRun, After, Equal;
    if RULES <= rules {
      forall l, s | Initial(s) ensures !CanLose(l, s, rules) {
        if CanLose(l, s, rules) {
          LoseWithFewer(l, s, rules, RULES);
          var acts, end :| Leads(l, s, acts, end, RULES) && end.phase.HandedOver? && !Equal(l, end);
          HandOverIsFaithful(l, s, acts);
          assert false;
        }
      }
    } else {
      var rule :| rule in RULES && rule !in rules;
      assert rules <= RULES - {rule} by { AllRules(rules); }
      var l, s := NoRuleDropped(rule);
      LoseWithFewer(l, s, RULES - {rule}, rules);
    }
  }
}
