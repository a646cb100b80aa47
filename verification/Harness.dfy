// The screen-driven test harness as a stage machine. A screen is what the text
// predicates of the harness say about it; instants are instruction counts.
module Harness {
  import opened Bits

  datatype Target =
    | Menus | NativeManual | Recovery | Ecm | EcmLink | EcmLink1367
    | SecurityLink1367 | DtcLink1367 | EngineData1367

  datatype Stage =
    | Splash | Main | Year | YearScroll | Platform | PlatformSport | Diagnostics | Engine
    | SecurityAll | AwaitSecurity | AwaitDtc | Checking | AwaitLink | Recovered | BackToPlatform | Complete

  datatype Capture =
    | Nothing | SplashShot | MainMenu | ManualMainMenu | ModelYear | YearScrolling | Year2008 | Year2004
    | VehiclePlatform | DiagnosticsMenu | AllDtcMenu | SecurityMenu | EngineDataMenu | EngineMenu
    | CheckingKey | RecoveredMenu | BackAtPlatform | NativeDtcScreen
    | IgnitionOn | IgnitionLock | RemoveKey | TransferToTis
    | VinSweepOk | SeedSweepOk | KeyPositionOk | VehicleSelectionOk

  // What the screen predicates find. `rows` are the model-year rows "n / 15".
  datatype Screen = Screen(
    text: string, welcome: bool, mainMenu: bool, modelYear: bool, rows: set<nat>, selectedYear: Option<nat>,
    twoPlatforms: bool, sportPlatform: bool, onlyPlatform: bool, diagnostics: bool, securityMenu: bool,
    engineMenu: bool, checking: bool, prompt: Option<Capture>, vinsOk: bool, seedsOk: bool, keyOk: bool,
        selectionOk: bool)

  datatype Event = Event(capture: Capture, key: Option<Byte>, exit: bool, complete: bool)

  datatype Outcome = Quiet | Emitted(event: Event) | DeadlineExceeded | WrongYear

  datatype State = State(
    stage: Stage, target: Target, entered: nat, stableSince: Option<nat>, pendingMilestone: Option<Capture>,
    lastPrompt: Option<Capture>, lastVerified: Capture, yearRow: nat, dtcCandidate: string, dtcCaptured: string)

  const KEY_ENTER: Byte := 0x0E
  const KEY_DOWN: Byte := 0x0C
  const SETTLE: nat := 200_000

  function Initial(target: Target, insns: nat): State {
    State(Splash, target, insns, None, None, None, Nothing, 1, "", "")
  }

  predicate Linked1367(target: Target) {
    target == EcmLink1367 || target == SecurityLink1367 || target == DtcLink1367 || target == EngineData1367
  }

  predicate ScrollsYears(target: Target) { target == Ecm || target == EcmLink || Linked1367(target) }

  function LastRow(target: Target): nat { if Linked1367(target) then 5 else 9 }
  function ExpectedYear(target: Target): nat { if Linked1367(target) then 2008 else 2004 }

  function Deadline(stage: Stage): nat {
    match stage
    case Splash => 80_000_000
    case Recovered => 40_000_000
    case AwaitLink => 40_000_000
    case AwaitSecurity => 750_000_000
    case AwaitDtc => 750_000_000
    case BackToPlatform => 2_000_000
    case _ => 10_000_000
  }

  function Settle(stage: Stage): nat { if stage == Checking then 500_000 else SETTLE }

  predicate Matches(h: State, s: Screen) {
    match h.stage
    case Splash => s.welcome
    case Main => s.mainMenu
    case Year => s.modelYear && 1 in s.rows
    case YearScroll => s.modelYear && h.yearRow in s.rows
    case Platform => if ScrollsYears(h.target) then s.twoPlatforms else s.onlyPlatform
    case PlatformSport => s.sportPlatform
    case BackToPlatform => s.onlyPlatform
    case Diagnostics => s.diagnostics
    case Recovered => s.diagnostics
    case SecurityAll => s.securityMenu
    case Engine => s.engineMenu
    case Checking => s.checking
    case _ => false
  }

  // One scripted transition.
  datatype Step = Step(capture: Capture, key: Option<Byte>, exit: bool, next: Stage, row: nat)

  predicate Scripted(stage: Stage) {
    stage != Complete && stage != AwaitLink && stage != AwaitSecurity && stage != AwaitDtc
  }

  function Script(target: Target, stage: Stage, row: nat): Step
    requires Scripted(stage)
  {
    match stage
    case Splash => Step(SplashShot, Some(KEY_ENTER), false, if target == NativeManual then AwaitDtc else Main, row)
    case Main =>
      if target == NativeManual then Step(ManualMainMenu, None, false, AwaitDtc, row)
      else Step(MainMenu, Some(0x18), false, Year, row)
    case Year =>
      if ScrollsYears(target) then Step(ModelYear, Some(KEY_DOWN), false, YearScroll, 2)
      else Step(ModelYear, Some(0x10), false, Platform, row)
    case YearScroll =>
      if row < LastRow(target) then Step(YearScrolling, Some(KEY_DOWN), false, YearScroll, row + 1)
      else Step(if Linked1367(target) then Year2008 else Year2004, Some(0x10), false, Platform, row)
    case Platform =>
      if ScrollsYears(target) then Step(VehiclePlatform, Some(KEY_DOWN), false, PlatformSport, row)
      else Step(VehiclePlatform, Some(0x10), false, Diagnostics, row)
    case PlatformSport => Step(VehiclePlatform, Some(0x10), false, Diagnostics, row)
    case Diagnostics =>
      if target == Menus || target == Ecm then Step(DiagnosticsMenu, None, false, Complete, row)
      else if target == SecurityLink1367 || target == DtcLink1367
          then Step(DiagnosticsMenu, Some(0x03), false, SecurityAll, row)
      else Step(DiagnosticsMenu, Some(0x18), false, Engine, row)
    case SecurityAll =>
      if target == DtcLink1367 then Step(AllDtcMenu, Some(0x18), false, AwaitDtc, row)
      else Step(SecurityMenu, Some(0x16), false, AwaitSecurity, row)
    case Engine =>
      if target == EngineData1367 then Step(EngineDataMenu, Some(0x10), false, AwaitDtc, row)
      else Step(EngineMenu, Some(0x10), false, Checking, row)
    case Checking =>
      if target == EcmLink || target == EcmLink1367 then Step(CheckingKey, None, false, AwaitLink, row)
      else Step(CheckingKey, None, true, Recovered, row)
    case Recovered => Step(RecoveredMenu, None, true, BackToPlatform, row)
    case BackToPlatform => Step(BackAtPlatform, None, false, Complete, row)
  }

  // ---------- one observation ----------

  function Since(h: State, insns: nat): nat { if h.stableSince.Some? then h.stableSince.value else insns }

  function Captured(capture: Capture): Outcome { Emitted(Event(capture, None, false, false)) }

  predicate ManualCapture(h: State) { h.target == NativeManual && h.stage == AwaitDtc }

  // Screens are captured once each, after they have been stable.
  function ObserveDtc(h: State, s: Screen, insns: nat): (State, Outcome) {
    var c := if h.dtcCandidate != s.text then h.(dtcCandidate := s.text, stableSince := Some(insns)) else h;
    if c.dtcCaptured != s.text && Monus(insns, Since(c, insns)) >= SETTLE then
      (c.(dtcCaptured := s.text), Captured(NativeDtcScreen))
    else (c, Quiet)
  }

  function Pending(h: State, milestone: Option<Capture>): State {
    if h.pendingMilestone != milestone then h.(pendingMilestone := milestone, stableSince := None) else h
  }

  function ObservePrompt(h: State, prompt: Option<Capture>, insns: nat): (State, Outcome) {
    var p := Pending(h, prompt);
    var q := p.(stableSince := Some(Since(p, insns)));
    if q.lastPrompt != prompt && Monus(insns, Since(p, insns)) >= SETTLE && prompt.Some? then
      (q.(lastPrompt := prompt), Captured(prompt.value))
    else (q, Quiet)
  }

  function ObserveMilestone(h: State, milestone: Option<Capture>, insns: nat): (State, Outcome) {
    var p := Pending(h, milestone);
    if milestone.Some? && milestone.value != p.lastVerified then
      var q := p.(stableSince := Some(Since(p, insns)));
      if Monus(insns, Since(p, insns)) >= SETTLE then
        (q.(lastVerified := milestone.value, stableSince := None), Captured(milestone.value))
      else (q, Quiet)
    else (p.(stableSince := None), Quiet)
  }

  function SecurityMilestone(h: State, s: Screen): Option<Capture> {
    if s.vinsOk && s.seedsOk then Some(SeedSweepOk)
    else if s.vinsOk && h.lastVerified != SeedSweepOk then Some(VinSweepOk)
    else None
  }

  function LinkMilestone(h: State, s: Screen): Option<Capture> {
    if s.keyOk && s.selectionOk then Some(VehicleSelectionOk)
    else if s.keyOk && h.lastVerified != VehicleSelectionOk then Some(KeyPositionOk)
    else None
  }

  function ObserveScript(h: State, s: Screen, insns: nat): (State, Outcome)
    requires Scripted(h.stage)
  {
    if !Matches(h, s) then (h.(stableSince := None), Quiet)
    else
      var q := h.(stableSince := Some(Since(h, insns)));
      if Monus(insns, Since(h, insns)) < Settle(h.stage) then (q, Quiet)
      else if h.stage == YearScroll && h.yearRow >= LastRow(h.target)
          && s.selectedYear != Some(ExpectedYear(h.target)) then
        (q, WrongYear)
      else
        var step := Script(h.target, h.stage, h.yearRow);
        (h.(lastVerified := step.capture, stage := step.next, entered := insns, stableSince := None,
            yearRow := step.row),
         Emitted(Event(step.capture, step.key, step.exit, step.next == Complete)))
  }

  function Observe(h: State, s: Screen, insns: nat): (State, Outcome) {
    if h.stage == Complete then (h, Quiet)
    else if !ManualCapture(h) && Monus(insns, h.entered) >= Deadline(h.stage) then (h, DeadlineExceeded)
    else if h.stage == AwaitDtc then ObserveDtc(h, s, insns)
    else if h.stage == AwaitSecurity then
      if s.prompt.Some? then ObservePrompt(h, s.prompt, insns)
      else ObserveMilestone(h, SecurityMilestone(h, s), insns)
    else if h.stage == AwaitLink then ObserveMilestone(h, LinkMilestone(h, s), insns)
    else ObserveScript(h, s, insns)
  }

  function AfterOperator(h: State, insns: nat, welcomeSeen: bool): State {
    if h.target == NativeManual && welcomeSeen && (h.stage == Splash || h.stage == Main) then
      h.(stage := AwaitDtc, entered := insns, stableSince := None)
    else h
  }

  // ---------- the harness object ----------

  class Harness {
    const target: Target
    var stage: Stage
    var entered: nat
    var stableSince: Option<nat>
    var pendingMilestone: Option<Capture>
    var lastPrompt: Option<Capture>
    var lastVerified: Capture
    var yearRow: nat
    var dtcCandidate: string
    var dtcCaptured: string

    constructor (target: Target, insns: nat)
      ensures View() == Initial(target, insns)
    {
      this.target := target;
      stage, entered, stableSince := Splash, insns, None;
      pendingMilestone, lastPrompt, lastVerified := None, None, Nothing;
      yearRow, dtcCandidate, dtcCaptured := 1, "", "";
    }

    function View(): State
      reads this
    {
      State(stage, target, entered, stableSince, pendingMilestone, lastPrompt, lastVerified, yearRow, dtcCandidate,
          dtcCaptured)
    }

    method OperatorInput(insns: nat, welcomeSeen: bool)
      modifies this
      ensures View() == AfterOperator(old(View()), insns, welcomeSeen)
    {
      if target == NativeManual && welcomeSeen && (stage == Splash || stage == Main) {
        stage := AwaitDtc;
        entered := insns;
        stableSince := None;
      }
    }

    method ObserveVerified(s: Screen, insns: nat) returns (outcome: Outcome)
      modifies this
      ensures (View(), outcome) == Observe(old(View()), s, insns)
    {
      if stage == Complete {
        return Quiet;
      }
      var manualCapture := target == NativeManual && stage == AwaitDtc;
      if !manualCapture && Monus(insns, entered) >= Deadline(stage) {
        return DeadlineExceeded;
      }
      if stage == AwaitDtc {
        outcome := CaptureScreen(s.text, insns);
      } else if stage == AwaitSecurity {
        if s.prompt.Some? {
          outcome := CapturePrompt(s.prompt, insns);
        } else {
          outcome := CaptureMilestone(SecurityMilestone(View(), s), insns);
        }
      } else if stage == AwaitLink {
        outcome := CaptureMilestone(LinkMilestone(View(), s), insns);
      } else {
        outcome := FollowScript(s, insns);
      }
    }

    method CaptureScreen(text: string, insns: nat) returns (outcome: Outcome)
      modifies this
      ensures forall s: Screen :: s.text == text ==> (View(), outcome) == ObserveDtc(old(View()), s, insns)
    {
      if dtcCandidate != text {
        dtcCandidate := text;
        stableSince := Some(insns);
      }
      if dtcCaptured != text && Monus(insns, if stableSince.Some? then stableSince.value else insns) >= SETTLE {
        dtcCaptured := text;
        return Emitted(Event(NativeDtcScreen, None, false, false));
      }
      return Quiet;
    }

    method CapturePrompt(prompt: Option<Capture>, insns: nat) returns (outcome: Outcome)
      requires prompt.Some?
      modifies this
      ensures (View(), outcome) == ObservePrompt(old(View()), prompt, insns)
    {
      if pendingMilestone != prompt {
        pendingMilestone := prompt;
        stableSince := None;
      }
      if stableSince.None? {
        stableSince := Some(insns);
      }
      if lastPrompt != prompt && Monus(insns, stableSince.value) >= SETTLE {
        lastPrompt := prompt;
        return Emitted(Event(prompt.value, None, false, false));
      }
      return Quiet;
    }

    method CaptureMilestone(milestone: Option<Capture>, insns: nat) returns (outcome: Outcome)
      modifies this
      ensures (View(), outcome) == ObserveMilestone(old(View()), milestone, insns)
    {
      if pendingMilestone != milestone {
        pendingMilestone := milestone;
        stableSince := None;
      }
      if milestone.Some? && milestone.value != lastVerified {
        if stableSince.None? {
          stableSince := Some(insns);
        }
        if Monus(insns, stableSince.value) >= SETTLE {
          lastVerified := milestone.value;
          stableSince := None;
          return Emitted(Event(milestone.value, None, false, false));
        }
        return Quiet;
      }
      stableSince := None;
      return Quiet;
    }

    method FollowScript(s: Screen, insns: nat) returns (outcome: Outcome)
      requires Scripted(stage)
      modifies this
      ensures (View(), outcome) == ObserveScript(old(View()), s, insns)
    {
      hide Matches, Script;
      if !Matches(View(), s) {
        stableSince := None;
        return Quiet;
      }
      if stableSince.None? {
        stableSince := Some(insns);
      }
      if Monus(insns, stableSince.value) < Settle(stage) {
        return Quiet;
      }
      if stage == YearScroll && yearRow >= LastRow(target) && s.selectedYear != Some(ExpectedYear(target)) {
        return WrongYear;
      }
      var step := Script(target, stage, yearRow);
      lastVerified := step.capture;
      stage := step.next;
      yearRow := step.row;
      entered := insns;
      stableSince := None;
      return Emitted(Event(step.capture, step.key, step.exit, step.next == Complete));
    }
  }

  // ---------- stages only move forward ----------

  function Rank(stage: Stage): nat {
    match stage
    case Splash => 0 case Main => 1 case Year => 2 case YearScroll => 3 case Platform => 4
    case PlatformSport => 5 case Diagnostics => 6 case Engine => 7 case SecurityAll => 8
    case AwaitSecurity => 9 case AwaitDtc => 10 case Checking => 11 case AwaitLink => 12
    case Recovered => 13 case BackToPlatform => 14 case Complete => 15
  }

  // Progress: stage rank first, then the model-year row.
  predicate Ahead(h: State, g: State) {
    Rank(h.stage) < Rank(g.stage) || (h.stage == g.stage == YearScroll && h.yearRow < g.yearRow <= LastRow(g.target))
  }

  predicate SameStage(h: State, g: State) {
    h.stage == g.stage && h.yearRow == g.yearRow && h.entered == g.entered && h.target == g.target
  }

  // A settled scripted match within the deadline, as the script has it.
  predicate Transition(h: State, s: Screen, insns: nat, g: State, o: Outcome) {
    && Scripted(h.stage) && Matches(h, s) && o.Emitted? && g.entered == insns
    && Monus(insns, Since(h, insns)) >= Settle(h.stage)
    && Monus(insns, h.entered) < Deadline(h.stage)
    && g.stage == Script(h.target, h.stage, h.yearRow).next
    && g.yearRow == Script(h.target, h.stage, h.yearRow).row
  }

  // Every observation stays in its stage or moves strictly ahead, and only a
  // settled scripted match moves it.
  lemma ObservationMovesForward(h: State, s: Screen, insns: nat)
    ensures var (g, o) := Observe(h, s, insns);
      && g.target == h.target
      && (SameStage(h, g) || Ahead(h, g))
      && (!SameStage(h, g) ==> Transition(h, s, insns, g, o))
  {
    hide Matches, Script, Rank, Scripted;
    AlwaysMoves(h);
    if Scripted(h.stage) { ScriptIsAhead(h.target, h.stage, h.yearRow); }
  }

  lemma AlwaysMoves(h: State)
    ensures Scripted(h.stage) <==> h.stage !in {Complete, AwaitLink, AwaitSecurity, AwaitDtc}
  {}

  lemma ScriptIsAhead(target: Target, stage: Stage, row: nat)
    requires Scripted(stage)
    ensures var step := Script(target, stage, row);
      Rank(stage) < Rank(step.next) || (stage == step.next == YearScroll && row < step.row <= LastRow(target))
  {}

  lemma OperatorMovesForward(h: State, insns: nat, welcomeSeen: bool)
    ensures var g := AfterOperator(h, insns, welcomeSeen);
      SameStage(h, g) || Ahead(h, g)
  {}

  // ---------- runs ----------

  // An observation, or a key press of the operator.
  datatype Input = Look(screen: Screen, insns: nat) | Operator(insns: nat, welcomeSeen: bool)

  function Taken(h: State, input: Input): (State, Outcome) {
    match input
    case Look(screen, insns) => Observe(h, screen, insns)
    case Operator(insns, welcomeSeen) => (AfterOperator(h, insns, welcomeSeen), Quiet)
  }

  // The state before the k-th input of a run.
  function StateAt(h: State, run: seq<Input>, k: nat): State
    requires k <= |run|
  {
    if k == 0 then h else Taken(StateAt(h, run, k - 1), run[k - 1]).0
  }

  function OutcomeAt(h: State, run: seq<Input>, k: nat): Outcome
    requires k < |run|
  {
    Taken(StateAt(h, run, k), run[k]).1
  }

  // The caller stops a run at its first error.
  predicate Accepted(h: State, run: seq<Input>, k: nat)
    requires k <= |run|
  {
    forall i | 0 <= i < k :: OutcomeAt(h, run, i) != DeadlineExceeded && OutcomeAt(h, run, i) != WrongYear
  }

  // ---------- bounded runs ----------

  // The deadlines still ahead on the scripted path of a target.
  function Budget(target: Target, stage: Stage, row: nat): nat
    decreases 15 - Rank(stage), 10 - row
  {
    if stage == Complete then 0
    else if !Scripted(stage) then Deadline(stage)
    else
      var step := Script(target, stage, row);
      Deadline(stage)
      + (if step.next == stage && step.row > 9 then 0 else Budget(target, step.next, step.row))
  }

  predicate Reachable(h: State) {
    && h.yearRow <= 9
    && (h.stage == YearScroll ==> ScrollsYears(h.target) && h.yearRow <= LastRow(h.target))
  }

  lemma StepSpendsBudget(h: State, s: Screen, insns: nat, start: nat)
    requires Reachable(h)
    requires h.entered + Budget(h.target, h.stage, h.yearRow) <= start + Budget(h.target, Splash, 1)
    ensures var (g, o) := Observe(h, s, insns);
      && Reachable(g) && g.target == h.target
      && g.entered + Budget(g.target, g.stage, g.yearRow) <= start + Budget(g.target, Splash, 1)
  {
    ObservationMovesForward(h, s, insns);
    hide Matches, Observe, Budget, Script, Scripted, Rank;
    if Scripted(h.stage) {
      BudgetStep(h.target, h.stage, h.yearRow);
      RowsStayInRange(h.target, h.stage, h.yearRow);
    }
  }

  // A transition uses up the deadline of the stage it leaves.
  lemma BudgetStep(target: Target, stage: Stage, row: nat)
    requires Scripted(stage) && (stage == YearScroll ==> row <= LastRow(target))
    ensures var step := Script(target, stage, row);
      Budget(target, stage, row) == Deadline(stage) + Budget(target, step.next, step.row)
  {
    hide Deadline;
  }

  lemma RowsStayInRange(target: Target, stage: Stage, row: nat)
    requires Scripted(stage) && row <= 9
    requires stage == YearScroll ==> ScrollsYears(target) && row <= LastRow(target)
    ensures var step := Script(target, stage, row);
      step.row <= 9 && (step.next == YearScroll ==> ScrollsYears(target) && step.row <= LastRow(target))
  {}

  // Operator input only ever moves a manual run.
  lemma OperatorIgnored(h: State, insns: nat, welcomeSeen: bool)
    requires h.target != NativeManual
    ensures AfterOperator(h, insns, welcomeSeen) == h
  {}

  lemma {:induction false} RunSpendsBudget(target: Target, start: nat, run: seq<Input>, k: nat)
    requires k <= |run| && (target == NativeManual ==> forall i | 0 <= i < k :: run[i].Look?)
    ensures var h := StateAt(Initial(target, start), run, k);
      && Reachable(h) && h.target == target
      && h.entered + Budget(target, h.stage, h.yearRow) <= start + Budget(target, Splash, 1)
  {
    hide Observe, Budget, Reachable;
    if k == 0 {
      InitiallyReachable(target, start);
    } else {
      RunSpendsBudget(target, start, run, k - 1);
      var h := StateAt(Initial(target, start), run, k - 1);
      match run[k - 1]
      case Look(screen, insns) => StepSpendsBudget(h, screen, insns, start);
      case Operator(insns, welcomeSeen) => OperatorIgnored(h, insns, welcomeSeen);
    }
  }

  lemma InitiallyReachable(target: Target, start: nat)
    ensures Reachable(Initial(target, start))
  {}

  // The instructions of a scripted run, at most.
  function Bound(target: Target): nat {
    match target
    case Menus => 120_000_000
    case Recovery => 182_000_000
    case Ecm => 210_000_000
    case EcmLink1367 => 230_000_000
    case EcmLink => 270_000_000
    case _ => 930_000_000
  }

  // A scripted target accepts no observation at or beyond its bound, the sum of its
  // stage deadlines, unless it is complete.
  lemma ScriptedRunIsBounded(target: Target, start: nat, run: seq<Input>, k: nat)
    requires target != NativeManual && k < |run| && run[k].Look?
    requires StateAt(Initial(target, start), run, k).stage != Complete
    requires OutcomeAt(Initial(target, start), run, k) != DeadlineExceeded
    ensures run[k].insns < start + Bound(target)
  {
    RunSpendsBudget(target, start, run, k);
    var h := StateAt(Initial(target, start), run, k);
    BudgetCoversDeadline(target, h.stage, h.yearRow);
    BudgetIsBound(target);
    hide Budget, Bound, StateAt, Matches;
  }

  lemma BudgetCoversDeadline(target: Target, stage: Stage, row: nat)
    requires stage != Complete
    ensures Budget(target, stage, row) >= Deadline(stage)
  {}

  lemma BudgetEnds(target: Target, stage: Stage, row: nat)
    requires !Scripted(stage)
    ensures Budget(target, stage, row) == if stage == Complete then 0 else Deadline(stage)
  {}

  lemma RecoveryBudget()
    ensures Budget(Recovery, Checking, 1) == 52_000_000
  {
    hide Budget;
    BudgetStep(Recovery, Checking, 1);
    BudgetStep(Recovery, Recovered, 1);
    BudgetStep(Recovery, BackToPlatform, 1);
    BudgetEnds(Recovery, Complete, 1);
  }

  lemma LinkBudget(target: Target, row: nat)
    requires target == EcmLink || target == EcmLink1367
    ensures Budget(target, Checking, row) == 50_000_000
  {
    hide Budget;
    BudgetStep(target, Checking, row);
    BudgetEnds(target, AwaitLink, row);
  }

  // From the diagnostics menu on.
  lemma DiagnosticsBudget(target: Target, row: nat)
    requires target == Recovery ==> row == 1
    ensures target == Menus || target == Ecm ==> Budget(target, Diagnostics, row) == 10_000_000
    ensures target == Recovery ==> Budget(target, Diagnostics, row) == 72_000_000
    ensures target == EcmLink || target == EcmLink1367 ==> Budget(target, Diagnostics, row) == 70_000_000
    ensures target == SecurityLink1367 || target == DtcLink1367 || target == EngineData1367 ==>
      Budget(target, Diagnostics, row) == 770_000_000
  {
    hide Budget;
    BudgetStep(target, Diagnostics, row);
    match target {
      case Menus => BudgetEnds(target, Complete, row);
      case Ecm => BudgetEnds(target, Complete, row);
      case Recovery =>
        BudgetStep(target, Engine, row);
        RecoveryBudget();
      case EcmLink =>
        BudgetStep(target, Engine, row);
        LinkBudget(target, row);
      case EcmLink1367 =>
        BudgetStep(target, Engine, row);
        LinkBudget(target, row);
      case SecurityLink1367 =>
        BudgetStep(target, SecurityAll, row);
        BudgetEnds(target, AwaitSecurity, row);
      case DtcLink1367 =>
        BudgetStep(target, SecurityAll, row);
        BudgetEnds(target, AwaitDtc, row);
      case EngineData1367 =>
        BudgetStep(target, Engine, row);
        BudgetEnds(target, AwaitDtc, row);
      case NativeManual =>
    }
  }

  // Each row scrolled past takes one deadline.
  lemma {:induction false} YearsBudget(target: Target, row: nat)
    requires ScrollsYears(target) && 2 <= row <= LastRow(target)
    ensures Budget(target, YearScroll, row)
         == 10_000_000 * (LastRow(target) - row) + 30_000_000 + Budget(target, Diagnostics, LastRow(target))
    decreases LastRow(target) - row
  {
    hide Budget;
    BudgetStep(target, YearScroll, row);
    if row < LastRow(target) {
      YearsBudget(target, row + 1);
    } else {
      BudgetStep(target, Platform, row);
      BudgetStep(target, PlatformSport, row);
    }
  }

  lemma BudgetIsBound(target: Target)
    requires target != NativeManual
    ensures Budget(target, Splash, 1) == Bound(target)
  {
    hide Budget;
    BudgetStep(target, Splash, 1);
    BudgetStep(target, Main, 1);
    BudgetStep(target, Year, 1);
    if ScrollsYears(target) {
      YearsBudget(target, 2);
      DiagnosticsBudget(target, LastRow(target));
    } else {
      BudgetStep(target, Platform, 1);
      DiagnosticsBudget(target, 1);
    }
  }

  // When an observation comes too late for its stage: never for a complete run, nor
  // for one whose operator has taken over.
  lemma DeadlinesInLiterals(h: State, s: Screen, insns: nat)
    ensures Observe(h, s, insns).1 == DeadlineExceeded <==>
      && h.stage != Complete && !(h.target == NativeManual && h.stage == AwaitDtc)
      && insns - h.entered >=
           if h.stage in {AwaitSecurity, AwaitDtc} then 750_000_000
           else if h.stage == Splash then 80_000_000
           else if h.stage in {Recovered, AwaitLink} then 40_000_000
           else if h.stage == BackToPlatform then 2_000_000
           else 10_000_000
  {
    hide Matches, Script;
  }

  // ---------- transitions need an unbroken match ----------

  // An observed screen matches; operator input shows none.
  predicate Fits(h: State, input: Input) { input.Look? ==> Matches(h, input.screen) }

  // From input j up to k the harness sat in one stage and every screen matched.
  ghost predicate Unbroken(h: State, run: seq<Input>, j: nat, k: nat)
    requires k <= |run|
  {
    forall i | j <= i < k ::
      SameStage(StateAt(h, run, i), StateAt(h, run, k)) && Fits(StateAt(h, run, i), run[i])
  }

  predicate BeganAt(run: seq<Input>, j: nat, insns: nat)
    requires j < |run|
  {
    run[j].Look? && run[j].insns == insns
  }

  // The stable instant is when an unbroken match began.
  ghost predicate StableIsMatch(h: State, run: seq<Input>, k: nat)
    requires k <= |run|
  {
    var g := StateAt(h, run, k);
    Scripted(g.stage) && g.stableSince.Some? ==>
      exists j :: 0 <= j < k && BeganAt(run, j, g.stableSince.value) && Unbroken(h, run, j, k)
  }

  lemma QuietScriptStep(h: State, s: Screen, insns: nat)
    requires Scripted(h.stage)
    requires var (g, o) := Observe(h, s, insns); Scripted(g.stage) && g.stableSince.Some? && o != DeadlineExceeded
    ensures var g := Observe(h, s, insns).0;
      SameStage(h, g) && Matches(h, s) && g.stableSince.value == Since(h, insns)
  {
    hide Matches, Script;
  }

  lemma UnscriptedStays(h: State, s: Screen, insns: nat)
    requires !Scripted(h.stage)
    ensures !Scripted(Observe(h, s, insns).0.stage)
  {}

  // Operator input leaves a scripted stage as it is, its stable instant too, or
  // leaves the script.
  lemma OperatorAside(h: State, insns: nat, welcomeSeen: bool)
    ensures var g := AfterOperator(h, insns, welcomeSeen); g == h || !Scripted(g.stage)
  {}

  lemma {:induction false} StableMeansMatch(target: Target, start: nat, run: seq<Input>, k: nat)
    requires k <= |run| && Accepted(Initial(target, start), run, k)
    ensures StableIsMatch(Initial(target, start), run, k)
  {
    hide Observe, AfterOperator, Matches, SameStage, Scripted, Unbroken;
    if k > 0 {
      var h0 := Initial(target, start);
      StableMeansMatch(target, start, run, k - 1);
      var h, g := StateAt(h0, run, k - 1), StateAt(h0, run, k);
      assert OutcomeAt(h0, run, k - 1) != DeadlineExceeded;
      if Scripted(g.stage) && g.stableSince.Some? {
        match run[k - 1]
        case Operator(insns, welcomeSeen) =>
          OperatorAside(h, insns, welcomeSeen);
          var j :| 0 <= j < k - 1 && BeganAt(run, j, h.stableSince.value) && Unbroken(h0, run, j, k - 1);
          SameStageAsItself(g);
          UnbrokenExtends(h0, run, j, k);
        case Look(screen, insns) =>
          MatchedLook(h0, run, k);
      }
    }
  }

  lemma SameStageAsItself(h: State)
    ensures SameStage(h, h)
  {}

  lemma MatchedLook(h0: State, run: seq<Input>, k: nat)
    requires 0 < k <= |run| && run[k - 1].Look? && StableIsMatch(h0, run, k - 1)
    requires OutcomeAt(h0, run, k - 1) != DeadlineExceeded
    requires Scripted(StateAt(h0, run, k).stage) && StateAt(h0, run, k).stableSince.Some?
    ensures StableIsMatch(h0, run, k)
  {
    hide Observe, AfterOperator, Matches, SameStage, Scripted, Unbroken;
    var h, g, obs := StateAt(h0, run, k - 1), StateAt(h0, run, k), run[k - 1];
    if !Scripted(h.stage) { UnscriptedStays(h, obs.screen, obs.insns); }
    QuietScriptStep(h, obs.screen, obs.insns);
    var j: nat;
    if h.stableSince.Some? {
      j :| 0 <= j < k - 1 && BeganAt(run, j, h.stableSince.value) && Unbroken(h0, run, j, k - 1);
    } else {
      j := k - 1;
      UnbrokenStarts(h0, run, j);
    }
    UnbrokenExtends(h0, run, j, k);
  }

  lemma UnbrokenStarts(h: State, run: seq<Input>, j: nat)
    requires j <= |run|
    ensures Unbroken(h, run, j, j)
  {}

  lemma UnbrokenExtends(h: State, run: seq<Input>, j: nat, k: nat)
    requires 0 < k <= |run| && j <= k - 1
    requires Unbroken(h, run, j, k - 1)
    requires SameStage(StateAt(h, run, k - 1), StateAt(h, run, k))
    requires Fits(StateAt(h, run, k - 1), run[k - 1])
    ensures Unbroken(h, run, j, k)
  {
    hide StateAt, Matches;
  }

  // Every scripted transition follows an unbroken run of matching screens in
  // its stage lasting 200,000 instructions, or 500,000 for the checking screen.
  lemma TransitionNeedsUnbrokenMatch(target: Target, start: nat, run: seq<Input>, k: nat) returns (j: nat)
    requires k < |run| && run[k].Look? && Accepted(Initial(target, start), run, k)
    requires !SameStage(StateAt(Initial(target, start), run, k), StateAt(Initial(target, start), run, k + 1))
    ensures j < k && run[j].Look?
    ensures run[k].insns - run[j].insns >=
      if StateAt(Initial(target, start), run, k).stage == Checking then 500_000 else 200_000
    ensures Unbroken(Initial(target, start), run, j, k)
    ensures Matches(StateAt(Initial(target, start), run, k), run[k].screen)
  {
    var h0 := Initial(target, start);
    var h := StateAt(h0, run, k);
    StableMeansMatch(target, start, run, k);
    ObservationMovesForward(h, run[k].screen, run[k].insns);
    hide Observe, Matches, SameStage, Script;
    j :| 0 <= j < k && BeganAt(run, j, h.stableSince.value) && Unbroken(h0, run, j, k);
  }

  // No transition has happened from input j up to input i.
  ghost predicate Waiting(h: State, run: seq<Input>, j: nat, i: nat)
    requires i <= |run|
  {
    forall m | j <= m < i :: SameStage(StateAt(h, run, m), StateAt(h, run, m + 1))
  }

  // Every screen from j to k is the one the stage at j waits for.
  ghost predicate Shown(h: State, run: seq<Input>, j: nat, k: nat)
    requires j <= k < |run|
  {
    forall i | j <= i <= k :: Fits(StateAt(h, run, j), run[i])
  }

  lemma WaitingStep(h: State, s: Screen, insns: nat, from: nat)
    requires Scripted(h.stage) && Matches(h, s)
    requires h.stableSince.Some? ==> h.stableSince.value <= from
    requires h.stableSince.None? ==> insns <= from
    requires var (g, o) := Observe(h, s, insns); o != DeadlineExceeded && SameStage(h, g)
    ensures var g := Observe(h, s, insns).0;
      g.stableSince.Some? && g.stableSince.value <= from
  {
    if Scripted(h.stage) { ScriptIsAheadOf(h); }
    hide Matches, Script;
  }

  lemma WaitingInput(h: State, input: Input, from: nat)
    requires Scripted(h.stage) && Fits(h, input)
    requires if h.stableSince.Some? then h.stableSince.value <= from else input.Look? && input.insns <= from
    requires var (g, o) := Taken(h, input); o != DeadlineExceeded && SameStage(h, g)
    ensures var g := Taken(h, input).0;
      g.target == h.target && g.stableSince.Some? && g.stableSince.value <= from
  {
    hide Observe, Matches;
    match input
    case Look(screen, insns) =>
      WaitingStep(h, screen, insns, from);
      ObserveKeepsTarget(h, screen, insns);
    case Operator(insns, welcomeSeen) =>
      OperatorAside(h, insns, welcomeSeen);
      hide AfterOperator;
  }

  lemma ScriptIsAheadOf(h: State)
    requires Scripted(h.stage)
    ensures var step := Script(h.target, h.stage, h.yearRow);
      step.next != h.stage || step.row != h.yearRow
  {}

  lemma FitsByStage(h: State, g: State, input: Input)
    requires SameStage(h, g)
    ensures Fits(h, input) == Fits(g, input)
  {}

  lemma ObserveKeepsTarget(h: State, s: Screen, insns: nat)
    ensures Observe(h, s, insns).0.target == h.target
  {}

  lemma SameStageJoins(f: State, g: State, h: State)
    requires SameStage(f, g) && SameStage(g, h)
    ensures SameStage(f, h) && Scripted(f.stage) == Scripted(h.stage)
  {}

  lemma {:induction false} StillStable(h: State, run: seq<Input>, j: nat, i: nat)
    requires j < i <= |run| && run[j].Look? && Shown(h, run, j, i - 1) && Waiting(h, run, j, i) && Accepted(h, run, i)
    requires Scripted(StateAt(h, run, j).stage)
    requires StateAt(h, run, j).stableSince.Some? ==> StateAt(h, run, j).stableSince.value <= run[j].insns
    ensures SameStage(StateAt(h, run, j), StateAt(h, run, i))
    ensures StateAt(h, run, i).stableSince.Some? && StateAt(h, run, i).stableSince.value <= run[j].insns
  {
    hide Taken, Fits, SameStage, Scripted;
    var f, g, input := StateAt(h, run, j), StateAt(h, run, i - 1), run[i - 1];
    assert SameStage(StateAt(h, run, i - 1), StateAt(h, run, i - 1 + 1));
    if i > j + 1 {
      StillStable(h, run, j, i - 1);
      SameStageJoins(f, g, StateAt(h, run, i));
      FitsByStage(f, g, input);
      SameStageScripted(f, g);
    }
    assert OutcomeAt(h, run, i - 1) != DeadlineExceeded;
    WaitingInput(g, input, run[j].insns);
  }

  lemma SameStageScripted(f: State, g: State)
    requires SameStage(f, g)
    ensures Scripted(f.stage) == Scripted(g.stage) && Settle(f.stage) == Settle(g.stage)
  {}

  lemma SettledStep(h: State, s: Screen, insns: nat)
    requires Scripted(h.stage) && Matches(h, s)
    requires h.stableSince.Some? && insns >= h.stableSince.value + Settle(h.stage)
    requires var o := Observe(h, s, insns).1; o != DeadlineExceeded && o != WrongYear
    ensures !SameStage(h, Observe(h, s, insns).0)
  {
    ScriptIsAheadOf(h);
    hide Matches, Script;
  }

  // The converse: an unbroken match that lasts long enough does advance the
  // script, so an accepted run never sits on a settled screen.
  lemma SettledMatchAdvances(h: State, run: seq<Input>, j: nat, k: nat)
    requires j < k < |run| && run[j].Look? && run[k].Look?
    requires Shown(h, run, j, k) && Accepted(h, run, k + 1)
    requires Scripted(StateAt(h, run, j).stage)
    requires StateAt(h, run, j).stableSince.Some? ==> StateAt(h, run, j).stableSince.value <= run[j].insns
    requires run[k].insns - run[j].insns >= if StateAt(h, run, j).stage == Checking then 500_000 else 200_000
    ensures !Waiting(h, run, j, k + 1)
  {
    hide Observe, Matches, SameStage, Scripted;
    if Waiting(h, run, j, k + 1) {
      StillStable(h, run, j, k);
      var f, g := StateAt(h, run, j), StateAt(h, run, k);
      FitsByStage(f, g, run[k]);
      SameStageScripted(f, g);
      assert OutcomeAt(h, run, k) != DeadlineExceeded && OutcomeAt(h, run, k) != WrongYear;
      assert SameStage(StateAt(h, run, k), StateAt(h, run, k + 1));
      SettledStep(g, run[k].screen, run[k].insns);
    }
  }

  // ---------- what a run shows and presses ----------

  // A scripted stage and what leaving it emits.
  datatype Shot = Shot(stage: Stage, row: nat, event: Event)

  function Press(stage: Stage, row: nat, capture: Capture, key: Byte): Shot {
    Shot(stage, row, Event(capture, Some(key), false, false))
  }

  function Opening(): seq<Shot> { [Press(Splash, 1, SplashShot, 0x0E), Press(Main, 1, MainMenu, 0x18)] }

  function FirstYear(): seq<Shot> { [Press(Year, 1, ModelYear, 0x10), Press(Platform, 1, VehiclePlatform, 0x10)] }

  function ScrollTo2008(): seq<Shot> {
    [Press(Year, 1, ModelYear, 0x0C), Press(YearScroll, 2, YearScrolling, 0x0C),
     Press(YearScroll, 3, YearScrolling, 0x0C), Press(YearScroll, 4, YearScrolling, 0x0C),
     Press(YearScroll, 5, Year2008, 0x10),
     Press(Platform, 5, VehiclePlatform, 0x0C), Press(PlatformSport, 5, VehiclePlatform, 0x10)]
  }

  function ScrollTo2004(): seq<Shot> {
    [Press(Year, 1, ModelYear, 0x0C), Press(YearScroll, 2, YearScrolling, 0x0C),
     Press(YearScroll, 3, YearScrolling, 0x0C), Press(YearScroll, 4, YearScrolling, 0x0C),
     Press(YearScroll, 5, YearScrolling, 0x0C), Press(YearScroll, 6, YearScrolling, 0x0C),
     Press(YearScroll, 7, YearScrolling, 0x0C), Press(YearScroll, 8, YearScrolling, 0x0C),
     Press(YearScroll, 9, Year2004, 0x10),
     Press(Platform, 9, VehiclePlatform, 0x0C), Press(PlatformSport, 9, VehiclePlatform, 0x10)]
  }

  function CheckKey(row: nat): seq<Shot> {
    [Press(Diagnostics, row, DiagnosticsMenu, 0x18), Press(Engine, row, EngineMenu, 0x10),
     Shot(Checking, row, Event(CheckingKey, None, false, false))]
  }

  // From the diagnostics menu on.
  function Closing(target: Target): seq<Shot> {
    match target
    case Menus => [Shot(Diagnostics, 1, Event(DiagnosticsMenu, None, false, true))]
    case Ecm => [Shot(Diagnostics, 9, Event(DiagnosticsMenu, None, false, true))]
    case Recovery =>
      [Press(Diagnostics, 1, DiagnosticsMenu, 0x18), Press(Engine, 1, EngineMenu, 0x10),
       Shot(Checking, 1, Event(CheckingKey, None, true, false)),
       Shot(Recovered, 1, Event(RecoveredMenu, None, true, false)),
       Shot(BackToPlatform, 1, Event(BackAtPlatform, None, false, true))]
    case EcmLink => CheckKey(9)
    case EcmLink1367 => CheckKey(5)
    case SecurityLink1367 =>
      [Press(Diagnostics, 5, DiagnosticsMenu, 0x03), Press(SecurityAll, 5, SecurityMenu, 0x16)]
    case DtcLink1367 =>
      [Press(Diagnostics, 5, DiagnosticsMenu, 0x03), Press(SecurityAll, 5, AllDtcMenu, 0x18)]
    case EngineData1367 =>
      [Press(Diagnostics, 5, DiagnosticsMenu, 0x18), Press(Engine, 5, EngineDataMenu, 0x10)]
    case NativeManual => []
  }

  function Selection(target: Target): seq<Shot> {
    match target
    case Menus => FirstYear()
    case Recovery => FirstYear()
    case Ecm => ScrollTo2004()
    case EcmLink => ScrollTo2004()
    case NativeManual => []
    case _ => ScrollTo2008()
  }

  // Every shot of a target, in order, and the stage it then stays in.
  function Story(target: Target): (story: seq<Shot>)
    ensures story != []
  {
    if target == NativeManual then [Press(Splash, 1, SplashShot, 0x0E)]
    else Opening() + Selection(target) + Closing(target)
  }

  function Ending(target: Target): Stage {
    match target
    case Menus => Complete
    case Recovery => Complete
    case Ecm => Complete
    case EcmLink => AwaitLink
    case EcmLink1367 => AwaitLink
    case SecurityLink1367 => AwaitSecurity
    case _ => AwaitDtc
  }

  // The keys of a target's story.
  function Presses(target: Target): seq<Byte> {
    match target
    case Menus => [0x0E, 0x18, 0x10, 0x10]
    case NativeManual => [0x0E]
    case Recovery => [0x0E, 0x18, 0x10, 0x10, 0x18, 0x10]
    case Ecm => [0x0E, 0x18, 0x0C, 0x0C, 0x0C, 0x0C, 0x0C, 0x0C, 0x0C, 0x0C, 0x10, 0x0C, 0x10]
    case EcmLink => [0x0E, 0x18, 0x0C, 0x0C, 0x0C, 0x0C, 0x0C, 0x0C, 0x0C, 0x0C, 0x10, 0x0C, 0x10, 0x18, 0x10]
    case EcmLink1367 => [0x0E, 0x18, 0x0C, 0x0C, 0x0C, 0x0C, 0x10, 0x0C, 0x10, 0x18, 0x10]
    case SecurityLink1367 => [0x0E, 0x18, 0x0C, 0x0C, 0x0C, 0x0C, 0x10, 0x0C, 0x10, 0x03, 0x16]
    case DtcLink1367 => [0x0E, 0x18, 0x0C, 0x0C, 0x0C, 0x0C, 0x10, 0x0C, 0x10, 0x03, 0x18]
    case EngineData1367 => [0x0E, 0x18, 0x0C, 0x0C, 0x0C, 0x0C, 0x10, 0x0C, 0x10, 0x18, 0x10]
  }

  predicate IsScene(stage: Stage) { stage !in {Complete, AwaitLink, AwaitSecurity, AwaitDtc} }

  // The script emits the shot and goes on to the given stage and row.
  predicate Films(target: Target, shot: Shot, stage: Stage, row: nat) {
    && IsScene(shot.stage)
    && var step := Script(target, shot.stage, shot.row);
      && step.next == stage && step.row == row
      && shot.event == Event(step.capture, step.key, step.exit, stage == Complete)
  }

  predicate PlaysAt(target: Target, shots: seq<Shot>, i: nat, stage: Stage, row: nat)
    requires i < |shots|
  {
    if i + 1 < |shots| then Films(target, shots[i], shots[i + 1].stage, shots[i + 1].row)
    else Films(target, shots[i], stage, row)
  }

  // The shots follow one another and lead to the given stage.
  predicate Plays(target: Target, shots: seq<Shot>, stage: Stage, row: nat) {
    forall i: nat | i < |shots| :: PlaysAt(target, shots, i, stage, row)
  }

  lemma PlaysOn(target: Target, a: seq<Shot>, b: seq<Shot>, stage: Stage, row: nat)
    requires b != [] && Plays(target, a, b[0].stage, b[0].row) && Plays(target, b, stage, row)
    ensures Plays(target, a + b, stage, row)
  {
    hide Films;
    forall i: nat | i < |a + b| ensures PlaysAt(target, a + b, i, stage, row) {
      if i < |a| {
        assert PlaysAt(target, a, i, b[0].stage, b[0].row);
      } else {
        assert PlaysAt(target, b, i - |a|, stage, row);
      }
    }
  }

  // The row a target's selection ends in.
  function ChosenRow(target: Target): nat {
    match target
    case Menus => 1
    case Recovery => 1
    case NativeManual => 1
    case Ecm => 9
    case EcmLink => 9
    case _ => 5
  }

  lemma OpeningPlays(target: Target)
    requires target != NativeManual
    ensures Plays(target, Opening(), Year, 1)
  {
    assert Films(target, Press(Splash, 1, SplashShot, 0x0E), Main, 1);
    assert Films(target, Press(Main, 1, MainMenu, 0x18), Year, 1);
    hide Films;
  }

  lemma FirstYearPlays(target: Target)
    requires target == Menus || target == Recovery
    ensures Plays(target, FirstYear(), Diagnostics, 1)
  {
    assert Films(target, Press(Year, 1, ModelYear, 0x10), Platform, 1);
    assert Films(target, Press(Platform, 1, VehiclePlatform, 0x10), Diagnostics, 1);
    hide Films;
  }

  lemma ScrollingFilms(target: Target, row: nat)
    requires ScrollsYears(target) && row < LastRow(target)
    ensures Films(target, Press(YearScroll, row, YearScrolling, 0x0C), YearScroll, row + 1)
  {}

  lemma PlatformFilms(target: Target, row: nat)
    requires ScrollsYears(target)
    ensures Films(target, Press(Year, 1, ModelYear, 0x0C), YearScroll, 2)
    ensures Films(target, Press(Platform, row, VehiclePlatform, 0x0C), PlatformSport, row)
    ensures Films(target, Press(PlatformSport, row, VehiclePlatform, 0x10), Diagnostics, row)
  {}

  lemma Year2008Films(target: Target)
    requires Linked1367(target)
    ensures Films(target, Press(YearScroll, 5, Year2008, 0x10), Platform, 5)
  {}

  lemma Year2004Films(target: Target)
    requires target == Ecm || target == EcmLink
    ensures Films(target, Press(YearScroll, 9, Year2004, 0x10), Platform, 9)
  {}

  lemma ScrollTo2008Plays(target: Target)
    requires Linked1367(target)
    ensures Plays(target, ScrollTo2008(), Diagnostics, 5)
  {
    PlatformFilms(target, 5);
    ScrollingFilms(target, 2);
    ScrollingFilms(target, 3);
    ScrollingFilms(target, 4);
    Year2008Films(target);
    hide Films;
  }

  lemma ScrollTo2004Plays(target: Target)
    requires target == Ecm || target == EcmLink
    ensures Plays(target, ScrollTo2004(), Diagnostics, 9)
  {
    PlatformFilms(target, 9);
    forall row: nat | row < 9 ensures Films(target, Press(YearScroll, row, YearScrolling, 0x0C), YearScroll, row + 1) {
      ScrollingFilms(target, row);
    }
    Year2004Films(target);
    hide Films, ScrollsYears;
  }

  lemma SelectionPlays(target: Target)
    requires target != NativeManual
    ensures Selection(target) != [] && Selection(target)[0].stage == Year && Selection(target)[0].row == 1
    ensures Plays(target, Selection(target), Diagnostics, ChosenRow(target))
  {
    hide Plays;
    match target
    case Menus => FirstYearPlays(target);
    case Recovery => FirstYearPlays(target);
    case Ecm => ScrollTo2004Plays(target);
    case EcmLink => ScrollTo2004Plays(target);
    case _ => ScrollTo2008Plays(target);
  }

  lemma CheckKeyPlays(target: Target, row: nat)
    requires target == EcmLink || target == EcmLink1367
    ensures Plays(target, CheckKey(row), AwaitLink, row)
  {
    assert Films(target, Press(Diagnostics, row, DiagnosticsMenu, 0x18), Engine, row);
    assert Films(target, Press(Engine, row, EngineMenu, 0x10), Checking, row);
    assert Films(target, Shot(Checking, row, Event(CheckingKey, None, false, false)), AwaitLink, row);
    hide Films;
  }

  lemma RecoveryPlays()
    ensures Plays(Recovery, Closing(Recovery), Complete, 1)
  {
    var shots := Closing(Recovery);
    assert Films(Recovery, shots[0], Engine, 1) && Films(Recovery, shots[1], Checking, 1);
    assert Films(Recovery, shots[2], Recovered, 1) && Films(Recovery, shots[3], BackToPlatform, 1);
    assert Films(Recovery, shots[4], Complete, 1);
    hide Films;
  }

  lemma LinkPlays(target: Target)
    requires target == SecurityLink1367 || target == DtcLink1367 || target == EngineData1367
    ensures Plays(target, Closing(target), Ending(target), 5)
  {
    var shots := Closing(target);
    assert Films(target, shots[0], shots[1].stage, 5) && Films(target, shots[1], Ending(target), 5);
    hide Films;
  }

  lemma MenusPlay(target: Target)
    requires target == Menus || target == Ecm
    ensures Plays(target, Closing(target), Complete, ChosenRow(target))
  {
    assert Films(target, Closing(target)[0], Complete, ChosenRow(target));
    hide Films;
  }

  lemma ClosingPlays(target: Target)
    requires target != NativeManual
    ensures Closing(target) != [] && Closing(target)[0].stage == Diagnostics
    ensures Closing(target)[0].row == ChosenRow(target)
    ensures Plays(target, Closing(target), Ending(target), ChosenRow(target))
  {
    hide Plays;
    match target
    case Menus => MenusPlay(target);
    case Ecm => MenusPlay(target);
    case Recovery => RecoveryPlays();
    case EcmLink => CheckKeyPlays(target, 9);
    case EcmLink1367 => CheckKeyPlays(target, 5);
    case _ => LinkPlays(target);
  }

  lemma StoryPlays(target: Target)
    ensures Plays(target, Story(target), Ending(target), ChosenRow(target))
    ensures Story(target)[0].stage == Splash && Story(target)[0].row == 1
  {
    if target != NativeManual {
      OpeningPlays(target);
      SelectionPlays(target);
      ClosingPlays(target);
      hide Plays, Selection, Closing;
      PlaysOn(target, Selection(target), Closing(target), Ending(target), ChosenRow(target));
      PlaysOn(target, Opening(), Selection(target) + Closing(target), Ending(target), ChosenRow(target));
      assert Opening() + (Selection(target) + Closing(target)) == Story(target);
    }
  }

  function Shots(o: Outcome): seq<Event> { if o.Emitted? then [o.event] else [] }

  // What a run has emitted before its k-th input.
  function Events(h: State, run: seq<Input>, k: nat): seq<Event>
    requires k <= |run|
  {
    if k == 0 then [] else Events(h, run, k - 1) + Shots(OutcomeAt(h, run, k - 1))
  }

  // A capture and nothing else.
  predicate OnlyCaptures(event: Event) { event.key == None && !event.exit && !event.complete }

  // The story so far, or all of it and then only captures.
  predicate OnStory(h: State, events: seq<Event>) {
    var story := Story(h.target);
    && (forall i | 0 <= i < |events| && i < |story| :: events[i] == story[i].event)
    && (forall i | |story| <= i < |events| :: OnlyCaptures(events[i]))
    && (if |events| < |story| then h.stage == story[|events|].stage && h.yearRow == story[|events|].row
        else h.stage == Ending(h.target))
  }

  lemma EndingStays(h: State, s: Screen, insns: nat)
    requires h.stage == Ending(h.target)
    ensures var (g, o) := Observe(h, s, insns);
      g.stage == h.stage && g.target == h.target && (o.Emitted? ==> OnlyCaptures(o.event))
  {}

  // A scripted stage either stays, in silence, or is left as filmed.
  lemma SceneStep(h: State, s: Screen, insns: nat, shot: Shot, stage: Stage, row: nat)
    requires h.stage == shot.stage && h.yearRow == shot.row && Films(h.target, shot, stage, row)
    ensures var (g, o) := Observe(h, s, insns);
      && g.target == h.target
      && (if o.Emitted? then o.event == shot.event && g.stage == stage && g.yearRow == row
          else g.stage == h.stage && g.yearRow == h.yearRow)
  {
    hide Matches, Script;
  }

  lemma StoryStep(h: State, s: Screen, insns: nat, events: seq<Event>)
    requires OnStory(h, events)
    ensures var (g, o) := Observe(h, s, insns); g.target == h.target && OnStory(g, events + Shots(o))
  {
    hide Observe, Story, Ending, OnlyCaptures;
    var story, p := Story(h.target), |events|;
    if p < |story| {
      StoryPlays(h.target);
      assert PlaysAt(h.target, story, p, Ending(h.target), ChosenRow(h.target));
      hide Films;
      if p + 1 < |story| {
        SceneStep(h, s, insns, story[p], story[p + 1].stage, story[p + 1].row);
      } else {
        SceneStep(h, s, insns, story[p], Ending(h.target), ChosenRow(h.target));
      }
    } else {
      EndingStays(h, s, insns);
    }
  }

  lemma StoryStarts(target: Target, start: nat)
    ensures Initial(target, start).target == target && OnStory(Initial(target, start), [])
  {
    StoryPlays(target);
    hide Story, Plays;
  }

  // Whatever screens and operator inputs come, a scripted run emits exactly its
  // target's story, as far as it has got, and then only captures screens.
  lemma {:induction false} RunFollowsStory(target: Target, start: nat, run: seq<Input>, k: nat)
    requires k <= |run| && (target == NativeManual ==> forall i | 0 <= i < k :: run[i].Look?)
    ensures StateAt(Initial(target, start), run, k).target == target
    ensures OnStory(StateAt(Initial(target, start), run, k), Events(Initial(target, start), run, k))
  {
    hide Observe, OnStory, AfterOperator;
    var h0 := Initial(target, start);
    if k == 0 {
      StoryStarts(target, start);
    } else {
      RunFollowsStory(target, start, run, k - 1);
      var h := StateAt(h0, run, k - 1);
      match run[k - 1]
      case Look(screen, insns) => StoryStep(h, screen, insns, Events(h0, run, k - 1));
      case Operator(insns, welcomeSeen) =>
        OperatorIgnored(h, insns, welcomeSeen);
        assert Events(h0, run, k) == Events(h0, run, k - 1);
    }
  }

  predicate HasKeys(shots: seq<Shot>, keys: seq<Byte>) {
    && |keys| <= |shots|
    && (forall i | 0 <= i < |keys| :: shots[i].event.key == Some(keys[i]))
    && (forall i | |keys| <= i < |shots| :: shots[i].event.key == None)
  }

  lemma KeysJoin(a: seq<Shot>, b: seq<Shot>, k: seq<Byte>, l: seq<Byte>)
    requires HasKeys(a, k) && HasKeys(b, l) && |a| == |k|
    ensures HasKeys(a + b, k + l)
  {}

  function SelectionKeys(target: Target): seq<Byte> {
    match target
    case Menus => [0x10, 0x10]
    case Recovery => [0x10, 0x10]
    case NativeManual => []
    case Ecm => [0x0C, 0x0C, 0x0C, 0x0C, 0x0C, 0x0C, 0x0C, 0x0C, 0x10, 0x0C, 0x10]
    case EcmLink => [0x0C, 0x0C, 0x0C, 0x0C, 0x0C, 0x0C, 0x0C, 0x0C, 0x10, 0x0C, 0x10]
    case _ => [0x0C, 0x0C, 0x0C, 0x0C, 0x10, 0x0C, 0x10]
  }

  function ClosingKeys(target: Target): seq<Byte> {
    match target
    case Recovery => [0x18, 0x10]
    case EcmLink => [0x18, 0x10]
    case EcmLink1367 => [0x18, 0x10]
    case SecurityLink1367 => [0x03, 0x16]
    case DtcLink1367 => [0x03, 0x18]
    case EngineData1367 => [0x18, 0x10]
    case _ => []
  }

  lemma SelectionHasKeys(target: Target)
    ensures HasKeys(Selection(target), SelectionKeys(target)) && |Selection(target)| == |SelectionKeys(target)|
  {}

  lemma ClosingHasKeys(target: Target)
    ensures HasKeys(Closing(target), ClosingKeys(target))
  {}

  lemma KeysInParts(target: Target)
    requires target != NativeManual
    ensures Presses(target) == [0x0E, 0x18] + SelectionKeys(target) + ClosingKeys(target)
  {}

  lemma KeysOfStory(target: Target)
    ensures HasKeys(Story(target), Presses(target))
  {
    if target != NativeManual {
      KeysInParts(target);
      SelectionHasKeys(target);
      ClosingHasKeys(target);
      assert HasKeys(Opening(), [0x0E, 0x18]);
      hide HasKeys, Selection, Closing, SelectionKeys, ClosingKeys, Presses;
      KeysJoin(Opening(), Selection(target), [0x0E, 0x18], SelectionKeys(target));
      KeysJoin(Opening() + Selection(target), Closing(target), [0x0E, 0x18] + SelectionKeys(target),
        ClosingKeys(target));
    }
  }

  predicate AreKeys(events: seq<Event>, keys: seq<Byte>) {
    forall i | 0 <= i < |events| :: events[i].key == if i < |keys| then Some(keys[i]) else None
  }

  lemma KeysOnStory(h: State, events: seq<Event>)
    requires OnStory(h, events)
    ensures AreKeys(events, Presses(h.target))
    ensures !IsScene(h.stage) ==> |events| >= |Presses(h.target)| && h.stage == Ending(h.target)
  {
    KeysOfStory(h.target);
    StoryPlays(h.target);
    if |events| < |Story(h.target)| {
      assert PlaysAt(h.target, Story(h.target), |events|, Ending(h.target), ChosenRow(h.target));
    }
    hide Story, Presses, Script, Plays;
  }

  // The keys of a scripted run are its target's list, in order, each once; the run
  // waits or completes only when all are pressed, and only as its target does.
  lemma RunPressesItsKeys(target: Target, start: nat, run: seq<Input>, k: nat)
    requires target != NativeManual && k <= |run|
    ensures AreKeys(Events(Initial(target, start), run, k), Presses(target))
    ensures var stage := StateAt(Initial(target, start), run, k).stage;
      && (stage in {Complete, AwaitLink, AwaitSecurity, AwaitDtc} ==>
            |Events(Initial(target, start), run, k)| >= |Presses(target)| && stage == Ending(target))
      && (target == DtcLink1367 ==> stage != AwaitSecurity)
      && (target == SecurityLink1367 ==> stage != AwaitDtc)
  {
    RunFollowsStory(target, start, run, k);
    KeysOnStory(StateAt(Initial(target, start), run, k), Events(Initial(target, start), run, k));
    hide Events, StateAt, Presses, OnStory, AreKeys;
  }

  // ---------- what is on the screen ----------

  // The screen a shot is taken of.
  predicate Pictured(shot: Shot, s: Screen) {
    match shot.event.capture
    case SplashShot => s.welcome
    case MainMenu => s.mainMenu
    case ModelYear => s.modelYear && 1 in s.rows
    case YearScrolling => s.modelYear && shot.row in s.rows
    case Year2008 => s.modelYear && 5 in s.rows
    case Year2004 => s.modelYear && 9 in s.rows
    case VehiclePlatform =>
      if shot.stage == PlatformSport then s.sportPlatform
      else if shot.event.key == Some(0x0C) then s.twoPlatforms
      else s.onlyPlatform
    case DiagnosticsMenu => s.diagnostics
    case RecoveredMenu => s.diagnostics
    case EngineMenu => s.engineMenu
    case EngineDataMenu => s.engineMenu
    case SecurityMenu => s.securityMenu
    case AllDtcMenu => s.securityMenu
    case CheckingKey => s.checking
    case BackAtPlatform => s.onlyPlatform
    case _ => false
  }

  // The year a shot confirms is selected.
  predicate YearSelected(shot: Shot, s: Screen) {
    && (shot.event.capture == Year2008 ==> s.selectedYear == Some(2008))
    && (shot.event.capture == Year2004 ==> s.selectedYear == Some(2004))
  }

  // A capture of the stages that wait: what the screen has verified.
  predicate Verified(stage: Stage, capture: Capture, s: Screen) {
    if stage == AwaitDtc then capture == NativeDtcScreen
    else if stage == AwaitSecurity && s.prompt.Some? then s.prompt == Some(capture)
    else
      match capture
      case VinSweepOk => stage == AwaitSecurity && s.vinsOk && !s.seedsOk
      case SeedSweepOk => stage == AwaitSecurity && s.vinsOk && s.seedsOk
      case KeyPositionOk => stage == AwaitLink && s.keyOk && !s.selectionOk
      case VehicleSelectionOk => stage == AwaitLink && s.keyOk && s.selectionOk
      case _ => false
  }

  // A scene waits for exactly the screen its shot is taken of.
  lemma MatchesIffPictured(h: State, s: Screen, shot: Shot, stage: Stage, row: nat)
    requires Reachable(h) && h.stage == shot.stage && h.yearRow == shot.row && Films(h.target, shot, stage, row)
    requires h.target != NativeManual
    ensures Matches(h, s) == Pictured(shot, s)
  {}

  lemma SceneShows(h: State, s: Screen, insns: nat, shot: Shot, stage: Stage, row: nat)
    requires Reachable(h) && h.stage == shot.stage && h.yearRow == shot.row && Films(h.target, shot, stage, row)
    requires h.target != NativeManual
    ensures var o := Observe(h, s, insns).1;
      && (o.Emitted? ==> Pictured(shot, s) && YearSelected(shot, s))
      && (o == WrongYear ==> Pictured(shot, s) && !YearSelected(shot, s))
  {
    MatchesIffPictured(h, s, shot, stage, row);
    hide Matches, Pictured;
  }

  lemma EndingShows(h: State, s: Screen, insns: nat)
    requires !IsScene(h.stage)
    ensures var o := Observe(h, s, insns).1;
      o != WrongYear && (o.Emitted? ==> Verified(h.stage, o.event.capture, s))
  {}

  // Over whole runs: every capture is of the screen its name says, and the year is
  // wrong exactly when the scrolled-to row shows another one.
  lemma RunShowsItsScreens(target: Target, start: nat, run: seq<Input>, k: nat)
    requires target != NativeManual && k < |run| && run[k].Look?
    ensures var (h, o) := (StateAt(Initial(target, start), run, k), OutcomeAt(Initial(target, start), run, k));
      var p := |Events(Initial(target, start), run, k)|;
      if p < |Story(target)| then
        && (o.Emitted? ==> Pictured(Story(target)[p], run[k].screen) && YearSelected(Story(target)[p], run[k].screen))
        && (o == WrongYear ==>
              Pictured(Story(target)[p], run[k].screen) && !YearSelected(Story(target)[p], run[k].screen))
      else o != WrongYear && (o.Emitted? ==> Verified(h.stage, o.event.capture, run[k].screen))
  {
    var h, events := StateAt(Initial(target, start), run, k), Events(Initial(target, start), run, k);
    RunFollowsStory(target, start, run, k);
    RunSpendsBudget(target, start, run, k);
    hide StateAt, Events, Pictured, YearSelected, Verified, Observe, Reachable, Story;
    StoryOrEnding(h, events);
    if |events| < |Story(target)| {
      var stage, row :| Films(target, Story(target)[|events|], stage, row);
      SceneShows(h, run[k].screen, run[k].insns, Story(target)[|events|], stage, row);
    } else {
      EndingShows(h, run[k].screen, run[k].insns);
    }
  }

  lemma StoryOrEnding(h: State, events: seq<Event>)
    requires OnStory(h, events)
    ensures if |events| < |Story(h.target)| then
        && h.stage == Story(h.target)[|events|].stage && h.yearRow == Story(h.target)[|events|].row
        && exists stage, row :: Films(h.target, Story(h.target)[|events|], stage, row)
      else !IsScene(h.stage)
  {
    StoryPlays(h.target);
    if |events| < |Story(h.target)| {
      assert PlaysAt(h.target, Story(h.target), |events|, Ending(h.target), ChosenRow(h.target));
    }
    hide Story, Films;
  }

  // ---------- a manual run presses one key at most ----------

  function Keys(h: State, inputs: seq<Input>): seq<Byte>
    decreases |inputs|
  {
    if inputs == [] then []
    else match inputs[0]
      case Look(screen, insns) =>
        var (g, o) := Observe(h, screen, insns);
        (if o.Emitted? && o.event.key.Some? then [o.event.key.value] else []) + Keys(g, inputs[1..])
      case Operator(insns, welcomeSeen) => Keys(AfterOperator(h, insns, welcomeSeen), inputs[1..])
  }

  lemma ManualStep(h: State, s: Screen, insns: nat)
    requires h.target == NativeManual && (h.stage == Splash || h.stage == AwaitDtc)
    ensures var (g, o) := Observe(h, s, insns);
      && g.target == NativeManual && (g.stage == h.stage || (h.stage == Splash && g.stage == AwaitDtc))
      && (o.Emitted? && o.event.key.Some? ==>
            h.stage == Splash && g.stage == AwaitDtc && o.event.key == Some(0x0E) && s.welcome)
  {}

  // That key is ENTER, at the welcome screen.
  lemma {:induction false} ManualRunPressesOnce(h: State, inputs: seq<Input>)
    requires h.target == NativeManual && (h.stage == Splash || h.stage == AwaitDtc)
    ensures Keys(h, inputs) == [] || (Keys(h, inputs) == [0x0E] && h.stage == Splash)
    decreases |inputs|
  {
    hide Observe;
    if inputs != [] {
      match inputs[0]
      case Look(screen, insns) =>
        ManualStep(h, screen, insns);
        ManualRunPressesOnce(Observe(h, screen, insns).0, inputs[1..]);
      case Operator(insns, welcomeSeen) =>
        ManualRunPressesOnce(AfterOperator(h, insns, welcomeSeen), inputs[1..]);
    }
  }
}
