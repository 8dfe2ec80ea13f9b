/** The two flags between filewatch's tick and its scan thread, as interleaved atomic steps. */
module ScanHandshake {
  import opened Wrappers

  /** What one scan finds; an empty path means nothing was found. Also the three result buffers. */
  datatype Outcome = Outcome(path: string, detail: string, capped: bool)

  /** The snapshot a scan works from. */
  datatype Request = Request(pattern: string, depth: nat)

  /** Where the worker stands in `scan_proc`. */
  datatype WorkerPc = ClearPath | ClearDetail | FindPath | ReadDetail | CopyCapped | Publish | Release

  /** A scan thread, with history: the snapshot that was set when it was created, and what it has seen so far. */
  datatype Worker = Worker(pc: WorkerPc, request: Request, saw: Outcome)

  const UNSEEN := Outcome("", "", false)

  /** Where the UI thread stands in `filewatch_tick`, `scan_adopt` and `scan_start`. */
  datatype UiPc =
    | Idle
    | AdoptFlag | AdoptPath | AdoptDetail | AdoptCapped
    | Count
    | Claim | CopyPattern | CopyDepth | Spawn

  datatype Config = Config(enabled: bool, interval: int, counter: int, path: string, maxDepth: nat)

  datatype Display = Display(triggered: bool, found: string, detail: string, tooMany: bool)

  /**
    * The first four fields belong to the UI thread, the next five are shared. The last three are history:
    * the scan published last, the scan on display, and whether the scan under way was begun while a result was waiting.
    */
  datatype State = State(
    config: Config, ui: UiPc, display: Display, workers: seq<Worker>,
    busy: bool, ready: bool, request: Request, buffers: Outcome,
    published: Option<Outcome>, shown: Option<Outcome>, over: bool)

  /** One atomic step of either thread. */
  datatype Step =
    | Tick
    | Toggle
    | Refresh
    | Reload(enabled: bool, interval: int, path: string, maxDepth: nat)
    | Ui(threadFails: bool)
    | Work(i: nat, seen: Outcome)

  ghost predicate Init(s: State) {
    && s.ui == Idle && !s.busy && !s.ready && s.workers == []
    && s.published.None? && s.shown.None? && !s.over
  }

  /** Menu commands and ticks begin when the UI thread is idle. */
  function Begin(s: State, step: Step): Option<State> {
    if s.ui != Idle then None
    else
      match step
      case Tick =>
        if s.ready && s.config.enabled then Some(s.(ready := false, ui := AdoptFlag, shown := s.published))
        else Some(s.(ready := false, ui := Count))
      case Toggle =>
        if s.config.enabled then
          Some(s.(config := s.config.(enabled := false),
              display := s.display.(triggered := false, found := "", detail := ""),
                  shown := None))
        else Some(s.(config := s.config.(enabled := true, counter := 0), ui := Claim))
      case Refresh => Some(s.(config := s.config.(counter := 0), ui := Claim))
      case Reload(enabled, interval, path, maxDepth) =>
        Some(s.(config := Config(enabled, if interval < 1 then 1 else interval, 0, path, maxDepth), ui := Claim))
      case _ => None
  }

  /** The UI thread goes on with what it began. */
  function Continue(s: State, threadFails: bool): Option<State> {
    match s.ui
    case Idle => None
    case AdoptFlag =>
      Some(s.(display := s.display.(triggered := s.buffers.path != ""),
              ui := if s.buffers.path != "" then AdoptPath else AdoptCapped))
    case AdoptPath => Some(s.(display := s.display.(found := s.buffers.path), ui := AdoptDetail))
    case AdoptDetail => Some(s.(display := s.display.(detail := s.buffers.detail), ui := Count))
    case AdoptCapped => Some(s.(display := s.display.(found := "", detail := "", tooMany := s.buffers.capped),
        ui := Count))
    case Count =>
      if !s.config.enabled then Some(s.(ui := Idle))
      else if s.config.counter + 1 < s.config.interval
          then Some(s.(config := s.config.(counter := s.config.counter + 1), ui := Idle))
      else Some(s.(config := s.config.(counter := 0), ui := Claim))
    case Claim =>
      if s.busy then Some(s.(ui := Idle)) else Some(s.(busy := true, over := s.ready, ui := CopyPattern))
    case CopyPattern => Some(s.(request := s.request.(pattern := s.config.path), ui := CopyDepth))
    case CopyDepth => Some(s.(request := s.request.(depth := s.config.maxDepth), ui := Spawn))
    case Spawn =>
      if threadFails then Some(s.(busy := false, over := false, ui := Idle))
      else Some(s.(workers := s.workers + [Worker(ClearPath, s.request, UNSEEN)], ui := Idle))
  }

  function Moved(workers: seq<Worker>, i: nat, pc: WorkerPc, saw: Outcome): seq<Worker>
    requires i < |workers|
  {
    workers[i := workers[i].(pc := pc, saw := saw)]
  }

  /** A scan thread's step; `seen` is what the file system holds for it. */
  function Proceed(s: State, i: nat, seen: Outcome): Option<State> {
    if i >= |s.workers| then None
    else
      var saw := s.workers[i].saw;
      match s.workers[i].pc
      case ClearPath => Some(s.(workers := Moved(s.workers, i, ClearDetail, saw), buffers := s.buffers.(path := "")))
      case ClearDetail => Some(s.(workers := Moved(s.workers, i, FindPath, saw), buffers := s.buffers.(detail := "")))
      case FindPath =>
        var next := if seen.path == "" then CopyCapped else ReadDetail;
        Some(s.(workers := Moved(s.workers, i, next, saw.(path := seen.path)),
                buffers := s.buffers.(path := seen.path)))
      case ReadDetail =>
        Some(s.(workers := Moved(s.workers, i, CopyCapped, saw.(detail := seen.detail)),
            buffers := s.buffers.(detail := seen.detail)))
      case CopyCapped =>
        Some(s.(workers := Moved(s.workers, i, Publish, saw.(capped := seen.capped)),
            buffers := s.buffers.(capped := seen.capped)))
      case Publish =>
        Some(s.(workers := Moved(s.workers, i, Release, saw), ready := true, over := false,
            published := Some(s.buffers)))
      case Release => Some(s.(workers := s.workers[..i] + s.workers[i + 1..], busy := false))
  }

  function Next(s: State, step: Step): Option<State> {
    match step
    case Ui(threadFails) => Continue(s, threadFails)
    case Work(i, seen) => Proceed(s, i, seen)
    case _ => Begin(s, step)
  }

  /** The state after a run, if every step of it could be taken. */
  function Run(s: State, steps: seq<Step>): Option<State>
    decreases |steps|
  {
    if steps == [] then Some(s)
    else
      match Next(s, steps[0])
      case None => None
      case Some(t) => Run(t, steps[1..])
  }

  // ---- at most one worker, and its pattern stands still

  predicate Starting(s: State) { s.ui.CopyPattern? || s.ui.CopyDepth? || s.ui.Spawn? }

  predicate Adopting(s: State) { s.ui.AdoptFlag? || s.ui.AdoptPath? || s.ui.AdoptDetail? || s.ui.AdoptCapped? }

  /** Some worker is still filling the result buffers. */
  predicate Writing(workers: seq<Worker>) { exists i :: 0 <= i < |workers| && workers[i].pc != Release }

  predicate OneAtMost(s: State) {
    && |s.workers| <= 1
    && (s.busy <==> s.workers != [] || Starting(s))
    && (s.workers != [] ==> !Starting(s) && s.workers[0].request == s.request)
  }

  predicate ResultKept(s: State) {
    // the published result lies in the buffers for as long as nobody overwrites it
    && (s.published.Some? && !Writing(s.workers) ==> s.published == Some(s.buffers))
    && (s.ready || Adopting(s) ==> s.published.Some?)
    && (s.over ==> Starting(s) || Writing(s.workers))
    && ((s.ready || Adopting(s)) && Writing(s.workers) ==> s.over)
    && (Starting(s) && s.ready ==> s.over)
  }

  predicate Inv(s: State) { OneAtMost(s) && ResultKept(s) }

  lemma BeginKeeps(s: State, step: Step)
    requires Inv(s) && Begin(s, step).Some?
    ensures Inv(Begin(s, step).value)
  {
    hide Writing;
  }

  lemma ContinueKeeps(s: State, fails: bool)
    requires Inv(s) && Continue(s, fails).Some?
    ensures Inv(Continue(s, fails).value)
  {
    if s.ui == Spawn {
      SpawnKeeps(s, fails);
    } else {
      hide Writing;
    }
  }

  lemma SpawnKeeps(s: State, fails: bool)
    requires Inv(s) && s.ui == Spawn
    ensures Inv(Continue(s, fails).value)
  {
    NoWorker();
    OnlyWorker([Worker(ClearPath, s.request, UNSEEN)]);
    hide Writing;
    assert s.workers == [];
    assert [] + [Worker(ClearPath, s.request, UNSEEN)] == [Worker(ClearPath, s.request, UNSEEN)];
  }

  lemma NoWorker()
    ensures !Writing([])
  {}

  lemma OnlyWorker(workers: seq<Worker>)
    requires |workers| == 1
    ensures Writing(workers) <==> workers[0].pc != Release
  {}

  lemma ProceedKeeps(s: State, i: nat, seen: Outcome)
    requires Inv(s) && Proceed(s, i, seen).Some?
    ensures Inv(Proceed(s, i, seen).value)
  {
    var t := Proceed(s, i, seen).value;
    OnlyWorker(s.workers);
    NoWorker();
    if s.workers[0].pc == Release {
      assert s.workers[..0] + s.workers[1..] == [];
    } else {
      OnlyWorker(t.workers);
    }
    hide Writing;
  }

  lemma InvStep(s: State, step: Step)
    requires Inv(s) && Next(s, step).Some?
    ensures Inv(Next(s, step).value)
  {
    hide Inv, Begin, Continue, Proceed;
    match step
    case Ui(fails) => ContinueKeeps(s, fails);
    case Work(i, seen) => ProceedKeeps(s, i, seen);
    case _ => BeginKeeps(s, step);
  }

  lemma {:induction false} InvRun(s: State, steps: seq<Step>)
    requires Inv(s) && Run(s, steps).Some?
    ensures Inv(Run(s, steps).value)
    decreases |steps|
  {
    hide Inv, Next;
    if steps != [] {
      InvStep(s, steps[0]);
      InvRun(Next(s, steps[0]).value, steps[1..]);
    }
  }

  lemma InitInv(s: State)
    requires Init(s)
    ensures Inv(s) && Agrees(s) && !s.over
  {}

  /** In every run at most one scan thread exists, and what it reads is what it was created with. */
  lemma OneWorker(s: State, steps: seq<Step>)
    requires Init(s) && Run(s, steps).Some?
    ensures var t := Run(s, steps).value;
            |t.workers| <= 1 && (t.workers != [] ==> t.workers[0].request == t.request)
  {
    hide Run, Init, ResultKept;
    InitInv(s);
    InvRun(s, steps);
  }

  /** No step, reloading included, changes the snapshot under a worker that stays alive. */
  lemma SnapshotStands(s: State, step: Step)
    requires Inv(s) && Next(s, step).Some? && s.workers != []
    ensures var t := Next(s, step).value;
            t.workers != [] ==> t.request == s.request && t.workers[0].request == s.workers[0].request
  {
    hide ResultKept, Begin, Continue, Proceed;
    match step
    case Ui(fails) => UiStands(s, fails);
    case Work(i, seen) => WorkStands(s, i, seen);
    case _ => BeginStands(s, step);
  }

  lemma BeginStands(s: State, step: Step)
    requires Begin(s, step).Some?
    ensures var t := Begin(s, step).value; t.request == s.request && t.workers == s.workers
  {}

  lemma UiStands(s: State, fails: bool)
    requires OneAtMost(s) && s.workers != [] && Continue(s, fails).Some?
    ensures var t := Continue(s, fails).value; t.request == s.request && t.workers == s.workers
  {}

  lemma WorkStands(s: State, i: nat, seen: Outcome)
    requires OneAtMost(s) && Proceed(s, i, seen).Some?
    ensures var t := Proceed(s, i, seen).value;
            t.request == s.request && (t.workers != [] ==> t.workers[0].request == s.workers[0].request)
  {
    hide OneAtMost;
    assert |s.workers| == 1 && i == 0 by { AtMostOne(s); }
    if s.workers[0].pc == Release {
      assert s.workers[..0] + s.workers[1..] == [];
    }
  }

  lemma AtMostOne(s: State)
    requires OneAtMost(s)
    ensures |s.workers| <= 1
  {}

  // ---- what a scan publishes

  /** The buffers hold what the scan under way has seen so far, and nothing of the scan before it. */
  predicate Faithful(s: State) {
    s.workers != [] ==>
      var w := s.workers[0];
      match w.pc
      case ClearPath => w.saw == UNSEEN
      case ClearDetail => w.saw == UNSEEN && s.buffers.path == ""
      case FindPath => w.saw == UNSEEN && s.buffers.path == s.buffers.detail == ""
      case ReadDetail => w.saw.detail == "" && s.buffers.path == w.saw.path && s.buffers.detail == ""
      case CopyCapped => s.buffers.path == w.saw.path && s.buffers.detail == w.saw.detail
      case Publish => s.buffers == w.saw
      case Release => s.buffers == w.saw && s.published == Some(w.saw)
  }

  lemma FaithfulStep(s: State, step: Step)
    requires OneAtMost(s) && Faithful(s) && Next(s, step).Some?
    ensures Faithful(Next(s, step).value)
  {
    hide OneAtMost, Begin, Continue, Proceed, Faithful;
    match step
    case Ui(fails) => FaithfulUi(s, fails);
    case Work(i, seen) => FaithfulWork(s, i, seen);
    case _ => FaithfulBegin(s, step);
  }

  lemma FaithfulBegin(s: State, step: Step)
    requires Faithful(s) && Begin(s, step).Some?
    ensures Faithful(Begin(s, step).value)
  {}

  lemma FaithfulUi(s: State, fails: bool)
    requires OneAtMost(s) && Faithful(s) && Continue(s, fails).Some?
    ensures Faithful(Continue(s, fails).value)
  {
    if s.workers != [] {
      hide Faithful;
      UiStands(s, fails);
      SameBuffers(s, fails);
      FaithfulSame(s, Continue(s, fails).value);
    }
  }

  lemma SameBuffers(s: State, fails: bool)
    requires Continue(s, fails).Some?
    ensures var t := Continue(s, fails).value; t.buffers == s.buffers && t.published == s.published
  {}

  lemma FaithfulSame(s: State, t: State)
    requires Faithful(s) && t.workers == s.workers && t.buffers == s.buffers && t.published == s.published
    ensures Faithful(t)
  {}

  lemma FaithfulWork(s: State, i: nat, seen: Outcome)
    requires OneAtMost(s) && Faithful(s) && Proceed(s, i, seen).Some?
    ensures Faithful(Proceed(s, i, seen).value)
  {
    AtMostOne(s);
    hide OneAtMost;
    if s.workers[0].pc == Release {
      assert s.workers[..0] + s.workers[1..] == [];
    }
  }

  lemma {:induction false} FaithfulRun(s: State, steps: seq<Step>)
    requires Inv(s) && Faithful(s) && Run(s, steps).Some?
    ensures Faithful(Run(s, steps).value)
    decreases |steps|
  {
    hide Faithful, Next, OneAtMost, ResultKept;
    if steps != [] {
      InvStep(s, steps[0]);
      FaithfulStep(s, steps[0]);
      FaithfulRun(Next(s, steps[0]).value, steps[1..]);
    }
  }

  /**
    * In every run, torn adoptions included, a scan publishes exactly what it saw: path, detail and truncation of one
    * scan.
    */
  lemma PublishesWhatItSaw(s: State, steps: seq<Step>, i: nat, seen: Outcome)
    requires Init(s) && Run(s, steps).Some?
    requires var t := Run(s, steps).value; i < |t.workers| && t.workers[i].pc == Publish
    ensures var t := Run(s, steps).value;
            Next(t, Work(i, seen)).Some? && Next(t, Work(i, seen)).value.published == Some(t.workers[i].saw)
  {
    hide Run;
    InitInv(s);
    InvRun(s, steps);
    FaithfulRun(s, steps);
    AtMostOne(Run(s, steps).value);
  }

  // ---- what an adoption reads

  /**
    * While the UI thread reads a result, a worker is overwriting it exactly when that worker's scan began on top of the
    * waiting result.
    */
  lemma TornIff(s: State, steps: seq<Step>)
    requires Init(s) && Run(s, steps).Some?
    ensures var t := Run(s, steps).value;
            Adopting(t) ==> (Writing(t.workers) <==> t.over)
  {
    hide Run, Init, Writing;
    InitInv(s);
    InvRun(s, steps);
  }

  /** The scan claimed by this step began while a result was waiting. */
  predicate StartsOver(s: State, step: Step) { step.Ui? && s.ui == Claim && !s.busy && s.ready }

  /** A run in which no scan begins while a result is waiting. */
  predicate Orderly(s: State, steps: seq<Step>)
    decreases |steps|
  {
    steps == []
    || (!StartsOver(s, steps[0]) && (Next(s, steps[0]).Some? ==> Orderly(Next(s, steps[0]).value, steps[1..])))
  }

  /** The display, as far as it has been taken over, is that of the scan being adopted. */
  predicate Agrees(s: State) {
    && (Adopting(s) ==> s.shown == s.published)
    && (s.shown.Some? ==>
          var o := s.shown.value;
          match s.ui
          case AdoptFlag => true
          case AdoptPath => s.display.triggered && o.path != ""
          case AdoptDetail => s.display.triggered && o.path != "" && s.display.found == o.path
          case AdoptCapped => !s.display.triggered && o.path == ""
          case _ => Displays(s.display, o))
  }

  /** The display of one scan's outcome. */
  predicate Displays(d: Display, o: Outcome) {
    if o.path != "" then d.triggered && d.found == o.path && d.detail == o.detail
    else !d.triggered && d.found == "" && d.detail == "" && d.tooMany == o.capped
  }

  lemma OrderlyStep(s: State, step: Step)
    requires Inv(s) && Agrees(s) && !s.over && !StartsOver(s, step) && Next(s, step).Some?
    ensures var t := Next(s, step).value; Agrees(t) && !t.over
  {
    hide Inv, Agrees, Begin, Continue, Proceed;
    match step
    case Ui(fails) => UiOrderly(s, fails);
    case Work(i, seen) => WorkOrderly(s, i, seen);
    case _ => BeginOrderly(s, step);
  }

  lemma BeginOrderly(s: State, step: Step)
    requires Inv(s) && Agrees(s) && !s.over && Begin(s, step).Some?
    ensures var t := Begin(s, step).value; Agrees(t) && !t.over
  {
    hide Writing, OneAtMost;
  }

  lemma UiOrderly(s: State, fails: bool)
    requires Inv(s) && Agrees(s) && !s.over && !StartsOver(s, Ui(fails)) && Continue(s, fails).Some?
    ensures var t := Continue(s, fails).value; Agrees(t) && !t.over
  {
    hide Writing, OneAtMost;
  }

  lemma WorkOrderly(s: State, i: nat, seen: Outcome)
    requires Inv(s) && Agrees(s) && !s.over && Proceed(s, i, seen).Some?
    ensures var t := Proceed(s, i, seen).value; Agrees(t) && !t.over
  {
    AtMostOne(s);
    OnlyWorker(s.workers);
    hide Writing, OneAtMost;
  }

  /** In an orderly run every adoption shows one finished scan, whole: the one that was last to finish. */
  lemma {:induction false} AdoptsWhole(s: State, steps: seq<Step>)
    requires Inv(s) && Agrees(s) && !s.over
    requires Orderly(s, steps) && Run(s, steps).Some?
    ensures var t := Run(s, steps).value;
            Agrees(t) && (Adopting(t) ==> !Writing(t.workers) && t.published == Some(t.buffers))
    decreases |steps|
  {
    hide Agrees, Next, StartsOver, Writing;
    if steps != [] {
      InvStep(s, steps[0]);
      OrderlyStep(s, steps[0]);
      AdoptsWhole(Next(s, steps[0]).value, steps[1..]);
    }
  }

  // ---- the side condition is needed

  lemma {:induction false} Extend(s: State, steps: seq<Step>, step: Step)
    requires Run(s, steps).Some?
    ensures Run(s, steps + [step]) == Next(Run(s, steps).value, step)
    decreases |steps|
  {
    hide Next;
    if steps == [] {
      assert Run(s, [step]) == match Next(s, step) case None => None case Some(t) => Run(t, []);
      assert steps + [step] == [step];
    } else {
      assert (steps + [step])[1..] == steps[1..] + [step];
      Extend(Next(s, steps[0]).value, steps[1..], step);
    }
  }

  /** No menu command. */
  predicate OnlyTicks(steps: seq<Step>) {
    forall i :: 0 <= i < |steps| ==> steps[i].Tick? || steps[i].Ui? || steps[i].Work?
  }

  /** `t` is where a run of ticks and worker steps from `s` leads. */
  predicate Leads(s: State, steps: seq<Step>, t: State) { Run(s, steps) == Some(t) && OnlyTicks(steps) }

  /** One step more. */
  lemma Then(s: State, steps: seq<Step>, t: State, step: Step) returns (steps': seq<Step>, t': State)
    requires Leads(s, steps, t) && Next(t, step).Some?
    requires step.Tick? || step.Ui? || step.Work?
    ensures t' == Next(t, step).value && Leads(s, steps', t')
  {
    hide Next;
    Extend(s, steps, step);
    return steps + [step], Next(t, step).value;
  }

  /** The second half of a tick that starts a scan. */
  lemma Kick(s: State, steps: seq<Step>, t: State) returns (steps': seq<Step>, t': State)
    requires Leads(s, steps, t)
    requires t.ui == Count && t.config == Config(true, 1, 0, "p", 4) && !t.busy && t.workers == []
    ensures Leads(s, steps', t')
    ensures t' == t.(busy := true, over := t.ready, request := Request("p", 4), ui := Idle,
                     workers := [Worker(ClearPath, Request("p", 4), UNSEEN)])
  {
    hide Leads;
    steps', t' := Then(s, steps, t, Ui(false));
    steps', t' := Then(s, steps', t', Ui(false));
    steps', t' := Then(s, steps', t', Ui(false));
    steps', t' := Then(s, steps', t', Ui(false));
    steps', t' := Then(s, steps', t', Ui(false));
  }

  /** A worker fills the buffers and is about to publish. */
  lemma Fill(s: State, steps: seq<Step>, t: State, seen: Outcome) returns (steps': seq<Step>, t': State)
    requires Leads(s, steps, t) && seen.path != "" && t.workers == [Worker(ClearPath, Request("p", 4), UNSEEN)]
    ensures Leads(s, steps', t')
    ensures t' == t.(workers := [Worker(Publish, Request("p", 4), seen)], buffers := seen)
  {
    hide Leads;
    steps', t' := Then(s, steps, t, Work(0, seen));
    steps', t' := Then(s, steps', t', Work(0, seen));
    steps', t' := Then(s, steps', t', Work(0, seen));
    steps', t' := Then(s, steps', t', Work(0, seen));
    steps', t' := Then(s, steps', t', Work(0, seen));
  }

  /** Ticks alone: a first scan publishes between the two halves of a tick. */
  lemma FirstScan() returns (s: State, steps: seq<Step>, t: State)
    ensures Init(s) && Leads(s, steps, t)
    ensures t.ui == Count && t.config == Config(true, 1, 0, "p", 4)
    ensures !t.busy && t.ready && t.workers == [] && t.buffers == Outcome("a", "x", false)
              && t.published == Some(t.buffers)
  {
    s := State(Config(true, 1, 0, "p", 4), Idle, Display(false, "", "", false), [], false, false,
               Request("", 0), Outcome("", "", false), None, None, false);
    var seen := Outcome("a", "x", false);
    assert Leads(s, [], s);
    hide Leads;
    steps, t := Then(s, [], s, Tick);
    steps, t := Kick(s, steps, t);
    steps, t := Fill(s, steps, t, seen);
    steps, t := Then(s, steps, t, Tick);
    steps, t := Then(s, steps, t, Work(0, seen));
    steps, t := Then(s, steps, t, Work(0, seen));
  }

  /**
    * The tick goes on, starts a second scan on top of the waiting result, and the next tick shows a mixture no scan
    * produced.
    */
  lemma TornRun() returns (s: State, steps: seq<Step>)
    ensures Init(s) && Run(s, steps).Some? && OnlyTicks(steps)
    ensures var t := Run(s, steps).value;
            t.shown == t.published == Some(Outcome("a", "x", false)) && !Adopting(t)
                && !Displays(t.display, t.shown.value)
  {
    var t: State;
    var seen := Outcome("b", "y", false);
    s, steps, t := FirstScan();
    steps, t := Kick(s, steps, t);
    assert t.workers == [Worker(ClearPath, Request("p", 4), UNSEEN)];
    steps, t := Overwrite(s, steps, t, seen);
  }

  lemma Overwrite(s: State, steps: seq<Step>, t: State, seen: Outcome) returns (steps': seq<Step>, t': State)
    requires Leads(s, steps, t)
    requires t.ui == Idle && t.ready && t.config.enabled && t.workers == [Worker(ClearPath, Request("p", 4), UNSEEN)]
    requires t.buffers == Outcome("a", "x", false) && t.published == Some(t.buffers)
    ensures Leads(s, steps', t')
    ensures t'.shown == t'.published == t.published && t'.ui == Count && t'.display.found == "a"
              && t'.display.detail == ""
  {
    hide Leads;
    steps', t' := Then(s, steps, t, Tick);
    steps', t' := Then(s, steps', t', Ui(false));
    steps', t' := Then(s, steps', t', Ui(false));
    steps', t' := Then(s, steps', t', Work(0, seen));
    steps', t' := Then(s, steps', t', Work(0, seen));
    steps', t' := Then(s, steps', t', Ui(false));
  }
}
