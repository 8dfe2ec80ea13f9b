/** When the file watch scans, with which configuration, and what becomes of the result. */
module ScanRhythm {
  import opened Wrappers
  import opened ScanHandshake

  lemma {:induction false} RunMore(s: State, steps: seq<Step>, step: Step)
    requires Run(s, steps).Some?
    ensures Run(s, steps + [step]) == Next(Run(s, steps).value, step)
  {
    Extend(s, steps, step);
  }

  // ---- every interval-th tick

  function Ticks(steps: seq<Step>): nat {
    if steps == [] then 0 else (if steps[0].Tick? then 1 else 0) + Ticks(steps[1..])
  }

  /** How often the counter lets a tick go on to claim a scan. */
  function Claims(s: State, steps: seq<Step>): nat
    decreases |steps|
  {
    if steps == [] then 0
    else
      match Next(s, steps[0])
      case None => 0
      case Some(t) => (if s.ui == Count && t.ui == Claim then 1 else 0) + Claims(t, steps[1..])
  }

  /** 1 while a tick has begun and has not counted yet. */
  function Pending(s: State): nat { if Adopting(s) || s.ui == Count then 1 else 0 }

  predicate Counting(s: State) { s.config.enabled && 0 <= s.config.counter < s.config.interval }

  lemma CountStep(s: State, step: Step)
    requires Counting(s) && (step.Tick? || step.Ui? || step.Work?) && Next(s, step).Some?
    ensures var t := Next(s, step).value;
            && Counting(t) && t.config.interval == s.config.interval
            && (if s.ui == Count && t.ui == Claim then s.config.interval else 0) + t.config.counter + Pending(t)
               == (if step.Tick? then 1 else 0) + s.config.counter + Pending(s)
  {}

  lemma Scaled(c: nat, d: nat, n: int)
    ensures (c + d) * n == c * n + d * n
  {}

  /** Ticks turn into claims, `interval` to one, and none is lost on the way. */
  lemma {:induction false} TicksToClaims(s: State, steps: seq<Step>)
    requires Counting(s) && OnlyTicks(steps) && Run(s, steps).Some?
    ensures var t := Run(s, steps).value;
            && Counting(t) && t.config.interval == s.config.interval
            && Claims(s, steps) * s.config.interval + t.config.counter + Pending(t)
               == Ticks(steps) + s.config.counter + Pending(s)
    decreases |steps|
  {
    hide Next, Counting, Pending;
    if steps != [] {
      var t := Next(s, steps[0]).value;
      CountStep(s, steps[0]);
      TicksToClaims(t, steps[1..]);
      var one := if s.ui == Count && t.ui == Claim then 1 else 0;
      Scaled(one, Claims(t, steps[1..]), s.config.interval);
    }
  }

  /** Enabled and undisturbed, from a fresh count, exactly every `interval`-th tick claims a scan. */
  lemma EveryNth(s: State, steps: seq<Step>)
    requires Counting(s) && s.config.counter == 0 && s.ui == Idle && OnlyTicks(steps) && Run(s, steps).Some?
    requires var t := Run(s, steps).value; !Adopting(t) && t.ui != Count
    ensures Claims(s, steps) == Ticks(steps) / s.config.interval
  {
    hide Run, Claims, Ticks;
    TicksToClaims(s, steps);
    var n := s.config.interval;
    Quotient(Claims(s, steps), Run(s, steps).value.config.counter, n);
  }

  lemma Quotient(q: nat, r: int, n: int)
    requires 0 <= r < n
    ensures (q * n + r) / n == q
  {
    var x := q * n + r;
    var k := x / n;
    assert x == n * k + x % n;
    Multiples(q, k, n, x % n - r);
  }

  /** Multiples of `n` that differ by less than `n` are the same. */
  lemma Multiples(a: int, b: int, n: int, d: int)
    requires n > 0 && a * n == n * b + d && -n < d < n
    ensures a == b
  {
    Distribute(a, b, n);
    Distribute(b, a, n);
    AtLeast(a - b, n);
    AtLeast(b - a, n);
  }

  lemma Distribute(a: int, b: int, n: int)
    ensures (a - b) * n == a * n - n * b
  {}

  lemma AtLeast(d: int, n: int)
    requires n > 0
    ensures d >= 1 ==> d * n >= n
  {
    if d >= 1 {
      assert (d - 1) * n >= 0;
    }
  }

  // ---- what a scan is started with

  /** The snapshot, as far as it has been taken, is the configuration. */
  predicate Copied(s: State) {
    && (s.ui == CopyDepth || s.ui == Spawn ==> s.request.pattern == s.config.path)
    && (s.ui == Spawn ==> s.request.depth == s.config.maxDepth)
  }

  lemma CopiedStep(s: State, step: Step)
    requires Copied(s) && Next(s, step).Some?
    ensures Copied(Next(s, step).value)
  {}

  lemma {:induction false} CopiedRun(s: State, steps: seq<Step>)
    requires Copied(s) && Run(s, steps).Some?
    ensures Copied(Run(s, steps).value)
    decreases |steps|
  {
    hide Next, Copied;
    if steps != [] {
      CopiedStep(s, steps[0]);
      CopiedRun(Next(s, steps[0]).value, steps[1..]);
    }
  }

  /** In every run a scan thread is created with the path and depth configured at that moment. */
  lemma StartsAsConfigured(s: State, steps: seq<Step>)
    requires Init(s) && Run(s, steps).Some? && Run(s, steps).value.ui == Spawn
    ensures var t := Run(s, steps).value;
            && Next(t, Ui(false)).Some?
            && Next(t, Ui(false)).value.workers
               == t.workers + [Worker(ClearPath, Request(t.config.path, t.config.maxDepth), UNSEEN)]
  {
    hide Run;
    CopiedRun(s, steps);
    var t := Run(s, steps).value;
    assert t.request == Request(t.config.path, t.config.maxDepth);
  }

  /** A claim with no scan under way starts one. */
  lemma ClaimStarts(s: State) returns (steps: seq<Step>)
    requires s.ui == Claim && !s.busy && s.workers == []
    ensures Run(s, steps).Some?
    ensures var t := Run(s, steps).value;
            && t.ui == Idle && t.busy
            && t.workers == [Worker(ClearPath, Request(s.config.path, s.config.maxDepth), UNSEEN)]
            && t.config == s.config && t.ready == s.ready && t.display == s.display
  {
    hide Run;
    Nothing(s);
    RunMore(s, [], Ui(false));
    var a := [] + [Ui(false)];
    RunMore(s, a, Ui(false));
    RunMore(s, a + [Ui(false)], Ui(false));
    RunMore(s, a + [Ui(false)] + [Ui(false)], Ui(false));
    steps := a + [Ui(false)] + [Ui(false)] + [Ui(false)];
  }

  lemma Nothing(s: State)
    ensures Run(s, []) == Some(s)
  {}

  // ---- what becomes of a result

  /** A scan that goes on alone publishes what it sees and makes room for the next. */
  lemma ScanCompletes(s: State, o: Outcome) returns (steps: seq<Step>)
    requires |s.workers| == 1 && s.workers[0].pc == ClearPath && s.workers[0].saw == UNSEEN
    ensures Run(s, steps).Some?
    ensures var t := Run(s, steps).value;
            && t.workers == [] && !t.busy && t.ready && t.ui == s.ui && t.config == s.config && t.display == s.display
            && t.published == Some(Outcome(o.path, if o.path == "" then "" else o.detail, o.capped))
            && t.published == Some(t.buffers)
  {
    hide Run;
    Nothing(s);
    steps := [];
    var t := s;
    steps, t := Works(s, steps, t, o);
    steps, t := Works(s, steps, t, o);
    steps, t := Works(s, steps, t, o);
    if o.path != "" {
      steps, t := Works(s, steps, t, o);
    }
    steps, t := Works(s, steps, t, o);
    steps, t := Works(s, steps, t, o);
    assert t.workers[..0] + t.workers[1..] == [];
    steps, t := Works(s, steps, t, o);
  }

  lemma Works(s: State, steps: seq<Step>, t: State, o: Outcome) returns (steps': seq<Step>, t': State)
    requires Run(s, steps) == Some(t) && |t.workers| == 1
    ensures Proceed(t, 0, o).Some? && t' == Proceed(t, 0, o).value && Run(s, steps') == Some(t')
  {
    hide Run;
    RunMore(s, steps, Work(0, o));
    steps', t' := steps + [Work(0, o)], Proceed(t, 0, o).value;
  }

  /** A tick of an enabled watch shows the result that waits, whole. */
  lemma TickAdopts(s: State) returns (steps: seq<Step>)
    requires Inv(s) && s.ui == Idle && s.ready && s.config.enabled && !Writing(s.workers)
    ensures Run(s, steps).Some? && s.published.Some?
    ensures var t := Run(s, steps).value;
            t.ui == Count && !t.ready && t.shown == s.published && Displays(t.display, s.published.value)
  {
    hide Run, Writing, OneAtMost;
    Nothing(s);
    RunMore(s, [], Tick);
    var a := [] + [Tick];
    RunMore(s, a, Ui(false));
    RunMore(s, a + [Ui(false)], Ui(false));
    steps := a + [Ui(false)] + [Ui(false)];
    if s.buffers.path != "" {
      RunMore(s, steps, Ui(false));
      steps := steps + [Ui(false)];
    }
  }

  /** Neither switched nor reloaded. */
  predicate Untouched(steps: seq<Step>) {
    forall i :: 0 <= i < |steps| ==> !steps[i].Toggle? && !steps[i].Reload?
  }

  lemma OffStep(s: State, step: Step)
    requires !s.config.enabled && !Adopting(s) && !step.Toggle? && !step.Reload? && Next(s, step).Some?
    ensures var t := Next(s, step).value; !t.config.enabled && !Adopting(t) && t.display == s.display
  {}

  lemma {:induction false} OffRun(s: State, steps: seq<Step>)
    requires !s.config.enabled && !Adopting(s) && Untouched(steps) && Run(s, steps).Some?
    ensures Run(s, steps).value.display == s.display
    decreases |steps|
  {
    hide Next, Adopting;
    if steps != [] {
      OffStep(s, steps[0]);
      OffRun(Next(s, steps[0]).value, steps[1..]);
    }
  }

  /** Switching the watch off clears the alert, and no late result brings it back. */
  lemma OffStaysDark(s: State, steps: seq<Step>)
    requires s.ui == Idle && s.config.enabled && Untouched(steps) && Run(s, [Toggle] + steps).Some?
    ensures var d := Run(s, [Toggle] + steps).value.display; !d.triggered && d.found == "" && d.detail == ""
  {
    hide Run;
    var t := Next(s, Toggle).value;
    ToggleFirst(s, steps);
    OffRun(t, steps);
  }

  lemma ToggleFirst(s: State, steps: seq<Step>)
    requires s.ui == Idle
    ensures Run(s, [Toggle] + steps) == Run(Next(s, Toggle).value, steps)
  {
    hide Next;
    assert ([Toggle] + steps)[1..] == steps && ([Toggle] + steps)[0] == Toggle;
    assert Next(s, Toggle).Some? by { ToggleTaken(s); }
  }

  lemma ToggleTaken(s: State)
    requires s.ui == Idle
    ensures Next(s, Toggle).Some?
  {}

  /** Switching it on, refreshing and reloading all claim a scan at once and begin a fresh count. */
  lemma CommandsClaim(s: State, step: Step)
    requires s.ui == Idle && ((step.Toggle? && !s.config.enabled) || step.Refresh? || step.Reload?)
    ensures Next(s, step).Some?
    ensures var t := Next(s, step).value;
            && t.ui == Claim && t.config.counter == 0 && t.display == s.display
            && (step.Reload? ==> t.config.interval >= 1 && t.config.path == step.path
                                 && t.config.maxDepth == step.maxDepth && t.config.enabled == step.enabled)
            && (step.Reload? && step.interval >= 1 ==> t.config.interval == step.interval)
  {}
}
