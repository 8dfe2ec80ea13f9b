/** What clicks, ticks and the worker achieve: every click counts, every report is told, every request is served. */
module PsuService {
  import opened Wrappers
  import opened PsuSwitch

  // ---- the history is that of the steps

  function ClickSteps(steps: seq<Step>, i: nat): nat {
    if steps == [] then 0 else (if steps[0] == Click(i) then 1 else 0) + ClickSteps(steps[1..], i)
  }

  lemma {:induction false} NoticesKeepClicks(log: seq<Event>, channels: seq<Channel>, from: nat, i: nat)
    requires from <= |channels|
    ensures Clicks(log + Notices(channels, from), i) == Clicks(log, i)
    decreases |channels| - from
  {
    if from == |channels| {
      assert log + [] == log;
    } else {
      var c := channels[from];
      NoticesFrom(log, channels, from);
      if c.report == Quiet {
        NoticesKeepClicks(log, channels, from + 1, i);
      } else {
        var e := Notified(from, c.report == Switched, c.on);
        Appended(log, e);
        NoticesKeepClicks(log + [e], channels, from + 1, i);
      }
    }
  }

  lemma ClickStep(s: State, step: Step, i: nat)
    requires i < |s.channels| && Next(s, step).Some?
    ensures var t := Next(s, step).value;
            |t.channels| == |s.channels| && Clicks(t.log, i) == Clicks(s.log, i) + if step == Click(i) then 1 else 0
  {
    hide Notices;
    if step.Tick? {
      NoticesKeepClicks(s.log, s.channels, 0, i);
    } else {
      var t := Next(s, step).value;
      if t.log != s.log {
        assert t.log[..|t.log| - 1] == s.log;
      }
    }
  }

  /** Every click on a channel is in the history, and no other. */
  lemma {:induction false} EveryClickCounts(s: State, steps: seq<Step>, i: nat)
    requires i < |s.channels| && Run(s, steps).Some?
    ensures Clicks(Run(s, steps).value.log, i) == Clicks(s.log, i) + ClickSteps(steps, i)
    decreases |steps|
  {
    hide Next, Clicks;
    if steps != [] {
      ClickStep(s, steps[0], i);
      EveryClickCounts(Next(s, steps[0]).value, steps[1..], i);
    }
  }

  // ---- ticks

  /** What the notifications about channel `i` said, in order. */
  function Told(log: seq<Event>, i: nat): seq<(bool, bool)> {
    if log == [] then []
    else
      var e := log[|log| - 1];
      Told(log[..|log| - 1], i) + if e.Notified? && e.i == i then [(e.ok, e.on)] else []
  }

  lemma ToldMore(log: seq<Event>, e: Event, i: nat)
    ensures Told(log + [e], i) == Told(log, i) + if e.Notified? && e.i == i then [(e.ok, e.on)] else []
  {
    Appended(log, e);
  }

  lemma {:induction false} NoticesTold(log: seq<Event>, channels: seq<Channel>, from: nat, i: nat)
    requires from <= |channels| && i < |channels|
    ensures var c := channels[i];
            Told(log + Notices(channels, from), i)
            == Told(log, i) + if from <= i && c.report != Quiet then [(c.report == Switched, c.on)] else []
    decreases |channels| - from
  {
    hide Told, Notices;
    if from == |channels| {
      NoticesEnd(log, channels, i);
      assert Told(log, i) + [] == Told(log, i);
    } else {
      var c := channels[from];
      NoticesFrom(log, channels, from);
      if c.report == Quiet {
        NoticesTold(log, channels, from + 1, i);
      } else {
        var e := Notified(from, c.report == Switched, c.on);
        ToldMore(log, e, i);
        NoticesTold(log + [e], channels, from + 1, i);
        assert Told(log, i) + [] == Told(log, i);
      }
    }
  }

  /** A tick tells every pending report once, with the state shown, and leaves none; it touches nothing else. */
  lemma TickTells(s: State, i: nat)
    requires i < |s.channels|
    ensures Next(s, Tick).Some?
    ensures var t, c := Next(s, Tick).value, s.channels[i];
            && |t.channels| == |s.channels| && t.worker == s.worker && t.channels[i] == c.(report := Quiet)
            && Told(t.log, i) == Told(s.log, i) + if c.report != Quiet then [(c.report == Switched, c.on)] else []
  {
    hide Notices, Told;
    NoticesTold(s.log, s.channels, 0, i);
  }

  // ---- the worker

  /** Only the worker moves, and its commands succeed. */
  predicate WorkerOnly(steps: seq<Step>) {
    forall k :: 0 <= k < |steps| ==> steps[k] == Look || steps[k] == Wake || steps[k] == Finish(true)
  }

  /** How many turns the worker is away from looking at channel `i`. */
  function Away(w: Worker, i: nat): nat {
    match w
    case Looking(j) => LookAway(j, i)
    case Running(j, _) => 1 + LookAway(j + 1, i)
    case Resting => i + 1
  }

  function LookAway(j: nat, i: nat): nat {
    if j <= i then i - j else if j >= NUM_CHANNELS then i + 2 else NUM_CHANNELS - j + i + 2
  }

  function Turn(s: State): Step {
    match s.worker case Looking(_) => Look case Running(_, _) => Finish(true) case Resting => Wake
  }

  lemma OneTurn(s: State, i: nat)
    requires Inv(s) && i < NUM_CHANNELS && s.channels[i].request.Some? && s.worker != Looking(i)
    ensures Next(s, Turn(s)).Some?
    ensures var t := Next(s, Turn(s)).value;
            && |t.channels| == NUM_CHANNELS && t.channels[i].request == s.channels[i].request
            && (Away(t.worker, i) < Away(s.worker, i) || (t.worker.Running? && Away(t.worker, i) == Away(s.worker, i)
                                                          && s.worker.Looking?))
  {
    hide ChannelFine, Notices;
  }

  lemma First(s: State, step: Step, rest: seq<Step>)
    requires Next(s, step).Some?
    ensures Run(s, [step] + rest) == Run(Next(s, step).value, rest)
  {
    hide Next;
    assert ([step] + rest)[1..] == rest;
  }

  /** Whatever a channel is asked for, the worker, left to itself, comes to it and switches it so. */
  lemma {:induction false} Serves(s: State, i: nat) returns (steps: seq<Step>)
    requires Inv(s) && i < NUM_CHANNELS && s.channels[i].request.Some?
    ensures WorkerOnly(steps) && Run(s, steps).Some?
    ensures var c := Run(s, steps).value.channels;
            && |c| == NUM_CHANNELS && c[i].on == s.channels[i].request.value && c[i].request.None?
            && c[i].report == Switched && !c[i].busy
    decreases Away(s.worker, i), if s.worker.Running? then 0 else 1
  {
    hide Inv, Run, Next;
    assert |s.channels| == NUM_CHANNELS by { ThreeChannels(s); }
    if s.worker == Looking(i) {
      steps := [Look, Finish(true)];
      Switches(s, i);
    } else {
      OneTurn(s, i);
      InvStep(s, Turn(s));
      var t := Next(s, Turn(s)).value;
      var rest := Serves(t, i);
      First(s, Turn(s), rest);
      steps := [Turn(s)] + rest;
    }
  }

  lemma ThreeChannels(s: State)
    requires Inv(s)
    ensures |s.channels| == NUM_CHANNELS
  {
    hide ChannelFine;
  }

  lemma Switches(s: State, i: nat)
    requires Inv(s) && i < NUM_CHANNELS && s.channels[i].request.Some? && s.worker == Looking(i)
    ensures Run(s, [Look, Finish(true)]).Some?
    ensures var c := Run(s, [Look, Finish(true)]).value.channels;
            && |c| == NUM_CHANNELS && c[i].on == s.channels[i].request.value && c[i].request.None?
            && c[i].report == Switched && !c[i].busy
  {
    hide ChannelFine, Notices, Run;
    var t := Next(s, Look).value;
    var u := Next(t, Finish(true)).value;
    First(s, Look, [Finish(true)]);
    First(t, Finish(true), []);
    assert [Look] + [Finish(true)] == [Look, Finish(true)] && [Finish(true)] + [] == [Finish(true)];
    Done(u);
  }

  lemma Done(s: State)
    ensures Run(s, []) == Some(s)
  {}

  /** A command that fails leaves the channel as it was and says so. */
  lemma FailureKeeps(s: State)
    requires Inv(s) && s.worker.Running?
    ensures var i := s.worker.i;
            && i < NUM_CHANNELS == |s.channels| && Next(s, Finish(false)).Some?
            && var c := Next(s, Finish(false)).value.channels[i];
               c.on == s.channels[i].on && c.request == s.channels[i].request && c.report == SwitchFailed && !c.busy
  {
    hide ChannelFine, Notices;
  }
}
