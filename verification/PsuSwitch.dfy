/** psu.c: clicks, the worker and ticks, each critical section one step. */
module PsuSwitch {
  import opened Wrappers

  const NUM_CHANNELS := 3

  datatype Report = Quiet | Switched | SwitchFailed

  /** The fields guarded by the lock. */
  datatype Channel = Channel(on: bool, request: Option<bool>, busy: bool, report: Report)

  /** Where the worker stands: about to look at a channel, running a command, or past the last channel. */
  datatype Worker = Looking(i: nat) | Running(i: nat, target: bool) | Resting

  /** What happened, in order. */
  datatype Event =
    | Clicked(i: nat)
    | Began(i: nat, target: bool)
    | Ended(i: nat, target: bool, ok: bool)
    | Notified(i: nat, ok: bool, on: bool)

  datatype State = State(channels: seq<Channel>, worker: Worker, log: seq<Event>)

  datatype Step = Click(i: nat) | Tick | Look | Finish(ok: bool) | Wake

  predicate Init(s: State) {
    s.channels == seq(NUM_CHANNELS, i => Channel(false, None, false, Quiet)) && s.worker == Looking(0) && s.log == []
  }

  /** `psu_tick`: a notification for every report, and the reports cleared. */
  function Notices(channels: seq<Channel>, i: nat): seq<Event>
    requires i <= |channels|
    decreases |channels| - i
  {
    if i == |channels| then []
    else
      (match channels[i].report
       case Quiet => []
       case Switched => [Notified(i, true, channels[i].on)]
       case SwitchFailed => [Notified(i, false, channels[i].on)])
      + Notices(channels, i + 1)
  }

  function Cleared(channels: seq<Channel>): (r: seq<Channel>)
    ensures |r| == |channels|
  {
    seq(|channels|, i requires 0 <= i < |channels| => channels[i].(report := Quiet))
  }

  function Next(s: State, step: Step): Option<State> {
    match step
    case Click(i) =>
      // psu_command: out-of-range commands are ignored
      if i >= |s.channels| then Some(s)
      else
        var c := s.channels[i];
        var request := match c.request case Some(r) => !r case None => !c.on;
        Some(s.(channels := s.channels[i := c.(request := Some(request))], log := s.log + [Clicked(i)]))
    case Tick => Some(s.(channels := Cleared(s.channels), log := s.log + Notices(s.channels, 0)))
    case Look =>
      if !s.worker.Looking? then None
      else if s.worker.i >= |s.channels| then Some(s.(worker := Resting))
      else
        var i := s.worker.i;
        var c := s.channels[i];
        (match c.request
         case None => Some(s.(worker := Looking(i + 1)))
         case Some(target) =>
           Some(s.(channels := s.channels[i := c.(request := None, busy := true)], worker := Running(i, target),
                   log := s.log + [Began(i, target)])))
    case Finish(ok) =>
      // worker_switch, once the command has returned
      if !s.worker.Running? || s.worker.i >= |s.channels| then None
      else
        var i, target := s.worker.i, s.worker.target;
        var c := s.channels[i];
        var report := if ok then Switched else SwitchFailed;
        Some(s.(channels := s.channels[i := Channel(if ok then target else c.on, c.request, false, report)],
                worker := Looking(i + 1), log := s.log + [Ended(i, target, ok)]))
    case Wake => if s.worker == Resting then Some(s.(worker := Looking(0))) else None
  }

  function Run(s: State, steps: seq<Step>): Option<State>
    decreases |steps|
  {
    if steps == [] then Some(s)
    else
      match Next(s, steps[0])
      case None => None
      case Some(t) => Run(t, steps[1..])
  }

  // ---- what the events say

  /** The target of channel `i`'s last successful switch; off before the first. */
  function LastSet(log: seq<Event>, i: nat): bool {
    if log == [] then false
    else
      var e := log[|log| - 1];
      if e.Ended? && e.i == i && e.ok then e.target else LastSet(log[..|log| - 1], i)
  }

  /** Clicks on channel `i` since its last dequeued request. */
  function ClicksSince(log: seq<Event>, i: nat): nat {
    if log == [] then 0
    else
      var e := log[|log| - 1];
      if e.Began? && e.i == i then 0
      else ClicksSince(log[..|log| - 1], i) + if e == Clicked(i) then 1 else 0
  }

  /** The state of channel `i` at the first of those clicks. */
  function OnAtFirst(log: seq<Event>, i: nat): bool {
    if log == [] then false
    else
      var e, before := log[|log| - 1], log[..|log| - 1];
      if e == Clicked(i) && ClicksSince(before, i) == 0 then LastSet(before, i) else OnAtFirst(before, i)
  }

  function Clicks(log: seq<Event>, i: nat): nat {
    if log == [] then 0 else Clicks(log[..|log| - 1], i) + if log[|log| - 1] == Clicked(i) then 1 else 0
  }

  function Commands(log: seq<Event>, i: nat): nat {
    if log == [] then 0
    else Commands(log[..|log| - 1], i) + if log[|log| - 1].Began? && log[|log| - 1].i == i then 1 else 0
  }

  datatype End = End(target: bool, ok: bool)

  /** How channel `i`'s last finished command ended, if one has. */
  function LastEnd(log: seq<Event>, i: nat): Option<End> {
    if log == [] then None
    else
      var e := log[|log| - 1];
      if e.Ended? && e.i == i then Some(End(e.target, e.ok)) else LastEnd(log[..|log| - 1], i)
  }

  /** Finished commands of channel `i` that no tick has reported or passed over yet. */
  function EndsSinceNotice(log: seq<Event>, i: nat): nat {
    if log == [] then 0
    else
      var e := log[|log| - 1];
      if e.Notified? && e.i == i then 0
      else EndsSinceNotice(log[..|log| - 1], i) + if e.Ended? && e.i == i then 1 else 0
  }

  // ---- what every step keeps

  predicate ChannelFine(s: State, i: nat)
    requires i < |s.channels|
  {
    var c := s.channels[i];
    && c.on == LastSet(s.log, i)
    && (c.busy <==> s.worker.Running? && s.worker.i == i)
    && (c.request == if ClicksSince(s.log, i) == 0 then None
                     else Some(if ClicksSince(s.log, i) % 2 == 1 then !OnAtFirst(s.log, i) else OnAtFirst(s.log, i)))
    && Commands(s.log, i) + (if c.request.Some? then 1 else 0) <= Clicks(s.log, i)
    && (c.report == Quiet <==> EndsSinceNotice(s.log, i) == 0)
    && ReportFits(c, LastEnd(s.log, i))
  }

  /** A report of success means that the state shown is the target of the command that ended last. */
  predicate ReportFits(c: Channel, end: Option<End>) {
    match c.report
    case Quiet => true
    case Switched => end == Some(End(c.on, true))
    case SwitchFailed => end.Some? && !end.value.ok
  }

  predicate Inv(s: State) {
    && |s.channels| == NUM_CHANNELS
    && (s.worker.Running? ==> s.worker.i < NUM_CHANNELS)
    && forall i :: 0 <= i < |s.channels| ==> ChannelFine(s, i)
  }

  lemma Appended(log: seq<Event>, e: Event)
    ensures (log + [e])[|log + [e]| - 1] == e && (log + [e])[..|log + [e]| - 1] == log
  {}

  /** An event of another channel leaves everything said about this one. */
  lemma Elsewhere(log: seq<Event>, e: Event, i: nat)
    requires e.i != i
    ensures var l := log + [e];
            && LastSet(l, i) == LastSet(log, i) && ClicksSince(l, i) == ClicksSince(log, i)
                && OnAtFirst(l, i) == OnAtFirst(log, i)
            && Clicks(l, i) == Clicks(log, i) && Commands(l, i) == Commands(log, i)
            && LastEnd(l, i) == LastEnd(log, i) && EndsSinceNotice(l, i) == EndsSinceNotice(log, i)
  {
    Appended(log, e);
  }

  lemma ClickKeeps(s: State, k: nat)
    requires Inv(s)
    ensures Inv(Next(s, Click(k)).value)
  {
    var t := Next(s, Click(k)).value;
    if k < |s.channels| {
      Appended(s.log, Clicked(k));
      forall i | 0 <= i < |t.channels| ensures ChannelFine(t, i) {
        assert ChannelFine(s, i);
        if i != k { Elsewhere(s.log, Clicked(k), i); }
      }
    }
  }

  lemma LookKeeps(s: State)
    requires Inv(s) && s.worker.Looking?
    ensures Inv(Next(s, Look).value)
  {
    var t := Next(s, Look).value;
    var k := s.worker.i;
    if k < |s.channels| && s.channels[k].request.Some? {
      var e := Began(k, s.channels[k].request.value);
      Appended(s.log, e);
      forall i | 0 <= i < |t.channels| ensures ChannelFine(t, i) {
        assert ChannelFine(s, i);
        if i != k { Elsewhere(s.log, e, i); }
      }
    } else {
      SameChannels(s, t);
    }
  }

  /** The worker moves on from a channel without running anything. */
  lemma SameChannels(s: State, t: State)
    requires Inv(s) && !s.worker.Running? && !t.worker.Running?
    requires t.channels == s.channels && t.log == s.log
    ensures Inv(t)
  {
    hide LastSet, ClicksSince, OnAtFirst, Clicks, Commands, EndsSinceNotice, LastEnd;
    forall i | 0 <= i < |t.channels| ensures ChannelFine(t, i) {
      assert ChannelFine(s, i);
    }
  }

  lemma FinishKeeps(s: State, ok: bool)
    requires Inv(s) && s.worker.Running?
    ensures Inv(Next(s, Finish(ok)).value)
  {
    var t := Next(s, Finish(ok)).value;
    var k := s.worker.i;
    var e := Ended(k, s.worker.target, ok);
    Appended(s.log, e);
    forall i | 0 <= i < |t.channels| ensures ChannelFine(t, i) {
      assert ChannelFine(s, i);
      if i != k { Elsewhere(s.log, e, i); }
    }
  }

  /** Two logs agree on what was clicked, begun and ended on channel `i`. */
  predicate Alike(log: seq<Event>, l: seq<Event>, i: nat) {
    && LastSet(l, i) == LastSet(log, i) && ClicksSince(l, i) == ClicksSince(log, i)
        && OnAtFirst(l, i) == OnAtFirst(log, i)
    && Clicks(l, i) == Clicks(log, i) && Commands(l, i) == Commands(log, i) && LastEnd(l, i) == LastEnd(log, i)
  }

  lemma NoticeKeeps(log: seq<Event>, e: Event, i: nat)
    requires e.Notified?
    ensures Alike(log, log + [e], i)
    ensures EndsSinceNotice(log + [e], i) == if e.i == i then 0 else EndsSinceNotice(log, i)
  {
    Appended(log, e);
  }

  lemma AlikeTransitive(a: seq<Event>, b: seq<Event>, c: seq<Event>, i: nat)
    requires Alike(a, b, i) && Alike(b, c, i)
    ensures Alike(a, c, i)
  {
    hide LastSet, ClicksSince, OnAtFirst, Clicks, Commands, LastEnd;
  }

  lemma NoticesFrom(log: seq<Event>, channels: seq<Channel>, from: nat)
    requires from < |channels|
    ensures var c := channels[from];
            log + Notices(channels, from)
            == (if c.report == Quiet then log else log + [Notified(from, c.report == Switched, c.on)])
                + Notices(channels, from + 1)
  {
    var rest := Notices(channels, from + 1);
    assert [] + rest == rest;
    var e := Notified(from, channels[from].report == Switched, channels[from].on);
    assert log + ([e] + rest) == (log + [e]) + rest;
  }

  lemma NoticesEnd(log: seq<Event>, channels: seq<Channel>, i: nat)
    ensures log + Notices(channels, |channels|) == log && Alike(log, log, i)
  {
    hide LastSet, ClicksSince, OnAtFirst, Clicks, Commands, LastEnd;
    assert log + [] == log;
  }

  /** The notifications of a tick change only what they notify about. */
  lemma {:induction false} NoticesKeep(log: seq<Event>, channels: seq<Channel>, from: nat, i: nat)
    requires from <= |channels| && i < |channels|
    ensures var l := log + Notices(channels, from);
            && Alike(log, l, i)
            && EndsSinceNotice(l, i)
               == if from <= i && channels[i].report != Quiet then 0 else EndsSinceNotice(log, i)
    decreases |channels| - from
  {
    hide Alike, EndsSinceNotice, Notices;
    if from == |channels| {
      NoticesEnd(log, channels, i);
    } else {
      var c := channels[from];
      NoticesFrom(log, channels, from);
      var e := Notified(from, c.report == Switched, c.on);
      var log' := if c.report == Quiet then log else log + [e];
      NoticesKeep(log', channels, from + 1, i);
      if c.report != Quiet {
        NoticeKeeps(log, e, i);
        AlikeTransitive(log, log', log' + Notices(channels, from + 1), i);
      }
    }
  }

  lemma TickKeeps(s: State)
    requires Inv(s)
    ensures Inv(Next(s, Tick).value)
  {
    hide LastSet, ClicksSince, OnAtFirst, Clicks, Commands, EndsSinceNotice, LastEnd, Notices;
    var t := Next(s, Tick).value;
    forall i | 0 <= i < |t.channels| ensures ChannelFine(t, i) {
      assert ChannelFine(s, i);
      NoticesKeep(s.log, s.channels, 0, i);
    }
  }

  lemma InvStep(s: State, step: Step)
    requires Inv(s) && Next(s, step).Some?
    ensures Inv(Next(s, step).value)
  {
    hide ChannelFine;
    match step
    case Click(i) => ClickKeeps(s, i);
    case Tick => TickKeeps(s);
    case Look => LookKeeps(s);
    case Finish(ok) => FinishKeeps(s, ok);
    case Wake => WakeKeeps(s);
  }

  lemma WakeKeeps(s: State)
    requires Inv(s) && s.worker == Resting
    ensures Inv(Next(s, Wake).value)
  {
    SameChannels(s, Next(s, Wake).value);
  }

  lemma {:induction false} InvRun(s: State, steps: seq<Step>)
    requires Inv(s) && Run(s, steps).Some?
    ensures Inv(Run(s, steps).value)
    decreases |steps|
  {
    hide Inv, Next;
    if steps != [] {
      InvStep(s, steps[0]);
      InvRun(Next(s, steps[0]).value, steps[1..]);
    }
  }

  lemma InitInv(s: State)
    requires Init(s)
    ensures Inv(s)
  {}

  // ---- over every run

  /**
    * A channel shows the target of its last successful switch; one channel at most is busy, and only while its command
    * runs.
    */
  lemma ShowsLastSuccess(s: State, steps: seq<Step>, i: nat)
    requires Init(s) && Run(s, steps).Some? && i < NUM_CHANNELS
    ensures var t := Run(s, steps).value;
            && |t.channels| == NUM_CHANNELS
            && t.channels[i].on == LastSet(t.log, i)
            && (t.channels[i].busy <==> t.worker.Running? && t.worker.i == i)
            && forall j :: 0 <= j < NUM_CHANNELS && t.channels[i].busy && t.channels[j].busy ==> i == j
  {
    hide Run, LastSet;
    InitInv(s);
    InvRun(s, steps);
    var t := Run(s, steps).value;
    forall j | 0 <= j < NUM_CHANNELS ensures t.channels[j].busy <==> t.worker.Running? && t.worker.i == j {
      assert ChannelFine(t, j);
    }
    assert ChannelFine(t, i);
  }

  /**
    * Between two dequeues, clicks leave the state at the first click, flipped if their number is odd; commands never
    * outnumber clicks.
    */
  lemma ClicksFlip(s: State, steps: seq<Step>, i: nat)
    requires Init(s) && Run(s, steps).Some? && i < NUM_CHANNELS
    ensures var t := Run(s, steps).value;
            var n := ClicksSince(t.log, i);
            && |t.channels| == NUM_CHANNELS
            && (n == 0 <==> t.channels[i].request.None?)
            && (n > 0 ==>
                  var first := OnAtFirst(t.log, i);
                  t.channels[i].request == Some(if n % 2 == 1 then !first else first))
            && Commands(t.log, i) <= Clicks(t.log, i)
  {
    hide Run, ClicksSince, OnAtFirst, Commands, Clicks;
    InitInv(s);
    InvRun(s, steps);
    assert ChannelFine(Run(s, steps).value, i);
  }

  /**
    * A pending report is that of the channel's last finished command, and says `switched` only if the state shown is
    * its target.
    */
  lemma ReportsLast(s: State, steps: seq<Step>, i: nat)
    requires Init(s) && Run(s, steps).Some? && i < NUM_CHANNELS
    ensures var t := Run(s, steps).value;
            && |t.channels| == NUM_CHANNELS
            && (t.channels[i].report == Quiet <==> EndsSinceNotice(t.log, i) == 0)
            && (t.channels[i].report == Switched ==> LastEnd(t.log, i) == Some(End(t.channels[i].on, true)))
            && (t.channels[i].report == SwitchFailed ==> LastEnd(t.log, i).Some? && !LastEnd(t.log, i).value.ok)
  {
    hide Run, EndsSinceNotice, LastEnd;
    InitInv(s);
    InvRun(s, steps);
    assert ChannelFine(Run(s, steps).value, i);
  }
}
