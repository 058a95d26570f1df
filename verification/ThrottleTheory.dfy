/** What a function wrapped by $.throttle or $.debounce does over all traces of calls and timers. */
module ThrottleTheory {

  /** debounce_mode undefined, true and false; no_trailing matters to the first only. */
  datatype Mode = Throttling(noTrailing: bool) | AtBegin | AtEnd

  /** A timer runs exec or clear when it is due. */
  datatype Timer = Timer(due: int, clears: bool)

  /** What happens, in order: calls of the wrapper and executions of the callback. */
  datatype Entry = Called(at: int) | Executed(at: int)

  /** timeoutId is 0 for undefined; live are the timers set and neither fired nor cleared. */
  datatype State = State(timeoutId: nat, lastExec: int, live: map<nat, Timer>, nextId: nat, now: int, log: seq<Entry>)

  /** The wrapper is called, or a timer fires. */
  datatype Event = Call(at: int) | Fire(id: nat, at: int)

  const START := State(0, 0, map[], 1, 0, [])

  function Executes(s: State, t: int): State {
    s.(lastExec := t, log := s.log + [Executed(t)])
  }

  function Cleared(s: State): State {
    if s.timeoutId != 0 then s.(live := s.live - {s.timeoutId}) else s
  }

  function TimerSet(s: State, timer: Timer): State {
    s.(timeoutId := s.nextId, live := s.live[s.nextId := timer], nextId := s.nextId + 1)
  }

  /** wrapper() */
  function AfterCall(m: Mode, delay: nat, s: State, t: int): State {
    var elapsed := t - s.lastExec;
    var s0 := s.(now := t, log := s.log + [Called(t)]);
    var s1 := Cleared(if m.AtBegin? && s0.timeoutId == 0 then Executes(s0, t) else s0);
    match m
    case Throttling(noTrailing) =>
      if elapsed > delay then Executes(s1, t)
      else if !noTrailing then TimerSet(s1, Timer(t + (delay - elapsed), false))
      else s1
    case AtBegin => TimerSet(s1, Timer(t + delay, true))
    case AtEnd => TimerSet(s1, Timer(t + delay, false))
  }

  /** A timer's turn: exec() or clear(). */
  function AfterFire(s: State, id: nat, t: int): State
    requires id in s.live
  {
    var s0 := s.(now := t, live := s.live - {id});
    if s.live[id].clears then s0.(timeoutId := 0) else Executes(s0, t)
  }

  /** Time does not run backwards, and a timer fires when it is due or later. */
  ghost predicate Legal(s: State, e: Event) {
    s.now <= e.at && (e.Fire? ==> e.id in s.live && s.live[e.id].due <= e.at)
  }

  function Step(m: Mode, delay: nat, s: State, e: Event): State
    requires e.Fire? ==> e.id in s.live
  {
    match e
    case Call(t) => AfterCall(m, delay, s, t)
    case Fire(id, t) => AfterFire(s, id, t)
  }

  ghost predicate LegalRun(m: Mode, delay: nat, es: seq<Event>)
    decreases |es|, 0
  {
    es == [] || (LegalRun(m, delay, es[..|es| - 1]) && Legal(Run(m, delay, es[..|es| - 1]), es[|es| - 1]))
  }

  /** The state after a trace. */
  ghost function Run(m: Mode, delay: nat, es: seq<Event>): State
    requires LegalRun(m, delay, es)
    decreases |es|, 1
  {
    if es == [] then START else Step(m, delay, Run(m, delay, es[..|es| - 1]), es[|es| - 1])
  }

  // ---------------------------------------------------------------- invariants

  function LastCall(log: seq<Entry>): (k: int)
    ensures -1 <= k < |log| && (k >= 0 ==> log[k].Called?)
    ensures forall i :: k < i < |log| ==> log[i].Executed?
  {
    if log == [] then -1
    else if log[|log| - 1].Called? then |log| - 1
    else LastCall(log[..|log| - 1])
  }

  /** Every live timer is the one timeout_id names. */
  ghost predicate OneTimer(s: State) {
    && 0 <= s.timeoutId < s.nextId
    && forall id :: id in s.live ==> id == s.timeoutId && id != 0
  }

  ghost predicate InOrder(s: State) {
    Ordered(s.log, s.now, s.lastExec)
  }

  /** The log is in the order of time, and no execution is later than the last one. */
  ghost predicate Ordered(log: seq<Entry>, now: int, lastExec: int) {
    && (forall i, j :: 0 <= i < j < |log| ==> log[i].at <= log[j].at)
    && (forall i :: 0 <= i < |log| ==> log[i].at <= now && (log[i].Executed? ==> log[i].at <= lastExec))
    && 0 <= lastExec <= now
  }

  lemma OneMoreInOrder(log: seq<Entry>, now: int, lastExec: int, x: Entry)
    requires Ordered(log, now, lastExec) && now <= x.at
    ensures Ordered(log + [x], x.at, if x.Executed? then x.at else lastExec)
  {
  }

  /** What the live timer is for, mode by mode. */
  ghost predicate Timers(m: Mode, delay: nat, s: State) {
    match m
    case Throttling(noTrailing) =>
      && (noTrailing ==> s.live == map[])
      && (forall id :: id in s.live ==> s.live[id] == Timer(s.lastExec + delay, false))
    case AtBegin =>
      var k := LastCall(s.log);
      && (s.timeoutId != 0 ==> s.timeoutId in s.live)
      && (forall id :: id in s.live ==> k >= 0 && s.live[id] == Timer(s.log[k].at + delay, true))
      && (s.timeoutId == 0 && k >= 0 ==> s.log[k].at + delay <= s.now)
    case AtEnd =>
      var k := |s.log| - 1;
      && (forall id :: id in s.live ==> k >= 0 && s.log[k].Called? && s.live[id] == Timer(s.log[k].at + delay, false))
      && (k >= 0 && s.log[k].Called? ==> s.timeoutId in s.live)
  }

  ghost predicate Inv(m: Mode, delay: nat, s: State) {
    OneTimer(s) && InOrder(s) && Timers(m, delay, s)
  }

  lemma LastCallAfter(log: seq<Entry>, t: int)
    ensures LastCall(log + [Called(t)]) == |log|
    ensures LastCall(log + [Executed(t)]) == LastCall(log)
    ensures LastCall(log + [Called(t)] + [Executed(t)]) == |log|
  {
    assert (log + [Called(t)])[..|log|] == log && (log + [Executed(t)])[..|log|] == log;
    assert (log + [Called(t)] + [Executed(t)])[..|log| + 1] == log + [Called(t)];
  }

  lemma OneTimerStep(m: Mode, delay: nat, s: State, e: Event)
    requires Inv(m, delay, s) && Legal(s, e)
    ensures OneTimer(Step(m, delay, s, e))
  {
    hide InOrder, LastCall;
  }

  lemma InOrderStep(m: Mode, delay: nat, s: State, e: Event)
    requires InOrder(s) && Legal(s, e)
    ensures InOrder(Step(m, delay, s, e))
  {
    hide Ordered;
    OneMoreInOrder(s.log, s.now, s.lastExec, Called(e.at));
    OneMoreInOrder(s.log + [Called(e.at)], e.at, s.lastExec, Executed(e.at));
    OneMoreInOrder(s.log, s.now, s.lastExec, Executed(e.at));
    if e.Fire? && s.live[e.id].clears { LaterInOrder(s.log, s.now, s.lastExec, e.at); }
  }

  lemma LaterInOrder(log: seq<Entry>, now: int, lastExec: int, later: int)
    requires Ordered(log, now, lastExec) && now <= later
    ensures Ordered(log, later, lastExec)
  {
  }

  lemma TimersStep(m: Mode, delay: nat, s: State, e: Event)
    requires Inv(m, delay, s) && Legal(s, e)
    ensures Timers(m, delay, Step(m, delay, s, e))
  {
    hide LastCall, InOrder;
    LastCallAfter(s.log, e.at);
  }

  lemma {:induction false} RunKeepsInv(m: Mode, delay: nat, es: seq<Event>)
    requires LegalRun(m, delay, es)
    ensures Inv(m, delay, Run(m, delay, es))
    decreases |es|
  {
    if es != [] {
      hide Step, Inv;
      RunKeepsInv(m, delay, es[..|es| - 1]);
      StepKeepsInv(m, delay, Run(m, delay, es[..|es| - 1]), es[|es| - 1]);
    } else {
      StartIsFine(m, delay);
    }
  }

  lemma StartIsFine(m: Mode, delay: nat)
    ensures Inv(m, delay, START)
  {
  }

  lemma StepKeepsInv(m: Mode, delay: nat, s: State, e: Event)
    requires Inv(m, delay, s) && Legal(s, e)
    ensures Inv(m, delay, Step(m, delay, s, e))
  {
    hide Step, Timers, OneTimer, InOrder, Legal;
    OneTimerStep(m, delay, s, e);
    InOrderStep(m, delay, s, e);
    TimersStep(m, delay, s, e);
  }

  /** Never more than one timer is live. */
  lemma AtMostOneTimer(m: Mode, delay: nat, es: seq<Event>)
    requires LegalRun(m, delay, es)
    ensures |Run(m, delay, es).live| <= 1
  {
    hide Run, Timers, InOrder, LastCall;
    var s := Run(m, delay, es);
    RunKeepsInv(m, delay, es);
    if s.live != map[] {
      assert s.live.Keys <= {s.timeoutId};
      SmallerSet(s.live.Keys, {s.timeoutId});
      assert |s.live| == |s.live.Keys|;
    }
  }

  lemma {:induction false} SmallerSet(a: set<nat>, b: set<nat>)
    requires a <= b
    ensures |a| <= |b|
  {
    if a != {} {
      var x :| x in a;
      SmallerSet(a - {x}, b - {x});
    }
  }

  // ---------------------------------------------------------------- throttle

  ghost predicate Spaced(delay: nat, log: seq<Entry>) {
    forall i, j :: 0 <= i < j < |log| && log[i].Executed? && log[j].Executed? ==> log[j].at - log[i].at >= delay
  }

  lemma SpacedStep(noTrailing: bool, delay: nat, s: State, e: Event)
    requires Inv(Throttling(noTrailing), delay, s) && Legal(s, e) && Spaced(delay, s.log)
    ensures Spaced(delay, Step(Throttling(noTrailing), delay, s, e).log)
  {
    hide LastCall;
  }

  /** Executions of a throttled function are at least delay apart, however late its timers fire. */
  lemma {:induction false} ThrottleSpacing(noTrailing: bool, delay: nat, es: seq<Event>)
    requires LegalRun(Throttling(noTrailing), delay, es)
    ensures Spaced(delay, Run(Throttling(noTrailing), delay, es).log)
    decreases |es|
  {
    if es != [] {
      hide Step, Inv, Spaced;
      ThrottleSpacing(noTrailing, delay, es[..|es| - 1]);
      RunKeepsInv(Throttling(noTrailing), delay, es[..|es| - 1]);
      SpacedStep(noTrailing, delay, Run(Throttling(noTrailing), delay, es[..|es| - 1]), es[|es| - 1]);
    }
  }

  ghost predicate Pending(s: State, due: int) {
    s.timeoutId in s.live && s.live[s.timeoutId] == Timer(due, false)
  }

  /** A call executes at once if more than delay has passed, and otherwise leaves an execution pending
      for last_exec + delay, unless no_trailing is set: then it leaves nothing. */
  lemma CallExecutesOrWaits(noTrailing: bool, delay: nat, es: seq<Event>, t: int)
    requires LegalRun(Throttling(noTrailing), delay, es + [Call(t)])
    ensures LegalRun(Throttling(noTrailing), delay, es)
    ensures var r := Run(Throttling(noTrailing), delay, es);
            var s := Run(Throttling(noTrailing), delay, es + [Call(t)]);
            && (t - r.lastExec > delay ==> s.log == r.log + [Called(t), Executed(t)] && s.live == map[])
            && (t - r.lastExec <= delay ==> s.log == r.log + [Called(t)])
            && (t - r.lastExec <= delay && !noTrailing ==> Pending(s, r.lastExec + delay) && t <= r.lastExec + delay)
            && (noTrailing ==> s.live == map[])
  {
    assert (es + [Call(t)])[..|es|] == es;
    RunKeepsInv(Throttling(noTrailing), delay, es);
    hide LastCall, InOrder;
  }

  // ---------------------------------------------------------------- timers on time

  /** No event comes after a live timer was due. */
  ghost predicate OnTime(s: State, e: Event) {
    forall id :: id in s.live ==> e.at <= s.live[id].due
  }

  ghost predicate PromptRun(m: Mode, delay: nat, es: seq<Event>)
    decreases |es|
  {
    LegalRun(m, delay, es) &&
    (es == [] || (PromptRun(m, delay, es[..|es| - 1]) && OnTime(Run(m, delay, es[..|es| - 1]), es[|es| - 1])))
  }

  /** The call at place i of the log was followed by an execution within delay, or one is pending. */
  ghost predicate AnsweredAt(delay: nat, s: State, i: nat)
    requires i < |s.log|
  {
    || (exists j :: i < j < |s.log| && s.log[j].Executed? && s.log[j].at <= s.log[i].at + delay)
    || (exists id :: id in s.live && s.live[id].due <= s.log[i].at + delay)
  }

  ghost predicate Answered(delay: nat, s: State) {
    forall i :: 0 <= i < |s.log| && s.log[i].Called? ==> AnsweredAt(delay, s, i)
  }

  lemma AnsweredStep(delay: nat, s: State, e: Event)
    requires Inv(Throttling(false), delay, s) && Legal(s, e) && OnTime(s, e) && Answered(delay, s)
    ensures Answered(delay, Step(Throttling(false), delay, s, e))
  {
    hide LastCall;
    var s' := Step(Throttling(false), delay, s, e);
    forall i | 0 <= i < |s'.log| && s'.log[i].Called? ensures AnsweredAt(delay, s', i) {
      if i < |s.log| {
        assert s'.log[i] == s.log[i] && AnsweredAt(delay, s, i);
        if exists j :: i < j < |s.log| && s.log[j].Executed? && s.log[j].at <= s.log[i].at + delay {
          var j :| i < j < |s.log| && s.log[j].Executed? && s.log[j].at <= s.log[i].at + delay;
          assert s'.log[j] == s.log[j];
        } else {
          StillAnswered(delay, s, e, i);
        }
      } else if e.at - s.lastExec > delay {
        assert s'.log[i + 1] == Executed(e.at);
      } else {
        assert s'.timeoutId in s'.live;
      }
    }
  }

  lemma StillAnswered(delay: nat, s: State, e: Event, i: nat)
    requires Inv(Throttling(false), delay, s) && Legal(s, e) && OnTime(s, e)
    requires i < |s.log| && exists id :: id in s.live && s.live[id].due <= s.log[i].at + delay
    ensures AnsweredAt(delay, Step(Throttling(false), delay, s, e), i)
  {
    hide LastCall, InOrder;
    var s' := Step(Throttling(false), delay, s, e);
    if e.Fire? || e.at - s.lastExec > delay {
      assert s'.log[|s'.log| - 1] == Executed(e.at);
    } else {
      assert s'.timeoutId in s'.live;
    }
  }

  /** With timers on time no call of a trailing throttle is lost: an execution follows within delay. */
  lemma {:induction false} NoCallIsLost(delay: nat, es: seq<Event>)
    requires PromptRun(Throttling(false), delay, es)
    ensures Answered(delay, Run(Throttling(false), delay, es))
    decreases |es|
  {
    if es != [] {
      hide Step, Inv, Answered, OnTime, Legal;
      NoCallIsLost(delay, es[..|es| - 1]);
      RunKeepsInv(Throttling(false), delay, es[..|es| - 1]);
      AnsweredStep(delay, Run(Throttling(false), delay, es[..|es| - 1]), es[|es| - 1]);
    }
  }

  // ---------------------------------------------------------------- debounce at the end

  /** Every execution answers the call right before it in the log, at least delay later. */
  ghost predicate AfterQuiet(delay: nat, log: seq<Entry>) {
    forall j :: 0 <= j < |log| && log[j].Executed? ==> j > 0 && log[j - 1].Called? && log[j - 1].at + delay <= log[j].at
  }

  /** A call is followed by its execution exactly delay later, or by another call by then. */
  ghost predicate Punctual(delay: nat, log: seq<Entry>) {
    forall i :: 0 <= i < |log| - 1 && log[i].Called? ==>
      if log[i + 1].Executed? then log[i + 1].at == log[i].at + delay else log[i + 1].at <= log[i].at + delay
  }

  lemma QuietStep(delay: nat, s: State, e: Event)
    requires Inv(AtEnd, delay, s) && Legal(s, e)
    ensures AfterQuiet(delay, s.log) ==> AfterQuiet(delay, Step(AtEnd, delay, s, e).log)
    ensures OnTime(s, e) && Punctual(delay, s.log) ==> Punctual(delay, Step(AtEnd, delay, s, e).log)
  {
    hide LastCall, InOrder;
  }

  /** Debouncing at the end executes only after delay without a call, once. */
  lemma {:induction false} EndDebounceWaits(delay: nat, es: seq<Event>)
    requires LegalRun(AtEnd, delay, es)
    ensures AfterQuiet(delay, Run(AtEnd, delay, es).log)
    ensures PromptRun(AtEnd, delay, es) ==> Punctual(delay, Run(AtEnd, delay, es).log)
    decreases |es|
  {
    if es != [] {
      hide Step, Inv, AfterQuiet, Punctual, Legal, OnTime;
      EndDebounceWaits(delay, es[..|es| - 1]);
      RunKeepsInv(AtEnd, delay, es[..|es| - 1]);
      QuietStep(delay, Run(AtEnd, delay, es[..|es| - 1]), es[|es| - 1]);
    }
  }

  // ---------------------------------------------------------------- debounce at the beginning

  ghost predicate Runs(log: seq<Entry>, i: nat) {
    i + 1 < |log| && log[i + 1].Executed?
  }

  /** The calls at k and i with none between them. */
  ghost predicate NextCall(log: seq<Entry>, k: nat, i: nat) {
    k < i < |log| && log[k].Called? && log[i].Called? && forall j :: k < j < i ==> log[j].Executed?
  }

  /** Executions come with calls; the first call runs, and a later one only delay after its predecessor. */
  ghost predicate AtBursts(delay: nat, log: seq<Entry>) {
    && (forall j :: 0 <= j < |log| && log[j].Executed? ==> j > 0 && log[j - 1] == Called(log[j].at))
    && (log != [] ==> Runs(log, 0))
    && (forall k: nat, i: nat :: NextCall(log, k, i) && Runs(log, i) ==> log[k].at + delay <= log[i].at)
  }

  /** And a call that does not run comes within delay of its predecessor. */
  ghost predicate OnlyAtBursts(delay: nat, log: seq<Entry>) {
    forall k: nat, i: nat :: NextCall(log, k, i) && !Runs(log, i) ==> log[i].at <= log[k].at + delay
  }

  lemma NextCallAfter(log: seq<Entry>, log': seq<Entry>, k: nat, i: nat)
    requires log <= log' && |log'| <= |log| + 2 && NextCall(log', k, i)
    requires |log'| > |log| ==> log'[|log|].Called?
    requires |log'| > |log| + 1 ==> log'[|log| + 1].Executed?
    ensures i < |log| ==> NextCall(log, k, i) && (Runs(log', i) <==> Runs(log, i))
    ensures i >= |log| ==> i == |log| && k == LastCall(log)
  {
  }

  lemma BurstStep(delay: nat, s: State, e: Event)
    requires Inv(AtBegin, delay, s) && Legal(s, e)
    ensures AtBursts(delay, s.log) ==> AtBursts(delay, Step(AtBegin, delay, s, e).log)
    ensures OnTime(s, e) && OnlyAtBursts(delay, s.log) ==> OnlyAtBursts(delay, Step(AtBegin, delay, s, e).log)
  {
    hide LastCall, InOrder, NextCall;
    var log' := Step(AtBegin, delay, s, e).log;
    forall k: nat, i: nat | NextCall(log', k, i)
      ensures i < |s.log| ==> NextCall(s.log, k, i) && (Runs(log', i) <==> Runs(s.log, i))
      ensures i >= |s.log| ==> i == |s.log| && k == LastCall(s.log)
      ensures k < i < |log'|
    {
      NextCallAfter(s.log, log', k, i);
      NextCallBounds(log', k, i);
    }
  }

  lemma NextCallBounds(log: seq<Entry>, k: nat, i: nat)
    requires NextCall(log, k, i)
    ensures k < i < |log|
  {
  }

  /** Debouncing at the beginning executes exactly at the calls that begin a burst. */
  lemma {:induction false} BeginDebounceRuns(delay: nat, es: seq<Event>)
    requires LegalRun(AtBegin, delay, es)
    ensures AtBursts(delay, Run(AtBegin, delay, es).log)
    ensures PromptRun(AtBegin, delay, es) ==> OnlyAtBursts(delay, Run(AtBegin, delay, es).log)
    decreases |es|
  {
    if es != [] {
      hide Step, Inv, AtBursts, OnlyAtBursts, Legal, OnTime;
      BeginDebounceRuns(delay, es[..|es| - 1]);
      RunKeepsInv(AtBegin, delay, es[..|es| - 1]);
      BurstStep(delay, Run(AtBegin, delay, es[..|es| - 1]), es[|es| - 1]);
    }
  }
}
