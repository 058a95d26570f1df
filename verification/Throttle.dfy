/** $.throttle and $.debounce: the closure around a callback, and the timers it sets. */
module Throttles {
  import opened ThrottleTheory

  /** An argument of $.throttle or $.debounce. */
  datatype Arg = Undefined | Bool(b: bool) | Callback

  /** How $.throttle reads its arguments: a second one that is no boolean is the callback, and then
      the third is debounce_mode. */
  function ModeOf(noTrailing: Arg, callback: Arg, debounceMode: Arg): Mode
    requires if noTrailing.Bool? then callback.Callback? && !debounceMode.Callback?
             else noTrailing.Callback? && !callback.Callback?
    requires noTrailing == Bool(true) ==> debounceMode.Undefined?
  {
    var mode, trailing := if noTrailing.Bool? then debounceMode else callback,
                          if noTrailing.Bool? then noTrailing else Undefined;
    match mode
    case Bool(true) => AtBegin
    case Bool(false) => AtEnd
    case _ => Throttling(trailing == Bool(true))
  }

  /** How $.debounce calls $.throttle. */
  function DebounceMode(atBegin: Arg, callback: Arg): Mode
    requires if callback.Undefined? then atBegin.Callback? else callback.Callback?
  {
    if callback.Undefined? then ModeOf(atBegin, Bool(false), Undefined)
    else ModeOf(callback, Bool(atBegin != Bool(false)), Undefined)
  }

  /** A debounced function waits for the end if at_begin is left out or false; passing undefined for
      it, which the documentation counts as false, makes it run at the beginning. */
  lemma DebounceModes(atBegin: Arg)
    ensures DebounceMode(Callback, Undefined) == AtEnd
    ensures DebounceMode(atBegin, Callback) == AtEnd <==> atBegin == Bool(false)
    ensures DebounceMode(Undefined, Callback) == AtBegin
  {
  }

  /** A throttled function has its trailing execution unless the boolean in front of the callback is
      true. */
  lemma ThrottleModes(b: bool)
    ensures ModeOf(Callback, Undefined, Undefined) == Throttling(false)
    ensures ModeOf(Bool(b), Callback, Undefined) == Throttling(b)
  {
  }

  /** After $.throttle(delay, callback) a call that does not execute leaves an execution pending for
      delay after the last one; after $.throttle(delay, true, callback) nothing is ever pending. */
  lemma TrailingByArguments(delay: nat, es: seq<Event>, t: int)
    ensures var m := ModeOf(Callback, Undefined, Undefined);
            LegalRun(m, delay, es + [Call(t)]) ==>
              && LegalRun(m, delay, es)
              && var r, s := Run(m, delay, es), Run(m, delay, es + [Call(t)]);
              t - r.lastExec <= delay ==> s.log == r.log + [Called(t)] && Pending(s, r.lastExec + delay)
    ensures var m := ModeOf(Bool(true), Callback, Undefined);
            LegalRun(m, delay, es) ==> Run(m, delay, es).live == map[]
  {
    hide Run, LegalRun;
    if LegalRun(Throttling(false), delay, es + [Call(t)]) { CallExecutesOrWaits(false, delay, es, t); }
    if LegalRun(Throttling(true), delay, es) { RunKeepsInv(Throttling(true), delay, es); }
  }

  class Wrapper {
    const mode: Mode
    const delay: nat
    var timeoutId: nat
    var lastExec: int

    /** The window's timers that this wrapper has set, and the next id. */
    var live: map<nat, Timer>
    var nextId: nat

    /** What has happened, and when the last of it did. */
    ghost var now: int
    ghost var log: seq<Entry>

    ghost function Current(): State
      reads this
    {
      State(timeoutId, lastExec, live, nextId, now, log)
    }

    constructor Throttle(delay: nat, noTrailing: Arg, callback: Arg)
      requires if noTrailing.Bool? then callback.Callback? else noTrailing.Callback? && callback.Undefined?
      ensures mode == Throttling(noTrailing == Bool(true)) && this.delay == delay && Current() == START
    {
      mode, this.delay := ModeOf(noTrailing, callback, Undefined), delay;
      timeoutId, lastExec, live, nextId, now, log := 0, 0, map[], 1, 0, [];
    }

    constructor Debounce(delay: nat, atBegin: Arg, callback: Arg)
      requires if callback.Undefined? then atBegin.Callback? else callback.Callback?
      ensures mode == if callback.Undefined? || atBegin == Bool(false) then AtEnd else AtBegin
      ensures this.delay == delay && Current() == START
    {
      mode, this.delay := DebounceMode(atBegin, callback), delay;
      timeoutId, lastExec, live, nextId, now, log := 0, 0, map[], 1, 0, [];
    }

    method SetTimeout(due: int, clears: bool) returns (id: nat)
      modifies this`live, this`nextId
      ensures id == old(nextId) && nextId == id + 1 && live == old(live)[id := Timer(due, clears)]
    {
      id := nextId;
      live := live[id := Timer(due, clears)];
      nextId := nextId + 1;
    }

    method ClearTimeout(id: nat)
      modifies this`live
      ensures live == old(live) - {id}
    {
      live := live - {id};
    }

    method Exec(t: int)
      modifies this`lastExec, this`log
      ensures lastExec == t && log == old(log) + [Executed(t)]
    {
      lastExec := t;
      log := log + [Executed(t)];
    }

    /** wrapper(), at time t */
    method Call(t: int)
      modifies this
      ensures Current() == AfterCall(mode, delay, old(Current()), t)
    {
      var elapsed := t - lastExec;
      now, log := t, log + [Called(t)];
      if mode.AtBegin? && timeoutId == 0 { Exec(t); }
      if timeoutId != 0 { ClearTimeout(timeoutId); }
      if mode.Throttling? && elapsed > delay {
        Exec(t);
      } else if !(mode.Throttling? && mode.noTrailing) {
        timeoutId := SetTimeout(t + if mode.Throttling? then delay - elapsed else delay, mode.AtBegin?);
      }
    }

    /** A timer's turn, at time t */
    method Fire(id: nat, t: int)
      requires id in live
      modifies this
      ensures Current() == AfterFire(old(Current()), id, t)
    {
      var timer := live[id];
      live, now := live - {id}, t;
      if timer.clears { timeoutId := 0; } else { Exec(t); }
    }

    /** A trace of calls and timers that fire, from the start. */
    method Play(es: seq<Event>)
      requires LegalRun(mode, delay, es) && Current() == START
      modifies this
      ensures Current() == Run(mode, delay, es)
    {
      for i := 0 to |es|
        invariant LegalRun(mode, delay, es[..i]) && Current() == Run(mode, delay, es[..i])
      {
        LegalPrefix(mode, delay, es, i + 1);
        assert es[..i + 1][..i] == es[..i];
        match es[i]
        case Call(t) => Call(t);
        case Fire(id, t) => Fire(id, t);
      }
      assert es[..|es|] == es;
    }
  }

  lemma {:induction false} LegalPrefix(m: Mode, delay: nat, es: seq<Event>, i: nat)
    requires LegalRun(m, delay, es) && i <= |es|
    ensures LegalRun(m, delay, es[..i])
    decreases |es|
  {
    if i < |es| {
      LegalPrefix(m, delay, es[..|es| - 1], i);
      assert es[..|es| - 1][..i] == es[..i];
    } else {
      assert es[..i] == es;
    }
  }
}
