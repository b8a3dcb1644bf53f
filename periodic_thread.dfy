/**
 * The start of the library's periodic thread (`doThread`, `threadNow`) and the
 * interposed `sigaction` that keeps an application's SIGUSR2 handler aside, in
 * src/wrap.c. The thread is created at most once. `doThread` starts it only
 * after the control channel exists and the configured start time has come;
 * `threadNow`, which the SIGUSR2 timer also calls, checks neither. Calls are modelled
 * one after another; the compare-and-swap that serialises `threadNow` is not
 * part of this model.
 */
module PeriodicThread {
  import opened Types

  /** SIGUSR2 on Linux. */
  const SIGUSR2 := 12

  /**
   * The fields of `g_thread` that gating uses (`once`, `startTime`, `act`),
   * `g_replacehandler`, and two records of effects: how many times
   * `pthread_create` started the thread, and the handlers re-installed
   * through the real `sigaction`.
   */
  datatype Timing = Timing(
    once: bool, startTime: int, act: Option<Handler>, replaceHandler: bool,
    created: nat, restored: seq<Handler>)

  /** `threadNow`: `createOk` is what `pthread_create` answers. */
  function ThreadNowStep(t: Timing, createOk: bool, haveSigaction: bool): (r: Timing)
    // once started, nothing more happens
    ensures t.once ==> r == t
    // a failed create changes nothing, `once` included
    ensures !createOk ==> r == t
    // otherwise exactly one thread is created and `once` becomes true
    ensures !t.once && createOk ==> r.once && r.created == t.created + 1
    ensures r.startTime == t.startTime && r.replaceHandler == t.replaceHandler
    // a saved handler is put back only on the successful start, and only when asked for
    ensures r.restored != t.restored ==>
              !t.once && createOk && t.replaceHandler && haveSigaction && t.act.Some? &&
              r.restored == t.restored + [t.act.value] && r.act == None
    ensures r.restored == t.restored ==> r.act == t.act
    // and it is put back whenever the thread starts with all of those holding
    ensures !t.once && createOk && t.replaceHandler && haveSigaction && t.act.Some? ==>
              r.restored == t.restored + [t.act.value] && r.act == None
  {
    if t.once then t
    else if !createOk then t
    else
      var started := t.(once := true, created := t.created + 1);
      if t.replaceHandler && t.act.Some? && haveSigaction then
        started.(restored := t.restored + [t.act.value], act := None)
      else started
  }

  /** `doThread`: `ctlExists` is `g_ctl != NULL`, `now` is `time(NULL)`. */
  function DoThreadStep(t: Timing, ctlExists: bool, now: int, createOk: bool, haveSigaction: bool): (r: Timing)
    // a thread is created exactly when all four conditions hold
    ensures r.created != t.created <==> ctlExists && !t.once && now >= t.startTime && createOk
    ensures r.once != t.once <==> r.created != t.created
    // before the control channel exists or before the start time, nothing changes
    ensures !ctlExists || now < t.startTime ==> r == t
    ensures t.once ==> r == t
    // a failed pthread_create leaves everything as it was
    ensures !createOk ==> r == t
    // once the gate is open, the call is a threadNow
    ensures ctlExists && !t.once && now >= t.startTime ==> r == ThreadNowStep(t, createOk, haveSigaction)
  {
    if !ctlExists then t
    else if t.once then t
    else if now >= t.startTime then ThreadNowStep(t, createOk, haveSigaction)
    else t
  }

  /**
   * The interposed `sigaction`: a SIGUSR2 handler is only remembered and 0 is
   * returned; every other call goes to the real `sigaction`, whose answer is
   * `realRc`.
   */
  datatype SigOutcome = SigOutcome(t: Timing, rc: int, forwarded: bool)

  function SigactionStep(t: Timing, signum: int, act: Option<Handler>, realRc: int): (o: SigOutcome)
    ensures o.forwarded <==> !(signum == SIGUSR2 && act.Some?)
    ensures o.forwarded ==> o.t == t && o.rc == realRc
    ensures !o.forwarded ==> o.t == t.(act := act) && o.rc == 0
  {
    if signum == SIGUSR2 && act.Some? then SigOutcome(t.(act := act), 0, false)
    else SigOutcome(t, realRc, true)
  }

  /** The calls a process makes that reach this state. */
  datatype Event =
    | DoThreadCall(ctlExists: bool, now: int, createOk: bool, haveSigaction: bool)
    | TimerSignal(createOk: bool, haveSigaction: bool)   // threadNow from the SIGUSR2 timer
    | SigactionCall(signum: int, act: Option<Handler>, realRc: int)

  function Step(t: Timing, ev: Event): Timing
  {
    match ev
    case DoThreadCall(c, now, ok, sig) => DoThreadStep(t, c, now, ok, sig)
    case TimerSignal(ok, sig) => ThreadNowStep(t, ok, sig)
    case SigactionCall(s, a, rc) => SigactionStep(t, s, a, rc).t
  }

  function Run(t: Timing, evs: seq<Event>): Timing
    decreases |evs|
  {
    if evs == [] then t else Run(Step(t, evs[0]), evs[1..])
  }

  /** The state before any call: nothing started, no handler kept. */
  predicate Initial(t: Timing) {
    !t.once && t.created == 0 && t.act.None? && !t.replaceHandler && t.restored == []
  }

  /**
   * At most one periodic thread: from any state where `once` records whether
   * the thread was created, every run of calls keeps that so, and so never
   * creates a second thread.
   */
  lemma {:induction false} AtMostOneThread(t: Timing, evs: seq<Event>)
    requires t.created == (if t.once then 1 else 0)
    ensures var r := Run(t, evs); r.created == (if r.once then 1 else 0) && r.created <= 1
    decreases |evs|
  {
    if evs != [] {
      AtMostOneThread(Step(t, evs[0]), evs[1..]);
    }
  }

  /** Once the thread is running, no run of calls creates another. */
  lemma {:induction false} StartedStaysStarted(t: Timing, evs: seq<Event>)
    requires t.once
    ensures Run(t, evs).once && Run(t, evs).created == t.created
    decreases |evs|
  {
    if evs != [] {
      assert Step(t, evs[0]).once && Step(t, evs[0]).created == t.created;
      StartedStaysStarted(Step(t, evs[0]), evs[1..]);
    }
  }

  /**
   * `g_replacehandler` starts FALSE and nothing in src/wrap.c sets it, so a
   * SIGUSR2 handler an application passes to `sigaction` is kept in
   * `g_thread.act` and never installed: over any run of calls no handler is
   * restored.
   */
  lemma {:induction false} CapturedHandlerNeverRestored(t: Timing, evs: seq<Event>)
    requires !t.replaceHandler
    ensures Run(t, evs).restored == t.restored && !Run(t, evs).replaceHandler
    decreases |evs|
  {
    if evs != [] {
      CapturedHandlerNeverRestored(Step(t, evs[0]), evs[1..]);
    }
  }

  /** `g_thread` with the effects of the calls above. */
  class ThreadTiming {
    var once: bool
    var startTime: int
    var act: Option<Handler>
    var replaceHandler: bool
    var created: nat
    var restored: seq<Handler>

    function Snapshot(): Timing
      reads this
    {
      Timing(once, startTime, act, replaceHandler, created, restored)
    }

    /** `g_thread` as the constructor's doConfig leaves it, start time set. */
    constructor (startTime: int)
      ensures Initial(Snapshot()) && Snapshot().startTime == startTime
    {
      once, this.startTime, act, replaceHandler := false, startTime, None, false;
      created, restored := 0, [];
    }

    method ThreadNow(createOk: bool, haveSigaction: bool)
      modifies this
      ensures Snapshot() == ThreadNowStep(old(Snapshot()), createOk, haveSigaction)
    {
      // Create one thread at most
      if once {
        return;
      }
      if !createOk {
        return;
      }
      created := created + 1;
      once := true;
      // Restore a handler if one exists
      if replaceHandler && act.Some? {
        if haveSigaction {
          restored := restored + [act.value];
          act := None;
        }
      }
    }

    method DoThread(ctlExists: bool, now: int, createOk: bool, haveSigaction: bool)
      modifies this
      ensures Snapshot() == DoThreadStep(old(Snapshot()), ctlExists, now, createOk, haveSigaction)
    {
      if !ctlExists {
        return;
      }
      if once {
        return;
      }
      if now >= startTime {
        ThreadNow(createOk, haveSigaction);
      }
    }

    method Sigaction(signum: int, newAct: Option<Handler>, realRc: int) returns (rc: int)
      modifies this
      ensures var o := SigactionStep(old(Snapshot()), signum, newAct, realRc);
        Snapshot() == o.t && rc == o.rc
    {
      if signum == SIGUSR2 && newAct.Some? {
        act := newAct;
        return 0;
      }
      rc := realRc;
    }
  }
}
