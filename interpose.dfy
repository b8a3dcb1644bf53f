/**
 * Bookkeeping rules of the interposed wrappers in src/wrap.c: the per-thread
 * flag that keeps `getdelim` from being counted twice when the C library's
 * `getdelim` re-enters the interposed `__getdelim`, and the paths of
 * `connect`, `accept` and `accept4` for a connection the library blocks.
 * Whether a connection is blocked (`doBlockConnection`) and what the real
 * calls return are inputs.
 */
module Interpose {
  import opened Types

  // ---------------------------------------------------------------------
  // getdelim / __getdelim
  // ---------------------------------------------------------------------

  /** A call of `doRead`: which wrapper, whether the call succeeded, the byte count. */
  datatype ReadReport = ReadReport(fn: string, ok: bool, bytes: int)

  /** `(n) ? *n : 0` */
  function BytesOf(n: Option<nat>): nat {
    match n
    case None => 0
    case Some(k) => k
  }

  /**
   * A call an application makes: `getdelim` (whose real implementation calls
   * back into the interposed `__getdelim` when `reenters`), or `__getdelim`
   * directly. `rc` is the real call's return value and `n` the buffer size it
   * leaves.
   */
  datatype ReadCall =
    | GetdelimCall(rc: int, n: Option<nat>, reenters: bool)
    | DunderCall(rc: int, n: Option<nat>)

  datatype ReadState = ReadState(flag: int, reports: seq<ReadReport>)

  /** The interposed `__getdelim` after the real one returned. */
  function DunderStep(s: ReadState, rc: int, n: Option<nat>): (r: ReadState)
    // a call made on behalf of getdelim clears the flag and is not reported
    ensures s.flag == 1 ==> r == ReadState(0, s.reports)
    // a direct call is reported once and leaves the flag alone
    ensures s.flag != 1 ==> r.flag == s.flag && r.reports == s.reports + [ReadReport("__getdelim", rc != -1, BytesOf(n))]
  {
    if s.flag == 1 then s.(flag := 0)
    else s.(reports := s.reports + [ReadReport("__getdelim", rc != -1, BytesOf(n))])
  }

  function ReadStep(s: ReadState, call: ReadCall): ReadState
  {
    match call
    case GetdelimCall(rc, n, reenters) =>
      var inner := if reenters then DunderStep(s.(flag := 1), rc, n) else s.(flag := 1);
      inner.(reports := inner.reports + [ReadReport("getdelim", rc != -1, BytesOf(n))])
    case DunderCall(rc, n) => DunderStep(s, rc, n)
  }

  function ReadRun(s: ReadState, calls: seq<ReadCall>): ReadState
    decreases |calls|
  {
    if calls == [] then s else ReadRun(ReadStep(s, calls[0]), calls[1..])
  }

  /** The report a call the application made should produce. */
  function Report(c: ReadCall): ReadReport {
    ReadReport(if c.GetdelimCall? then "getdelim" else "__getdelim", c.rc != -1, BytesOf(c.n))
  }

  /** One report per call, in the order of the calls. */
  function Expected(calls: seq<ReadCall>): (r: seq<ReadReport>)
    ensures |r| == |calls|
  {
    seq(|calls|, k requires 0 <= k < |calls| => Report(calls[k]))
  }

  predicate Reenters(c: ReadCall) {
    c.DunderCall? || c.reenters
  }

  /**
   * No double counting: when every `getdelim` re-enters `__getdelim`, a run
   * that starts with the flag clear keeps it clear and reports each call the
   * application made exactly once, under the name it called, in order.
   */
  lemma {:induction false} OneReportPerCall(s: ReadState, calls: seq<ReadCall>)
    requires s.flag == 0
    requires forall k :: 0 <= k < |calls| ==> Reenters(calls[k])
    ensures ReadRun(s, calls) == ReadState(0, s.reports + Expected(calls))
    decreases |calls|
  {
    if calls == [] {
      assert s.reports + Expected(calls) == s.reports;
    } else {
      var s1 := ReadStep(s, calls[0]);
      assert s1 == ReadState(0, s.reports + [Report(calls[0])]);
      var rest := calls[1..];
      assert forall k :: 0 <= k < |rest| ==> Reenters(rest[k]) by {
        forall k | 0 <= k < |rest| ensures Reenters(rest[k]) {
          assert rest[k] == calls[k + 1];
        }
      }
      OneReportPerCall(s1, rest);
      assert Expected(calls) == [Report(calls[0])] + Expected(rest);
      assert s1.reports + Expected(rest) == s.reports + Expected(calls);
    }
  }

  /**
   * The flag is what makes the rule depend on re-entry: a `getdelim` whose
   * real implementation does not call back leaves the flag set, and the next
   * direct `__getdelim` is then not reported.
   */
  lemma UnmatchedGetdelimHidesNextDunder(s: ReadState, rc1: int, n1: Option<nat>, rc2: int, n2: Option<nat>)
    ensures var r := ReadRun(s, [GetdelimCall(rc1, n1, false), DunderCall(rc2, n2)]);
      r == ReadState(0, s.reports + [Report(GetdelimCall(rc1, n1, false))])
  {
    var calls := [GetdelimCall(rc1, n1, false), DunderCall(rc2, n2)];
    var s1 := ReadStep(s, calls[0]);
    assert s1 == ReadState(1, s.reports + [Report(calls[0])]);
    var s2 := ReadStep(s1, calls[1]);
    assert s2 == ReadState(0, s1.reports);
    assert calls[1..] == [calls[1]] && calls[1..][1..] == [];
    assert ReadRun(s, calls) == ReadRun(s1, calls[1..]) == ReadRun(s2, []);
  }

  /** The thread-local flag `g_getdelim` and the reads reported to `doRead`. */
  class ReadFlag {
    var getdelim: int
    var reports: seq<ReadReport>

    function Snapshot(): ReadState
      reads this
    {
      ReadState(getdelim, reports)
    }

    constructor ()
      ensures Snapshot() == ReadState(0, [])
    {
      getdelim, reports := 0, [];
    }

    /** The interposed `__getdelim`; the real call returned `rc` and left `*n`. */
    method Dunder(rc: int, n: Option<nat>) returns (r: int)
      modifies this
      ensures r == rc && Snapshot() == DunderStep(old(Snapshot()), rc, n)
    {
      if getdelim == 1 {
        getdelim := 0;
        return rc;
      }
      reports := reports + [ReadReport("__getdelim", rc != -1, BytesOf(n))];
      r := rc;
    }

    /** The interposed `getdelim`. */
    method Getdelim(rc: int, n: Option<nat>, reenters: bool) returns (r: int)
      modifies this
      ensures r == rc && Snapshot() == ReadStep(old(Snapshot()), GetdelimCall(rc, n, reenters))
    {
      getdelim := 1;
      if reenters {
        // the C library's getdelim calls the interposed __getdelim
        var _ := Dunder(rc, n);
      }
      reports := reports + [ReadReport("getdelim", rc != -1, BytesOf(n))];
      r := rc;
    }
  }

  // ---------------------------------------------------------------------
  // Blocked connections
  // ---------------------------------------------------------------------

  datatype Errno = ECONNREFUSED | ECONNABORTED

  /** What a wrapper tells the state tracker, and the descriptors it closes. */
  datatype NetEvent = Connected(fd: int) | ConnError(fd: int) | Accepted(sd: int) | ClosedFd(fd: int)

  /** The return value, the `errno` the wrapper sets itself, whether the real call was made. */
  datatype CallResult = CallResult(ret: int, errno: Option<Errno>, calledReal: bool, events: seq<NetEvent>)

  /** `connect`: `realRc` is what the real `connect` would return. */
  function Connect(sockfd: int, blocked: bool, realRc: int): (r: CallResult)
    // a blocked connection is refused without going to the network
    ensures blocked ==> r == CallResult(-1, Some(ECONNREFUSED), false, [])
    ensures r.calledReal <==> !blocked
    // otherwise the real result is returned and sets errno itself
    ensures !blocked ==> r.ret == realRc && r.errno.None?
    // a connection is recorded exactly when one was made
    ensures Connected(sockfd) in r.events <==> !blocked && realRc != -1
    // a failed real connect is recorded as a connection error on the socket
    ensures !blocked && realRc == -1 ==> r.events == [ConnError(sockfd)]
    ensures |r.events| == (if blocked then 0 else 1)
  {
    if blocked then CallResult(-1, Some(ECONNREFUSED), false, [])
    else if realRc != -1 then CallResult(realRc, None, true, [Connected(sockfd)])
    else CallResult(realRc, None, true, [ConnError(sockfd)])
  }

  /**
   * `accept` and `accept4` (and `accept$NOCANCEL`): `sd` is what the real call
   * returned, `haveClose` whether the real `close` was resolved.
   */
  function Accept(sockfd: int, blocked: bool, sd: int, haveClose: bool): (r: CallResult)
    ensures r.calledReal
    // a blocked peer is refused after the fact: -1 with ECONNABORTED, its descriptor closed
    ensures sd != -1 && blocked ==>
              r.ret == -1 && r.errno == Some(ECONNABORTED) &&
              (ClosedFd(sd) in r.events <==> haveClose)
    // otherwise the real result goes back unchanged
    ensures !(sd != -1 && blocked) ==> r.ret == sd && r.errno.None? && ClosedFd(sd) !in r.events
    // an accept is recorded exactly for the descriptor of an unblocked, successful call
    ensures forall x :: Accepted(x) in r.events <==> x == sd && sd != -1 && !blocked
    // a failed real accept is recorded as a connection error on the listening socket
    ensures sd == -1 ==> r.events == [ConnError(sockfd)]
  {
    if sd != -1 && blocked then
      CallResult(-1, Some(ECONNABORTED), true, if haveClose then [ClosedFd(sd)] else [])
    else if sd != -1 then CallResult(sd, None, true, [Accepted(sd)])
    else CallResult(sd, None, true, [ConnError(sockfd)])
  }

  /** One accepted peer: the listening socket, the blocking verdict, the real result. */
  datatype AcceptCall = AcceptCall(sockfd: int, blocked: bool, sd: int)

  /** What a run of accepts records, with `close` resolved. */
  function AcceptEvents(calls: seq<AcceptCall>): seq<NetEvent>
  {
    if calls == [] then []
    else AcceptEvents(calls[..|calls| - 1]) +
         Accept(calls[|calls| - 1].sockfd, calls[|calls| - 1].blocked, calls[|calls| - 1].sd, true).events
  }

  /**
   * Over a run of accepts, a descriptor is recorded as accepted exactly when
   * some unblocked call returned it, and every descriptor a blocked call
   * returned is closed.
   */
  lemma {:induction false} AcceptRunRecordsExactlyUnblocked(calls: seq<AcceptCall>)
    ensures forall x :: Accepted(x) in AcceptEvents(calls) ==>
              exists k :: 0 <= k < |calls| && calls[k].sd == x && x != -1 && !calls[k].blocked
    ensures forall k :: 0 <= k < |calls| && !calls[k].blocked && calls[k].sd != -1 ==>
              Accepted(calls[k].sd) in AcceptEvents(calls)
    ensures forall k :: 0 <= k < |calls| && calls[k].blocked && calls[k].sd != -1 ==>
              ClosedFd(calls[k].sd) in AcceptEvents(calls)
  {
    if calls != [] {
      var init := calls[..|calls| - 1];
      var last := calls[|calls| - 1];
      AcceptRunRecordsExactlyUnblocked(init);
      var evs := AcceptEvents(calls);
      assert evs == AcceptEvents(init) + Accept(last.sockfd, last.blocked, last.sd, true).events;
      forall x | Accepted(x) in evs
        ensures exists k :: 0 <= k < |calls| && calls[k].sd == x && x != -1 && !calls[k].blocked
      {
        if Accepted(x) in AcceptEvents(init) {
          var k :| 0 <= k < |init| && init[k].sd == x && x != -1 && !init[k].blocked;
          assert calls[k] == init[k];
        } else {
          assert calls[|calls| - 1] == last;
        }
      }
      forall k | 0 <= k < |calls| && !calls[k].blocked && calls[k].sd != -1
        ensures Accepted(calls[k].sd) in evs
      {
        if k < |init| {
          assert init[k] == calls[k];
        }
      }
      forall k | 0 <= k < |calls| && calls[k].blocked && calls[k].sd != -1
        ensures ClosedFd(calls[k].sd) in evs
      {
        if k < |init| {
          assert init[k] == calls[k];
        }
      }
    }
  }
}
