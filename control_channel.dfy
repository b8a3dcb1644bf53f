/**
 * The control channel of the library (`remoteConfig` in src/wrap.c): the
 * readiness test on `poll`'s answer, the bounded receive loop that copies
 * chunks into a temporary file until one ends a message, and the dispatch of
 * the parsed request onto the runtime configuration.
 *
 * Everything the operating system or the command parser answers is an input:
 * `recv` and `fwrite` outcomes are given per attempt by an oracle function,
 * and `cmdParse` is a function from the received bytes to a request.
 */
module ControlChannel {
  import opened Types

  // ---------------------------------------------------------------------
  // Poll readiness
  // ---------------------------------------------------------------------

  /** `revents` bits as Linux defines them. */
  const POLLIN: bv16 := 0x001
  const POLLHUP: bv16 := 0x010
  const POLLNVAL: bv16 := 0x020

  /**
   * remoteConfig reads the channel only when poll returned a positive count
   * and the returned events are exactly "readable" among the three bits it
   * inspects: POLLIN set, POLLHUP and POLLNVAL clear. The body keeps the
   * source's two early-return tests; the ensures is the same condition as a
   * single mask comparison.
   */
  predicate PollReady(rc: int, revents: bv16)
    ensures PollReady(rc, revents) <==>
              rc > 0 && revents & (POLLIN | POLLHUP | POLLNVAL) == POLLIN
    ensures PollReady(rc, revents) ==> revents != 0
  {
    !(rc < 0) &&
    !(rc == 0 || revents == 0 || revents & POLLIN == 0 ||
      revents & POLLHUP != 0 || revents & POLLNVAL != 0)
  }

  // ---------------------------------------------------------------------
  // The receive loop
  // ---------------------------------------------------------------------

  const NEWLINE: byte := 0x0A

  /**
   * What one pass of the loop sees: the bytes `recv` delivered (the empty
   * sequence stands for a return value <= 0, an error or an orderly
   * shutdown) and whether `fwrite` of those bytes to the temporary file
   * succeeded.
   */
  datatype Attempt = Attempt(data: seq<byte>, written: bool)

  /** An attempt after which the loop goes round again (unless out of tries). */
  predicate Continues(a: Attempt) {
    a.data != [] && a.written && NEWLINE !in a.data
  }

  /** An attempt that ends the message: received, stored, holds a newline. */
  predicate EndsMessage(a: Attempt) {
    a.data != [] && a.written && NEWLINE in a.data
  }

  /** Every attempt before the `n`-th one continued the loop. */
  ghost predicate ContinuesBefore(recv: nat -> Attempt, n: nat) {
    forall i: nat :: i < n ==> Continues(recv(i))
  }

  /** The bytes of the first `n` attempts, in order. */
  function Joined(recv: nat -> Attempt, n: nat): seq<byte>
  {
    if n == 0 then [] else Joined(recv, n - 1) + recv(n - 1).data
  }

  datatype RecvEnd = Eom | ConnectionLost | WriteFailed | RetriesExhausted

  /** How the loop ended, the final `numtries`, and what the temp file holds. */
  datatype Received = Received(end: RecvEnd, tries: nat, file: seq<byte>)

  /**
   * The loop from attempt `k` (0-based; `numtries` is `k + 1` after its
   * increment) with `file` already written. The loop gives up once
   * `numtries > maxTries`, so at most `maxTries + 1` attempts are made.
   */
  function ReceiveFrom(recv: nat -> Attempt, maxTries: nat, k: nat, file: seq<byte>): Received
    requires k <= maxTries
    decreases maxTries - k
  {
    var a := recv(k);
    if a.data == [] then Received(ConnectionLost, k + 1, file)
    else if !a.written then Received(WriteFailed, k + 1, file)
    else if NEWLINE in a.data then Received(Eom, k + 1, file + a.data)
    else if k + 1 > maxTries then Received(RetriesExhausted, k + 1, file + a.data)
    else ReceiveFrom(recv, maxTries, k + 1, file + a.data)
  }

  function Receive(recv: nat -> Attempt, maxTries: nat): Received
  {
    ReceiveFrom(recv, maxTries, 0, [])
  }

  /** The invariant of the loop, carried from attempt `k` to the end. */
  lemma {:induction false} ReceiveFromFacts(recv: nat -> Attempt, maxTries: nat, k: nat, file: seq<byte>)
    requires k <= maxTries
    requires ContinuesBefore(recv, k) && file == Joined(recv, k)
    ensures var r := ReceiveFrom(recv, maxTries, k, file);
      && k + 1 <= r.tries <= maxTries + 1
      && ContinuesBefore(recv, r.tries - 1)
      && (r.tries - 1 < maxTries ==> !Continues(recv(r.tries - 1)))
      && (r.end == Eom <==> EndsMessage(recv(r.tries - 1)))
      && (r.end == ConnectionLost <==> recv(r.tries - 1).data == [])
      && (r.end == WriteFailed <==> recv(r.tries - 1).data != [] && !recv(r.tries - 1).written)
      && (r.end == RetriesExhausted <==> Continues(recv(r.tries - 1)))
      && r.file == Joined(recv, if r.end in {Eom, RetriesExhausted} then r.tries else r.tries - 1)
    decreases maxTries - k
  {
    var a := recv(k);
    if Continues(a) && k + 1 <= maxTries {
      assert ContinuesBefore(recv, k + 1) by {
        forall i: nat | i < k + 1 ensures Continues(recv(i)) {
          if i < k { assert Continues(recv(i)); }
        }
      }
      ReceiveFromFacts(recv, maxTries, k + 1, file + a.data);
    }
  }

  /**
   * The loop ends, after one to `maxTries + 1` attempts, at the first attempt
   * that does not continue it, or at attempt `maxTries` if all continue. It
   * succeeds exactly when that attempt ends the message, closes the control
   * connection exactly when that attempt received nothing, and leaves in the
   * temp file the bytes of every attempt whose write was made.
   */
  lemma ReceiveCharacterized(recv: nat -> Attempt, maxTries: nat)
    ensures var r := Receive(recv, maxTries);
      && 1 <= r.tries <= maxTries + 1
      && ContinuesBefore(recv, r.tries - 1)
      && (r.tries - 1 < maxTries ==> !Continues(recv(r.tries - 1)))
      && (r.end == Eom <==> EndsMessage(recv(r.tries - 1)))
      && (r.end == ConnectionLost <==> recv(r.tries - 1).data == [])
      && r.file == Joined(recv, if r.end in {Eom, RetriesExhausted} then r.tries else r.tries - 1)
  {
    ReceiveFromFacts(recv, maxTries, 0, []);
  }

  /**
   * Success in terms of the attempts alone: some attempt within the first
   * `maxTries + 1` ends the message and every attempt before it continued.
   */
  lemma ReceiveSucceedsIff(recv: nat -> Attempt, maxTries: nat)
    ensures Receive(recv, maxTries).end == Eom <==>
              exists j: nat :: j <= maxTries && EndsMessage(recv(j)) && ContinuesBefore(recv, j)
  {
    var r := Receive(recv, maxTries);
    ReceiveCharacterized(recv, maxTries);
    if r.end == Eom {
      assert EndsMessage(recv(r.tries - 1)) && ContinuesBefore(recv, r.tries - 1);
    } else {
      forall j: nat | j <= maxTries && EndsMessage(recv(j))
        ensures !ContinuesBefore(recv, j)
      {
        // The loop stopped at attempt t without a message end; attempt j
        // ends the message, so j is not before t, and j == t or t < j would
        // make j's predecessors include the attempt that stopped the loop.
        var t := r.tries - 1;
        assert !EndsMessage(recv(t));
        assert t < j ==> !Continues(recv(t));
      }
    }
  }

  /**
   * The `do { … } while (1)` loop of remoteConfig. `lost` is true when the
   * loop called `ctlClose` on the control connection.
   */
  method ReceiveRequest(recv: nat -> Attempt, maxTries: nat)
    returns (success: bool, numtries: nat, file: seq<byte>, lost: bool)
    ensures var r := Receive(recv, maxTries);
      success == (r.end == Eom) && numtries == r.tries && file == r.file &&
      lost == (r.end == ConnectionLost)
  {
    success, numtries, file, lost := false, 0, [], false;
    while true
      invariant numtries <= maxTries && !success && !lost
      invariant Receive(recv, maxTries) == ReceiveFrom(recv, maxTries, numtries, file)
      decreases maxTries - numtries
    {
      numtries := numtries + 1;
      var a := recv(numtries - 1);
      if a.data == [] {
        // Something has happened to the connection
        lost := true;
        break;
      }
      if !a.written {
        break;
      }
      file := file + a.data;
      if NEWLINE in a.data {
        success := true;
        break;
      }
      if numtries > maxTries {
        break;
      }
    }
  }

  // ---------------------------------------------------------------------
  // Requests and their dispatch
  // ---------------------------------------------------------------------

  /** `req->cmd`; `ReqOther` is a value outside the named kinds (the `default:` arm). */
  datatype Cmd =
    | ReqParseErr | ReqMalformed | ReqUnknown | ReqParamErr
    | ReqSetCfg | ReqGetCfg | ReqGetDiag | ReqBlockPort | ReqSwitch
    | ReqOther(code: int)

  /** `req->action` of a switch request. */
  datatype SwitchAction = UrlRedirectOn | UrlRedirectOff | OtherAction(code: int)

  datatype Request = Request(cmd: Cmd, cfg: Option<Config>, port: int, action: SwitchAction)

  /** The kinds a parser reports for a request that is not well formed. */
  predicate IsErrorCmd(c: Cmd) {
    c in {ReqParseErr, ReqMalformed, ReqUnknown, ReqParamErr}
  }

  /** `g_cfg.blockconn`, `g_cfg.urls` and `g_staticfg`. */
  datatype RtConfig = RtConfig(blockconn: int, urls: int, staticfg: Config)

  /** The body handed to `cmdSendResponse`. */
  datatype Body = NoBody | ConfigJson(cfg: Config)

  /** The new configuration, the configs given to `doConfig`, the response body. */
  datatype Dispatched = Dispatched(cfg: RtConfig, applied: seq<Config>, body: Body)

  /** The `switch (req->cmd)` of remoteConfig. */
  function Dispatch(c: RtConfig, req: Request): (d: Dispatched)
    // each field changes only under its own request kind, and to what it asks
    ensures d.cfg.blockconn != c.blockconn ==> req.cmd == ReqBlockPort && d.cfg.blockconn == req.port
    ensures req.cmd == ReqBlockPort ==> d.cfg.blockconn == req.port
    ensures d.cfg.urls != c.urls ==> req.cmd == ReqSwitch && d.cfg.urls in {0, 1}
    ensures req.cmd == ReqSwitch && req.action == UrlRedirectOn ==> d.cfg.urls == 1
    ensures req.cmd == ReqSwitch && req.action == UrlRedirectOff ==> d.cfg.urls == 0
    ensures req.cmd == ReqSwitch && req.action.OtherAction? ==> d.cfg == c
    ensures d.cfg.staticfg != c.staticfg ==> req.cmd == ReqSetCfg && req.cfg == Some(d.cfg.staticfg)
    // a set-config request with a config applies it once and keeps it as the static config
    ensures (req.cmd == ReqSetCfg && req.cfg.Some?) <==> d.applied != []
    ensures d.applied != [] ==> d.applied == [req.cfg.value] && d.cfg.staticfg == req.cfg.value
    // requests that are not well formed change nothing
    ensures IsErrorCmd(req.cmd) ==> d == Dispatched(c, [], NoBody)
    // only get-config has a body: the static config before the request
    ensures d.body != NoBody <==> req.cmd == ReqGetCfg
    ensures req.cmd == ReqGetCfg ==> d == Dispatched(c, [], ConfigJson(c.staticfg))
  {
    match req.cmd
    case ReqParseErr | ReqMalformed | ReqUnknown | ReqParamErr =>
      Dispatched(c, [], NoBody)
    case ReqSetCfg =>
      if req.cfg.Some? then Dispatched(c.(staticfg := req.cfg.value), [req.cfg.value], NoBody)
      else Dispatched(c, [], NoBody)
    case ReqGetCfg => Dispatched(c, [], ConfigJson(c.staticfg))
    case ReqGetDiag => Dispatched(c, [], NoBody)
    case ReqBlockPort => Dispatched(c.(blockconn := req.port), [], NoBody)
    case ReqSwitch =>
      (match req.action
       case UrlRedirectOn => Dispatched(c.(urls := 1), [], NoBody)
       case UrlRedirectOff => Dispatched(c.(urls := 0), [], NoBody)
       case OtherAction(_) => Dispatched(c, [], NoBody))
    case ReqOther(_) => Dispatched(c, [], NoBody)
  }

  /** Handling the same request twice leaves the configuration as handling it once. */
  lemma DispatchIdempotent(c: RtConfig, req: Request)
    ensures Dispatch(Dispatch(c, req).cfg, req).cfg == Dispatch(c, req).cfg
  {
  }

  // ---------------------------------------------------------------------
  // One run of remoteConfig
  // ---------------------------------------------------------------------

  const INFO_NO_MEMORY := "Error in receive from stream.  Memory error in scope receive."
  const INFO_READ_ERROR := "Error in receive from stream.  Read error in scope."
  const INFO_PARSE_ERROR := "Error in receive from stream.  Memory error in scope parsing."
  const INFO_RETRIES := "Error in receive from stream.  Scope receive retries exhausted."

  /** What remoteConfig hands to the control channel. */
  datatype Message = Response(req: Request, body: Body) | Info(text: string)

  /** Operations on the temporary file `/tmp/cfg.<pid>`. */
  datatype TmpOp = TmpOpen | TmpClose | TmpUnlink

  /** The library's answers and the operating system's, for one run. */
  datatype Env = Env(
    pollRc: int, revents: bv16,    // poll's count and fds.revents
    fopenOk: bool,                 // fopen of the temp file
    recv: nat -> Attempt,          // recv and fwrite, attempt by attempt
    callocOk: bool, freadOk: bool, // the buffer for the file and its read
    parse: seq<byte> -> Option<Request>) // cmdParse of what was received

  /** What one run changes and sends. */
  datatype Effects = Effects(
    cfg: RtConfig, applied: seq<Config>, sent: seq<Message>,
    ctlClosed: bool, tmp: seq<TmpOp>)

  /** The temp file is opened, read if the message arrived, then closed and unlinked. */
  const TMP_CYCLE: seq<TmpOp> := [TmpOpen, TmpClose, TmpUnlink]

  function RemoteConfigEffect(c: RtConfig, env: Env, maxTries: nat): (e: Effects)
    // nothing happens unless poll reported data and the temp file opened;
    // once it opened, it is closed and unlinked, and one message is sent
    ensures e.tmp == (if PollReady(env.pollRc, env.revents) && env.fopenOk then TMP_CYCLE else [])
    ensures |e.sent| == (if e.tmp == [] then 0 else 1)
    ensures e.tmp == [] ==> e == Effects(c, [], [], false, [])
    // a response goes out exactly for a message that was received, read and parsed
    ensures var r := Receive(env.recv, maxTries);
      (e.sent != [] && e.sent[0].Response?) <==>
        (e.tmp != [] && r.end == Eom && env.callocOk && env.freadOk && env.parse(r.file).Some?)
    ensures e.sent != [] && e.sent[0].Response? ==>
      var r := Receive(env.recv, maxTries);
      e.sent[0].req == env.parse(r.file).value &&
      (e.cfg, e.applied, e.sent[0].body) == (Dispatch(c, e.sent[0].req).cfg, Dispatch(c, e.sent[0].req).applied, Dispatch(c, e.sent[0].req).body)
    // without a response nothing in the configuration changes
    ensures (e.sent == [] || e.sent[0].Info?) ==> e.cfg == c && e.applied == []
    // the control connection is closed only when recv reported a failure
    ensures e.ctlClosed <==> e.tmp != [] && Receive(env.recv, maxTries).end == ConnectionLost
  {
    if !PollReady(env.pollRc, env.revents) || !env.fopenOk then
      Effects(c, [], [], false, [])
    else
      var r := Receive(env.recv, maxTries);
      if r.end != Eom then
        Effects(c, [], [Info(INFO_RETRIES)], r.end == ConnectionLost, TMP_CYCLE)
      else if !env.callocOk then
        Effects(c, [], [Info(INFO_NO_MEMORY)], false, TMP_CYCLE)
      else if !env.freadOk then
        Effects(c, [], [Info(INFO_READ_ERROR)], false, TMP_CYCLE)
      else
        match env.parse(r.file)
        case None => Effects(c, [], [Info(INFO_PARSE_ERROR)], false, TMP_CYCLE)
        case Some(req) =>
          var d := Dispatch(c, req);
          Effects(d.cfg, d.applied, [Response(req, d.body)], false, TMP_CYCLE)
  }

  /**
   * A request that is parsed but not well formed changes nothing: the
   * configuration stays as it was and no config is applied, whatever else the
   * run went through.
   */
  lemma ErrorRequestChangesNothing(c: RtConfig, env: Env, maxTries: nat)
    requires var r := Receive(env.recv, maxTries);
      env.parse(r.file).Some? && IsErrorCmd(env.parse(r.file).value.cmd)
    ensures var e := RemoteConfigEffect(c, env, maxTries);
      e.cfg == c && e.applied == []
  {
  }
}
