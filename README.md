# Decision logic of the AppScope interposition library

AppScope is an `LD_PRELOAD` library. It interposes on libc calls, reports what
an application does, and takes commands over a control channel. Almost every
exported function in `src/wrap.c` calls the real libc symbol and hands the
result to state and report routines that live in other files. This project
models the small amount of decision logic that `src/wrap.c` itself holds.
Every answer from the operating system or from code in other files is an
input of the model:

- **Control channel** (`remoteConfig`), in `control_channel.dfy` and `scope.dfy`:
  - the readiness test on `poll`'s answer;
  - the bounded loop that receives chunks into the temp file `/tmp/cfg.<pid>`
    until one holds a newline;
  - the dispatch of the parsed request onto `g_cfg.blockconn`, `g_cfg.urls`
    and `g_staticfg`;
  - the one message sent back per run, and the closing and unlinking of the
    temp file.
- **Dynamic configuration** (`dynConfig`), in `dynamic_config.dfy` and
  `scope.dfy`: a command file is applied at most once while it keeps the same
  modification time.
- **Periodic thread start** (`doThread`, `threadNow`) and the `SIGUSR2` capture
  in `sigaction`, in `periodic_thread.dfy`.
- **Process identity** (`setProcId`) and CPU time (`doGetProcCPU`), in
  `proc_id.dfy`.
- **Wrapper bookkeeping**, in `interpose.dfy`:
  - the `g_getdelim` flag that stops `__getdelim` from counting a read twice;
  - the blocked-connection paths of `connect`, `accept` and `accept4`.

The parts that update state in place are classes:
- `Scope.Library` holds `g_cfg`, `g_staticfg` and dynConfig's `modtime`.
- `PeriodicThread.ThreadTiming` holds `g_thread`.
- `ProcId.Proc` holds the process record.
- `Interpose.ReadFlag` holds `g_getdelim`.

Each class method is proved equal to a pure step function of the old state.
The lemmas state the properties about those functions.

Constants defined in headers that are not part of this model are parameters:
- `MAXTRIES` is `Library.maxTries`;
- `DEFAULT_CMD_SIZE` is `cmdSize`;
- `sizeof(proc->id)` is `idSize`;
- `DEFAULT_PORTBLOCK` is the constructor argument `defaultPortBlock`.

The `poll` bits (`POLLIN` 0x001, `POLLHUP` 0x010, `POLLNVAL` 0x020) and
`SIGUSR2` (12) take their Linux values.

Behaviour of the code the model keeps:

- The newline test at src/wrap.c:145 calls `strchr` on `buf`. After `recv`,
  `buf` is not NUL-terminated. The model idealises the test as "a newline is
  among the bytes this `recv` delivered". Stale bytes from an earlier, longer
  chunk, or a missing terminator, are not modelled.
- A `recv` result of 0 (orderly shutdown) and one below 0 (error) take the
  same branch. Both are the empty `Attempt.data`.
- Every unsuccessful receive sends the info string "Scope receive retries
  exhausted". That includes a lost connection and a failed `fwrite`.
- `proc->hostname` and `proc->procname` are arrays inside the process record:
  `sizeof` is applied to them at src/wrap.c:441 and 444. So the test at
  src/wrap.c:451 can only fail on `proc->cmd == NULL`. The model's id is
  therefore "badid" exactly when no command line was found.
- `g_replacehandler` is static and starts FALSE (src/wrap.c:37), and nothing in
  `src/wrap.c` sets it. So the restore branch of `threadNow`
  (src/wrap.c:331-337) never runs. A `SIGUSR2` handler the application installs
  is kept in `g_thread.act`, reported as installed (return 0), and never passed
  to the real `sigaction`. `PeriodicThread.CapturedHandlerNeverRestored` proves
  this for any run of calls.
- `dynConfig` records the new modification time before it opens the file. If
  that `fopen` fails, the pass leaves the file on disk, unapplied. The next
  pass that finds it with the same time takes the "already processed" branch
  (src/wrap.c:287-289) and unlinks it without applying it.
  `DynamicConfig.FailedOpenUnlinkedNextPass` proves this.
- A file whose time `fileModTime` cannot read counts as time 0. While the
  remembered `modtime` is still its initial 0, such a file takes the
  "already processed" branch (src/wrap.c:287-291): it is unlinked without
  being applied. Once some file has been applied and `modtime` is not 0, it is
  applied like any other.
- Any new command file whose modification time equals the last one remembered
  is unlinked without being applied (src/wrap.c:287-291), whatever commands it
  holds. Two command files written within the same second are an example.
  `DynamicConfig.RepeatOnlyUnlinks` proves this for any second file with the
  same time.
- The time test compares only against the last time remembered. A file that
  comes back with an earlier time (times 1, 2, 1) is applied again.
- `strlen`, the command tail `&cmd[cmdlen-DEFAULT_CMD_SIZE]` and `snprintf`
  count bytes. In `proc_id.dfy` one `char` of a `string` stands for one C
  byte. No multi-byte encoding is modelled.
- `remoteConfig` changes `g_staticfg` on a set-config request. It does not
  change `g_cfg.staticfg`, which the constructor set once. The model follows
  the code.

## Model

| member | source | states |
|---|---|---|
| `ControlChannel.PollReady` | src/wrap.c:105-115 | the channel is read exactly when poll returned a positive count and, of POLLIN, POLLHUP and POLLNVAL, exactly POLLIN is set; then revents is nonzero |
| `ControlChannel.ReceiveRequest` | src/wrap.c:123-155 | the do/while loop computes the same end, try count and file contents as the recursive loop specification `ControlChannel.ReceiveFrom`, and reports the ctlClose call |
| `ControlChannel.ReceiveFromFacts` | src/wrap.c:124-155 | the loop invariant: from any attempt reached, the loop ends at the first attempt that does not continue (or at the last permitted one), with the try count bounded by maxTries+1 and each end kind tied to that attempt |
| `ControlChannel.ReceiveCharacterized` | src/wrap.c:124-155 | between 1 and MAXTRIES+1 chunks are read; success exactly when the stopping chunk was received, written and holds a newline; connection closed exactly on recv <= 0; the temp file holds the bytes of every written chunk |
| `ControlChannel.ReceiveSucceedsIff` | src/wrap.c:124-155 | both directions: the loop succeeds iff some chunk within the first MAXTRIES+1 ends the message and every earlier chunk was received, written and had no newline |
| `ControlChannel.Dispatch` | src/wrap.c:187-228 | BLOCK_PORT sets blockconn to the port; SWITCH sets urls to 1/0 for redirect on/off and leaves it otherwise; SET_CFG with a config applies it once and makes it the static config, a null config changes nothing; error kinds change nothing; only GET_CFG has a body, the current static config |
| `ControlChannel.DispatchIdempotent` | src/wrap.c:187-228 | handling a request a second time leaves the configuration as handling it once |
| `ControlChannel.RemoteConfigEffect` | src/wrap.c:84-243 | nothing happens unless poll is ready and the temp file opens; after that the file is closed and unlinked and exactly one message is sent; it is a response exactly when the message was received, allocated, read and parsed, and then the config is the dispatch result; otherwise the config is unchanged; the connection is closed only on a failed recv |
| `ControlChannel.ErrorRequestChangesNothing` | src/wrap.c:190-195 | a parsed PARSE_ERR, MALFORMED, UNKNOWN or PARAM_ERR request leaves the configuration unchanged and applies no config |
| `Scope.Library.constructor` | src/wrap.c:874-892 | the initial state: the read config applied once and made static, blockconn at its default, urls 0, modtime 0, nothing sent |
| `Scope.Library.RemoteConfig` | src/wrap.c:84-243 | one call of remoteConfig changes the config, the applied configs, the outbox, the ctlClose count and the temp-file log exactly as RemoteConfigEffect says, and leaves dynConfig's state alone |
| `Scope.Library.DynConfig` | src/wrap.c:272-307 | one call of dynConfig changes modtime, the static config, the applied configs and the unlink count exactly as DynStep says, and touches nothing else |
| `DynamicConfig.DynStep` | src/wrap.c:282-306 | commands are applied exactly when the file is present, its time differs from the remembered one and it opens; the time is remembered before the open, so also when fopen fails (rc -1); a file already seen is only unlinked |
| `DynamicConfig.AtMostOncePerModTime` | src/wrap.c:286-306 | over any run of passes whose file, when present, carries one modification time, the commands are applied at most once, and never if that time was already remembered |
| `DynamicConfig.FailedOpenUnlinkedNextPass` | src/wrap.c:286-297 | a file that does not open is left on disk with rc -1, unapplied, its time remembered; the next pass that finds it with that time unlinks it without applying it |
| `DynamicConfig.RepeatOnlyUnlinks` | src/wrap.c:286-292 | a pass that finds a file with the remembered time only unlinks it, whatever its commands, so a new file written in the same second as the last one applied is never applied: no config applied, state unchanged, rc 0 |
| `PeriodicThread.ThreadNowStep` | src/wrap.c:311-339 | a started thread is never started again; a failed pthread_create changes nothing, `once` included; a successful one creates exactly one thread and sets `once`; a saved handler is re-installed exactly when the thread starts with g_replacehandler set, a saved handler and the real sigaction resolved, and it is then cleared |
| `PeriodicThread.DoThreadStep` | src/wrap.c:394-417 | a thread is created exactly when g_ctl exists, `once` is false, now >= startTime and pthread_create succeeds; before the gate opens, or when pthread_create fails, the whole state is unchanged; once the gate is open the call is threadNow's step |
| `PeriodicThread.SigactionStep` | src/wrap.c:934-946 | a SIGUSR2 call with a handler only stores it and returns 0; every other call is forwarded and returns the real result with state unchanged |
| `PeriodicThread.AtMostOneThread` | src/wrap.c:316-328 | over any run of doThread, timer and sigaction calls, `once` records whether the thread was created and at most one thread is ever created |
| `PeriodicThread.StartedStaysStarted` | src/wrap.c:405-407 | once the thread is running, no run of calls creates another or clears `once` |
| `PeriodicThread.CapturedHandlerNeverRestored` | src/wrap.c:331-337 | while g_replacehandler is false, as nothing in the file sets it, no run of calls re-installs a captured handler |
| `PeriodicThread.ThreadTiming.constructor` | src/wrap.c:33 | `g_thread` is zero-initialised except for the start time that doConfig sets |
| `PeriodicThread.ThreadTiming.ThreadNow` | src/wrap.c:311-339 | the new state is ThreadNowStep of the old one |
| `PeriodicThread.ThreadTiming.DoThread` | src/wrap.c:394-417 | the new state is DoThreadStep of the old one |
| `PeriodicThread.ThreadTiming.Sigaction` | src/wrap.c:934-946 | the new state and return value are SigactionStep's |
| `ProcId.CmdTail` | src/wrap.c:453-454 | the command tail is a suffix of cmd, all of it when shorter than DEFAULT_CMD_SIZE and otherwise exactly DEFAULT_CMD_SIZE characters long |
| `ProcId.Snprintf` | src/wrap.c:455 | the id buffer keeps the longest prefix that fits with its NUL: all of it when short, else size-1 characters |
| `ProcId.IdString` | src/wrap.c:451-458 | the id always fits the buffer; with no command line it is "badid" (truncated to the buffer) |
| `ProcId.IdStringParts` | src/wrap.c:451-455 | when the full id fits, nothing is cut: the id is hostname-procname-tail, starts with the hostname and ends with the last min(len, DEFAULT_CMD_SIZE) characters of the command line |
| `ProcId.IdStringTruncated` | src/wrap.c:455 | a too-long id is a prefix of hostname-procname-tail exactly one shorter than the buffer |
| `ProcId.Proc.constructor` | src/wrap.c:870 | the record the constructor hands to setProcId: empty buffers, no command line, with its two buffer sizes |
| `ProcId.Proc.SetProcId` | src/wrap.c:435-459 | pid, ppid, procname and cmd take the system's answers; the hostname changes only when gethostname succeeds; the id is IdString of the new fields |
| `ProcId.ProcCpu` | src/wrap.c:421-432 | -1 when getrusage fails; otherwise user plus system time in microseconds, never negative for values the kernel reports, so never confused with the error |
| `ProcId.ProcCpuSeconds` | src/wrap.c:429-431 | the microsecond total divided by a million is the summed seconds plus the carry from the summed microseconds |
| `Interpose.DunderStep` | src/wrap.c:2871-2885 | with the flag set, __getdelim clears it and reports nothing; otherwise it reports once and leaves the flag |
| `Interpose.OneReportPerCall` | src/wrap.c:2856-2885 | when every getdelim re-enters __getdelim, a run starting with the flag clear keeps it clear and reports each application call exactly once, under its own name, in order |
| `Interpose.UnmatchedGetdelimHidesNextDunder` | src/wrap.c:2856-2880 | a getdelim that does not re-enter leaves the flag set, so the next direct __getdelim goes unreported |
| `Interpose.ReadFlag.constructor` | src/wrap.c:40 | the flag starts at 0 with no reads reported |
| `Interpose.ReadFlag.Dunder` | src/wrap.c:2871-2885 | the interposed __getdelim returns the real result and moves the state as DunderStep says |
| `Interpose.ReadFlag.Getdelim` | src/wrap.c:2856-2867 | the interposed getdelim sets the flag, lets the real call re-enter, reports once and returns the real result; the new state is `Interpose.ReadStep` of a getdelim call |
| `Interpose.Connect` | src/wrap.c:3104-3124 | a blocked connect returns -1 with ECONNREFUSED without calling the real connect; otherwise the real result is returned and a connection is recorded exactly when it succeeded, a connection error on the socket when it failed |
| `Interpose.Accept` | src/wrap.c:3040-3083 | for accept and accept4: a blocked peer gets -1 with ECONNABORTED, its descriptor is closed when close is available, and no accept is recorded; otherwise the real result is returned, and an accept is recorded exactly for a successful one; a failed accept is recorded as a connection error on the listening socket |
| `Interpose.AcceptRunRecordsExactlyUnblocked` | src/wrap.c:3040-3083 | over a run of accepts, a descriptor is recorded as accepted exactly when an unblocked call returned it (both directions), and every descriptor a blocked call returned is closed |

## Left out

- The pass-through wrappers (`open`, `read`, `write`, the `stat` family,
  `fseek`, `send`, `recv`, `gethostbyname*`, the TLS library hooks). They
  forward to the real call and to state and report routines in files that are
  not part of this model.
- `init` and `initHook`, apart from the initial values their assignments give
  (the constructors). The rest is symbol resolution and foreign calls.
- `poll`, the I/O on the temp file and on the command file, `lstat`, `fread`,
  `cJSON` and `cmdParse`. Their answers are inputs.
- `doBlockConnection`, which decides a blocked connection from
  `g_cfg.blockconn` in another file. Its verdict is an input, so no link is
  proved between `blockconn` and what is blocked.
- The `WRAP_CHECK` guard (a macro in a header that is not part of this model)
  and the `errno` left by the real calls.
- The compare-and-swap serialisation in `threadNow` and `reportPeriodicStuff`,
  the timer signal that calls `threadNow`, `pthread_create` itself and the
  endless `periodic` loop. The model runs calls one after another.
- `doConfig` and `reportPeriodicStuff`. They call external init, metric and
  log routines. A call of `doConfig` is recorded as an entry in `applied`.
- `doReset`, which `fork` calls in the child (src/wrap.c:464-472, 2969). It
  runs `setProcId` again, clears `g_thread.once`, sets a new start time and
  re-creates `g_ctl`, so it reopens the once-gate of `doThread`. It is not
  modelled. `PeriodicThread.AtMostOneThread` and
  `PeriodicThread.StartedStaysStarted` therefore hold per process image:
  at most one periodic thread per process, not over a fork.
- `fileModTime` and `osIsFilePresent`. Their answers are inputs.
- `g_staticfg` is never NULL in the model: the constructor sets it before any
  control traffic.
- The NULL-`proc` early return of `setProcId`: a method always has its record.
- The size of `recv`'s buffer (1024 bytes) and `DEFAULT_CONFIG_SIZE`. Neither
  changes a decision the model makes.
- ProcCpu: does not model 64-bit `long long` overflow of the microsecond total.
  The arithmetic is on unbounded integers, as for any realistic CPU time.
- The newline test's idealisation: `strchr` stops at a NUL byte, so a chunk
  holding a NUL before its newline (such as `"a\0\n"`) does not end the
  message in the source. The model ends the message on any newline.
- `fopen(path, "a+")` appends to a `/tmp/cfg.<pid>` that already exists. The
  model's temp file starts empty on each run.
- SetProcId: a failing `gethostname` may still have written a truncated name
  into the buffer (glibc does so on `ENAMETOOLONG`). The model keeps the old
  hostname in that case.
- The `scopeLog` and `DBG` calls: logging and debug counters have no effect
  on any decision the model makes.
- `sigaction` keeps the caller's pointer, not a copy. A handler whose storage
  is later freed is not modelled: handlers are values.
- test/testContainers/test_runner/elastic.py (Elasticsearch test glue),
  os/linux/os.h and contrib/tls/tls.h (declarations only).
