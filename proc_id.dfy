/**
 * The process identity of src/wrap.c (`setProcId`): the id string
 * `<hostname>-<procname>-<cmd tail>` written with `snprintf` into a fixed
 * buffer, and the process CPU time in microseconds (`doGetProcCPU`).
 * `cmdSize` stands for DEFAULT_CMD_SIZE and `idSize` for `sizeof(proc->id)`.
 */
module ProcId {
  import opened Types

  /**
   * The part of the command line used in the id: all of it when shorter than
   * `cmdSize`, else its last `cmdSize` characters.
   */
  function CmdTail(cmd: string, cmdSize: nat): (r: string)
    ensures |r| == if |cmd| < cmdSize then |cmd| else cmdSize
    ensures r == cmd[|cmd| - |r|..]
  {
    if |cmd| < cmdSize then cmd else cmd[|cmd| - cmdSize..]
  }

  /**
   * What `snprintf(buf, size, "%s", s)` leaves in `buf`: the longest prefix of
   * `s` that fits with its terminating NUL.
   */
  function Snprintf(s: string, size: nat): (r: string)
    requires size >= 1
    ensures |r| < size && r <= s
    ensures |s| < size ==> r == s
    ensures |s| >= size ==> |r| == size - 1
  {
    if |s| < size then s else s[..size - 1]
  }

  const BAD_ID := "badid"

  /**
   * The id `setProcId` writes. `hostname` and `procname` are arrays inside
   * the process record and so never NULL; the command line is NULL when
   * `osGetCmdline` found none, and then the id is "badid".
   */
  function IdString(hostname: string, procname: string, cmd: Option<string>, cmdSize: nat, idSize: nat): (id: string)
    requires idSize >= 1
    ensures |id| < idSize
    ensures cmd.None? ==> id == Snprintf(BAD_ID, idSize)
  {
    match cmd
    case None => Snprintf(BAD_ID, idSize)
    case Some(c) => Snprintf(hostname + "-" + procname + "-" + CmdTail(c, cmdSize), idSize)
  }

  /**
   * When the full id fits, nothing is cut: the id starts with the hostname and
   * ends with the last characters of the command line, as many as the tail holds.
   */
  lemma IdStringParts(hostname: string, procname: string, cmd: string, cmdSize: nat, idSize: nat)
    requires idSize >= 1
    requires |hostname| + |procname| + 2 + (if |cmd| < cmdSize then |cmd| else cmdSize) < idSize
    ensures var id := IdString(hostname, procname, Some(cmd), cmdSize, idSize);
      var n := if |cmd| < cmdSize then |cmd| else cmdSize;
      && id == hostname + "-" + procname + "-" + CmdTail(cmd, cmdSize)
      && |id| == |hostname| + |procname| + 2 + n
      && id[..|hostname|] == hostname
      && id[|id| - n..] == cmd[|cmd| - n..]
  {
  }

  /** A too long id is cut at the buffer: it is a prefix of the full id, one short of the size. */
  lemma IdStringTruncated(hostname: string, procname: string, cmd: string, cmdSize: nat, idSize: nat)
    requires idSize >= 1
    requires |hostname| + |procname| + 2 + (if |cmd| < cmdSize then |cmd| else cmdSize) >= idSize
    ensures var id := IdString(hostname, procname, Some(cmd), cmdSize, idSize);
      |id| == idSize - 1 && id <= hostname + "-" + procname + "-" + CmdTail(cmd, cmdSize)
  {
  }

  /** The fields of the process record that `setProcId` sets. */
  class Proc {
    const cmdSize: nat
    const idSize: nat
    var pid: int
    var ppid: int
    var hostname: string
    var procname: string
    var cmd: Option<string>
    var id: string

    ghost predicate Valid()
      reads this
    {
      idSize >= 1 && |id| < idSize
    }

    /** The zero-initialised global record. */
    constructor (cmdSize: nat, idSize: nat)
      requires idSize >= 1
      ensures Valid() && this.cmdSize == cmdSize && this.idSize == idSize
      ensures pid == 0 && ppid == 0 && hostname == "" && procname == "" && cmd.None? && id == ""
    {
      this.cmdSize, this.idSize := cmdSize, idSize;
      pid, ppid, hostname, procname, cmd, id := 0, 0, "", "", None, "";
    }

    /**
     * `setProcId`, given what `getpid`, `getppid`, `gethostname`,
     * `osGetProcname` and `osGetCmdline` answer. A failed `gethostname`
     * leaves the hostname buffer as it was.
     */
    method SetProcId(newPid: int, newPpid: int, hostOk: bool, host: string, name: string, cmdline: Option<string>)
      requires Valid()
      modifies this
      ensures Valid()
      ensures pid == newPid && ppid == newPpid && procname == name && cmd == cmdline
      ensures hostname == (if hostOk then host else old(hostname))
      ensures id == IdString(hostname, procname, cmd, cmdSize, idSize)
    {
      pid := newPid;
      ppid := newPpid;
      if hostOk {
        hostname := host;
      }
      procname := name;
      cmd := cmdline;
      if cmd.Some? {
        // limit amount of cmd used in id
        var c := cmd.value;
        var tail := if |c| < cmdSize then c else c[|c| - cmdSize..];
        id := Snprintf(hostname + "-" + procname + "-" + tail, idSize);
      } else {
        id := Snprintf(BAD_ID, idSize);
      }
    }
  }

  // ---------------------------------------------------------------------
  // CPU time
  // ---------------------------------------------------------------------

  datatype TimeVal = TimeVal(sec: int, usec: int)

  /** `ru_utime` and `ru_stime` of `getrusage(RUSAGE_SELF)`. */
  datatype Rusage = Rusage(utime: TimeVal, stime: TimeVal)

  /** A time value as the kernel reports it. */
  predicate Normal(tv: TimeVal) {
    tv.sec >= 0 && 0 <= tv.usec < 1000000
  }

  /** One time value in microseconds. */
  function Micros(tv: TimeVal): int {
    tv.sec * 1000000 + tv.usec
  }

  /** `doGetProcCPU`: `None` is a failed `getrusage`. */
  function ProcCpu(ru: Option<Rusage>): (r: int)
    ensures ru.None? ==> r == -1
    // the total is user time plus system time, each in microseconds
    ensures ru.Some? ==> r == Micros(ru.value.utime) + Micros(ru.value.stime)
    // for values the kernel reports, the total is never the error value
    ensures ru.Some? && Normal(ru.value.utime) && Normal(ru.value.stime) ==> r >= 0
  {
    match ru
    case None => -1
    case Some(u) =>
      (u.utime.sec + u.stime.sec) * 1000 * 1000 + (u.utime.usec + u.stime.usec)
  }

  /**
   * The microsecond total keeps the whole seconds: for normal values the
   * total divided by a million is the seconds plus at most one carried second.
   */
  lemma ProcCpuSeconds(u: Rusage)
    requires Normal(u.utime) && Normal(u.stime)
    ensures var r := ProcCpu(Some(u));
      var s := u.utime.sec + u.stime.sec;
      r / 1000000 == s + (if u.utime.usec + u.stime.usec >= 1000000 then 1 else 0)
  {
  }
}
