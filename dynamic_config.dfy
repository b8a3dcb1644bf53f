/**
 * `dynConfig` in src/wrap.c: on each pass of the periodic thread, a command
 * file `<cmddir>/<prefix>.<pid>` is applied to the static configuration,
 * unless its modification time equals the one remembered from the last pass
 * that found a file.
 */
module DynamicConfig {
  import opened Types

  /**
   * What one pass finds: whether the command file is present, the
   * modification time `fileModTime` reports for it (0 when it cannot open or
   * stat the file), whether `fopen` succeeds, and the effect of
   * `cfgProcessCommands` on the static configuration.
   */
  datatype DynEnv = DynEnv(present: bool, modTime: int, fopenOk: bool, commands: Config -> Config)

  /** The remembered time, the static config, the configs given to `doConfig`,
      whether the command file was unlinked, and the return code. */
  datatype DynEffects = DynEffects(modtime: int, staticfg: Config, applied: seq<Config>, unlinked: bool, rc: int)

  function DynStep(modtime: int, staticfg: Config, env: DynEnv): (e: DynEffects)
    // the commands are applied exactly when a present file has a new time and opens
    ensures e.applied != [] <==> env.present && env.modTime != modtime && env.fopenOk
    ensures e.applied != [] ==> e.applied == [e.staticfg] && e.staticfg == env.commands(staticfg)
    ensures e.applied == [] ==> e.staticfg == staticfg
    // the time is remembered before the file is opened, so also when fopen fails
    ensures e.modtime == (if env.present then env.modTime else modtime)
    ensures e.rc == (if env.present && env.modTime != modtime && !env.fopenOk then -1 else 0)
    // a file already seen is removed; a file that does not open is left in place
    ensures e.unlinked <==> env.present && (env.modTime == modtime || env.fopenOk)
  {
    if !env.present then DynEffects(modtime, staticfg, [], false, 0)
    else if env.modTime == modtime then DynEffects(modtime, staticfg, [], true, 0)
    else if !env.fopenOk then DynEffects(env.modTime, staticfg, [], false, -1)
    else
      var cfg := env.commands(staticfg);
      DynEffects(env.modTime, cfg, [cfg], true, 0)
  }

  /** The number of `doConfig` calls over successive passes. */
  function Applications(modtime: int, staticfg: Config, envs: seq<DynEnv>): nat
    decreases |envs|
  {
    if envs == [] then 0
    else
      var e := DynStep(modtime, staticfg, envs[0]);
      |e.applied| + Applications(e.modtime, e.staticfg, envs[1..])
  }

  /**
   * At most once while the file keeps its modification time: over any run of
   * passes in which the command file, whenever present, carries time `m`, the
   * commands are applied at most once, and not at all if `m` was already
   * remembered. Only the last time is remembered, so a run whose times go
   * back to an earlier one applies that one again.
   */
  lemma {:induction false} AtMostOncePerModTime(modtime: int, staticfg: Config, envs: seq<DynEnv>, m: int)
    requires forall k :: 0 <= k < |envs| ==> envs[k].present ==> envs[k].modTime == m
    ensures Applications(modtime, staticfg, envs) <= (if modtime == m then 0 else 1)
    decreases |envs|
  {
    if envs != [] {
      var e := DynStep(modtime, staticfg, envs[0]);
      assert forall k :: 0 <= k < |envs[1..]| ==> envs[1..][k].present ==> envs[1..][k].modTime == m by {
        forall k | 0 <= k < |envs[1..]| ensures envs[1..][k].present ==> envs[1..][k].modTime == m {
          assert envs[1..][k] == envs[k + 1];
        }
      }
      AtMostOncePerModTime(e.modtime, e.staticfg, envs[1..], m);
    }
  }

  /**
   * A pass that finds a file with the remembered time only removes it. That
   * holds for the same file seen again, and equally for a new command file
   * with other commands that carries the same time (written within the same
   * second as the last one applied): it is unlinked without being applied.
   */
  lemma RepeatOnlyUnlinks(modtime: int, staticfg: Config, first: DynEnv, second: DynEnv)
    requires first.present && second.present && first.modTime == second.modTime
    ensures var e1 := DynStep(modtime, staticfg, first);
      var e2 := DynStep(e1.modtime, e1.staticfg, second);
      e2 == DynEffects(e1.modtime, e1.staticfg, [], true, 0)
  {
  }

  /**
   * A file that does not open stays on disk, unapplied, with its time
   * remembered; the next pass that finds it with that time unlinks it
   * without applying it.
   */
  lemma FailedOpenUnlinkedNextPass(modtime: int, staticfg: Config, first: DynEnv, second: DynEnv)
    requires first.present && first.modTime != modtime && !first.fopenOk
    requires second.present && second.modTime == first.modTime
    ensures var e1 := DynStep(modtime, staticfg, first);
      var e2 := DynStep(e1.modtime, e1.staticfg, second);
      && e1.rc == -1 && !e1.unlinked && e1.applied == [] && e1.modtime == first.modTime
      && e2.unlinked && e2.applied == [] && e2.staticfg == staticfg && e2.rc == 0
  {
  }
}
