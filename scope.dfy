/**
 * The library's global configuration state as src/wrap.c keeps it (`g_cfg`,
 * `g_staticfg`, the static `modtime` of dynConfig) and the two operations of
 * the periodic thread that change it: remoteConfig and dynConfig. What they
 * send to the control channel, the configs they hand to doConfig and what they
 * do to the temp file are recorded in fields so that their contracts can say
 * so.
 */
module Scope {
  import opened Types
  import opened ControlChannel
  import opened DynamicConfig

  class Library {
    /** MAXTRIES: the receive loop gives up after `maxTries + 1` chunks. */
    const maxTries: nat

    var blockconn: int        // g_cfg.blockconn
    var urls: int             // g_cfg.urls
    var staticfg: Config      // g_staticfg
    var applied: seq<Config>  // every config given to doConfig, in order
    var outbox: seq<Message>  // every response and info string sent on the control channel
    var ctlCloses: nat        // calls of ctlClose on the control connection
    var tmpLog: seq<TmpOp>    // operations on /tmp/cfg.<pid>
    var modtime: int          // dynConfig's remembered modification time
    var dynUnlinks: nat       // unlinks of the dynamic command file

    /** The runtime configuration the control channel acts on. */
    function Rt(): RtConfig
      reads this
    {
      RtConfig(blockconn, urls, staticfg)
    }

    /**
     * The state the constructor of the library leaves: `cfg` read and applied
     * once, made the static config, port blocking at its default, URL
     * redirection off (`g_cfg` is zero-initialised), nothing sent yet.
     */
    constructor (cfg: Config, maxTries: nat, defaultPortBlock: int)
      ensures this.maxTries == maxTries
      ensures Rt() == RtConfig(defaultPortBlock, 0, cfg) && applied == [cfg]
      ensures outbox == [] && ctlCloses == 0 && tmpLog == [] && modtime == 0 && dynUnlinks == 0
    {
      this.maxTries := maxTries;
      blockconn, urls, staticfg := defaultPortBlock, 0, cfg;
      applied := [cfg];
      outbox, ctlCloses, tmpLog := [], 0, [];
      modtime, dynUnlinks := 0, 0;
    }

    /** One call of remoteConfig, after `poll` returned. */
    method RemoteConfig(env: Env)
      modifies this
      ensures var e := RemoteConfigEffect(old(Rt()), env, maxTries);
        && Rt() == e.cfg
        && applied == old(applied) + e.applied
        && outbox == old(outbox) + e.sent
        && ctlCloses == old(ctlCloses) + (if e.ctlClosed then 1 else 0)
        && tmpLog == old(tmpLog) + e.tmp
      ensures modtime == old(modtime) && dynUnlinks == old(dynUnlinks)
    {
      if env.pollRc < 0 {
        return;
      }
      if env.pollRc == 0 || env.revents == 0 || env.revents & POLLIN == 0 ||
         env.revents & POLLHUP != 0 || env.revents & POLLNVAL != 0 {
        return;
      }
      if !env.fopenOk {
        return;
      }
      tmpLog := tmpLog + [TmpOpen];

      var success, numtries, file, lost := ReceiveRequest(env.recv, maxTries);
      if lost {
        ctlCloses := ctlCloses + 1;
      }

      if success {
        if !env.callocOk {
          tmpLog := tmpLog + [TmpClose, TmpUnlink];
          outbox := outbox + [Info(INFO_NO_MEMORY)];
          return;
        }
        if !env.freadOk {
          tmpLog := tmpLog + [TmpClose, TmpUnlink];
          outbox := outbox + [Info(INFO_READ_ERROR)];
          return;
        }
        var parsed := env.parse(file);
        if parsed.Some? {
          var req := parsed.value;
          var body := NoBody;
          match req.cmd {
            case ReqParseErr =>
            case ReqMalformed =>
            case ReqUnknown =>
            case ReqParamErr =>
            case ReqSetCfg =>
              if req.cfg.Some? {
                applied := applied + [req.cfg.value];
                staticfg := req.cfg.value;
              }
            case ReqGetCfg =>
              body := ConfigJson(staticfg);
            case ReqGetDiag =>
            case ReqBlockPort =>
              blockconn := req.port;
            case ReqSwitch =>
              match req.action {
                case UrlRedirectOn => urls := 1;
                case UrlRedirectOff => urls := 0;
                case OtherAction(_) =>
              }
            case ReqOther(_) =>
          }
          outbox := outbox + [Response(req, body)];
        } else {
          outbox := outbox + [Info(INFO_PARSE_ERROR)];
        }
      } else {
        outbox := outbox + [Info(INFO_RETRIES)];
      }
      tmpLog := tmpLog + [TmpClose, TmpUnlink];
    }

    /** One call of dynConfig; `rc` is its return value. */
    method DynConfig(env: DynEnv) returns (rc: int)
      modifies this
      ensures var e := DynStep(old(modtime), old(staticfg), env);
        && rc == e.rc && modtime == e.modtime && staticfg == e.staticfg
        && applied == old(applied) + e.applied
        && dynUnlinks == old(dynUnlinks) + (if e.unlinked then 1 else 0)
      ensures blockconn == old(blockconn) && urls == old(urls)
      ensures outbox == old(outbox) && ctlCloses == old(ctlCloses) && tmpLog == old(tmpLog)
    {
      // Is there a command file for this pid
      if !env.present {
        return 0;
      }
      // Have we already processed this file?
      if env.modTime == modtime {
        dynUnlinks := dynUnlinks + 1;
        return 0;
      }
      modtime := env.modTime;
      if !env.fopenOk {
        return -1;
      }
      staticfg := env.commands(staticfg);
      applied := applied + [staticfg];
      dynUnlinks := dynUnlinks + 1;
      return 0;
    }
  }
}
