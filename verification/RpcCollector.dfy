/** The change filter (internal/sentinel/delta/delta.go). Digests are symbolic: distinct texts have
distinct digests, and none is the all-zero value a missing key reads as. */
module DeltaFilter {
  type Raw = string

  datatype Digest = AllZero | Sha256(data: Raw)

  type Hashes = map<string, Digest>

  function Stored(hashes: Hashes, key: string): Digest { if key in hashes then hashes[key] else AllZero }

  predicate Differs(hashes: Hashes, key: string, data: Raw) { Stored(hashes, key) != Sha256(data) }

  class Delta {
    var hashes: Hashes

    constructor ()
      ensures hashes == map[]
    {
      hashes := map[];
    }

    method Changed(key: string, data: Raw) returns (changed: bool)
      modifies this
      ensures changed == Differs(old(hashes), key, data)
      ensures hashes == if changed then old(hashes)[key := Sha256(data)] else old(hashes)
      ensures Stored(hashes, key) == Sha256(data)
      ensures forall other :: other != key ==> Stored(hashes, other) == Stored(old(hashes), other)
    {
      var h := Sha256(data);
      if Stored(hashes, key) == h {
        return false;
      }
      hashes := hashes[key := h];
      return true;
    }
  }
}

/** The RPC collector (internal/sentinel/rpc/collector.go): one `collect` per tick, over what the
endpoints answer and what the clock reads. */
module RpcCollector {
  import opened Wrappers
  import opened GoTime
  import opened DeltaFilter

  const DEFAULT_REFRESH := 12 * HOUR

  /** What each endpoint would answer in one tick; None is an error. `validatorsAgain` answers the
      periodic re-fetch, a call of its own. */
  datatype Replies = Replies(status: Option<Raw>, netInfo: Option<Raw>, unconfirmed: Option<Raw>, dump: Option<Raw>,
                             validators: Option<Raw>, block: Option<Raw>, validatorsAgain: Option<Raw>, genesis: Option<Raw>)

  /** The clock readings of one tick, in the order they are made. */
  datatype Clock = Clock(dumpDue: Now, dumped: Now, validatorsSent: Now, validatorsDue: Now, validatorsResent: Now,
                         genesisDue: Now, genesisSent: Now)

  predicate Forward(c: Clock) {
    c.dumpDue <= c.dumped <= c.validatorsSent <= c.validatorsDue <= c.validatorsResent <= c.genesisDue <= c.genesisSent
  }

  type Payload = map<string, Raw>

  datatype State = State(hashes: Hashes, lastHeight: int, lastDump: Time, lastGenesisSentAt: Time,
                         lastValidatorsSentAt: Time, genesisFailed: nat)

  const Fresh := State(map[], 0, ZERO, ZERO, ZERO, 0)

  /** The polling intervals, and how a height is read off a status reply (0 when it cannot be). */
  datatype Config = Config(dumpInterval: int, genesisRefresh: int, validatorsRefresh: int, height: Raw -> int)

  function Refresh(configured: int): (d: int)
    ensures d == if configured > 0 then configured else 12 * 3600 * 1_000_000_000
  {
    if configured <= 0 then DEFAULT_REFRESH else configured
  }

  // ---- one tick, stage by stage ----

  datatype Work = Work(s: State, payload: Payload)

  /** Emits a reply the filter has not seen under this key just before. */
  function IfChanged(w: Work, key: string, reply: Option<Raw>): Work {
    if reply.None? || !Differs(w.s.hashes, key, reply.value) then w
    else Work(w.s.(hashes := w.s.hashes[key := Sha256(reply.value)]), w.payload[key := reply.value])
  }

  function Always(w: Work, key: string, reply: Option<Raw>): Work {
    if reply.None? then w else w.(payload := w.payload[key := reply.value])
  }

  function Polled(w: Work, r: Replies): Work {
    Always(IfChanged(IfChanged(w, "status", r.status), "net_info", r.netInfo), "num_unconfirmed_txs", r.unconfirmed)
  }

  function CurrentHeight(cfg: Config, r: Replies): int {
    if r.status.Some? then cfg.height(r.status.value) else 0
  }

  predicate DumpDue(cfg: Config, s: State, c: Clock) { Sub(c.dumpDue, s.lastDump) >= cfg.dumpInterval }

  function Dumped(cfg: Config, w: Work, r: Replies, c: Clock): Work {
    if !DumpDue(cfg, w.s, c) || r.dump.None? then w
    else
      var w := IfChanged(w, "dump_consensus_state", r.dump);
      w.(s := w.s.(lastDump := c.dumped))
  }

  predicate NewHeight(s: State, height: int) { height > s.lastHeight && height > 0 }

  function AtNewHeight(cfg: Config, w: Work, r: Replies, c: Clock): Work {
    var height := CurrentHeight(cfg, r);
    if !NewHeight(w.s, height) then w
    else
      var w := w.(s := w.s.(lastHeight := height));
      var sent := r.validators.Some? && Differs(w.s.hashes, "validators", r.validators.value);
      var w := IfChanged(w, "validators", r.validators);
      var w := if sent then w.(s := w.s.(lastValidatorsSentAt := c.validatorsSent)) else w;
      Always(w, "block", r.block)
  }

  predicate ValidatorsDue(cfg: Config, w: Work, c: Clock) {
    "validators" !in w.payload && w.s.lastHeight > 0 && Sub(c.validatorsDue, w.s.lastValidatorsSentAt) >= cfg.validatorsRefresh
  }

  /** The forced re-emission does not go through the filter. */
  function ValidatorsRefreshed(cfg: Config, w: Work, r: Replies, c: Clock): Work {
    if !ValidatorsDue(cfg, w, c) || r.validatorsAgain.None? then w
    else Work(w.s.(lastValidatorsSentAt := c.validatorsResent), w.payload["validators" := r.validatorsAgain.value])
  }

  predicate GenesisDue(cfg: Config, s: State, c: Clock) {
    s.lastGenesisSentAt == ZERO || Sub(c.genesisDue, s.lastGenesisSentAt) >= cfg.genesisRefresh
  }

  function GenesisRefreshed(cfg: Config, w: Work, r: Replies, c: Clock): Work {
    if !GenesisDue(cfg, w.s, c) then w
    else if r.genesis.None? then w.(s := w.s.(genesisFailed := w.s.genesisFailed + 1))
    else Work(w.s.(lastGenesisSentAt := c.genesisSent, genesisFailed := 0), w.payload["genesis" := r.genesis.value])
  }

  function Reachability(w: Work, r: Replies): Work {
    var reachable := r.status.Some? || r.netInfo.Some? || r.unconfirmed.Some?;
    w.(payload := w.payload["rpc_reachable" := if reachable then "1" else "0"])
  }

  function Collected(cfg: Config, s: State, r: Replies, c: Clock): Work {
    var w := Polled(Work(s, map[]), r);
    var w := Dumped(cfg, w, r, c);
    var w := AtNewHeight(cfg, w, r, c);
    var w := ValidatorsRefreshed(cfg, w, r, c);
    var w := GenesisRefreshed(cfg, w, r, c);
    Reachability(w, r)
  }

  class Collector {
    const cfg: Config
    const delta: Delta
    var lastHeight: int
    var lastDump: Time
    var lastGenesisSentAt: Time
    var lastValidatorsSentAt: Time
    var genesisFailed: nat

    function Now(): State
      reads this, delta
    {
      State(delta.hashes, lastHeight, lastDump, lastGenesisSentAt, lastValidatorsSentAt, genesisFailed)
    }

    constructor (dumpInterval: int, genesisRefresh: int, validatorsRefresh: int, height: Raw -> int)
      ensures cfg.dumpInterval == dumpInterval && cfg.height == height
      ensures cfg.genesisRefresh == Refresh(genesisRefresh) && cfg.validatorsRefresh == Refresh(validatorsRefresh)
      ensures Now() == Fresh && fresh(delta)
    {
      cfg := Config(dumpInterval, Refresh(genesisRefresh), Refresh(validatorsRefresh), height);
      delta := new Delta();
      lastHeight, lastDump, lastGenesisSentAt, lastValidatorsSentAt, genesisFailed := 0, ZERO, ZERO, ZERO, 0;
    }

    method Filter(payload: Payload, key: string, reply: Option<Raw>) returns (payload': Payload, sent: bool)
      modifies delta
      ensures sent == (reply.Some? && Differs(old(delta.hashes), key, reply.value))
      ensures Work(Now(), payload') == IfChanged(Work(old(Now()), payload), key, reply)
    {
      payload', sent := payload, false;
      if reply.Some? {
        sent := delta.Changed(key, reply.value);
        if sent {
          payload' := payload[key := reply.value];
        }
      }
    }

    method Poll(r: Replies) returns (payload: Payload, currentHeight: int)
      modifies delta
      ensures Work(Now(), payload) == Polled(Work(old(Now()), map[]), r)
      ensures currentHeight == CurrentHeight(cfg, r)
    {
      hide IfChanged;
      payload := map[];
      var sent;
      currentHeight := 0;
      payload, sent := Filter(payload, "status", r.status);
      if r.status.Some? {
        currentHeight := cfg.height(r.status.value);
      }
      payload, sent := Filter(payload, "net_info", r.netInfo);
      if r.unconfirmed.Some? {
        payload := payload["num_unconfirmed_txs" := r.unconfirmed.value];
      }
    }

    method DumpConsensus(before: Payload, r: Replies, c: Clock) returns (payload: Payload)
      modifies this`lastDump, delta
      ensures Work(Now(), payload) == Dumped(cfg, Work(old(Now()), before), r, c)
    {
      hide IfChanged;
      payload := before;
      if Sub(c.dumpDue, lastDump) >= cfg.dumpInterval {
        if r.dump.Some? {
          var sent;
          payload, sent := Filter(payload, "dump_consensus_state", r.dump);
          lastDump := c.dumped;
        }
      }
    }

    method VisitHeight(before: Payload, currentHeight: int, r: Replies, c: Clock) returns (payload: Payload)
      requires currentHeight == CurrentHeight(cfg, r)
      modifies this`lastHeight, this`lastValidatorsSentAt, delta
      ensures Work(Now(), payload) == AtNewHeight(cfg, Work(old(Now()), before), r, c)
    {
      hide IfChanged;
      payload := before;
      if currentHeight > lastHeight && currentHeight > 0 {
        lastHeight := currentHeight;
        var sent;
        payload, sent := Filter(payload, "validators", r.validators);
        if sent {
          lastValidatorsSentAt := c.validatorsSent;
        }
        if r.block.Some? {
          payload := payload["block" := r.block.value];
        }
      }
    }

    method RefreshValidators(before: Payload, r: Replies, c: Clock) returns (payload: Payload)
      modifies this`lastValidatorsSentAt
      ensures Work(Now(), payload) == ValidatorsRefreshed(cfg, Work(old(Now()), before), r, c)
    {
      payload := before;
      if "validators" !in payload && lastHeight > 0 && Sub(c.validatorsDue, lastValidatorsSentAt) >= cfg.validatorsRefresh {
        if r.validatorsAgain.Some? {
          payload := payload["validators" := r.validatorsAgain.value];
          lastValidatorsSentAt := c.validatorsResent;
        }
      }
    }

    method RefreshGenesis(before: Payload, r: Replies, c: Clock) returns (payload: Payload)
      modifies this`lastGenesisSentAt, this`genesisFailed
      ensures Work(Now(), payload) == GenesisRefreshed(cfg, Work(old(Now()), before), r, c)
    {
      payload := before;
      if lastGenesisSentAt == ZERO || Sub(c.genesisDue, lastGenesisSentAt) >= cfg.genesisRefresh {
        if r.genesis.Some? {
          payload := payload["genesis" := r.genesis.value];
          lastGenesisSentAt := c.genesisSent;
          genesisFailed := 0;
        } else {
          genesisFailed := genesisFailed + 1;
        }
      }
    }

    /** One tick: the stages in order. */
    method Collect(r: Replies, c: Clock) returns (payload: Payload)
      modifies this, delta
      ensures Work(Now(), payload) == Collected(cfg, old(Now()), r, c)
    {
      hide Polled, Dumped, AtNewHeight, ValidatorsRefreshed, GenesisRefreshed;
      var currentHeight;
      payload, currentHeight := Poll(r);
      payload := DumpConsensus(payload, r, c);
      payload := VisitHeight(payload, currentHeight, r, c);
      payload := RefreshValidators(payload, r, c);
      payload := RefreshGenesis(payload, r, c);
      var reachable := r.status.Some? || r.netInfo.Some? || r.unconfirmed.Some?;
      payload := payload["rpc_reachable" := if reachable then "1" else "0"];
    }
  }
}
