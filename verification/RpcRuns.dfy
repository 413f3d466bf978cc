/** What whole runs of the RPC collector guarantee: heights, refresh deadlines, and that a receiver can
rebuild the node's state from the changes it is sent. */
module RpcRuns {
  import opened Wrappers
  import opened GoTime
  import opened DeltaFilter
  import opened RpcCollector

  datatype Tick = Tick(r: Replies, c: Clock)

  predicate AllForward(ticks: seq<Tick>) {
    forall i :: 0 <= i < |ticks| ==> Forward(ticks[i].c)
  }

  function After(cfg: Config, ticks: seq<Tick>): State {
    if ticks == [] then Fresh
    else Collected(cfg, After(cfg, ticks[..|ticks| - 1]), ticks[|ticks| - 1].r, ticks[|ticks| - 1].c).s
  }

  function PayloadAt(cfg: Config, ticks: seq<Tick>, i: nat): Payload
    requires i < |ticks|
  {
    Collected(cfg, After(cfg, ticks[..i]), ticks[i].r, ticks[i].c).payload
  }

  predicate Positive(cfg: Config) { cfg.genesisRefresh > 0 && cfg.validatorsRefresh > 0 }

  /** The last tick of a prefix, as a step from the prefix before it. */
  lemma AfterNext(cfg: Config, ticks: seq<Tick>, i: nat)
    requires i < |ticks|
    ensures After(cfg, ticks[..i + 1]) == Collected(cfg, After(cfg, ticks[..i]), ticks[i].r, ticks[i].c).s
  {
    assert ticks[..i + 1][..i] == ticks[..i];
  }

  // ---- what the stages of a tick leave alone ----

  function Lookup<T>(view: map<string, T>, key: string): Option<T> { if key in view then Some(view[key]) else None }

  const POLL_KEYS: set<string> := {"status", "net_info", "num_unconfirmed_txs", "dump_consensus_state"}

  function Early(cfg: Config, s: State, r: Replies, c: Clock): Work {
    Dumped(cfg, Polled(Work(s, map[]), r), r, c)
  }

  function Late(cfg: Config, w: Work, r: Replies, c: Clock): Work {
    Reachability(GenesisRefreshed(cfg, ValidatorsRefreshed(cfg, w, r, c), r, c), r)
  }

  lemma Stages(cfg: Config, s: State, r: Replies, c: Clock)
    ensures Collected(cfg, s, r, c) == Late(cfg, AtNewHeight(cfg, Early(cfg, s, r, c), r, c), r, c)
  {
    hide Polled, Dumped, AtNewHeight, ValidatorsRefreshed, GenesisRefreshed;
  }

  lemma EarlyKeeps(cfg: Config, s: State, r: Replies, c: Clock, key: string)
    requires key !in POLL_KEYS
    ensures var w := Early(cfg, s, r, c);
            && w.s == s.(hashes := w.s.hashes, lastDump := w.s.lastDump)
            && Lookup(w.payload, key) == None && Stored(w.s.hashes, key) == Stored(s.hashes, key)
  {}

  lemma NewHeightKeeps(cfg: Config, w: Work, r: Replies, c: Clock, key: string)
    requires key != "validators" && key != "block"
    ensures var w' := AtNewHeight(cfg, w, r, c);
            && w'.s == w.s.(hashes := w'.s.hashes, lastHeight := w'.s.lastHeight, lastValidatorsSentAt := w'.s.lastValidatorsSentAt)
            && Lookup(w'.payload, key) == Lookup(w.payload, key) && Stored(w'.s.hashes, key) == Stored(w.s.hashes, key)
  {}

  lemma LateKeeps(cfg: Config, w: Work, r: Replies, c: Clock, key: string)
    requires key !in {"validators", "genesis", "rpc_reachable"}
    ensures var w' := Late(cfg, w, r, c);
            && w'.s.lastHeight == w.s.lastHeight && w'.s.hashes == w.s.hashes && w'.s.lastDump == w.s.lastDump
            && Lookup(w'.payload, key) == Lookup(w.payload, key)
  {}

  // ---- every key of a payload ----

  /** What the change filter lets through. */
  function New(s: State, key: string, reply: Option<Raw>): Option<Raw> {
    if reply.Some? && Lookup(s.hashes, key) != Some(Sha256(reply.value)) then reply else None
  }

  /** The mempool sample is in every payload it was fetched for, changed or not. */
  lemma SampleAlways(cfg: Config, s: State, r: Replies, c: Clock)
    ensures Lookup(Collected(cfg, s, r, c).payload, "num_unconfirmed_txs") == r.unconfirmed
  {
    hide Late, AtNewHeight, Collected;
    var early := Early(cfg, s, r, c);
    Stages(cfg, s, r, c);
    NewHeightKeeps(cfg, early, r, c, "num_unconfirmed_txs");
    LateKeeps(cfg, AtNewHeight(cfg, early, r, c), r, c, "num_unconfirmed_txs");
  }

  /** The other polled keys, and a due dump, only when they changed. */
  lemma FilteredKeys(cfg: Config, s: State, r: Replies, c: Clock)
    ensures var p := Collected(cfg, s, r, c).payload;
            && Lookup(p, "status") == New(s, "status", r.status)
            && Lookup(p, "net_info") == New(s, "net_info", r.netInfo)
            && Lookup(p, "dump_consensus_state")
               == (if Sub(c.dumpDue, s.lastDump) >= cfg.dumpInterval then New(s, "dump_consensus_state", r.dump) else None)
  {
    hide Collected;
    DeltaStep(cfg, s, r, c, "status");
    DeltaStep(cfg, s, r, c, "net_info");
    DeltaStep(cfg, s, r, c, "dump_consensus_state");
  }

  /** The other keys: reachability is what the three polls found, whatever the later calls answered; the
      genesis document goes out when it is due, and a failure to fetch it is only counted. */
  lemma OtherKeys(cfg: Config, s: State, r: Replies, c: Clock)
    ensures var w := Collected(cfg, s, r, c);
            var due := s.lastGenesisSentAt == ZERO || Sub(c.genesisDue, s.lastGenesisSentAt) >= cfg.genesisRefresh;
            && Lookup(w.payload, "rpc_reachable")
               == Some(if r.status == None && r.netInfo == None && r.unconfirmed == None then "0" else "1")
            && Lookup(w.payload, "genesis") == (if due then r.genesis else None)
            && w.s.genesisFailed == (if !due then s.genesisFailed else if r.genesis.Some? then 0 else s.genesisFailed + 1)
            && w.payload.Keys <= POLL_KEYS + {"validators", "block", "genesis", "rpc_reachable"}
  {
    hide Early, AtNewHeight, Collected;
    var early := Early(cfg, s, r, c);
    Stages(cfg, s, r, c);
    EarlyKeeps(cfg, s, r, c, "genesis");
    NewHeightKeeps(cfg, early, r, c, "genesis");
    KnownKeys(cfg, s, r, c);
  }

  lemma KnownKeys(cfg: Config, s: State, r: Replies, c: Clock)
    ensures AtNewHeight(cfg, Early(cfg, s, r, c), r, c).payload.Keys <= POLL_KEYS + {"validators", "block"}
  {
    assert Early(cfg, s, r, c).payload.Keys <= POLL_KEYS;
  }

  // ---- block heights ----

  lemma HeightStep(cfg: Config, s: State, r: Replies, c: Clock)
    ensures var w := Collected(cfg, s, r, c);
            && w.s.lastHeight >= s.lastHeight
            && ("block" in w.payload ==> w.s.lastHeight == CurrentHeight(cfg, r) > s.lastHeight)
            && Lookup(w.payload, "block") == (if NewHeight(s, CurrentHeight(cfg, r)) then r.block else None)
  {
    hide Early, Late, Collected;
    var early := Early(cfg, s, r, c);
    Stages(cfg, s, r, c);
    EarlyKeeps(cfg, s, r, c, "block");
    LateKeeps(cfg, AtNewHeight(cfg, early, r, c), r, c, "block");
    assert "block" in Collected(cfg, s, r, c).payload <==> Lookup(Collected(cfg, s, r, c).payload, "block") != None;
  }

  lemma {:induction false} HeightMonotone(cfg: Config, ticks: seq<Tick>, i: nat, j: nat)
    requires i <= j <= |ticks|
    ensures After(cfg, ticks[..i]).lastHeight <= After(cfg, ticks[..j]).lastHeight
    decreases j
  {
    hide Collected;
    if i < j {
      HeightMonotone(cfg, ticks, i, j - 1);
      AfterNext(cfg, ticks, j - 1);
      HeightStep(cfg, After(cfg, ticks[..j - 1]), ticks[j - 1].r, ticks[j - 1].c);
    }
  }

  /** Emitted blocks have strictly increasing heights, and the height never falls. */
  lemma BlocksIncrease(cfg: Config, ticks: seq<Tick>, i: nat, j: nat)
    requires i < j < |ticks|
    ensures "block" in PayloadAt(cfg, ticks, i) && "block" in PayloadAt(cfg, ticks, j) ==>
              CurrentHeight(cfg, ticks[i].r) < CurrentHeight(cfg, ticks[j].r)
  {
    hide Collected;
    HeightStep(cfg, After(cfg, ticks[..i]), ticks[i].r, ticks[i].c);
    AfterNext(cfg, ticks, i);
    HeightMonotone(cfg, ticks, i + 1, j);
    HeightStep(cfg, After(cfg, ticks[..j]), ticks[j].r, ticks[j].c);
  }

  // ---- refresh deadlines ----

  /** The time of the last emission of the validator set is kept exactly. */
  lemma ValidatorsStep(cfg: Config, s: State, r: Replies, c: Clock)
    ensures var w := Collected(cfg, s, r, c);
            var again := ValidatorsDue(cfg, AtNewHeight(cfg, Early(cfg, s, r, c), r, c), c);
            if "validators" in w.payload
            then w.s.lastValidatorsSentAt == (if again then c.validatorsResent else c.validatorsSent)
                 && Some(w.payload["validators"]) == (if again then r.validatorsAgain else r.validators)
            else w.s.lastValidatorsSentAt == s.lastValidatorsSentAt
  {
    hide Early, Collected;
    Stages(cfg, s, r, c);
    EarlyKeeps(cfg, s, r, c, "validators");
  }

  /** A dump is tried when it is due and only then; an answer, changed or not, starts the next
      interval. */
  lemma DumpStep(cfg: Config, s: State, r: Replies, c: Clock)
    requires Forward(c) && s.lastDump <= c.dumpDue
    ensures var w := Collected(cfg, s, r, c);
            && w.s.lastDump == (if DumpDue(cfg, s, c) && r.dump.Some? then c.dumped else s.lastDump)
            && ("dump_consensus_state" in w.payload ==> w.s.lastDump == c.dumped)
            && (w.s.lastDump != s.lastDump ==> w.s.lastDump >= s.lastDump + cfg.dumpInterval)
  {
    hide Late, AtNewHeight, Collected;
    var early := Early(cfg, s, r, c);
    Stages(cfg, s, r, c);
    NewHeightKeeps(cfg, early, r, c, "dump_consensus_state");
    LateKeeps(cfg, AtNewHeight(cfg, early, r, c), r, c, "dump_consensus_state");
  }

  lemma GenesisStep(cfg: Config, s: State, r: Replies, c: Clock)
    requires Positive(cfg) && Forward(c)
    ensures var w := Collected(cfg, s, r, c);
            if "genesis" in w.payload then w.s.lastGenesisSentAt == c.genesisSent
                 && (s.lastGenesisSentAt == ZERO || c.genesisSent >= s.lastGenesisSentAt + cfg.genesisRefresh)
            else w.s.lastGenesisSentAt == s.lastGenesisSentAt
  {
    hide Early, AtNewHeight, Collected;
    var early := Early(cfg, s, r, c);
    Stages(cfg, s, r, c);
    EarlyKeeps(cfg, s, r, c, "genesis");
    NewHeightKeeps(cfg, early, r, c, "genesis");
  }

  lemma {:induction false} GenesisMonotone(cfg: Config, ticks: seq<Tick>, i: nat, j: nat)
    requires Positive(cfg) && AllForward(ticks) && i <= j <= |ticks| && After(cfg, ticks[..i]).lastGenesisSentAt > ZERO
    ensures After(cfg, ticks[..i]).lastGenesisSentAt <= After(cfg, ticks[..j]).lastGenesisSentAt
    decreases j
  {
    hide Collected;
    if i < j {
      GenesisMonotone(cfg, ticks, i, j - 1);
      AfterNext(cfg, ticks, j - 1);
      GenesisStep(cfg, After(cfg, ticks[..j - 1]), ticks[j - 1].r, ticks[j - 1].c);
    }
  }

  /** Any two emissions of the genesis document are at least the refresh interval apart. */
  lemma GenesisSpacing(cfg: Config, ticks: seq<Tick>, i: nat, j: nat)
    requires Positive(cfg) && AllForward(ticks)
    requires i < j < |ticks| && "genesis" in PayloadAt(cfg, ticks, i) && "genesis" in PayloadAt(cfg, ticks, j)
    ensures ticks[j].c.genesisSent - ticks[i].c.genesisSent >= cfg.genesisRefresh
  {
    hide Collected;
    GenesisStep(cfg, After(cfg, ticks[..i]), ticks[i].r, ticks[i].c);
    AfterNext(cfg, ticks, i);
    GenesisMonotone(cfg, ticks, i + 1, j);
    GenesisStep(cfg, After(cfg, ticks[..j]), ticks[j].r, ticks[j].c);
  }

  predicate AllSucceed(r: Replies) {
    && r.status.Some? && r.netInfo.Some? && r.unconfirmed.Some? && r.dump.Some?
    && r.validators.Some? && r.block.Some? && r.validatorsAgain.Some? && r.genesis.Some?
  }

  /** After a tick in which every call succeeds, the genesis document and, once a height is known, the
      validator set have been sent less than their refresh interval ago, if not in this very tick. */
  lemma FreshAfterGoodTick(cfg: Config, s: State, r: Replies, c: Clock)
    requires Positive(cfg) && Forward(c) && AllSucceed(r)
    ensures var w := Collected(cfg, s, r, c);
            && w.s.lastGenesisSentAt != ZERO && Sub(c.genesisDue, w.s.lastGenesisSentAt) < cfg.genesisRefresh
            && (w.s.lastHeight > 0 ==> "validators" in w.payload || Sub(c.validatorsDue, w.s.lastValidatorsSentAt) < cfg.validatorsRefresh)
  {
    hide Early, AtNewHeight, Collected;
    Stages(cfg, s, r, c);
  }

  // ---- rebuilding the node's state from the changes ----

  const DELTA_ONLY: set<string> := {"status", "net_info", "dump_consensus_state"}

  /** The reply a tick really fetched for a key. */
  function Fetched(cfg: Config, s: State, r: Replies, c: Clock, key: string): Option<Raw> {
    if key == "status" then r.status
    else if key == "net_info" then r.netInfo
    else if key == "dump_consensus_state" && DumpDue(cfg, s, c) then r.dump
    else None
  }

  /** What the node answered last, over the fetches of a run. */
  function LastFetched(cfg: Config, ticks: seq<Tick>, key: string): Option<Raw> {
    if ticks == [] then None
    else
      var init, t := ticks[..|ticks| - 1], ticks[|ticks| - 1];
      var f := Fetched(cfg, After(cfg, init), t.r, t.c, key);
      if f.Some? then f else LastFetched(cfg, init, key)
  }

  /** A receiver that lets the last value win. */
  function Fold(payloads: seq<Payload>): Payload {
    if payloads == [] then map[] else Fold(payloads[..|payloads| - 1]) + payloads[|payloads| - 1]
  }

  function Payloads(cfg: Config, ticks: seq<Tick>): (ps: seq<Payload>)
    ensures |ps| == |ticks|
  {
    seq(|ticks|, i requires 0 <= i < |ticks| => PayloadAt(cfg, ticks, i))
  }

  lemma DeltaStep(cfg: Config, s: State, r: Replies, c: Clock, key: string)
    requires key in DELTA_ONLY
    ensures var w := Collected(cfg, s, r, c);
            var f := Fetched(cfg, s, r, c, key);
            && Stored(w.s.hashes, key) == (if f.Some? then Sha256(f.value) else Stored(s.hashes, key))
            && Lookup(w.payload, key) == (if f.Some? && Differs(s.hashes, key, f.value) then f else None)
  {
    hide Late, AtNewHeight, Collected;
    var early := Early(cfg, s, r, c);
    Stages(cfg, s, r, c);
    NewHeightKeeps(cfg, early, r, c, key);
    LateKeeps(cfg, AtNewHeight(cfg, early, r, c), r, c, key);
    EarlyFilters(cfg, s, r, c, key);
  }

  lemma EarlyFilters(cfg: Config, s: State, r: Replies, c: Clock, key: string)
    requires key in DELTA_ONLY
    ensures var w := Early(cfg, s, r, c);
            var f := Fetched(cfg, s, r, c, key);
            && Stored(w.s.hashes, key) == (if f.Some? then Sha256(f.value) else Stored(s.hashes, key))
            && Lookup(w.payload, key) == (if f.Some? && Differs(s.hashes, key, f.value) then f else None)
  {
    hide IfChanged;
    var w0 := Work(s, map[]);
    Filters(w0, "status", r.status, key);
    var w1 := IfChanged(w0, "status", r.status);
    Filters(w1, "net_info", r.netInfo, key);
    var w2 := Always(IfChanged(w1, "net_info", r.netInfo), "num_unconfirmed_txs", r.unconfirmed);
    Filters(w2, "dump_consensus_state", r.dump, key);
  }

  lemma Filters(w: Work, k: string, reply: Option<Raw>, key: string)
    ensures var w' := IfChanged(w, k, reply);
            && w'.s == w.s.(hashes := w'.s.hashes)
            && Stored(w'.s.hashes, key) == (if key == k && reply.Some? then Sha256(reply.value) else Stored(w.s.hashes, key))
            && Lookup(w'.payload, key) == (if key == k && reply.Some? && Differs(w.s.hashes, key, reply.value) then reply
                                           else Lookup(w.payload, key))
  {}

  lemma PayloadsAppend(cfg: Config, ticks: seq<Tick>)
    requires ticks != []
    ensures var n := |ticks| - 1;
            Payloads(cfg, ticks) == Payloads(cfg, ticks[..n]) + [PayloadAt(cfg, ticks, n)]
  {
    hide Collected, After;
    var n := |ticks| - 1;
    forall i | 0 <= i < n ensures PayloadAt(cfg, ticks, i) == PayloadAt(cfg, ticks[..n], i) {
      assert ticks[..n][..i] == ticks[..i];
    }
  }

  predicate DigestOf(h: Digest, value: Option<Raw>) {
    h == if value.Some? then Sha256(value.value) else AllZero
  }

  /** For the keys that only the change filter governs, folding the payloads gives back exactly the
      last reply fetched. */
  lemma {:induction false} Rebuilt(cfg: Config, ticks: seq<Tick>, key: string)
    requires key in DELTA_ONLY
    ensures Lookup(Fold(Payloads(cfg, ticks)), key) == LastFetched(cfg, ticks, key)
    ensures DigestOf(Stored(After(cfg, ticks).hashes, key), LastFetched(cfg, ticks, key))
  {
    hide Collected, Fetched, Payloads;
    if ticks != [] {
      var n: nat := |ticks| - 1;
      var init, t := ticks[..n], ticks[n];
      Rebuilt(cfg, init, key);
      DeltaStep(cfg, After(cfg, init), t.r, t.c, key);
      PayloadsAppend(cfg, ticks);
      var ps, p := Payloads(cfg, init), PayloadAt(cfg, ticks, n);
      assert (ps + [p])[..n] == ps;
      assert Lookup(Fold(ps + [p]), key) == if key in p then Some(p[key]) else Lookup(Fold(ps), key);
    } else {
      assert Payloads(cfg, ticks) == [];
    }
  }

  // ---- validators: where the reconstruction can go wrong ----

  /** What a receiver that holds `held` has after the filter has dealt with a reply. */
  function ThroughFilter(hashes: Hashes, key: string, held: Raw, reply: Raw): Raw {
    if Differs(hashes, key, reply) then reply else held
  }

  /** A receiver is right after every possible next reply exactly when the filter's digest, if it has
      one, is that of the value the receiver holds. */
  lemma FilterSoundIff(hashes: Hashes, key: string, held: Raw)
    ensures (forall reply: Raw :: ThroughFilter(hashes, key, held, reply) == reply)
            <==> Stored(hashes, key) == AllZero || Stored(hashes, key) == Sha256(held)
  {
    if forall reply: Raw :: ThroughFilter(hashes, key, held, reply) == reply {
      match Stored(hashes, key)
      case AllZero =>
      case Sha256(data) => assert ThroughFilter(hashes, key, held, data) == data;
    }
  }

  /** The validator set a tick fetches at a new height. */
  function AtHeight(cfg: Config, s: State, r: Replies): Option<Raw> {
    if NewHeight(s, CurrentHeight(cfg, r)) then r.validators else None
  }

  /** The one it emits through the filter. */
  function Filtered(cfg: Config, s: State, r: Replies): Option<Raw> {
    var reply := AtHeight(cfg, s, r);
    if reply.Some? && Differs(s.hashes, "validators", reply.value) then reply else None
  }

  /** The one it fetches and emits past the filter. */
  function Forced(cfg: Config, s: State, r: Replies, c: Clock): Option<Raw> {
    if Filtered(cfg, s, r) == None && (s.lastHeight > 0 || NewHeight(s, CurrentHeight(cfg, r)))
       && Sub(c.validatorsDue, s.lastValidatorsSentAt) >= cfg.validatorsRefresh
    then r.validatorsAgain else None
  }

  lemma ValidatorsTick(cfg: Config, s: State, r: Replies, c: Clock)
    ensures var w := Collected(cfg, s, r, c);
            && Lookup(w.payload, "validators") == (if Forced(cfg, s, r, c).Some? then Forced(cfg, s, r, c) else Filtered(cfg, s, r))
            && Stored(w.s.hashes, "validators")
               == (if Filtered(cfg, s, r).Some? then Sha256(Filtered(cfg, s, r).value) else Stored(s.hashes, "validators"))
            && w.s.lastValidatorsSentAt == (if Forced(cfg, s, r, c).Some? then c.validatorsResent
                                            else if Filtered(cfg, s, r).Some? then c.validatorsSent else s.lastValidatorsSentAt)
            && w.s.lastHeight == (if NewHeight(s, CurrentHeight(cfg, r)) then CurrentHeight(cfg, r) else s.lastHeight)
  {
    hide Early, Collected, AtNewHeight, ValidatorsRefreshed, GenesisRefreshed;
    var early := Early(cfg, s, r, c);
    var w := AtNewHeight(cfg, early, r, c);
    Stages(cfg, s, r, c);
    EarlyKeeps(cfg, s, r, c, "validators");
    HeightVisited(cfg, early, r, c);
    Refreshed(cfg, w, r, c);
    TailKeeps(cfg, ValidatorsRefreshed(cfg, w, r, c), r, c);
  }

  lemma HeightVisited(cfg: Config, w: Work, r: Replies, c: Clock)
    requires Lookup(w.payload, "validators") == None
    ensures var w' := AtNewHeight(cfg, w, r, c);
            var sent := Filtered(cfg, w.s, r);
            && Lookup(w'.payload, "validators") == sent
            && Stored(w'.s.hashes, "validators") == (if sent.Some? then Sha256(sent.value) else Stored(w.s.hashes, "validators"))
            && w'.s.lastValidatorsSentAt == (if sent.Some? then c.validatorsSent else w.s.lastValidatorsSentAt)
            && w'.s.lastHeight == (if NewHeight(w.s, CurrentHeight(cfg, r)) then CurrentHeight(cfg, r) else w.s.lastHeight)
  {}

  lemma Refreshed(cfg: Config, w: Work, r: Replies, c: Clock)
    ensures var w' := ValidatorsRefreshed(cfg, w, r, c);
            var again := if ValidatorsDue(cfg, w, c) then r.validatorsAgain else None;
            && Lookup(w'.payload, "validators") == (if again.Some? then again else Lookup(w.payload, "validators"))
            && w'.s == w.s.(lastValidatorsSentAt := if again.Some? then c.validatorsResent else w.s.lastValidatorsSentAt)
  {}

  lemma TailKeeps(cfg: Config, w: Work, r: Replies, c: Clock)
    ensures var w' := Reachability(GenesisRefreshed(cfg, w, r, c), r);
            && Lookup(w'.payload, "validators") == Lookup(w.payload, "validators")
            && w'.s == w.s.(lastGenesisSentAt := w'.s.lastGenesisSentAt, genesisFailed := w'.s.genesisFailed)
  {}

  /** The same, and the block, spelled out: a greater height brings the block and, if it changed, the
      validator set; with none sent and the interval over, the set is asked for again, whatever the filter. */
  lemma HeightKeys(cfg: Config, s: State, r: Replies, c: Clock)
    ensures var w := Collected(cfg, s, r, c);
            var height := if r.status.Some? then cfg.height(r.status.value) else 0;
            var higher := height > s.lastHeight && height > 0;
            var changed := if higher then New(s, "validators", r.validators) else None;
            var due := (higher || s.lastHeight > 0) && Sub(c.validatorsDue, s.lastValidatorsSentAt) >= cfg.validatorsRefresh;
            && w.s.lastHeight == (if higher then height else s.lastHeight)
            && Lookup(w.payload, "block") == (if higher then r.block else None)
            && Lookup(w.payload, "validators") == (if changed == None && due then r.validatorsAgain else changed)
  {
    hide Collected;
    HeightStep(cfg, s, r, c);
    ValidatorsTick(cfg, s, r, c);
  }

  /** The last validator set fetched in a run. */
  function LastValidators(cfg: Config, ticks: seq<Tick>): Option<Raw> {
    if ticks == [] then None
    else
      var init, t := ticks[..|ticks| - 1], ticks[|ticks| - 1];
      var s := After(cfg, init);
      if Forced(cfg, s, t.r, t.c).Some? then Forced(cfg, s, t.r, t.c)
      else if AtHeight(cfg, s, t.r).Some? then AtHeight(cfg, s, t.r)
      else LastValidators(cfg, init)
  }

  /** The last one emitted through the filter. */
  function LastFiltered(cfg: Config, ticks: seq<Tick>): Option<Raw> {
    if ticks == [] then None
    else
      var init, t := ticks[..|ticks| - 1], ticks[|ticks| - 1];
      if Filtered(cfg, After(cfg, init), t.r).Some? then Filtered(cfg, After(cfg, init), t.r) else LastFiltered(cfg, init)
  }

  /** The last one emitted past the filter since then. */
  function ForcedSince(cfg: Config, ticks: seq<Tick>): Option<Raw> {
    if ticks == [] then None
    else
      var init, t := ticks[..|ticks| - 1], ticks[|ticks| - 1];
      var s := After(cfg, init);
      if Forced(cfg, s, t.r, t.c).Some? then Forced(cfg, s, t.r, t.c)
      else if Filtered(cfg, s, t.r).Some? then None
      else ForcedSince(cfg, init)
  }

  /** The last fetch was held back by the filter. */
  predicate HeldBack(cfg: Config, ticks: seq<Tick>) {
    ticks != [] &&
    var init, t := ticks[..|ticks| - 1], ticks[|ticks| - 1];
    var s := After(cfg, init);
    if Forced(cfg, s, t.r, t.c).Some? || Filtered(cfg, s, t.r).Some? then false
    else AtHeight(cfg, s, t.r).Some? || HeldBack(cfg, init)
  }

  lemma {:induction false} ValidatorsHistory(cfg: Config, ticks: seq<Tick>)
    ensures Lookup(Fold(Payloads(cfg, ticks)), "validators")
         == if ForcedSince(cfg, ticks).Some? then ForcedSince(cfg, ticks) else LastFiltered(cfg, ticks)
    ensures DigestOf(Stored(After(cfg, ticks).hashes, "validators"), LastFiltered(cfg, ticks))
    ensures if HeldBack(cfg, ticks) then LastValidators(cfg, ticks) == LastFiltered(cfg, ticks) != None
            else LastValidators(cfg, ticks) == Lookup(Fold(Payloads(cfg, ticks)), "validators")
  {
    hide Collected, Payloads, Forced, Fold;
    if ticks == [] {
      NothingFolded(cfg, "validators");
    } else {
      var n: nat := |ticks| - 1;
      var init, t := ticks[..n], ticks[n];
      ValidatorsHistory(cfg, init);
      ValidatorsTick(cfg, After(cfg, init), t.r, t.c);
      FoldNext(cfg, ticks, "validators");
    }
  }

  lemma NothingFolded(cfg: Config, key: string)
    ensures Lookup(Fold(Payloads(cfg, [])), key) == None
  {
    assert Payloads(cfg, []) == [];
  }

  lemma FoldNext(cfg: Config, ticks: seq<Tick>, key: string)
    requires ticks != []
    ensures var n := |ticks| - 1;
            var p := PayloadAt(cfg, ticks, n);
            Lookup(Fold(Payloads(cfg, ticks)), key) == if key in p then Some(p[key]) else Lookup(Fold(Payloads(cfg, ticks[..n])), key)
  {
    hide Collected, After;
    PayloadsAppend(cfg, ticks);
    var ps, p := Payloads(cfg, ticks[..|ticks| - 1]), PayloadAt(cfg, ticks, |ticks| - 1);
    assert (ps + [p])[..|ps|] == ps;
  }

  /** For every run, the receiver's validator set is the last one fetched if and only if that one was
      emitted, or the emissions past the filter since the last one through it, if any, ended with the
      set the filter remembers. */
  lemma ValidatorsRebuiltIff(cfg: Config, ticks: seq<Tick>)
    ensures Lookup(Fold(Payloads(cfg, ticks)), "validators") == LastValidators(cfg, ticks)
            <==> !HeldBack(cfg, ticks) || ForcedSince(cfg, ticks) == None || ForcedSince(cfg, ticks) == LastFiltered(cfg, ticks)
  {
    ValidatorsHistory(cfg, ticks);
  }

  /** So after a forced emission the receiver will be right after the next filtered fetch, whatever that
      brings, if and only if what was emitted is the set the filter remembers, if it has one. */
  lemma ForcedEmission(cfg: Config, ticks: seq<Tick>)
    ensures ForcedSince(cfg, ticks).Some? ==>
              ((forall reply: Raw ::
                  ThroughFilter(After(cfg, ticks).hashes, "validators", Lookup(Fold(Payloads(cfg, ticks)), "validators").GetOr(""), reply) == reply)
               <==> LastFiltered(cfg, ticks) == None || ForcedSince(cfg, ticks) == LastFiltered(cfg, ticks))
  {
    hide ThroughFilter, After, Fold, Payloads, ForcedSince, LastFiltered, Stored;
    ValidatorsHistory(cfg, ticks);
    var held := Lookup(Fold(Payloads(cfg, ticks)), "validators").GetOr("");
    assert ForcedSince(cfg, ticks).Some? ==> held == ForcedSince(cfg, ticks).value;
    FilterSoundIff(After(cfg, ticks).hashes, "validators", held);
  }

  // ---- deadlines over runs ----

  /** From the first clock reading of a tick to the last one of the next takes at most `pace`. */
  predicate Paced(ticks: seq<Tick>, pace: int) {
    forall k :: 0 <= k < |ticks| - 1 ==> ticks[k + 1].c.genesisSent - ticks[k].c.dumpDue <= pace
  }

  lemma PacedAt(ticks: seq<Tick>, pace: int, k: nat)
    requires Paced(ticks, pace) && k + 1 < |ticks|
    ensures ticks[k + 1].c.genesisSent - ticks[k].c.dumpDue <= pace
  {}

  predicate Silent(cfg: Config, ticks: seq<Tick>, i: nat, j: nat, key: string)
    requires j <= |ticks|
  {
    forall k: nat :: i < k < j ==> key !in PayloadAt(cfg, ticks, k)
  }

  lemma {:induction false} GenesisKept(cfg: Config, ticks: seq<Tick>, i: nat, j: nat)
    requires Positive(cfg) && AllForward(ticks) && i < j <= |ticks| && Silent(cfg, ticks, i, j, "genesis")
    ensures After(cfg, ticks[..j]).lastGenesisSentAt == After(cfg, ticks[..i + 1]).lastGenesisSentAt
    decreases j
  {
    hide Collected;
    if i + 1 < j {
      GenesisKept(cfg, ticks, i, j - 1);
      AfterNext(cfg, ticks, j - 1);
      GenesisStep(cfg, After(cfg, ticks[..j - 1]), ticks[j - 1].r, ticks[j - 1].c);
      assert "genesis" !in PayloadAt(cfg, ticks, j - 1);
    }
  }

  /** A tick that asks for the genesis document and gets it emits it. */
  lemma GenesisNotDue(cfg: Config, s: State, r: Replies, c: Clock)
    requires r.genesis.Some? && "genesis" !in Collected(cfg, s, r, c).payload && s.lastGenesisSentAt != ZERO
    ensures Sub(c.genesisDue, s.lastGenesisSentAt) < cfg.genesisRefresh
  {
    hide Early, AtNewHeight, Collected;
    Stages(cfg, s, r, c);
    EarlyKeeps(cfg, s, r, c, "genesis");
    NewHeightKeeps(cfg, Early(cfg, s, r, c), r, c, "genesis");
  }

  /** While its calls succeed, the genesis document is never older than the refresh interval and one
      pace: that bounds its age at every tick up to and with the one that sends it again. */
  lemma GenesisDeadline(cfg: Config, ticks: seq<Tick>, i: nat, j: nat, pace: int)
    requires Positive(cfg) && cfg.genesisRefresh <= MAX_INT64 && AllForward(ticks) && Paced(ticks, pace)
    requires i < j < |ticks| && "genesis" in PayloadAt(cfg, ticks, i) && Silent(cfg, ticks, i, j, "genesis")
    requires forall k :: i < k < j ==> ticks[k].r.genesis.Some?
    ensures ticks[j].c.genesisSent - ticks[i].c.genesisSent < cfg.genesisRefresh + pace
  {
    hide Collected, After;
    GenesisStep(cfg, After(cfg, ticks[..i]), ticks[i].r, ticks[i].c);
    AfterNext(cfg, ticks, i);
    PacedAt(ticks, pace, j - 1);
    if i + 1 < j {
      GenesisKept(cfg, ticks, i, j - 1);
      assert "genesis" !in PayloadAt(cfg, ticks, j - 1);
      GenesisNotDue(cfg, After(cfg, ticks[..j - 1]), ticks[j - 1].r, ticks[j - 1].c);
    }
  }

  lemma {:induction false} ValidatorsKept(cfg: Config, ticks: seq<Tick>, i: nat, j: nat)
    requires i < j <= |ticks| && Silent(cfg, ticks, i, j, "validators")
    ensures After(cfg, ticks[..j]).lastValidatorsSentAt == After(cfg, ticks[..i + 1]).lastValidatorsSentAt
    ensures After(cfg, ticks[..j]).lastHeight >= After(cfg, ticks[..i + 1]).lastHeight
    decreases j
  {
    hide Collected, Forced, Filtered;
    if i + 1 < j {
      ValidatorsKept(cfg, ticks, i, j - 1);
      AfterNext(cfg, ticks, j - 1);
      ValidatorsTick(cfg, After(cfg, ticks[..j - 1]), ticks[j - 1].r, ticks[j - 1].c);
      assert "validators" !in PayloadAt(cfg, ticks, j - 1);
    }
  }

  lemma ValidatorsNotDue(cfg: Config, s: State, r: Replies, c: Clock)
    requires r.validatorsAgain.Some? && "validators" !in Collected(cfg, s, r, c).payload && s.lastHeight > 0
    ensures Sub(c.validatorsDue, s.lastValidatorsSentAt) < cfg.validatorsRefresh
  {
    hide Collected;
    ValidatorsTick(cfg, s, r, c);
  }

  /** An emission of validators leaves a positive height, and its time is one read in that tick. */
  lemma ValidatorsEmitted(cfg: Config, s: State, r: Replies, c: Clock)
    requires Forward(c) && "validators" in Collected(cfg, s, r, c).payload
    ensures var s' := Collected(cfg, s, r, c).s;
            s'.lastHeight > 0 && c.dumpDue <= s'.lastValidatorsSentAt <= c.genesisSent
  {
    hide Collected;
    ValidatorsTick(cfg, s, r, c);
  }

  /** The same for the validator set. */
  lemma ValidatorsDeadline(cfg: Config, ticks: seq<Tick>, i: nat, j: nat, pace: int)
    requires Positive(cfg) && cfg.validatorsRefresh <= MAX_INT64 && AllForward(ticks) && Paced(ticks, pace)
    requires i < j < |ticks| && "validators" in PayloadAt(cfg, ticks, i) && Silent(cfg, ticks, i, j, "validators")
    requires forall k :: i < k < j ==> ticks[k].r.validatorsAgain.Some?
    ensures ticks[j].c.genesisSent - After(cfg, ticks[..i + 1]).lastValidatorsSentAt < cfg.validatorsRefresh + pace
  {
    hide Collected, After;
    ValidatorsEmitted(cfg, After(cfg, ticks[..i]), ticks[i].r, ticks[i].c);
    AfterNext(cfg, ticks, i);
    PacedAt(ticks, pace, j - 1);
    if i + 1 < j {
      ValidatorsKept(cfg, ticks, i, j - 1);
      assert "validators" !in PayloadAt(cfg, ticks, j - 1);
      ValidatorsNotDue(cfg, After(cfg, ticks[..j - 1]), ticks[j - 1].r, ticks[j - 1].c);
    }
  }

  // ---- a run that drifts ----

  const NoReplies := Replies(None, None, None, None, None, None, None, None)

  function At(t: Now): Clock { Clock(t, t, t, t, t, t, t) }

  /** A tick at time t: the node reports a height (as the length of its status), its validator set, and
      the set it answers when asked again. */
  function DriftTick(status: Option<Raw>, validators: Option<Raw>, again: Option<Raw>, t: Now): Tick {
    Tick(NoReplies.(status := status, validators := validators, validatorsAgain := again), At(t))
  }

  function DriftTicks(known: Raw, other: Raw, t: Now): seq<Tick> {
    [DriftTick(Some("1"), Some(known), None, t),
     DriftTick(None, None, Some(other), t + HOUR),
     DriftTick(Some("22"), Some(known), None, t + HOUR)]
  }

  /** From the start: a set goes out at height 1, another one is forced out an hour later, and at height
      2 the node is back to the first, which the filter holds back. The receiver keeps the second. */
  lemma ValidatorsDrift(known: Raw, other: Raw, t: Now)
    requires known != other
    ensures var cfg := Config(HOUR, HOUR, HOUR, (raw: Raw) => |raw|);
            var ticks := DriftTicks(known, other, t);
            && Lookup(Fold(Payloads(cfg, ticks)), "validators") == Some(other)
            && LastValidators(cfg, ticks) == Some(known)
  {
    hide Collected, Fold, Payloads;
    var cfg := Config(HOUR, HOUR, HOUR, (raw: Raw) => |raw|);
    var ticks := DriftTicks(known, other, t);
    ValidatorsHistory(cfg, ticks);
    DriftStates(cfg, ticks);
    var s0, s1, s2 := Fresh, After(cfg, ticks[..1]), After(cfg, ticks[..2]);
    ValidatorsTick(cfg, s0, ticks[0].r, ticks[0].c);
    ValidatorsTick(cfg, s1, ticks[1].r, ticks[1].c);
    ValidatorsTick(cfg, s2, ticks[2].r, ticks[2].c);
    assert LastFiltered(cfg, ticks[..1]) == Some(known) && LastFiltered(cfg, ticks[..2]) == Some(known);
    assert ForcedSince(cfg, ticks[..2]) == Some(other);
  }

  lemma DriftStates(cfg: Config, ticks: seq<Tick>)
    requires |ticks| == 3
    ensures ticks[..0] == [] && ticks[..1][..0] == [] && ticks[..2][..1] == ticks[..1] && After(cfg, []) == Fresh
    ensures After(cfg, ticks[..1]) == Collected(cfg, Fresh, ticks[0].r, ticks[0].c).s
    ensures After(cfg, ticks[..2]) == Collected(cfg, After(cfg, ticks[..1]), ticks[1].r, ticks[1].c).s
  {
    hide Collected;
    AfterNext(cfg, ticks, 0);
    AfterNext(cfg, ticks, 1);
  }
}
