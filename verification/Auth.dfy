/** The IP-ban state machine behind the bearer-token check (internal/watchtower/auth/auth.go).

Each function below is one section run under the ban mutex, at a single instant `now`. */
module BanTable {
  import opened GoTime

  /** A zero `banExpiry` means that no ban is set. */
  datatype IpRecord = IpRecord(failures: int, banExpiry: Time, lastSeen: Time)

  type Table = map<string, IpRecord>

  datatype Limits = Limits(banThreshold: int, banDuration: int) {
    /** What configuration validation guarantees, for an int64 duration. */
    predicate Valid() { banThreshold > 0 && 0 < banDuration <= MAX_INT64 }
  }

  datatype State = State(ips: Table, lastCleanup: Time)

  const Fresh := State(map[], ZERO)

  predicate Banned(rec: IpRecord) { rec.banExpiry != ZERO }

  predicate Expired(rec: IpRecord, now: Now) { Banned(rec) && now > rec.banExpiry }

  predicate Stale(rec: IpRecord, now: Now, duration: int) { !Banned(rec) && Sub(now, rec.lastSeen) > duration }

  function Swept(ips: Table, now: Now, duration: int): Table {
    map ip | ip in ips && !Expired(ips[ip], now) && !Stale(ips[ip], now, duration) :: ips[ip]
  }

  function MaybeSweep(lim: Limits, s: State, now: Now): State {
    if Sub(now, s.lastCleanup) < lim.banDuration then s else State(Swept(s.ips, now, lim.banDuration), now)
  }

  function IsBanned(lim: Limits, s: State, ip: string, now: Now): (State, bool) {
    var s := MaybeSweep(lim, s, now);
    if ip !in s.ips || !Banned(s.ips[ip]) then (s, false)
    else if Expired(s.ips[ip], now) then (s.(ips := s.ips - {ip}), false)
    else (s, true)
  }

  function RecordFailure(lim: Limits, s: State, ip: string, now: Now): State {
    var rec := if ip in s.ips then s.ips[ip] else IpRecord(0, ZERO, ZERO);
    var failures := rec.failures + 1;
    var expiry := if failures >= lim.banThreshold then now + lim.banDuration else rec.banExpiry;
    s.(ips := s.ips[ip := IpRecord(failures, expiry, now)])
  }

  function RecordSuccess(s: State, ip: string): State {
    s.(ips := s.ips - {ip})
  }

  // ---- runs in which every locked section is a step of its own ----

  datatype Event = Check(ip: string, now: Now) | Fail(ip: string, now: Now) | Success(ip: string)

  function Step(lim: Limits, s: State, e: Event): State {
    match e
    case Check(ip, now) => IsBanned(lim, s, ip, now).0
    case Fail(ip, now) => RecordFailure(lim, s, ip, now)
    case Success(ip) => RecordSuccess(s, ip)
  }

  function After(lim: Limits, s: State, events: seq<Event>): State {
    if events == [] then s
    else Step(lim, After(lim, s, events[..|events| - 1]), events[|events| - 1])
  }

  function TimeOf(e: Event, last: Time): Time {
    if e.Success? then last else e.now
  }

  /** The clock reading of the last event that read the clock. */
  function LastTime(events: seq<Event>): Time {
    if events == [] then ZERO else TimeOf(events[|events| - 1], LastTime(events[..|events| - 1]))
  }

  /** The clock never runs backwards. */
  predicate Ordered(events: seq<Event>) {
    if events == [] then true
    else
      var init := events[..|events| - 1];
      Ordered(init) && LastTime(init) <= TimeOf(events[|events| - 1], LastTime(init))
  }

  function Failures(events: seq<Event>, ip: string): nat {
    if events == [] then 0
    else Failures(events[..|events| - 1], ip) + IsFailure(events[|events| - 1], ip)
  }

  function IsFailure(e: Event, ip: string): nat { if e.Fail? && e.ip == ip then 1 else 0 }

  function LastFailure(events: seq<Event>, ip: string): Time {
    if events == [] then ZERO
    else
      var e := events[|events| - 1];
      if e.Fail? && e.ip == ip then e.now else LastFailure(events[..|events| - 1], ip)
  }

  // ---- record invariants ----

  predicate RecordOk(lim: Limits, rec: IpRecord) {
    && rec.failures >= 1
    && (rec.failures >= lim.banThreshold <==> Banned(rec))
    && (Banned(rec) <==> rec.banExpiry == rec.lastSeen + lim.banDuration)
  }

  /** `k` splits the history at the last moment the IP had no record. */
  ghost predicate AbsentLast(lim: Limits, events: seq<Event>, ip: string, k: nat) {
    && k <= |events| && ip !in After(lim, Fresh, events[..k]).ips
    && forall j :: k < j <= |events| ==> ip in After(lim, Fresh, events[..j]).ips
  }

  lemma {:induction false} FailuresConcat(a: seq<Event>, b: seq<Event>, ip: string)
    ensures Failures(a + b, ip) == Failures(a, ip) + Failures(b, ip)
    decreases |b|
  {
    if b == [] {
      assert a + b == a;
    } else {
      assert (a + b)[..|a + b| - 1] == a + b[..|b| - 1];
      FailuresConcat(a, b[..|b| - 1], ip);
    }
  }

  /** A step can only add a record by counting a failure, and only that changes one. */
  lemma StepOnRecord(lim: Limits, s: State, e: Event, ip: string)
    ensures var s' := Step(lim, s, e);
            ip in s'.ips ==>
              if e.Fail? && e.ip == ip then s'.ips[ip].lastSeen == e.now
                   && s'.ips[ip].failures == (if ip in s.ips then s.ips[ip].failures else 0) + 1
                   && s'.ips[ip].banExpiry == (if s'.ips[ip].failures >= lim.banThreshold then e.now + lim.banDuration
                                               else if ip in s.ips then s.ips[ip].banExpiry else ZERO)
              else ip in s.ips && s'.ips[ip] == s.ips[ip]
  {}

  lemma {:induction false} RecordInvariant(lim: Limits, events: seq<Event>, ip: string)
    requires lim.Valid() && ip in After(lim, Fresh, events).ips
    ensures RecordOk(lim, After(lim, Fresh, events).ips[ip])
    ensures After(lim, Fresh, events).ips[ip].lastSeen == LastFailure(events, ip) > ZERO
  {
    hide Step;
    assert events != [];
    var init, e := events[..|events| - 1], events[|events| - 1];
    var s := After(lim, Fresh, init);
    StepOnRecord(lim, s, e, ip);
    if ip in s.ips {
      RecordInvariant(lim, init, ip);
    }
  }

  lemma {:induction false} CountHistory(lim: Limits, events: seq<Event>, ip: string) returns (k: nat)
    requires ip in After(lim, Fresh, events).ips
    ensures k < |events| && AbsentLast(lim, events, ip, k)
    ensures After(lim, Fresh, events).ips[ip].failures == Failures(events[k..], ip)
  {
    assert events != [];
    var n: nat := |events| - 1;
    var init, e := events[..n], events[n];
    var s := After(lim, Fresh, init);
    StepOnRecord(lim, s, e, ip);
    hide Step, AbsentLast;
    if ip in s.ips {
      k := CountHistory(lim, init, ip);
      LongerHistory(lim, events, ip, k);
      FailuresTail(events, ip, k);
    } else {
      k := n;
      NewRecord(lim, events, ip);
      FailuresTail(events, ip, k);
      assert init[n..] == [];
    }
  }

  lemma FailuresTail(events: seq<Event>, ip: string, k: nat)
    requires k < |events|
    ensures Failures(events[k..], ip)
         == Failures(events[..|events| - 1][k..], ip) + IsFailure(events[|events| - 1], ip)
  {
    var tail := events[k..];
    assert tail[..|tail| - 1] == events[..|events| - 1][k..];
  }

  lemma NewRecord(lim: Limits, events: seq<Event>, ip: string)
    requires events != [] && ip !in After(lim, Fresh, events[..|events| - 1]).ips && ip in After(lim, Fresh, events).ips
    ensures AbsentLast(lim, events, ip, |events| - 1)
  {
    hide After;
    assert events[..|events|] == events;
  }

  /** In every interleaving of the locked sections, for every record: its count is the number of
      failures since it last did not exist, its time stamp that of the last failure, and the ban is
      set exactly from the threshold on, to end one ban duration after that failure. */
  lemma RecordHistory(lim: Limits, events: seq<Event>, ip: string)
    requires lim.Valid() && ip in After(lim, Fresh, events).ips
    ensures var rec := After(lim, Fresh, events).ips[ip];
            && RecordOk(lim, rec)
            && rec.lastSeen == LastFailure(events, ip)
            && exists k: nat :: AbsentLast(lim, events, ip, k) && rec.failures == Failures(events[k..], ip)
  {
    RecordInvariant(lim, events, ip);
    var k := CountHistory(lim, events, ip);
  }

  lemma LongerHistory(lim: Limits, events: seq<Event>, ip: string, k: nat)
    requires events != [] && AbsentLast(lim, events[..|events| - 1], ip, k)
    requires ip in After(lim, Fresh, events).ips
    ensures AbsentLast(lim, events, ip, k)
  {
    hide After;
    var init := events[..|events| - 1];
    forall j | k < j <= |events|
      ensures ip in After(lim, Fresh, events[..j]).ips
    {
      assert j < |events| ==> events[..j] == init[..j];
      assert j == |events| ==> events[..j] == events;
    }
    assert events[..k] == init[..k];
  }

  // ---- sweeping bounds the table ----

  /** No record is older than one ban duration at the time of the last sweep. */
  predicate Tidy(lim: Limits, s: State) {
    forall ip :: ip in s.ips ==> s.ips[ip].lastSeen >= s.lastCleanup - lim.banDuration && RecordOk(lim, s.ips[ip])
  }

  lemma CheckKeepsTidy(lim: Limits, s: State, ip: string, now: Now)
    requires lim.Valid() && lim.banDuration < MAX_INT64 && Tidy(lim, s) && s.lastCleanup <= now
    ensures var s' := IsBanned(lim, s, ip, now).0;
            && Tidy(lim, s') && s'.lastCleanup <= now
            && forall other :: other in s'.ips ==> now - s'.ips[other].lastSeen < 2 * lim.banDuration
  {}

  lemma {:induction false} AlwaysTidy(lim: Limits, events: seq<Event>)
    requires lim.Valid() && lim.banDuration < MAX_INT64 && Ordered(events)
    ensures Tidy(lim, After(lim, Fresh, events)) && After(lim, Fresh, events).lastCleanup <= LastTime(events)
  {
    hide IsBanned;
    if events != [] {
      var init, e := events[..|events| - 1], events[|events| - 1];
      AlwaysTidy(lim, init);
      if e.Check? {
        CheckKeepsTidy(lim, After(lim, Fresh, init), e.ip, e.now);
      }
    }
  }

  /** Memory bound: right after any ban check, every record left was touched less than two ban
      durations ago. */
  lemma SweepBound(lim: Limits, events: seq<Event>, ip: string, now: Now, other: string)
    requires lim.Valid() && lim.banDuration < MAX_INT64 && Ordered(events + [Check(ip, now)])
    requires other in After(lim, Fresh, events + [Check(ip, now)]).ips
    ensures now - After(lim, Fresh, events + [Check(ip, now)]).ips[other].lastSeen < 2 * lim.banDuration
  {
    hide IsBanned;
    var all := events + [Check(ip, now)];
    assert all[..|all| - 1] == events;
    AlwaysTidy(lim, events);
    CheckKeepsTidy(lim, After(lim, Fresh, events), ip, now);
  }

  // ---- what a check forgets ----

  /** A check forgets a record exactly when the record's own ban has run out and either it is the record
      asked for or a sweep is due, or when a sweep is due and the record, unbanned, was last touched more
      than one ban duration ago. What it does not forget it does not touch, and it adds nothing. */
  lemma CheckForgetsIff(lim: Limits, s: State, ip: string, now: Now, other: string)
    requires lim.Valid()
    ensures var s' := IsBanned(lim, s, ip, now).0;
            var due := now - s.lastCleanup >= lim.banDuration;
            && s'.lastCleanup == (if due then now else s.lastCleanup)
            && (other in s'.ips ==> other in s.ips && s'.ips[other] == s.ips[other])
            && (other in s.ips ==>
                  var rec := s.ips[other];
                  (other !in s'.ips <==>
                    if rec.banExpiry != ZERO then now > rec.banExpiry && (due || other == ip)
                    else due && now - rec.lastSeen > lim.banDuration && lim.banDuration < MAX_INT64))
  {}

  /** The failures of one IP follow each other within `gap`, from the first of them on. */
  predicate Paced(events: seq<Event>, ip: string, gap: int) {
    if events == [] then true
    else
      var init, e := events[..|events| - 1], events[|events| - 1];
      Paced(init, ip, gap)
      && (e.Fail? && e.ip == ip && Failures(init, ip) > 0 ==> e.now - LastFailure(init, ip) <= gap)
  }

  /** From the first failure on the record stays, counts every failure, and keeps the time of the last. */
  lemma {:induction false} PacedKept(lim: Limits, s: State, events: seq<Event>, ip: string)
    requires lim.Valid() && (ip in s.ips ==> RecordOk(lim, s.ips[ip]))
    requires Ordered(events) && NoSuccess(events, ip) && Paced(events, ip, lim.banDuration)
    requires Failures(events, ip) > 0 ==> LastTime(events) - LastFailure(events, ip) <= lim.banDuration
    ensures var s' := After(lim, s, events);
            && (ip in s'.ips ==> RecordOk(lim, s'.ips[ip]))
            && (Failures(events, ip) > 0 ==>
                  ip in s'.ips && s'.ips[ip].failures >= Failures(events, ip) && s'.ips[ip].lastSeen == LastFailure(events, ip))
  {
    hide Step;
    if events != [] {
      var init, e := events[..|events| - 1], events[|events| - 1];
      PacedKept(lim, s, init, ip);
      StepPaced(lim, After(lim, s, init), e, ip);
    }
  }

  lemma StepPaced(lim: Limits, s: State, e: Event, ip: string)
    requires lim.Valid() && (ip in s.ips ==> RecordOk(lim, s.ips[ip])) && e != Success(ip)
    ensures var s' := Step(lim, s, e);
            && (ip in s'.ips ==> RecordOk(lim, s'.ips[ip]))
            && (e.Fail? && e.ip == ip ==>
                  ip in s'.ips && s'.ips[ip].lastSeen == e.now
                  && s'.ips[ip].failures == (if ip in s.ips then s.ips[ip].failures else 0) + 1)
            && (!(e.Fail? && e.ip == ip) && ip in s.ips && (e.Check? ==> e.now - s.ips[ip].lastSeen <= lim.banDuration) ==>
                  ip in s'.ips && s'.ips[ip] == s.ips[ip])
  {}

  /** The rule an administrator sets: in every interleaving of the locked sections, from any table, as many
      failures of one IP as the threshold, each at most a ban duration after the one before and with no
      success recorded between, ban it: the next check within a ban duration of the last one refuses. */
  lemma FailuresBan(lim: Limits, s: State, events: seq<Event>, ip: string, now: Now)
    requires lim.Valid() && (ip in s.ips ==> RecordOk(lim, s.ips[ip]))
    requires Ordered(events) && NoSuccess(events, ip) && Paced(events, ip, lim.banDuration)
    requires Failures(events, ip) >= lim.banThreshold
    requires LastTime(events) <= now <= LastFailure(events, ip) + lim.banDuration
    ensures var s' := After(lim, s, events);
            IsBanned(lim, s', ip, now).1 && ip in s'.ips && s'.ips[ip].banExpiry == LastFailure(events, ip) + lim.banDuration
  {
    hide IsBanned;
    PacedKept(lim, s, events, ip);
    RefusedExactly(lim, After(lim, s, events), ip, now);
  }

  // ---- counting bans ----

  /** The bans the gauge counts. */
  function Counted(ips: Table, now: Now): set<string> {
    set ip | ip in ips && Banned(ips[ip]) && now < ips[ip].banExpiry
  }

  /** The IPs a request would be refused from. */
  function Refused(lim: Limits, s: State, now: Now): set<string> {
    set ip | ip in s.ips && IsBanned(lim, s, ip, now).1
  }

  function ExpiringNow(ips: Table, now: Now): set<string> {
    set ip | ip in ips && ips[ip].banExpiry == now
  }

  /** A ban check refuses exactly the bans that have not run out; whether it sweeps first makes no
      difference. */
  lemma RefusedExactly(lim: Limits, s: State, ip: string, now: Now)
    ensures IsBanned(lim, s, ip, now).1 <==> ip in s.ips && Banned(s.ips[ip]) && now <= s.ips[ip].banExpiry
  {}

  /** The gauge misses exactly the bans that run out at this very instant. */
  lemma GaugeAgainstChecks(lim: Limits, s: State, now: Now)
    ensures Counted(s.ips, now) == Refused(lim, s, now) - ExpiringNow(s.ips, now)
    ensures Counted(s.ips, now) == Refused(lim, s, now) <==> Refused(lim, s, now) !! ExpiringNow(s.ips, now)
  {
    forall ip ensures ip in Refused(lim, s, now) <==> ip in s.ips && Banned(s.ips[ip]) && now <= s.ips[ip].banExpiry {
      RefusedExactly(lim, s, ip, now);
    }
  }

  // ---- how long a ban lasts ----

  /** The events happen between the failure that set the ban and the instant it runs out. */
  predicate During(events: seq<Event>, start: Time, end: Time) {
    forall i :: 0 <= i < |events| && !events[i].Success? ==> start <= events[i].now <= end
  }

  predicate NoSuccess(events: seq<Event>, ip: string) {
    forall i :: 0 <= i < |events| ==> events[i] != Success(ip)
  }

  lemma {:induction false} BanIntact(lim: Limits, s: State, ip: string, events: seq<Event>)
    requires lim.Valid() && ip in s.ips && RecordOk(lim, s.ips[ip]) && Banned(s.ips[ip])
    requires During(events, s.ips[ip].lastSeen, s.ips[ip].banExpiry) && NoSuccess(events, ip)
    ensures var s' := After(lim, s, events);
            ip in s'.ips && RecordOk(lim, s'.ips[ip]) && s'.ips[ip].banExpiry >= s.ips[ip].banExpiry
  {
    hide RecordOk;
    assert s.ips[ip].failures >= lim.banThreshold by { BannedFrom(lim, s.ips[ip]); }
    if events != [] {
      var init, e := events[..|events| - 1], events[|events| - 1];
      BanIntact(lim, s, ip, init);
      StepInBan(lim, After(lim, s, init), e, ip, s.ips[ip]);
    }
  }

  lemma BannedFrom(lim: Limits, rec: IpRecord)
    requires RecordOk(lim, rec) && Banned(rec)
    ensures rec.failures >= lim.banThreshold && rec.banExpiry == rec.lastSeen + lim.banDuration
  {}

  lemma StepInBan(lim: Limits, s: State, e: Event, ip: string, was: IpRecord)
    requires lim.Valid() && ip in s.ips && RecordOk(lim, s.ips[ip]) && RecordOk(lim, was) && Banned(was)
    requires s.ips[ip].banExpiry >= was.banExpiry
    requires e != Success(ip) && (!e.Success? ==> was.lastSeen <= e.now <= was.banExpiry)
    ensures var s' := Step(lim, s, e);
            ip in s'.ips && RecordOk(lim, s'.ips[ip]) && s'.ips[ip].banExpiry >= was.banExpiry
  {}

  /** Locked section by locked section: until it runs out, a ban stays in force throughout exactly
      when no success is recorded for its IP. */
  lemma BanLastsIff(lim: Limits, s: State, ip: string, events: seq<Event>)
    requires lim.Valid() && ip in s.ips && RecordOk(lim, s.ips[ip]) && Banned(s.ips[ip])
    requires During(events, s.ips[ip].lastSeen, s.ips[ip].banExpiry)
    ensures (forall k :: 0 <= k <= |events| ==> InForce(After(lim, s, events[..k]), ip, s.ips[ip].banExpiry))
            <==> NoSuccess(events, ip)
  {
    hide After, RecordOk;
    if NoSuccess(events, ip) {
      forall k | 0 <= k <= |events|
        ensures InForce(After(lim, s, events[..k]), ip, s.ips[ip].banExpiry)
      {
        BanIntact(lim, s, ip, events[..k]);
      }
    } else {
      var i :| 0 <= i < |events| && events[i] == Success(ip);
      SuccessRemoves(lim, s, ip, events, i);
    }
  }

  predicate InForce(s: State, ip: string, until: Time) {
    ip in s.ips && s.ips[ip].banExpiry >= until
  }

  lemma SuccessRemoves(lim: Limits, s: State, ip: string, events: seq<Event>, i: nat)
    requires i < |events| && events[i] == Success(ip)
    ensures ip !in After(lim, s, events[..i + 1]).ips
  {
    assert events[..i + 1][..i] == events[..i];
  }
}

/** The request path: ban check, token lookup, bookkeeping; and the reload of the token index. */
module Auth {
  import opened GoTime
  import opened WatchtowerConfig
  import opened BanTable

  datatype Verdict = Forbidden | Unauthorized | Authenticated(entry: TokenEntry)

  /** One request handled without interruption. */
  function Serve(lim: Limits, tokens: Index, bans: State, ip: string, token: string, now: Now): (State, Verdict) {
    var (checked, refused) := IsBanned(lim, bans, ip, now);
    if refused then (checked, Forbidden)
    else if token !in tokens then (RecordFailure(lim, checked, ip, now), Unauthorized)
    else (RecordSuccess(checked, ip), Authenticated(tokens[token]))
  }

  class Authenticator {
    const lim: Limits
    var tokens: Index
    var ips: Table
    var lastCleanup: Time

    function Bans(): State
      reads this
    {
      State(ips, lastCleanup)
    }

    constructor (validators: Validators, lim: Limits)
      ensures this.lim == lim && Bans() == Fresh && Indexes(tokens, validators)
    {
      this.lim := lim;
      ips := map[];
      lastCleanup := ZERO;
      new;
      tokens := BuildIndex(validators);
    }

    method Reload(validators: Validators)
      modifies this`tokens
      ensures Indexes(tokens, validators) && Bans() == old(Bans())
    {
      var index := BuildIndex(validators);
      tokens := index;
    }

    method SweepIfDue(now: Now)
      modifies this`ips, this`lastCleanup
      ensures Bans() == MaybeSweep(lim, old(Bans()), now)
    {
      if Sub(now, lastCleanup) < lim.banDuration {
        return;
      }
      ghost var before := ips;
      var todo := ips.Keys;
      while todo != {}
        invariant todo <= before.Keys
        invariant ips == map ip | ip in before && (ip in todo || (!Expired(before[ip], now) && !Stale(before[ip], now, lim.banDuration))) :: before[ip]
        decreases todo
      {
        var ip :| ip in todo;
        var rec := ips[ip];
        if rec.banExpiry != ZERO && now > rec.banExpiry {
          ips := ips - {ip};
        } else if rec.banExpiry == ZERO && Sub(now, rec.lastSeen) > lim.banDuration {
          ips := ips - {ip};
        }
        todo := todo - {ip};
      }
      lastCleanup := now;
    }

    method CheckBan(ip: string, now: Now) returns (refused: bool)
      modifies this`ips, this`lastCleanup
      ensures (Bans(), refused) == IsBanned(lim, old(Bans()), ip, now)
    {
      SweepIfDue(now);
      if ip !in ips {
        return false;
      }
      var rec := ips[ip];
      if rec.banExpiry == ZERO {
        return false;
      }
      if now > rec.banExpiry {
        ips := ips - {ip};
        return false;
      }
      return true;
    }

    method CountFailure(ip: string, now: Now)
      modifies this`ips
      ensures Bans() == RecordFailure(lim, old(Bans()), ip, now)
    {
      var rec := if ip in ips then ips[ip] else IpRecord(0, ZERO, ZERO);
      rec := rec.(failures := rec.failures + 1, lastSeen := now);
      if rec.failures >= lim.banThreshold {
        rec := rec.(banExpiry := rec.lastSeen + lim.banDuration);
      }
      ips := ips[ip := rec];
    }

    method ClearFailures(ip: string)
      modifies this`ips
      ensures Bans() == RecordSuccess(old(Bans()), ip)
    {
      ips := ips - {ip};
    }

    method Middleware(ip: string, token: string, now: Now) returns (verdict: Verdict)
      modifies this`ips, this`lastCleanup
      ensures (Bans(), verdict) == Serve(lim, tokens, old(Bans()), ip, token, now)
    {
      var refused := CheckBan(ip, now);
      if refused {
        return Forbidden;
      }
      if token !in tokens {
        CountFailure(ip, now);
        return Unauthorized;
      }
      var entry := tokens[token];
      ClearFailures(ip);
      return Authenticated(entry);
    }

    method BannedCount(now: Now) returns (n: nat)
      ensures n == |Counted(ips, now)|
    {
      n := 0;
      var todo := ips.Keys;
      ghost var done: set<string> := {};
      while todo != {}
        invariant todo <= ips.Keys
        invariant done == set ip | ip in Counted(ips, now) && ip !in todo
        invariant n == |done|
        decreases todo
      {
        var ip :| ip in todo;
        var rec := ips[ip];
        todo := todo - {ip};
        if rec.banExpiry != ZERO && now < rec.banExpiry {
          n := n + 1;
          done := done + {ip};
        }
      }
      assert done == Counted(ips, now);
    }
  }

  /** Who is answered what: the ban first, then the token. */
  lemma VerdictIs(lim: Limits, tokens: Index, bans: State, ip: string, token: string, now: Now)
    ensures var verdict := Serve(lim, tokens, bans, ip, token, now).1;
            var banned := ip in bans.ips && bans.ips[ip].banExpiry != ZERO && now <= bans.ips[ip].banExpiry;
            && (verdict == Forbidden <==> banned)
            && (verdict == Unauthorized <==> !banned && token !in tokens)
            && (!banned && token in tokens ==> verdict == Authenticated(tokens[token]))
  {
    RefusedExactly(lim, bans, ip, now);
  }

  // ---- runs of whole requests ----

  /** A reload brings a new set of validators and some index of it. */
  datatype Action = Request(ip: string, token: string, now: Now) | Reload(validators: Validators, index: Index)

  datatype Server = Server(validators: Validators, tokens: Index, bans: State)

  function Act(lim: Limits, srv: Server, a: Action): Server {
    match a
    case Request(ip, token, now) => srv.(bans := Serve(lim, srv.tokens, srv.bans, ip, token, now).0)
    case Reload(validators, index) => srv.(validators := validators, tokens := index)
  }

  function ActAll(lim: Limits, srv: Server, actions: seq<Action>): Server {
    if actions == [] then srv
    else Act(lim, ActAll(lim, srv, actions[..|actions| - 1]), actions[|actions| - 1])
  }

  function VerdictAt(lim: Limits, srv: Server, actions: seq<Action>, i: nat): Verdict
    requires i < |actions| && actions[i].Request?
  {
    var before := ActAll(lim, srv, actions[..i]);
    Serve(lim, before.tokens, before.bans, actions[i].ip, actions[i].token, actions[i].now).1
  }

  predicate UpTo(actions: seq<Action>, end: Time) {
    forall i :: 0 <= i < |actions| && actions[i].Request? ==> actions[i].now <= end
  }

  lemma RequestInBan(lim: Limits, srv: Server, a: Action, ip: string)
    requires ip in srv.bans.ips && Banned(srv.bans.ips[ip])
    requires a.Request? ==> a.now <= srv.bans.ips[ip].banExpiry
    ensures ip in Act(lim, srv, a).bans.ips && Act(lim, srv, a).bans.ips[ip] == srv.bans.ips[ip]
    ensures a.Request? && a.ip == ip ==> Serve(lim, srv.tokens, srv.bans, ip, a.token, a.now).1 == Forbidden
  {}

  lemma {:induction false} BanRecordKept(lim: Limits, srv: Server, ip: string, actions: seq<Action>)
    requires ip in srv.bans.ips && Banned(srv.bans.ips[ip]) && UpTo(actions, srv.bans.ips[ip].banExpiry)
    ensures var srv' := ActAll(lim, srv, actions);
            ip in srv'.bans.ips && srv'.bans.ips[ip] == srv.bans.ips[ip]
  {
    hide Act;
    if actions != [] {
      var init, a := actions[..|actions| - 1], actions[|actions| - 1];
      BanRecordKept(lim, srv, ip, init);
      RequestInBan(lim, ActAll(lim, srv, init), a, ip);
    }
  }

  /** With requests handled one at a time, a ban is final until it runs out: whatever requests from
      whatever IPs with whatever tokens, and whatever reloads, every request from the banned IP is
      refused and none of them touches its record. */
  lemma {:induction false} BanHolds(lim: Limits, srv: Server, ip: string, actions: seq<Action>)
    requires ip in srv.bans.ips && Banned(srv.bans.ips[ip]) && UpTo(actions, srv.bans.ips[ip].banExpiry)
    ensures var srv' := ActAll(lim, srv, actions);
            ip in srv'.bans.ips && srv'.bans.ips[ip] == srv.bans.ips[ip]
    ensures forall i :: 0 <= i < |actions| && actions[i].Request? && actions[i].ip == ip
                        ==> VerdictAt(lim, srv, actions, i) == Forbidden
  {
    hide Act, ActAll;
    BanRecordKept(lim, srv, ip, actions);
    forall i | 0 <= i < |actions| && actions[i].Request? && actions[i].ip == ip
      ensures VerdictAt(lim, srv, actions, i) == Forbidden
    {
      BanRecordKept(lim, srv, ip, actions[..i]);
      RequestInBan(lim, ActAll(lim, srv, actions[..i]), actions[i], ip);
    }
  }

  /** The first request after that instant is judged by its token alone, and starts a clean slate. */
  lemma BanEnds(lim: Limits, tokens: Index, bans: State, ip: string, token: string, now: Now)
    requires lim.Valid() && ip in bans.ips && Banned(bans.ips[ip]) && now > bans.ips[ip].banExpiry
    ensures var (bans', verdict) := Serve(lim, tokens, bans, ip, token, now);
            if token in tokens then verdict == Authenticated(tokens[token]) && ip !in bans'.ips
            else verdict == Unauthorized && ip in bans'.ips && bans'.ips[ip].failures == 1
  {}

  /** A ban is set by a request with an unknown token that brings the count to the threshold, for
      one ban duration from that request; any known token before that clears the count. */
  lemma BanStarts(lim: Limits, tokens: Index, bans: State, ip: string, token: string, now: Now)
    requires lim.Valid() && (ip in bans.ips ==> RecordOk(lim, bans.ips[ip]) && !Banned(bans.ips[ip]))
    ensures var checked := IsBanned(lim, bans, ip, now).0;
            var n := if ip in checked.ips then checked.ips[ip].failures else 0;
            var bans' := Serve(lim, tokens, bans, ip, token, now).0;
            (ip in bans'.ips && Banned(bans'.ips[ip]) <==> token !in tokens && n + 1 >= lim.banThreshold)
            && (ip in bans'.ips && Banned(bans'.ips[ip]) ==> bans'.ips[ip].banExpiry == now + lim.banDuration)
  {}

  /** A whole request is a run of its locked sections, so everything proved of such runs holds. */
  lemma ServeIsSteps(lim: Limits, tokens: Index, bans: State, ip: string, token: string, now: Now)
    ensures var (bans', verdict) := Serve(lim, tokens, bans, ip, token, now);
            bans' == After(lim, bans, match verdict
                                      case Forbidden => [Check(ip, now)]
                                      case Unauthorized => [Check(ip, now), Fail(ip, now)]
                                      case Authenticated(_) => [Check(ip, now), Success(ip)])
  {
    var check := Check(ip, now);
    assert [check][..0] == [];
    assert After(lim, bans, [check]) == Step(lim, bans, check);
    assert [check, Fail(ip, now)][..1] == [check] && [check, Success(ip)][..1] == [check];
  }

  // ---- tokens across reloads ----

  predicate AllAcceptable(lim: Limits, actions: seq<Action>) {
    forall i :: 0 <= i < |actions| && actions[i].Reload? ==>
      Acceptable(Security(lim.banThreshold, lim.banDuration), actions[i].validators)
  }

  ghost predicate AllIndexed(actions: seq<Action>) {
    forall i :: 0 <= i < |actions| && actions[i].Reload? ==> Indexes(actions[i].index, actions[i].validators)
  }

  /** The validators loaded last. */
  function Current(initial: Validators, actions: seq<Action>): Validators {
    if actions == [] then initial
    else
      var a := actions[|actions| - 1];
      if a.Reload? then a.validators else Current(initial, actions[..|actions| - 1])
  }

  lemma {:induction false} CurrentIndex(lim: Limits, srv: Server, actions: seq<Action>)
    requires Indexes(srv.tokens, srv.validators) && Acceptable(Security(lim.banThreshold, lim.banDuration), srv.validators)
    requires AllAcceptable(lim, actions) && AllIndexed(actions)
    ensures var srv' := ActAll(lim, srv, actions);
            && srv'.validators == Current(srv.validators, actions) && Indexes(srv'.tokens, srv'.validators)
            && Acceptable(Security(lim.banThreshold, lim.banDuration), srv'.validators)
  {
    hide Indexes, Acceptable, Serve;
    if actions != [] {
      CurrentIndex(lim, srv, actions[..|actions| - 1]);
    }
  }

  /** After any run of requests and reloads of accepted configurations, in whatever order each index
      was filled: a request that is not refused is authenticated as validator v exactly when its
      token is v's token in the configuration loaded last; the empty token never is. */
  lemma AuthenticatedAs(lim: Limits, srv: Server, actions: seq<Action>, ip: string, token: string, now: Now, name: string)
    requires Indexes(srv.tokens, srv.validators) && Acceptable(Security(lim.banThreshold, lim.banDuration), srv.validators)
    requires AllAcceptable(lim, actions) && AllIndexed(actions)
    ensures var srv' := ActAll(lim, srv, actions);
            var current := Current(srv.validators, actions);
            var verdict := Serve(lim, srv'.tokens, srv'.bans, ip, token, now).1;
            && (verdict.Authenticated? && verdict.entry.validatorName == name
                <==> verdict != Forbidden && name in current && current[name].token == token)
            && (token == "" ==> !verdict.Authenticated?)
  {
    CurrentIndex(lim, srv, actions);
    var srv' := ActAll(lim, srv, actions);
    TokenStandsFor(srv'.tokens, srv'.validators, token, name);
  }
}
