/** Concurrent requests (internal/watchtower/auth/auth.go, `Middleware`): each takes the ban mutex twice,
once to check for a ban and once to record how its token turned out. */
module BanRequests {
  import opened Wrappers
  import opened GoTime
  import opened BanTable

  /** A request that has passed its ban check; `known` says whether the token index has its token. */
  datatype Request = Request(ip: string, known: bool)

  datatype Server = Server(bans: State, inFlight: map<nat, Request>)

  const Idle := Server(Fresh, map[])

  /** A request arrives and is checked; later its token is found, or is not. */
  datatype Act = Arrive(id: nat, request: Request, now: Now) | Accept(id: nat) | Reject(id: nat, now: Now)

  /** The locked section the act runs; None when there is no such request to go on with. */
  function Section(srv: Server, a: Act): Option<Event> {
    match a
    case Arrive(id, request, now) => if id in srv.inFlight then None else Some(Check(request.ip, now))
    case Accept(id) => if id in srv.inFlight && srv.inFlight[id].known then Some(Success(srv.inFlight[id].ip)) else None
    case Reject(id, now) => if id in srv.inFlight && !srv.inFlight[id].known then Some(Fail(srv.inFlight[id].ip, now)) else None
  }

  function InFlightAfter(lim: Limits, srv: Server, a: Act): map<nat, Request> {
    match a
    case Arrive(id, request, now) =>
      if IsBanned(lim, srv.bans, request.ip, now).1 then srv.inFlight else srv.inFlight[id := request]
    case Accept(id) => srv.inFlight - {id}
    case Reject(id, _) => srv.inFlight - {id}
  }

  function Perform(lim: Limits, srv: Server, a: Act): Option<Server> {
    match Section(srv, a)
    case None => None
    case Some(e) => Some(Server(Step(lim, srv.bans, e), InFlightAfter(lim, srv, a)))
  }

  function Run(lim: Limits, srv: Server, acts: seq<Act>): Option<Server> {
    if acts == [] then Some(srv)
    else
      match Run(lim, srv, acts[..|acts| - 1])
      case None => None
      case Some(srv') => Perform(lim, srv', acts[|acts| - 1])
  }

  // ---- records stay sound ----

  predicate Sound(lim: Limits, bans: State) {
    forall ip :: ip in bans.ips ==> RecordOk(lim, bans.ips[ip])
  }

  lemma StepSound(lim: Limits, bans: State, e: Event)
    requires lim.Valid() && Sound(lim, bans)
    ensures Sound(lim, Step(lim, bans, e))
  {}

  lemma {:induction false} RunSound(lim: Limits, srv: Server, acts: seq<Act>)
    requires lim.Valid() && Sound(lim, srv.bans) && Run(lim, srv, acts).Some?
    ensures Sound(lim, Run(lim, srv, acts).value.bans)
  {
    hide Sound, Section, InFlightAfter;
    if acts != [] {
      var init, a := acts[..|acts| - 1], acts[|acts| - 1];
      RunSound(lim, srv, init);
      StepSound(lim, Run(lim, srv, init).value.bans, Section(Run(lim, srv, init).value, a).value);
    }
  }

  // ---- when a ban is final ----

  predicate Reads(a: Act) { !a.Accept? }

  predicate Within(acts: seq<Act>, start: Time, end: Time) {
    forall i :: 0 <= i < |acts| && Reads(acts[i]) ==> start <= acts[i].now <= end
  }

  predicate BannedIn(srv: Server, ip: string) { ip in srv.bans.ips && Banned(srv.bans.ips[ip]) }

  /** No request from this IP is on its way to a success. */
  predicate NoneKnown(srv: Server, ip: string) {
    forall id :: id in srv.inFlight && srv.inFlight[id].ip == ip ==> !srv.inFlight[id].known
  }

  lemma ActInBan(lim: Limits, srv: Server, a: Act, ip: string, was: IpRecord)
    requires lim.Valid() && RecordOk(lim, was) && Banned(was)
    requires ip in srv.bans.ips && RecordOk(lim, srv.bans.ips[ip]) && srv.bans.ips[ip].banExpiry >= was.banExpiry
    requires NoneKnown(srv, ip) && (Reads(a) ==> was.lastSeen <= a.now <= was.banExpiry)
    requires Perform(lim, srv, a).Some?
    ensures var srv' := Perform(lim, srv, a).value;
            && ip in srv'.bans.ips && RecordOk(lim, srv'.bans.ips[ip]) && srv'.bans.ips[ip].banExpiry >= was.banExpiry
            && NoneKnown(srv', ip)
  {
    hide RecordOk, Step, IsBanned;
    StepInBan(lim, srv.bans, Section(srv, a).value, ip, was);
    if a.Arrive? {
      RefusedExactly(lim, srv.bans, a.request.ip, a.now);
    }
  }

  lemma {:induction false} BanKept(lim: Limits, srv: Server, ip: string, acts: seq<Act>)
    requires lim.Valid() && BannedIn(srv, ip) && RecordOk(lim, srv.bans.ips[ip]) && NoneKnown(srv, ip)
    requires Run(lim, srv, acts).Some? && Within(acts, srv.bans.ips[ip].lastSeen, srv.bans.ips[ip].banExpiry)
    ensures var srv' := Run(lim, srv, acts).value;
            && ip in srv'.bans.ips && RecordOk(lim, srv'.bans.ips[ip])
            && srv'.bans.ips[ip].banExpiry >= srv.bans.ips[ip].banExpiry && NoneKnown(srv', ip)
  {
    hide RecordOk, Perform, NoneKnown;
    if acts != [] {
      var init, a := acts[..|acts| - 1], acts[|acts| - 1];
      BanKept(lim, srv, ip, init);
      ActInBan(lim, Run(lim, srv, init).value, a, ip, srv.bans.ips[ip]);
    }
  }

  /** A ban set in any run of concurrent requests is final until its expiry, whatever arrives or finishes
      meanwhile, if and only if no request from its IP that had passed its check by then has a known
      token. */
  lemma BanFinalIff(lim: Limits, history: seq<Act>, ip: string)
    requires lim.Valid() && Run(lim, Idle, history).Some? && BannedIn(Run(lim, Idle, history).value, ip)
    ensures var srv := Run(lim, Idle, history).value;
            var was := srv.bans.ips[ip];
            (forall acts :: Run(lim, srv, acts).Some? && Within(acts, was.lastSeen, was.banExpiry)
                            ==> InForce(Run(lim, srv, acts).value.bans, ip, was.banExpiry))
            <==> NoneKnown(srv, ip)
  {
    var srv := Run(lim, Idle, history).value;
    var was := srv.bans.ips[ip];
    RunSound(lim, Idle, history);
    hide Run, RecordOk, Perform, Section, InFlightAfter;
    if NoneKnown(srv, ip) {
      forall acts | Run(lim, srv, acts).Some? && Within(acts, was.lastSeen, was.banExpiry)
        ensures InForce(Run(lim, srv, acts).value.bans, ip, was.banExpiry)
      {
        BanKept(lim, srv, ip, acts);
      }
    } else {
      var id :| id in srv.inFlight && srv.inFlight[id].ip == ip && srv.inFlight[id].known;
      AcceptWipes(lim, srv, id);
      assert Within([Accept(id)], was.lastSeen, was.banExpiry);
    }
  }

  lemma AcceptWipes(lim: Limits, srv: Server, id: nat)
    requires id in srv.inFlight && srv.inFlight[id].known
    ensures Run(lim, srv, [Accept(id)]).Some? && srv.inFlight[id].ip !in Run(lim, srv, [Accept(id)]).value.bans.ips
  {
    assert [Accept(id)][..0] == [];
  }

  // ---- a run in which a ban is not final ----

  /** A request with a known token passes its check; then k requests with unknown ones come and fail. */
  function Tripping(ip: string, k: nat, now: Now): seq<Act> {
    if k == 0 then [Arrive(0, Request(ip, true), now)]
    else Tripping(ip, k - 1, now) + [Arrive(k, Request(ip, false), now), Reject(k, now)]
  }

  function Tripped(lim: Limits, ip: string, k: nat, now: Now): Server {
    Server(State(if k == 0 then map[] else map[ip := IpRecord(k, if k >= lim.banThreshold then now + lim.banDuration else ZERO, now)], now),
           map[0 := Request(ip, true)])
  }

  lemma {:induction false} TrippingRun(lim: Limits, ip: string, k: nat, now: Now)
    requires lim.Valid() && k <= lim.banThreshold
    ensures Run(lim, Idle, Tripping(ip, k, now)) == Some(Tripped(lim, ip, k, now))
  {
    var acts := Tripping(ip, k, now);
    if k == 0 {
      assert acts[..0] == [];
    } else {
      TrippingRun(lim, ip, k - 1, now);
      var before := Tripped(lim, ip, k - 1, now);
      var arrive, reject := Arrive(k, Request(ip, false), now), Reject(k, now);
      OneMoreFailure(lim, ip, k, now);
      hide Perform, Tripped;
      assert acts[..|acts| - 1] == Tripping(ip, k - 1, now) + [arrive];
      assert acts[..|acts| - 1][..|acts| - 2] == Tripping(ip, k - 1, now);
    }
  }

  lemma OneMoreFailure(lim: Limits, ip: string, k: nat, now: Now)
    requires lim.Valid() && 0 < k <= lim.banThreshold
    ensures var checked := Perform(lim, Tripped(lim, ip, k - 1, now), Arrive(k, Request(ip, false), now));
            checked.Some? && Perform(lim, checked.value, Reject(k, now)) == Some(Tripped(lim, ip, k, now))
  {
    var before := Tripped(lim, ip, k - 1, now);
    assert IsBanned(lim, before.bans, ip, now) == (before.bans, false);
    assert RecordFailure(lim, before.bans, ip, now).ips == Tripped(lim, ip, k, now).bans.ips;
    assert before.inFlight[k := Request(ip, false)] - {k} == before.inFlight;
  }

  /** Whatever the threshold: a ban set while a good request is on its way is wiped by it. */
  lemma BanLost(lim: Limits, ip: string, now: Now)
    requires lim.Valid()
    ensures exists history, acts ::
              && Run(lim, Idle, history).Some? && BannedIn(Run(lim, Idle, history).value, ip)
              && var srv := Run(lim, Idle, history).value;
                 && srv.bans.ips[ip].banExpiry == now + lim.banDuration
                 && Run(lim, srv, acts).Some? && Within(acts, now, now) && !BannedIn(Run(lim, srv, acts).value, ip)
  {
    TrippingRun(lim, ip, lim.banThreshold, now);
    hide Run;
    var history := Tripping(ip, lim.banThreshold, now);
    AcceptWipes(lim, Run(lim, Idle, history).value, 0);
    assert Within([Accept(0)], now, now);
  }
}
