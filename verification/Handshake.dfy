/** Key configuration of a Noise endpoint (pkg/noise/config.go). */
module NoiseConfig {
  import opened Wrappers
  import opened Bits

  const KEY_SIZE := 32

  datatype Keypair = Keypair(secret: seq<byte>, public: seq<byte>)

  datatype Config = Config(identity: Keypair, authorizedKeys: seq<seq<byte>>)

  datatype ConfigError = PrivateSize(got: nat) | PublicSize(got: nat) | AuthorizedSize(index: nat, got: nat)

  /** An empty list accepts everyone. */
  predicate Authorizes(cfg: Config, peer: seq<byte>) {
    |cfg.authorizedKeys| == 0 || peer in cfg.authorizedKeys
  }

  function FirstBadKey(keys: seq<seq<byte>>, from: nat): (i: nat)
    requires from <= |keys|
    ensures from <= i <= |keys|
    ensures i < |keys| ==> |keys[i]| != KEY_SIZE
    ensures forall k :: from <= k < i ==> |keys[k]| == KEY_SIZE
    decreases |keys| - from
  {
    if from == |keys| || |keys[from]| != KEY_SIZE then from else FirstBadKey(keys, from + 1)
  }

  function Validate(cfg: Config): (r: Option<ConfigError>)
    ensures r == None <==> |cfg.identity.secret| == |cfg.identity.public| == 32
                           && forall key :: key in cfg.authorizedKeys ==> |key| == 32
  {
    if |cfg.identity.secret| != KEY_SIZE then Some(PrivateSize(|cfg.identity.secret|))
    else if |cfg.identity.public| != KEY_SIZE then Some(PublicSize(|cfg.identity.public|))
    else
      var i := FirstBadKey(cfg.authorizedKeys, 0);
      if i < |cfg.authorizedKeys| then
        assert cfg.authorizedKeys[i] in cfg.authorizedKeys;
        Some(AuthorizedSize(i, |cfg.authorizedKeys[i]|))
      else None
  }

  /** A refusal names what is wrong first. */
  lemma FirstFault(cfg: Config)
    ensures match Validate(cfg)
            case None => true
            case Some(PrivateSize(n)) => n == |cfg.identity.secret| != 32
            case Some(PublicSize(n)) => |cfg.identity.secret| == 32 && n == |cfg.identity.public| != 32
            case Some(AuthorizedSize(i, n)) =>
              && |cfg.identity.secret| == |cfg.identity.public| == 32
              && i < |cfg.authorizedKeys| && n == |cfg.authorizedKeys[i]| != 32
              && forall k :: 0 <= k < i ==> |cfg.authorizedKeys[k]| == 32
  {}
}

/** The turn-taking handshake loop (pkg/noise/handshake.go), run by two endpoints against each other.

Messages carry the tokens of pattern XX (section 7.5 of the Noise Protocol Framework) in the clear;
the two keys `Split` gives (section 5.2) are a function of the transcript, so that endpoints with the
same transcript, and only they, hold the same keys. */
module Handshake {
  import opened Wrappers
  import opened Bits
  import opened NoiseConfig

  type Ephemeral = nat

  datatype Message = E(e: Ephemeral) | EeSEs(e: Ephemeral, s: seq<byte>) | SSe(s: seq<byte>)

  datatype SessionKey = SessionKey(transcript: seq<Message>, which: nat)

  datatype Error = BadConfig(e: ConfigError) | UnexpectedMessage | MissingPeerStatic | Unauthorized | Closed

  /** The library's handshake state: identity, ephemeral key and the messages processed so far. */
  datatype HandshakeState = HandshakeState(public: seq<byte>, ephemeral: Ephemeral, transcript: seq<Message>)

  datatype Conn = Conn(peerStatic: seq<byte>, sendKey: SessionKey, recvKey: SessionKey)

  /** `processed` counts the messages sent or received before the failure. */
  datatype Endpoint = Running(hs: HandshakeState, i: nat) | Finished(conn: Conn) | Failed(error: Error, processed: nat)

  function NextMessage(hs: HandshakeState): Message {
    if |hs.transcript| == 0 then E(hs.ephemeral)
    else if |hs.transcript| == 1 then EeSEs(hs.ephemeral, hs.public)
    else SSe(hs.public)
  }

  /** The message has the shape pattern XX prescribes at this point. */
  predicate Expected(hs: HandshakeState, m: Message) {
    if |hs.transcript| == 0 then m.E? else if |hs.transcript| == 1 then m.EeSEs? else m.SSe?
  }

  function Extend(hs: HandshakeState, m: Message): HandshakeState {
    hs.(transcript := hs.transcript + [m])
  }

  predicate Complete(hs: HandshakeState) { |hs.transcript| >= 3 }

  function PeerStatic(hs: HandshakeState, initiator: bool): Option<seq<byte>>
    requires Complete(hs)
  {
    var m := hs.transcript[if initiator then 1 else 2];
    match m
    case E(_) => None
    case EeSEs(_, s) => Some(s)
    case SSe(s) => Some(s)
  }

  function Finish(cfg: Config, hs: HandshakeState, initiator: bool): (ep: Endpoint)
    requires Complete(hs)
    ensures !ep.Running?
    ensures ep.Finished? ==> Authorizes(cfg, ep.conn.peerStatic)
  {
    var peer := PeerStatic(hs, initiator).GetOr([]);
    if |peer| == 0 then Failed(MissingPeerStatic, |hs.transcript|)
    else if !Authorizes(cfg, peer) then Failed(Unauthorized, |hs.transcript|)
    else
      var cs1, cs2 := SessionKey(hs.transcript, 1), SessionKey(hs.transcript, 2);
      var (send, recv) := if initiator then (cs1, cs2) else (cs2, cs1);
      Finished(Conn(peer, send, recv))
  }

  predicate WriteTurn(initiator: bool, i: nat) { initiator == (i % 2 == 0) }

  function Begin(cfg: Config, ephemeral: Ephemeral): Endpoint {
    match Validate(cfg)
    case Some(e) => Failed(BadConfig(e), 0)
    case None => Running(HandshakeState(cfg.identity.public, ephemeral, []), 0)
  }

  function AfterMessage(cfg: Config, initiator: bool, hs: HandshakeState, i: nat): Endpoint {
    if Complete(hs) then Finish(cfg, hs, initiator) else Running(hs, i + 1)
  }

  // ---- one endpoint alone ----

  datatype Local = Local(ep: Endpoint, inbox: seq<Message>, sent: seq<Message>)

  /** Says in which turns the raw connection fails: a write error, a deadline, a close. */
  type Raw = nat -> bool

  const Reliable: Raw := (turn: nat) => false

  /** One turn of the loop; an exhausted inbox is a closed connection. */
  function Turn(cfg: Config, initiator: bool, l: Local, raw: Raw): Local
    requires l.ep.Running?
  {
    var Running(hs, i) := l.ep;
    if raw(i) then l.(ep := Failed(Closed, i))
    else if WriteTurn(initiator, i) then
      var m := NextMessage(hs);
      Local(AfterMessage(cfg, initiator, Extend(hs, m), i), l.inbox, l.sent + [m])
    else if l.inbox == [] then l.(ep := Failed(Closed, i))
    else
      var m := l.inbox[0];
      if Expected(hs, m) then Local(AfterMessage(cfg, initiator, Extend(hs, m), i), l.inbox[1..], l.sent)
      else Local(Failed(UnexpectedMessage, i), l.inbox[1..], l.sent)
  }

  function Turns(cfg: Config, initiator: bool, l: Local, raw: Raw): Local
    decreases if l.ep.Running? then 4 - |l.ep.hs.transcript| else 0
  {
    if !l.ep.Running? || Complete(l.ep.hs) then l else Turns(cfg, initiator, Turn(cfg, initiator, l, raw), raw)
  }

  lemma TurnsUnfolded(cfg: Config, initiator: bool, l: Local, raw: Raw)
    requires l.ep.Running? && !Complete(l.ep.hs)
    ensures Turns(cfg, initiator, l, raw) == Turns(cfg, initiator, Turn(cfg, initiator, l, raw), raw)
  {}

  lemma TurnsEnd(cfg: Config, initiator: bool, l: Local, raw: Raw)
    ensures !l.ep.Running? ==> Turns(cfg, initiator, l, raw) == l
  {}

  // ---- what one endpoint ends with, turn by turn ----

  /** The initiator of a handshake, against any messages and any failures of the raw connection. */
  lemma InitiatorOutcome(cfg: Config, ephemeral: Ephemeral, incoming: seq<Message>, raw: Raw)
    ensures var l := Turns(cfg, true, Local(Begin(cfg, ephemeral), incoming, []), raw);
            var one, two := [E(ephemeral)], [E(ephemeral), SSe(cfg.identity.public)];
            (l.ep, l.sent) ==
            if Validate(cfg).Some? then (Failed(BadConfig(Validate(cfg).value), 0), [])
            else if raw(0) then (Failed(Closed, 0), [])
            else if raw(1) || incoming == [] then (Failed(Closed, 1), one)
            else if !incoming[0].EeSEs? then (Failed(UnexpectedMessage, 1), one)
            else if raw(2) then (Failed(Closed, 2), one)
            else if incoming[0].s == [] then (Failed(MissingPeerStatic, 3), two)
            else if cfg.authorizedKeys != [] && incoming[0].s !in cfg.authorizedKeys then (Failed(Unauthorized, 3), two)
            else
              var transcript := [one[0], incoming[0], two[1]];
              (Finished(Conn(incoming[0].s, SessionKey(transcript, 1), SessionKey(transcript, 2))), two)
  {
    hide Validate, Turns;
    var start := Local(Begin(cfg, ephemeral), incoming, []);
    TurnsEnd(cfg, true, start, raw);
    if Validate(cfg) == None {
      TurnsUnfolded(cfg, true, start, raw);
      var next := Turn(cfg, true, start, raw);
      TurnsEnd(cfg, true, next, raw);
      if !raw(0) {
        assert next == Local(Running(HandshakeState(cfg.identity.public, ephemeral, [E(ephemeral)]), 1), incoming, [E(ephemeral)]);
        InitiatorReads(cfg, ephemeral, incoming, raw);
      }
    }
  }

  lemma InitiatorReads(cfg: Config, ephemeral: Ephemeral, incoming: seq<Message>, raw: Raw)
    ensures var one, last := [E(ephemeral)], SSe(cfg.identity.public);
            var hs := HandshakeState(cfg.identity.public, ephemeral, one);
            Turns(cfg, true, Local(Running(hs, 1), incoming, one), raw) ==
            if raw(1) || incoming == [] then Local(Failed(Closed, 1), incoming, one)
            else if !incoming[0].EeSEs? then Local(Failed(UnexpectedMessage, 1), incoming[1..], one)
            else if raw(2) then Local(Failed(Closed, 2), incoming[1..], one)
            else Local(Finish(cfg, hs.(transcript := [one[0], incoming[0], last]), true), incoming[1..], [one[0], last])
  {
    hide Turns, Finish;
    var second := Local(Running(HandshakeState(cfg.identity.public, ephemeral, [E(ephemeral)]), 1), incoming, [E(ephemeral)]);
    TurnsUnfolded(cfg, true, second, raw);
    var third := Turn(cfg, true, second, raw);
    TurnsEnd(cfg, true, third, raw);
    if !raw(1) && incoming != [] && incoming[0].EeSEs? {
      var hs := HandshakeState(cfg.identity.public, ephemeral, [E(ephemeral), incoming[0]]);
      assert third == Local(Running(hs, 2), incoming[1..], [E(ephemeral)]);
      TurnsUnfolded(cfg, true, third, raw);
      TurnsEnd(cfg, true, Turn(cfg, true, third, raw), raw);
      assert hs.transcript + [SSe(cfg.identity.public)] == [E(ephemeral), incoming[0], SSe(cfg.identity.public)];
      assert [E(ephemeral)] + [SSe(cfg.identity.public)] == [E(ephemeral), SSe(cfg.identity.public)];
    }
  }

  /** And the responder. */
  lemma ResponderOutcome(cfg: Config, ephemeral: Ephemeral, incoming: seq<Message>, raw: Raw)
    ensures var l := Turns(cfg, false, Local(Begin(cfg, ephemeral), incoming, []), raw);
            var one := [EeSEs(ephemeral, cfg.identity.public)];
            (l.ep, l.sent) ==
            if Validate(cfg).Some? then (Failed(BadConfig(Validate(cfg).value), 0), [])
            else if raw(0) || incoming == [] then (Failed(Closed, 0), [])
            else if !incoming[0].E? then (Failed(UnexpectedMessage, 0), [])
            else if raw(1) then (Failed(Closed, 1), [])
            else if raw(2) || |incoming| < 2 then (Failed(Closed, 2), one)
            else if !incoming[1].SSe? then (Failed(UnexpectedMessage, 2), one)
            else if incoming[1].s == [] then (Failed(MissingPeerStatic, 3), one)
            else if cfg.authorizedKeys != [] && incoming[1].s !in cfg.authorizedKeys then (Failed(Unauthorized, 3), one)
            else
              var transcript := [incoming[0], one[0], incoming[1]];
              (Finished(Conn(incoming[1].s, SessionKey(transcript, 2), SessionKey(transcript, 1))), one)
  {
    hide Validate, Turns;
    var start := Local(Begin(cfg, ephemeral), incoming, []);
    TurnsEnd(cfg, false, start, raw);
    if Validate(cfg) == None {
      TurnsUnfolded(cfg, false, start, raw);
      var next := Turn(cfg, false, start, raw);
      TurnsEnd(cfg, false, next, raw);
      if !raw(0) && incoming != [] && incoming[0].E? {
        assert next == Local(Running(HandshakeState(cfg.identity.public, ephemeral, [incoming[0]]), 1), incoming[1..], []);
        ResponderWrites(cfg, ephemeral, incoming[0], incoming[1..], raw);
      }
    }
  }

  lemma ResponderWrites(cfg: Config, ephemeral: Ephemeral, first: Message, rest: seq<Message>, raw: Raw)
    ensures var hs := HandshakeState(cfg.identity.public, ephemeral, [first]);
            var one := [EeSEs(ephemeral, cfg.identity.public)];
            Turns(cfg, false, Local(Running(hs, 1), rest, []), raw) ==
            if raw(1) then Local(Failed(Closed, 1), rest, [])
            else if raw(2) || rest == [] then Local(Failed(Closed, 2), rest, one)
            else if !rest[0].SSe? then Local(Failed(UnexpectedMessage, 2), rest[1..], one)
            else Local(Finish(cfg, hs.(transcript := [first, one[0], rest[0]]), false), rest[1..], one)
  {
    hide Turns, Finish;
    var second := Local(Running(HandshakeState(cfg.identity.public, ephemeral, [first]), 1), rest, []);
    TurnsUnfolded(cfg, false, second, raw);
    var third := Turn(cfg, false, second, raw);
    TurnsEnd(cfg, false, third, raw);
    if !raw(1) {
      var hs := HandshakeState(cfg.identity.public, ephemeral, [first, EeSEs(ephemeral, cfg.identity.public)]);
      assert third == Local(Running(hs, 2), rest, [EeSEs(ephemeral, cfg.identity.public)]);
      TurnsUnfolded(cfg, false, third, raw);
      TurnsEnd(cfg, false, Turn(cfg, false, third, raw), raw);
      if rest != [] {
        assert hs.transcript + [rest[0]] == [first, EeSEs(ephemeral, cfg.identity.public), rest[0]];
      }
    }
  }

  method RunHandshake(cfg: Config, initiator: bool, ephemeral: Ephemeral, incoming: seq<Message>, raw: Raw)
    returns (sent: seq<Message>, r: Result<Conn, Error>)
    ensures var l := Turns(cfg, initiator, Local(Begin(cfg, ephemeral), incoming, []), raw);
            sent == l.sent && !l.ep.Running? && r == if l.ep.Finished? then Ok(l.ep.conn) else Err(l.ep.error)
    ensures r.Ok? <==>
              && |cfg.identity.secret| == |cfg.identity.public| == 32
              && (forall key :: key in cfg.authorizedKeys ==> |key| == 32)
              && !raw(0) && !raw(1) && !raw(2)
              && (if initiator then incoming != [] && incoming[0].EeSEs?
                  else |incoming| >= 2 && incoming[0].E? && incoming[1].SSe?)
              && var peer := incoming[if initiator then 0 else 1].s;
                 peer != [] && (cfg.authorizedKeys == [] || peer in cfg.authorizedKeys)
    ensures r.Ok? && initiator ==>
              && r.value.peerStatic == incoming[0].s
              && sent == [E(ephemeral), SSe(cfg.identity.public)]
              && var transcript := [sent[0], incoming[0], sent[1]];
                 r.value.sendKey == SessionKey(transcript, 1) && r.value.recvKey == SessionKey(transcript, 2)
    ensures r.Ok? && !initiator ==>
              && r.value.peerStatic == incoming[1].s
              && sent == [EeSEs(ephemeral, cfg.identity.public)]
              && var transcript := [incoming[0], sent[0], incoming[1]];
                 r.value.sendKey == SessionKey(transcript, 2) && r.value.recvKey == SessionKey(transcript, 1)
  {
    hide Finish, NextMessage, Expected, Validate;
    if initiator {
      InitiatorOutcome(cfg, ephemeral, incoming, raw);
    } else {
      ResponderOutcome(cfg, ephemeral, incoming, raw);
    }
    ghost var start := Local(Begin(cfg, ephemeral), incoming, []);
    ghost var end := Turns(cfg, initiator, start, raw);
    sent := [];
    var bad := Validate(cfg);
    if bad.Some? {
      TurnsEnd(cfg, initiator, start, raw);
      return [], Err(BadConfig(bad.value));
    }
    var hs := HandshakeState(cfg.identity.public, ephemeral, []);
    var inbox := incoming;
    var i := 0;
    while true
      invariant |hs.transcript| == i < 3
      invariant end == Turns(cfg, initiator, Local(Running(hs, i), inbox, sent), raw)
      decreases 3 - i
    {
      hide Turns;
      ghost var before := Local(Running(hs, i), inbox, sent);
      TurnsUnfolded(cfg, initiator, before, raw);
      TurnsEnd(cfg, initiator, Turn(cfg, initiator, before, raw), raw);
      if raw(i) {
        return sent, Err(Closed);
      }
      if initiator == (i % 2 == 0) {
        var m := NextMessage(hs);
        hs := Extend(hs, m);
        sent := sent + [m];
      } else {
        if inbox == [] {
          return sent, Err(Closed);
        }
        var m := inbox[0];
        inbox := inbox[1..];
        if !Expected(hs, m) {
          return sent, Err(UnexpectedMessage);
        }
        hs := Extend(hs, m);
      }
      if Complete(hs) {
        match Finish(cfg, hs, initiator)
        case Finished(conn) => return sent, Ok(conn);
        case Failed(e, _) => return sent, Err(e);
      }
      i := i + 1;
    }
  }

  // ---- two endpoints over FIFO links ----

  datatype Parties = Parties(cfgI: Config, cfgR: Config, eI: Ephemeral, eR: Ephemeral)

  datatype System = System(init: Endpoint, resp: Endpoint, toResp: seq<Message>, toInit: seq<Message>)

  /** One endpoint takes a turn. With `broken`, a link whose other end has failed reports an error
      at once instead of delivering what it still holds. */
  datatype Event = Initiator(broken: bool) | Responder(broken: bool)

  function Start(p: Parties): System {
    System(Begin(p.cfgI, p.eI), Begin(p.cfgR, p.eR), [], [])
  }

  /** The new endpoint and link contents, or None while the endpoint is blocked or done. */
  function EndpointStep(cfg: Config, initiator: bool, ep: Endpoint, inbox: seq<Message>, peerGone: bool, broken: bool): Option<Local> {
    if !ep.Running? || Complete(ep.hs) then None
    else if broken then
      if peerGone then Some(Local(Failed(Closed, ep.i), inbox, [])) else None
    else if !WriteTurn(initiator, ep.i) && inbox == [] && !peerGone then None
    else Some(Turn(cfg, initiator, Local(ep, inbox, []), Reliable))
  }

  function Step(p: Parties, s: System, e: Event): Option<System> {
    match e
    case Initiator(broken) =>
      (match EndpointStep(p.cfgI, true, s.init, s.toInit, s.resp.Failed?, broken)
       case None => None
       case Some(l) => Some(System(l.ep, s.resp, s.toResp + l.sent, l.inbox)))
    case Responder(broken) =>
      (match EndpointStep(p.cfgR, false, s.resp, s.toResp, s.init.Failed?, broken)
       case None => None
       case Some(l) => Some(System(s.init, l.ep, l.inbox, s.toInit + l.sent)))
  }

  function Run(p: Parties, s: System, events: seq<Event>): Option<System>
    decreases |events|
  {
    if events == [] then Some(s)
    else match Step(p, s, events[0])
      case None => None
      case Some(s') => Run(p, s', events[1..])
  }

  // ---- the invariant ----

  function Script(p: Parties): (script: seq<Message>)
    ensures |script| == 3
  {
    [E(p.eI), EeSEs(p.eR, p.cfgR.identity.public), SSe(p.cfgI.identity.public)]
  }

  /** Messages an endpoint has processed. */
  function Processed(ep: Endpoint): nat {
    match ep
    case Running(hs, i) => i
    case Finished(_) => 3
    case Failed(_, n) => n
  }

  predicate EndpointOk(p: Parties, ep: Endpoint, cfg: Config, ephemeral: Ephemeral, initiator: bool, peer: Endpoint) {
    match ep
    case Running(hs, i) =>
      i < 3 && hs == HandshakeState(cfg.identity.public, ephemeral, Script(p)[..i]) && Validate(cfg) == None
    case Finished(conn) =>
      && conn.peerStatic == (if initiator then p.cfgR else p.cfgI).identity.public
      && Authorizes(cfg, conn.peerStatic) && Validate(cfg) == None
      && conn.sendKey == SessionKey(Script(p), if initiator then 1 else 2)
      && conn.recvKey == SessionKey(Script(p), if initiator then 2 else 1)
    case Failed(e, n) =>
      match e
      case BadConfig(x) => n == 0 && Validate(cfg) == Some(x)
      case Unauthorized => n == 3 && !Authorizes(cfg, (if initiator then p.cfgR else p.cfgI).identity.public) && Validate(cfg) == None
      case Closed => n < 3 && peer.Failed? && peer.error != Closed && Validate(cfg) == None
      case MissingPeerStatic => false
      case UnexpectedMessage => false
  }

  predicate Reachable(p: Parties, s: System) {
    var i, r := Processed(s.init), Processed(s.resp);
    && EndpointOk(p, s.init, p.cfgI, p.eI, true, s.resp)
    && EndpointOk(p, s.resp, p.cfgR, p.eR, false, s.init)
    && PairOk(i, r)
    && s.toResp == (if i == 1 && r == 0 then [Script(p)[0]] else if i == 3 && r == 2 then [Script(p)[2]] else [])
    && s.toInit == (if i == 1 && r == 2 then [Script(p)[1]] else [])
  }

  lemma ScriptPrefix(p: Parties, i: nat)
    requires i < 3
    ensures Script(p)[..i] + [Script(p)[i]] == Script(p)[..i + 1]
    ensures Script(p)[..3] == Script(p)
  {}

  function Identity(p: Parties, initiator: bool): Config { if initiator then p.cfgI else p.cfgR }

  function EphemeralOf(p: Parties, initiator: bool): Ephemeral { if initiator then p.eI else p.eR }

  /** An endpoint that processes the next message of the script stays within the invariant. */
  lemma MessageKeeps(p: Parties, initiator: bool, i: nat, peer: Endpoint)
    requires i < 3 && Validate(Identity(p, initiator)) == None
    requires i == 2 ==> Validate(Identity(p, !initiator)) == None
    ensures var cfg := Identity(p, initiator);
            var hs := HandshakeState(cfg.identity.public, EphemeralOf(p, initiator), Script(p)[..i]);
            && Expected(hs, Script(p)[i])
            && (WriteTurn(initiator, i) ==> NextMessage(hs) == Script(p)[i])
            && var ep := AfterMessage(cfg, initiator, Extend(hs, Script(p)[i]), i);
               EndpointOk(p, ep, cfg, EphemeralOf(p, initiator), initiator, peer) && Processed(ep) == i + 1
               && (ep.Failed? ==> ep.error == Unauthorized)
  {
    ScriptPrefix(p, i);
  }

  predicate PairOk(i: nat, r: nat) {
    (i == 0 && r == 0) || (i == 1 && r <= 2) || (i == 2 && r == 2) || (i == 3 && 2 <= r <= 3)
  }

  /** A turn over reliable links, for an endpoint that has followed the script so far. */
  lemma TurnOnScript(p: Parties, initiator: bool, i: nat, inbox: seq<Message>)
    requires i < 3
    ensures var cfg := Identity(p, initiator);
            var hs := HandshakeState(cfg.identity.public, EphemeralOf(p, initiator), Script(p)[..i]);
            var l := Turn(cfg, initiator, Local(Running(hs, i), inbox, []), Reliable);
            var next := AfterMessage(cfg, initiator, Extend(hs, Script(p)[i]), i);
            if WriteTurn(initiator, i) then l == Local(next, inbox, [Script(p)[i]])
            else if inbox == [] then l == Local(Failed(Closed, i), inbox, [])
            else inbox[0] == Script(p)[i] ==> l == Local(next, inbox[1..], [])
  {
    hide AfterMessage;
    assert [] + [Script(p)[i]] == [Script(p)[i]];
  }

  /** A turn of the initiator processes the next message of the script. */
  lemma InitiatorTurn(p: Parties, s: System)
    requires Reachable(p, s) && Step(p, s, Initiator(false)).Some?
    ensures s.init.Running? && s.init.i < 3
    ensures s.init.i == 1 && s.toInit == [] ==>
              Step(p, s, Initiator(false)) == Some(s.(init := Failed(Closed, 1))) && s.resp.Failed?
    ensures s.init.i != 1 || s.toInit != [] ==>
              var i := s.init.i;
              Step(p, s, Initiator(false)) ==
              Some(System(AfterMessage(p.cfgI, true, Extend(s.init.hs, Script(p)[i]), i), s.resp,
                          if i == 1 then s.toResp else s.toResp + [Script(p)[i]], []))
  {
    hide AfterMessage, Validate, Authorizes, Turn, Extend;
    TurnOnScript(p, true, s.init.i, s.toInit);
    assert s.toInit != [] ==> s.toInit[1..] == [];
    assert s.toResp + [] == s.toResp;
  }

  lemma InitiatorKeeps(p: Parties, s: System, broken: bool)
    requires Reachable(p, s) && Step(p, s, Initiator(broken)).Some?
    ensures Reachable(p, Step(p, s, Initiator(broken)).value)
  {
    hide Reachable, Step;
    if broken {
      InitiatorBroken(p, s);
    } else {
      InitiatorUnbroken(p, s);
    }
  }

  lemma InitiatorBroken(p: Parties, s: System)
    requires Reachable(p, s) && Step(p, s, Initiator(true)).Some?
    ensures Reachable(p, Step(p, s, Initiator(true)).value)
  {
    hide AfterMessage, Script, Validate, Authorizes, Turn;
    assert s.toResp + [] == s.toResp;
  }

  lemma InitiatorUnbroken(p: Parties, s: System)
    requires Reachable(p, s) && Step(p, s, Initiator(false)).Some?
    ensures Reachable(p, Step(p, s, Initiator(false)).value)
  {
    hide AfterMessage, Script, Validate, Authorizes, Turn;
    InitiatorTurn(p, s);
    hide Step;
    MessageKeeps(p, true, s.init.i, s.resp);
  }

  lemma ResponderTurn(p: Parties, s: System)
    requires Reachable(p, s) && Step(p, s, Responder(false)).Some?
    ensures s.resp.Running? && s.resp.i < 3
    ensures s.resp.i != 1 && s.toResp == [] ==>
              Step(p, s, Responder(false)) == Some(s.(resp := Failed(Closed, s.resp.i))) && s.init.Failed?
    ensures s.resp.i == 1 || s.toResp != [] ==>
              var i := s.resp.i;
              Step(p, s, Responder(false)) ==
              Some(System(s.init, AfterMessage(p.cfgR, false, Extend(s.resp.hs, Script(p)[i]), i), [],
                          if i == 1 then s.toInit + [Script(p)[i]] else s.toInit))
  {
    hide AfterMessage, Validate, Authorizes, Turn, Extend;
    TurnOnScript(p, false, s.resp.i, s.toResp);
    assert s.toResp != [] ==> s.toResp[1..] == [];
    assert s.toInit + [] == s.toInit;
  }

  lemma ResponderKeeps(p: Parties, s: System, broken: bool)
    requires Reachable(p, s) && Step(p, s, Responder(broken)).Some?
    ensures Reachable(p, Step(p, s, Responder(broken)).value)
  {
    hide Reachable, Step;
    if broken {
      ResponderBroken(p, s);
    } else {
      ResponderUnbroken(p, s);
    }
  }

  lemma ResponderBroken(p: Parties, s: System)
    requires Reachable(p, s) && Step(p, s, Responder(true)).Some?
    ensures Reachable(p, Step(p, s, Responder(true)).value)
  {
    hide AfterMessage, Script, Validate, Authorizes, Turn;
    assert s.toInit + [] == s.toInit;
  }

  lemma ResponderUnbroken(p: Parties, s: System)
    requires Reachable(p, s) && Step(p, s, Responder(false)).Some?
    ensures Reachable(p, Step(p, s, Responder(false)).value)
  {
    hide AfterMessage, Script, Validate, Authorizes, Turn;
    ResponderTurn(p, s);
    hide Step;
    MessageKeeps(p, false, s.resp.i, s.init);
  }

  lemma {:induction false} RunKeeps(p: Parties, s: System, events: seq<Event>)
    requires Reachable(p, s) && Run(p, s, events).Some?
    ensures Reachable(p, Run(p, s, events).value)
    decreases |events|
  {
    hide Reachable, Step;
    if events != [] {
      match events[0] {
        case Initiator(broken) => InitiatorKeeps(p, s, broken);
        case Responder(broken) => ResponderKeeps(p, s, broken);
      }
      RunKeeps(p, Step(p, s, events[0]).value, events[1..]);
    }
  }

  lemma StartReachable(p: Parties)
    ensures Reachable(p, Start(p))
  {}

  // ---- what every run guarantees ----

  /** A connection exists only for a peer that was authorized and is really the other endpoint; and
      if both ends have one, each sends under the key the other receives under, on two different
      keys: the first of `Split` carries the initiator's messages, the second the responder's. */
  lemma Agreement(p: Parties, events: seq<Event>)
    requires Run(p, Start(p), events).Some?
    ensures var s := Run(p, Start(p), events).value;
            && (s.init.Finished? ==> s.init.conn.peerStatic == p.cfgR.identity.public && Authorizes(p.cfgI, p.cfgR.identity.public))
            && (s.resp.Finished? ==> s.resp.conn.peerStatic == p.cfgI.identity.public && Authorizes(p.cfgR, p.cfgI.identity.public))
            && (s.init.Finished? && s.resp.Finished? ==>
                  && s.init.conn.sendKey == s.resp.conn.recvKey
                  && s.resp.conn.sendKey == s.init.conn.recvKey
                  && s.init.conn.sendKey != s.init.conn.recvKey
                  && s.init.conn.sendKey == SessionKey(Script(p), 1))
  {
    StartReachable(p);
    RunKeeps(p, Start(p), events);
  }

  predicate CanStep(p: Parties, s: System) {
    Step(p, s, Initiator(false)).Some? || Step(p, s, Responder(false)).Some?
  }

  /** No interleaving deadlocks: as long as one endpoint is still running, one of the two can take
      a turn. */
  lemma NoDeadlock(p: Parties, events: seq<Event>)
    requires Run(p, Start(p), events).Some?
    ensures var s := Run(p, Start(p), events).value;
            s.init.Running? || s.resp.Running? ==> CanStep(p, s)
  {
    StartReachable(p);
    RunKeeps(p, Start(p), events);
  }

  function Remaining(ep: Endpoint): nat {
    if ep.Running? && ep.i < 3 then 3 - ep.i else 0
  }

  lemma StepShrinks(p: Parties, s: System, e: Event)
    requires Reachable(p, s) && Step(p, s, e).Some?
    ensures var s' := Step(p, s, e).value;
            Remaining(s'.init) + Remaining(s'.resp) < Remaining(s.init) + Remaining(s.resp)
  {
    hide Finish, Script;
  }

  /** Every run is over after at most six turns: three per endpoint. */
  lemma {:induction false} RunsAreShort(p: Parties, s: System, events: seq<Event>)
    requires Reachable(p, s) && Run(p, s, events).Some?
    ensures |events| <= Remaining(s.init) + Remaining(s.resp) <= 6
    decreases |events|
  {
    hide Reachable, Step;
    if events != [] {
      StepShrinks(p, s, events[0]);
      RunKeeps(p, s, [events[0]]);
      assert [events[0]][1..] == [];
      assert Run(p, s, [events[0]]) == Step(p, s, events[0]) by { RunOne(p, s, events[0]); }
      RunsAreShort(p, Step(p, s, events[0]).value, events[1..]);
    }
  }

  lemma RunOne(p: Parties, s: System, e: Event)
    requires Step(p, s, e).Some?
    ensures Run(p, s, [e]) == Step(p, s, e)
  {
    hide Step;
    assert [e][1..] == [];
  }

  predicate BothAccept(p: Parties) {
    && Validate(p.cfgI) == None && Validate(p.cfgR) == None
    && Authorizes(p.cfgI, p.cfgR.identity.public) && Authorizes(p.cfgR, p.cfgI.identity.public)
  }

  /** A run that can go no further has ended with both endpoints connected, both at the third
      message, exactly when both configurations are valid and each accepts the other's key. */
  lemma CompleteRun(p: Parties, events: seq<Event>)
    requires Run(p, Start(p), events).Some?
    requires !CanStep(p, Run(p, Start(p), events).value)
    ensures var s := Run(p, Start(p), events).value;
            && !s.init.Running? && !s.resp.Running?
            && (s.init.Finished? && s.resp.Finished? <==> BothAccept(p))
            && (BothAccept(p) ==> s.init.conn.sendKey.transcript == Script(p) == s.resp.conn.sendKey.transcript)
  {
    NoDeadlock(p, events);
    StartReachable(p);
    RunKeeps(p, Start(p), events);
  }

  // ---- a run that uses no closed links ----

  const ORDER: seq<Event> := [Initiator(false), Responder(false), Responder(false), Initiator(false), Initiator(false), Responder(false)]

  predicate OnlyUnauthorized(ep: Endpoint) { ep.Failed? ==> ep.error == Unauthorized }

  predicate OnScript(p: Parties, s: System, t: nat) {
    && Reachable(p, s) && OnlyUnauthorized(s.init) && OnlyUnauthorized(s.resp)
    && Processed(s.init) + Processed(s.resp) == t
  }

  lemma OrderedStep(p: Parties, s: System, t: nat)
    requires Validate(p.cfgI) == None && Validate(p.cfgR) == None
    requires t < 6 && OnScript(p, s, t)
    ensures Step(p, s, ORDER[t]).Some? && OnScript(p, Step(p, s, ORDER[t]).value, t + 1)
  {
    hide AfterMessage, Script, Expected, NextMessage;
    if ORDER[t] == Initiator(false) {
      MessageKeeps(p, true, s.init.i, s.resp);
      InitiatorKeeps(p, s, false);
    } else {
      MessageKeeps(p, false, s.resp.i, s.init);
      ResponderKeeps(p, s, false);
    }
  }

  lemma {:induction false} OrderedRun(p: Parties, t: nat)
    requires Validate(p.cfgI) == None && Validate(p.cfgR) == None && t <= 6
    ensures Run(p, Start(p), ORDER[..t]).Some? && OnScript(p, Run(p, Start(p), ORDER[..t]).value, t)
  {
    hide Reachable, Step;
    if t == 0 {
      StartReachable(p);
    } else {
      OrderedRun(p, t - 1);
      var s := Run(p, Start(p), ORDER[..t - 1]).value;
      OrderedStep(p, s, t - 1);
      RunAppend(p, Start(p), ORDER[..t - 1], ORDER[t - 1]);
      assert ORDER[..t] == ORDER[..t - 1] + [ORDER[t - 1]];
    }
  }

  lemma {:induction false} RunAppend(p: Parties, s: System, events: seq<Event>, e: Event)
    requires Run(p, s, events).Some? && Step(p, Run(p, s, events).value, e).Some?
    ensures Run(p, s, events + [e]) == Step(p, Run(p, s, events).value, e)
    decreases |events|
  {
    hide Step;
    if events == [] {
      assert events + [e] == [e];
      RunOne(p, s, e);
    } else {
      assert (events + [e])[1..] == events[1..] + [e];
      RunAppend(p, Step(p, s, events[0]).value, events[1..], e);
    }
  }

  predicate Over(p: Parties, events: seq<Event>) {
    Run(p, Start(p), events).Some? && !CanStep(p, Run(p, Start(p), events).value)
  }

  predicate OneSided(p: Parties, events: seq<Event>)
    requires Over(p, events)
  {
    var s := Run(p, Start(p), events).value;
    s.init.Finished? != s.resp.Finished?
  }

  /** When only the initiator rejects the other's key, the responder can end up connected alone: the
      initiator sends its last message before it looks at that key. */
  lemma ResponderAlone(p: Parties)
    requires Validate(p.cfgI) == None && Validate(p.cfgR) == None
    requires !Authorizes(p.cfgI, p.cfgR.identity.public) && Authorizes(p.cfgR, p.cfgI.identity.public)
    ensures exists events :: Over(p, events)
                             && var s := Run(p, Start(p), events).value; s.init.Failed? && s.resp.Finished?
  {
    OrderedRun(p, 6);
    var s := Run(p, Start(p), ORDER[..6]).value;
    NothingLeft(p, s);
    assert Over(p, ORDER[..6]);
  }

  lemma NothingLeft(p: Parties, s: System)
    requires OnScript(p, s, 6)
    ensures !s.init.Running? && !s.resp.Running? && !CanStep(p, s)
  {}

  /** When only the responder rejects the other's key, the initiator always ends up connected alone: it
      is done before the responder sees that key. */
  lemma InitiatorAlone(p: Parties, events: seq<Event>)
    requires Validate(p.cfgI) == None && Validate(p.cfgR) == None
    requires Authorizes(p.cfgI, p.cfgR.identity.public) && !Authorizes(p.cfgR, p.cfgI.identity.public)
    requires Over(p, events)
    ensures var s := Run(p, Start(p), events).value; s.init.Finished? && s.resp.Failed?
  {
    hide Validate, Authorizes, Script, Step, Run;
    CompleteRun(p, events);
    StartReachable(p);
    RunKeeps(p, Start(p), events);
  }

  /** A handshake can be over with one side connected and the other not, exactly when both
      configurations are valid and just one of the two accepts the other's key. */
  lemma OneSidedIff(p: Parties)
    ensures (exists events :: Over(p, events) && OneSided(p, events))
            <==> Validate(p.cfgI) == None && Validate(p.cfgR) == None
                 && Authorizes(p.cfgI, p.cfgR.identity.public) != Authorizes(p.cfgR, p.cfgI.identity.public)
  {
    if events :| Over(p, events) && OneSided(p, events) {
      OneSidedNeeds(p, events);
    }
    if Validate(p.cfgI) == None && Validate(p.cfgR) == None {
      OrderedRun(p, 6);
      NothingLeft(p, Run(p, Start(p), ORDER[..6]).value);
      assert Over(p, ORDER[..6]);
      if Authorizes(p.cfgI, p.cfgR.identity.public) && !Authorizes(p.cfgR, p.cfgI.identity.public) {
        InitiatorAlone(p, ORDER[..6]);
        assert OneSided(p, ORDER[..6]);
      }
      if !Authorizes(p.cfgI, p.cfgR.identity.public) && Authorizes(p.cfgR, p.cfgI.identity.public) {
        ResponderAlone(p);
        var alone :| Over(p, alone) && var s := Run(p, Start(p), alone).value; s.init.Failed? && s.resp.Finished?;
        assert OneSided(p, alone);
      }
    }
  }

  lemma OneSidedNeeds(p: Parties, events: seq<Event>)
    requires Over(p, events) && OneSided(p, events)
    ensures Validate(p.cfgI) == None && Validate(p.cfgR) == None
    ensures Authorizes(p.cfgI, p.cfgR.identity.public) != Authorizes(p.cfgR, p.cfgI.identity.public)
  {
    hide Validate, Authorizes, Script, Step, Run;
    CompleteRun(p, events);
    StartReachable(p);
    RunKeeps(p, Start(p), events);
  }
}
