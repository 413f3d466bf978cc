/** The concurrent listener (pkg/noise/listen.go) as interleaved steps: the accept loop, one
goroutine per handshake, any number of `Accept` and `Close` calls.

Connections are numbered in the order the raw listener accepts them. A step is what happens between
two points where another goroutine can run. */
module NoiseListener {
  import opened Wrappers
  import opened Counting

  const QUEUE_SIZE := 16

  datatype Item = Ready(id: nat) | AcceptError

  datatype Loop = Accepting | Publishing | Exited

  /** How far the one `Close` call that won the flag has come. */
  datatype CloseState = Open | FlagSet | Stopped | RawClosed

  datatype State = State(
    accepted: nat,
    handshaking: set<nat>,
    finished: set<nat>,     // handshake done, waiting to publish
    queue: seq<Item>,
    delivered: seq<nat>,
    rejected: set<nat>,     // handshake failed, raw connection closed
    dropped: set<nat>,      // listener closed first, connection closed
    succeeded: set<nat>,    // history: handshakes that succeeded
    published: seq<nat>,    // history: order of publication
    errors: nat,            // history: accept errors surfaced
    loop: Loop,
    closing: CloseState,
    rawCloses: nat)

  const Start := State(0, {}, {}, [], [], {}, {}, {}, [], 0, Accepting, Open, 0)

  predicate StopChanClosed(s: State) { s.closing.Stopped? || s.closing.RawClosed? }

  datatype Event =
    | RawAccept | RawError | LoopPublish | LoopStop
    | HandshakeFail(id: nat) | HandshakeOk(id: nat) | Publish(id: nat) | Drop(id: nat)
    | Accept | AcceptClosed
    | CloseFlag | CloseStop | CloseRaw

  /** None: the step is not possible, its goroutine is blocked or elsewhere. */
  function Step(s: State, e: Event): Option<State> {
    match e
    case RawAccept =>
      if s.loop.Accepting? && !s.closing.RawClosed?
      then Some(s.(accepted := s.accepted + 1, handshaking := s.handshaking + {s.accepted})) else None
    case RawError =>
      if !s.loop.Accepting? then None
      else if s.closing.Open? then Some(s.(loop := Publishing))
      else Some(s.(loop := Exited))
    case LoopPublish =>
      if s.loop.Publishing? && |s.queue| < QUEUE_SIZE
      then Some(s.(queue := s.queue + [AcceptError], errors := s.errors + 1, loop := Exited)) else None
    case LoopStop =>
      if s.loop.Publishing? && StopChanClosed(s) then Some(s.(loop := Exited)) else None
    case HandshakeFail(id) =>
      if id in s.handshaking
      then Some(s.(handshaking := s.handshaking - {id}, rejected := s.rejected + {id})) else None
    case HandshakeOk(id) =>
      if id in s.handshaking
      then Some(s.(handshaking := s.handshaking - {id}, finished := s.finished + {id}, succeeded := s.succeeded + {id})) else None
    case Publish(id) =>
      if id in s.finished && |s.queue| < QUEUE_SIZE
      then Some(s.(finished := s.finished - {id}, queue := s.queue + [Ready(id)], published := s.published + [id])) else None
    case Drop(id) =>
      if id in s.finished && StopChanClosed(s)
      then Some(s.(finished := s.finished - {id}, dropped := s.dropped + {id})) else None
    case Accept =>
      if s.queue == [] then None
      else
        var s' := s.(queue := s.queue[1..]);
        Some(if s.queue[0].Ready? then s'.(delivered := s.delivered + [s.queue[0].id]) else s')
    case AcceptClosed =>
      if StopChanClosed(s) then Some(s) else None
    case CloseFlag =>
      Some(if s.closing.Open? then s.(closing := FlagSet) else s)
    case CloseStop =>
      if s.closing.FlagSet? then Some(s.(closing := Stopped)) else None
    case CloseRaw =>
      if s.closing.Stopped? then Some(s.(closing := RawClosed, rawCloses := s.rawCloses + 1)) else None
  }

  function Run(s: State, events: seq<Event>): Option<State>
    decreases |events|
  {
    if events == [] then Some(s)
    else
      match Step(s, events[0])
      case None => None
      case Some(s') => Run(s', events[1..])
  }

  // ---- where connections are ----

  function Conns(queue: seq<Item>): seq<nat> {
    if queue == [] then []
    else ConnOf(queue[0]) + Conns(queue[1..])
  }

  function ConnOf(item: Item): seq<nat> { if item.Ready? then [item.id] else [] }

  function In(ids: set<nat>, id: nat): nat { if id in ids then 1 else 0 }

  /** In how many places a connection is, with multiplicity. */
  function Places(s: State, id: nat): nat {
    In(s.handshaking, id) + In(s.finished, id) + Occurrences(Conns(s.queue), id)
    + Occurrences(s.delivered, id) + In(s.rejected, id) + In(s.dropped, id)
  }

  /** Every accepted connection, and no other, is in exactly one place. */
  ghost predicate Partition(s: State) {
    && s.delivered + Conns(s.queue) == s.published
    && forall id: nat :: Spread(s, id) == if id < s.accepted then 1 else 0
  }

  /** `Places`, with queue and deliveries read off the publication history. */
  function Spread(s: State, id: nat): nat {
    In(s.handshaking, id) + In(s.finished, id) + Occurrences(s.published, id) + In(s.rejected, id) + In(s.dropped, id)
  }

  /** Only results of successful handshakes are published, waiting or dropped. */
  ghost predicate Deserved(s: State) {
    && (forall id :: id in s.published || id in s.finished || id in s.dropped ==> id in s.succeeded)
    && (forall id :: id in s.succeeded ==> id < s.accepted && id !in s.handshaking && id !in s.rejected)
  }

  ghost predicate Inv(s: State) {
    && Partition(s)
    && |s.queue| <= QUEUE_SIZE
    && Deserved(s)
    && s.errors <= 1 && (s.errors == 1 ==> s.loop.Exited?)
    && s.rawCloses == (if s.closing.RawClosed? then 1 else 0)
  }

  lemma {:induction false} ConnsAppend(queue: seq<Item>, item: Item)
    ensures Conns(queue + [item]) == Conns(queue) + ConnOf(item)
  {
    hide ConnOf;
    if queue == [] {
      assert queue + [item] == [item];
      assert [item][1..] == [];
      assert Conns([item]) == ConnOf(item) + [];
      assert Conns(queue) == [];
    } else {
      assert (queue + [item])[1..] == queue[1..] + [item];
      ConnsAppend(queue[1..], item);
      assert Conns(queue + [item]) == ConnOf(queue[0]) + (Conns(queue[1..]) + ConnOf(item));
    }
  }

  // ---- one step ----

  lemma AcceptKeeps(s: State)
    requires Partition(s)
    ensures Partition(s.(accepted := s.accepted + 1, handshaking := s.handshaking + {s.accepted}))
  {
    hide Occurrences, Conns;
    var s' := s.(accepted := s.accepted + 1, handshaking := s.handshaking + {s.accepted});
    forall id: nat ensures Spread(s', id) == if id < s'.accepted then 1 else 0 {
      assert Spread(s, id) == if id < s.accepted then 1 else 0;
    }
  }

  /** Where a connection is not, because it is somewhere else. */
  lemma Elsewhere(s: State, id: nat)
    requires Partition(s) && (id in s.handshaking || id in s.finished)
    ensures id < s.accepted && id !in s.rejected && id !in s.dropped && id !in s.published
    ensures !(id in s.handshaking && id in s.finished)
  {
    hide Occurrences, Conns;
    assert Spread(s, id) == if id < s.accepted then 1 else 0;
    OccursIfIn(s.published, id);
  }

  lemma MoveKeeps(s: State, s': State, moved: nat)
    requires Partition(s)
    requires s'.accepted == s.accepted && s'.published == s.published && s'.delivered + Conns(s'.queue) == s.published
    requires moved in s.handshaking || moved in s.finished
    requires moved in s.handshaking ==> s'.handshaking == s.handshaking - {moved}
    requires moved !in s.handshaking ==> s'.handshaking == s.handshaking && s'.finished == s.finished - {moved}
    requires (s'.rejected == s.rejected + {moved} && s'.finished == s.finished - {moved} && s'.dropped == s.dropped)
          || (s'.rejected == s.rejected && s'.finished == s.finished + {moved} && s'.dropped == s.dropped && moved in s.handshaking)
          || (s'.rejected == s.rejected && s'.finished == s.finished - {moved} && s'.dropped == s.dropped + {moved})
    ensures Partition(s')
  {
    hide Occurrences, Conns;
    Elsewhere(s, moved);
    forall id: nat ensures Spread(s', id) == if id < s'.accepted then 1 else 0 {
      assert Spread(s, id) == if id < s.accepted then 1 else 0;
    }
  }

  lemma PublishKeeps(s: State, id: nat)
    requires Partition(s) && id in s.finished
    ensures Partition(s.(finished := s.finished - {id}, queue := s.queue + [Ready(id)], published := s.published + [id]))
  {
    hide Occurrences, Conns, ConnOf;
    var s' := s.(finished := s.finished - {id}, queue := s.queue + [Ready(id)], published := s.published + [id]);
    QueueGrows(s, id);
    Elsewhere(s, id);
    forall other: nat ensures Spread(s', other) == if other < s'.accepted then 1 else 0 {
      assert Spread(s, other) == if other < s.accepted then 1 else 0;
      OccurrencesAppend(s.published, id, other);
    }
  }

  lemma QueueGrows(s: State, id: nat)
    requires s.delivered + Conns(s.queue) == s.published
    ensures s.delivered + Conns(s.queue + [Ready(id)]) == s.published + [id]
  {
    ConnsAppend(s.queue, Ready(id));
    hide Conns;
    assert s.delivered + (Conns(s.queue) + [id]) == s.delivered + Conns(s.queue) + [id];
  }

  lemma SamePlaces(s: State, s': State)
    requires Partition(s) && s' == s.(queue := s'.queue, delivered := s'.delivered, errors := s'.errors, loop := s'.loop,
                                      closing := s'.closing, rawCloses := s'.rawCloses)
    requires s'.delivered + Conns(s'.queue) == s.published
    ensures Partition(s')
  {
    hide Occurrences, Conns;
    forall id: nat ensures Spread(s', id) == if id < s'.accepted then 1 else 0 {
      assert Spread(s, id) == if id < s.accepted then 1 else 0;
    }
  }

  lemma DeliverKeeps(s: State)
    requires Partition(s) && s.queue != []
    ensures Partition(Step(s, Accept).value)
  {
    var s' := Step(s, Accept).value;
    assert Conns(s.queue) == ConnOf(s.queue[0]) + Conns(s.queue[1..]);
    assert s'.delivered == s.delivered + ConnOf(s.queue[0]);
    assert s'.delivered + Conns(s.queue[1..]) == s.delivered + (ConnOf(s.queue[0]) + Conns(s.queue[1..]));
    SamePlaces(s, s');
  }

  lemma StepKeepsPartition(s: State, e: Event)
    requires Partition(s) && Step(s, e).Some?
    ensures Partition(Step(s, e).value)
  {
    var s' := Step(s, e).value;
    match e
    case RawAccept => AcceptKeeps(s);
    case LoopPublish =>
      ConnsAppend(s.queue, AcceptError);
      assert Conns(s.queue) + [] == Conns(s.queue);
      SamePlaces(s, s');
    case HandshakeFail(id) =>
      Elsewhere(s, id);
      assert s.finished - {id} == s.finished;
      MoveKeeps(s, s', id);
    case HandshakeOk(id) => MoveKeeps(s, s', id);
    case Publish(id) => PublishKeeps(s, id);
    case Drop(id) =>
      Elsewhere(s, id);
      MoveKeeps(s, s', id);
    case Accept => DeliverKeeps(s);
    case RawError => SamePlaces(s, s');
    case LoopStop => SamePlaces(s, s');
    case AcceptClosed =>
    case CloseFlag => SamePlaces(s, s');
    case CloseStop => SamePlaces(s, s');
    case CloseRaw => SamePlaces(s, s');
  }

  lemma StepKeepsDeserved(s: State, e: Event)
    requires Partition(s) && Deserved(s) && Step(s, e).Some?
    ensures Deserved(Step(s, e).value)
  {
    hide Partition, Conns;
    match e
    case RawAccept =>
    case HandshakeOk(id) => Elsewhere(s, id);
    case HandshakeFail(id) => Elsewhere(s, id);
    case Publish(id) => assert forall x :: x in s.published + [id] <==> x in s.published || x == id;
    case Drop(id) =>
    case _ => SameConns(s, Step(s, e).value);
  }

  lemma SameConns(s: State, s': State)
    requires Deserved(s)
    requires s'.published == s.published && s'.finished == s.finished && s'.dropped == s.dropped && s'.succeeded == s.succeeded
    requires s'.accepted == s.accepted && s'.handshaking == s.handshaking && s'.rejected == s.rejected
    ensures Deserved(s')
  {}

  lemma StepKeeps(s: State, e: Event)
    requires Inv(s) && Step(s, e).Some?
    ensures Inv(Step(s, e).value)
  {
    StepKeepsPartition(s, e);
    StepKeepsDeserved(s, e);
    hide Partition, Deserved, Conns;
  }

  lemma {:induction false} RunKeeps(s: State, events: seq<Event>)
    requires Inv(s) && Run(s, events).Some?
    ensures Inv(Run(s, events).value)
    decreases |events|
  {
    hide Inv, Step;
    if events != [] {
      StepKeeps(s, events[0]);
      RunKeeps(Step(s, events[0]).value, events[1..]);
    }
  }

  lemma StartInv()
    ensures Inv(Start)
  {}

  // ---- what every interleaving guarantees ----

  /** Every accepted connection is in exactly one place, in every reachable state. */
  lemma ExactlyOnePlace(events: seq<Event>, id: nat)
    requires Run(Start, events).Some?
    ensures var s := Run(Start, events).value;
            Places(s, id) == if id < s.accepted then 1 else 0
  {
    StartInv();
    RunKeeps(Start, events);
    var s := Run(Start, events).value;
    OccurrencesConcat(s.delivered, Conns(s.queue), id);
    assert Spread(s, id) == if id < s.accepted then 1 else 0;
  }

  /** Delivery: at most sixteen results wait; `Accept` hands out, in the order of publication and
      never twice, only connections whose handshake succeeded. */
  lemma Deliveries(events: seq<Event>)
    requires Run(Start, events).Some?
    ensures var s := Run(Start, events).value;
            && |s.queue| <= 16
            && s.delivered <= s.published
            && (forall i, j :: 0 <= i < j < |s.delivered| ==> s.delivered[i] != s.delivered[j])
            && (forall i :: 0 <= i < |s.delivered| ==> s.delivered[i] in s.succeeded && s.delivered[i] !in s.rejected)
            && s.errors <= 1
  {
    StartInv();
    RunKeeps(Start, events);
    var s := Run(Start, events).value;
    forall i, j | 0 <= i < j < |s.delivered|
      ensures s.delivered[i] != s.delivered[j]
    {
      var id := s.delivered[i];
      assert Spread(s, id) <= 1;
      OccurrencesConcat(s.delivered, Conns(s.queue), id);
      Duplicate(s.delivered, i, j);
    }
    forall i | 0 <= i < |s.delivered|
      ensures s.delivered[i] in s.succeeded
    {
      assert s.delivered[i] == s.published[i];
    }
  }

  /** However many `Close` calls there are, the raw listener is closed at most once, and exactly
      once when a call that won the flag has returned. */
  lemma RawClosedOnce(events: seq<Event>)
    requires Run(Start, events).Some?
    ensures var s := Run(Start, events).value;
            s.rawCloses <= 1 && (s.rawCloses == 1 <==> s.closing.RawClosed?)
  {
    StartInv();
    RunKeeps(Start, events);
  }

  /** A result waits for publication exactly while sixteen are queued. */
  lemma PublishBlockedIff(s: State, id: nat)
    requires |s.queue| <= QUEUE_SIZE && id in s.finished
    ensures Step(s, Publish(id)) == None <==> |s.queue| == 16
  {}

  /** When the raw listener fails, `Accept` can still be handed the error if and only if `Close` had not
      been called; else the accept loop ends without a word. */
  lemma ErrorSurfacesIff(s: State)
    requires Step(s, RawError).Some? && |s.queue| <= QUEUE_SIZE
    ensures (exists events :: Run(Step(s, RawError).value, events).Some?
                              && Run(Step(s, RawError).value, events).value.errors > s.errors)
            <==> s.closing.Open?
  {
    hide Run;
    var failed := Step(s, RawError).value;
    if s.closing.Open? {
      var head: seq<Event>, room := [], failed;
      RunNothing(failed);
      if |failed.queue| == QUEUE_SIZE {
        head, room := [Accept], Step(failed, Accept).value;
        RunAppend(failed, [], Accept);
        assert [] + [Accept] == [Accept];
      }
      RunAppend(failed, head, LoopPublish);
      assert Run(failed, head + [LoopPublish]).Some?;
    } else {
      forall events | Run(failed, events).Some? ensures Run(failed, events).value.errors == s.errors {
        NoErrorsOnceExited(failed, events);
      }
    }
  }

  lemma {:induction false} NoErrorsOnceExited(s: State, events: seq<Event>)
    requires s.loop.Exited? && Run(s, events).Some?
    ensures Run(s, events).value.errors == s.errors
    decreases |events|
  {
    hide Step;
    if events != [] {
      StaysExited(s, events[0]);
      NoErrorsOnceExited(Step(s, events[0]).value, events[1..]);
    }
  }

  lemma StaysExited(s: State, e: Event)
    requires s.loop.Exited? && Step(s, e).Some?
    ensures Step(s, e).value.loop.Exited? && Step(s, e).value.errors == s.errors
  {}

  /** The accept loop gives an error up only once the stop channel is closed. */
  lemma ErrorGivenUp(s: State, e: Event)
    requires s.loop.Publishing? && Step(s, e).Some? && Step(s, e).value.loop.Exited? && Step(s, e).value.errors == s.errors
    ensures s.closing.Stopped? || s.closing.RawClosed?
  {}

  /** A result can be dropped, and an `Accept` turned away, exactly from the moment the stop channel is closed:
      before, both wait. */
  lemma ClosedIff(s: State, id: nat)
    ensures Step(s, Drop(id)).Some? <==> id in s.finished && (s.closing.Stopped? || s.closing.RawClosed?)
    ensures Step(s, AcceptClosed).Some? <==> s.closing.Stopped? || s.closing.RawClosed?
    ensures Step(s, CloseRaw).Some? <==> s.closing.Stopped?
    ensures Step(s, CloseStop).Some? <==> s.closing.FlagSet?
  {}

  /** Each error surfaced is queued behind the results before it, once. */
  lemma ErrorQueued(s: State, e: Event)
    requires Step(s, e).Some? && Step(s, e).value.errors != s.errors
    ensures Step(s, e).value.errors == s.errors + 1 && Step(s, e).value.queue == s.queue + [AcceptError]
  {}

  predicate InFlight(s: State, id: nat) { id in s.handshaking || id in s.finished }

  /** `Close` decides nothing about a handshake in flight: afterwards its result can still be dropped,
      and it can still be delivered. */
  lemma AfterClose(s: State, id: nat)
    requires StopChanClosed(s) && InFlight(s, id) && |s.queue| <= QUEUE_SIZE
    ensures exists events :: Run(s, events).Some? && id in Run(s, events).value.dropped
    ensures exists events :: Run(s, events).Some? && id in Run(s, events).value.delivered
  {
    hide Step, Run;
    var head, s1 := ToFinished(s, id);
    assert Step(s1, Drop(id)).Some? && id in Step(s1, Drop(id)).value.dropped by { CanDrop(s1, id); }
    RunAppend(s, head, Drop(id));
    assert Run(s, head + [Drop(id)]).Some?;
    var more, s2 := ToPublished(s, head, s1, id);
    var delivering := ToDelivered(s, more, s2, |s2.queue| - 1, id);
  }

  /** Nothing more can be published from some moment on exactly when no handshake is in flight and the
      accept loop cannot start another one. That, and not that `Close` was called, is when results
      are certain to be dropped. */
  lemma NoMorePublishedIff(s: State)
    requires |s.queue| <= QUEUE_SIZE
    ensures (forall events :: Run(s, events).Some? ==> Run(s, events).value.published == s.published) <==> Quiet(s)
  {
    hide Step, Run;
    if Quiet(s) {
      forall events | Run(s, events).Some?
        ensures Run(s, events).value.published == s.published
      {
        QuietForever(s, events);
      }
    } else {
      var start: seq<Event>, s0: State, id: nat := [], s, 0;
      RunNothing(s);
      if s.handshaking != {} {
        id :| id in s.handshaking;
      } else if s.finished != {} {
        id :| id in s.finished;
      } else {
        CanAccept(s);
        start, s0, id := [RawAccept], Step(s, RawAccept).value, s.accepted;
        RunAppend(s, [], RawAccept);
        assert [] + [RawAccept] == [RawAccept];
      }
      var head, s1 := ToFinished(s0, id);
      RunConcat(s, start, head);
      var more, s2 := ToPublished(s, start + head, s1, id);
      assert Run(s, more).value.published != s.published;
    }
  }

  predicate Quiet(s: State) {
    s.handshaking == {} && s.finished == {} && (!s.loop.Accepting? || s.closing.RawClosed?)
  }

  lemma QuietStep(s: State, e: Event)
    requires Quiet(s) && Step(s, e).Some?
    ensures Quiet(Step(s, e).value) && Step(s, e).value.published == s.published
  {}

  lemma {:induction false} QuietForever(s: State, events: seq<Event>)
    requires Quiet(s) && Run(s, events).Some?
    ensures Run(s, events).value.published == s.published
    decreases |events|
  {
    hide Step;
    if events != [] {
      QuietStep(s, events[0]);
      QuietForever(Step(s, events[0]).value, events[1..]);
    }
  }

  lemma CanAccept(s: State)
    requires s.loop.Accepting? && !s.closing.RawClosed?
    ensures var s' := Step(s, RawAccept);
            s'.Some? && s.accepted in s'.value.handshaking && s'.value.published == s.published && s'.value.queue == s.queue
  {}

  lemma CanDrop(s: State, id: nat)
    requires StopChanClosed(s) && id in s.finished
    ensures Step(s, Drop(id)).Some? && id in Step(s, Drop(id)).value.dropped
  {}

  /** A handshake in flight can succeed. */
  lemma ToFinished(s: State, id: nat) returns (events: seq<Event>, s': State)
    requires InFlight(s, id)
    ensures Run(s, events) == Some(s') && id in s'.finished
    ensures s'.queue == s.queue && s'.published == s.published && s'.closing == s.closing && s'.delivered == s.delivered
  {
    RunNothing(s);
    events, s' := [], s;
    if id !in s.finished {
      events, s' := [HandshakeOk(id)], Step(s, HandshakeOk(id)).value;
      RunAppend(s, [], HandshakeOk(id));
      assert [] + [HandshakeOk(id)] == [HandshakeOk(id)];
    }
  }

  /** Its result can be published, if need be after an `Accept` has made room. */
  lemma ToPublished(s: State, head: seq<Event>, s1: State, id: nat) returns (events: seq<Event>, s': State)
    requires Run(s, head) == Some(s1) && id in s1.finished && |s1.queue| <= QUEUE_SIZE
    ensures Run(s, events) == Some(s') && s'.queue != [] && s'.queue[|s'.queue| - 1] == Ready(id)
    ensures s'.published == s1.published + [id]
  {
    var s2: State;
    events, s2 := head, s1;
    if |s1.queue| == QUEUE_SIZE {
      events, s2 := head + [Accept], Step(s1, Accept).value;
      RunAppend(s, head, Accept);
    }
    s' := Step(s2, Publish(id)).value;
    RunAppend(s, events, Publish(id));
    events := events + [Publish(id)];
  }

  /** A published result comes up for delivery after those before it. */
  lemma {:induction false} ToDelivered(s: State, head: seq<Event>, s1: State, n: nat, id: nat) returns (events: seq<Event>)
    requires Run(s, head) == Some(s1) && n < |s1.queue| && s1.queue[n] == Ready(id)
    ensures Run(s, events).Some? && id in Run(s, events).value.delivered
    decreases n
  {
    var s2 := Step(s1, Accept).value;
    RunAppend(s, head, Accept);
    if n == 0 {
      assert s2.delivered[|s2.delivered| - 1] == id;
      events := head + [Accept];
    } else {
      events := ToDelivered(s, head + [Accept], s2, n - 1, id);
    }
  }

  lemma RunNothing(s: State)
    ensures Run(s, []) == Some(s)
  {}

  lemma {:induction false} RunConcat(s: State, a: seq<Event>, b: seq<Event>)
    requires Run(s, a).Some?
    ensures Run(s, a + b) == Run(Run(s, a).value, b)
    decreases |a|
  {
    hide Step;
    if a == [] {
      assert a + b == b;
    } else {
      assert (a + b)[1..] == a[1..] + b;
      RunConcat(Step(s, a[0]).value, a[1..], b);
    }
  }

  lemma RunAppend(s: State, events: seq<Event>, e: Event)
    requires Run(s, events).Some?
    ensures Run(s, events + [e]) == Step(Run(s, events).value, e)
  {
    hide Step;
    RunConcat(s, events, [e]);
    assert [e][1..] == [];
  }

  /** A witness from the start: a handshake that ends after `Close` returned is delivered. */
  lemma DeliveredAfterClose()
    ensures exists before, after ::
              && Run(Start, before).Some? && Run(Start, before).value.closing.RawClosed?
              && Run(Start, before).value.published == []
              && Run(Run(Start, before).value, after).Some?
              && Run(Run(Start, before).value, after).value.delivered == [0]
  {
    hide Step, Run;
    CloseEarly();
    DeliverLate(ClosedEarly);
  }

  const ClosedEarly := Start.(accepted := 1, handshaking := {0}, closing := RawClosed, rawCloses := 1)

  lemma CloseEarly()
    ensures Run(Start, [RawAccept, CloseFlag, CloseStop, CloseRaw]) == Some(ClosedEarly)
  {
    hide Run;
    var s1 := Start.(accepted := 1, handshaking := {0});
    assert Step(Start, RawAccept) == Some(s1) by { assert Start.handshaking + {0} == {0}; }
    var s2 := s1.(closing := FlagSet);
    assert Step(s1, CloseFlag) == Some(s2);
    var s3 := s1.(closing := Stopped);
    assert Step(s2, CloseStop) == Some(s3);
    assert Step(s3, CloseRaw) == Some(ClosedEarly);
    Run4(Start, RawAccept, CloseFlag, CloseStop, CloseRaw);
  }

  lemma DeliverLate(s: State)
    requires s.handshaking == {0} && s.finished == {} && s.queue == [] && s.delivered == [] && StopChanClosed(s)
    ensures exists after :: Run(s, after).Some? && Run(s, after).value.delivered == [0]
  {
    var s1 := Step(s, HandshakeOk(0)).value;
    var s2 := Step(s1, Publish(0)).value;
    assert s2.queue == [Ready(0)];
    var s3 := Step(s2, Accept).value;
    assert s3.delivered == [0];
    Run4(s, HandshakeOk(0), Publish(0), Accept, AcceptClosed);
  }

  lemma Run4(s: State, a: Event, b: Event, c: Event, d: Event)
    requires Step(s, a).Some? && Step(Step(s, a).value, b).Some?
    requires Step(Step(Step(s, a).value, b).value, c).Some?
    ensures Run(s, [a, b, c, d]) == Step(Step(Step(Step(s, a).value, b).value, c).value, d)
  {
    hide Step;
    RunFirst(s, a, [b, c, d]);
    assert [a] + [b, c, d] == [a, b, c, d];
    var s1 := Step(s, a).value;
    RunFirst(s1, b, [c, d]);
    assert [b] + [c, d] == [b, c, d];
    var s2 := Step(s1, b).value;
    RunFirst(s2, c, [d]);
    assert [c] + [d] == [c, d];
    var s3 := Step(s2, c).value;
    RunFirst(s3, d, []);
    assert [d] + [] == [d];
  }

  lemma RunFirst(s: State, e: Event, rest: seq<Event>)
    ensures Run(s, [e] + rest) == match Step(s, e) case None => None case Some(s') => Run(s', rest)
  {
    hide Step;
    assert ([e] + rest)[1..] == rest;
  }
}
