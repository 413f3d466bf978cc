/** The sentinel's delivery pipeline (internal/sentinel/app/run.go): a collector's channel, the wiring
goroutine, the drop-oldest buffer, the flush loop and the counters. */
module Pipeline {
  import opened Stats
  import opened DropOldest

  const BUFFER_FULL := "buffer_full"
  const RETRY_EXHAUSTED := "retry_exhausted"

  /** How sending one payload ends: `bytes` marshaled and `wire` sent; given up after the last
      attempt; not marshalable; or cut off by cancellation, which ends the flush. */
  datatype Outcome = Delivered(bytes: int, wire: int) | GaveUp | Unmarshalable | Aborted

  datatype Flushed<T> = Flushed(sent: seq<T>, data: Data, aborted: bool)

  /** The flush loop over the drained items, from the i-th on. */
  function FlushFrom<T>(items: seq<T>, i: nat, outcome: nat -> Outcome, name: string, data: Data): Flushed<T>
    requires i <= |items|
    decreases |items| - i
  {
    if i == |items| then Flushed([], data, false)
    else
      match outcome(i)
      case Delivered(bytes, wire) =>
        var f := FlushFrom(items, i + 1, outcome, name, Recorded(data, name, bytes, wire));
        f.(sent := [items[i]] + f.sent)
      case GaveUp => FlushFrom(items, i + 1, outcome, name, Dropped(data, name, RETRY_EXHAUSTED))
      case Unmarshalable => FlushFrom(items, i + 1, outcome, name, data)
      case Aborted => Flushed([], data, true)
  }

  /** Those of the items between two places that the sender delivers. */
  function Deliverable<T>(items: seq<T>, i: nat, n: nat, outcome: nat -> Outcome): seq<T>
    requires i <= n <= |items|
    decreases n - i
  {
    if i == n then [] else (if outcome(i).Delivered? then [items[i]] else []) + Deliverable(items, i + 1, n, outcome)
  }

  /** A flush delivers what can be delivered up to the first item, if any, whose send is cut off, and nothing
      from there on. */
  lemma {:induction false} FlushDelivers<T>(items: seq<T>, i: nat, n: nat, outcome: nat -> Outcome, name: string, data: Data)
    requires i <= n <= |items| && forall k: nat :: i <= k < n ==> !outcome(k).Aborted?
    requires n < |items| ==> outcome(n).Aborted?
    ensures var f := FlushFrom(items, i, outcome, name, data);
            f.sent == Deliverable(items, i, n, outcome) && (f.aborted <==> n < |items|)
    decreases n - i
  {
    hide Recorded, Dropped;
    if i < n {
      match outcome(i) {
        case Delivered(bytes, wire) => FlushDelivers(items, i + 1, n, outcome, name, Recorded(data, name, bytes, wire));
        case GaveUp => FlushDelivers(items, i + 1, n, outcome, name, Dropped(data, name, RETRY_EXHAUSTED));
        case Unmarshalable => FlushDelivers(items, i + 1, n, outcome, name, data);
        case Aborted => assert false;
      }
    }
  }

  /** One collector's path. The wiring goroutine and the flush loop count drops under names of their
      own: for logs these are "log" and "logs". */
  class Path<T> {
    const buffer: Buffer<T>
    const stats: Stats
    const wireName: string
    const flushName: string
    var sent: seq<T>

    ghost predicate Valid()
      reads this, buffer, buffer.backing
    {
      buffer.Valid()
    }

    constructor (buffer: Buffer<T>, stats: Stats, wireName: string, flushName: string)
      requires buffer.Valid()
      ensures Valid() && this.buffer == buffer && this.stats == stats && this.wireName == wireName && this.flushName == flushName
      ensures sent == []
    {
      this.buffer, this.stats, this.wireName, this.flushName := buffer, stats, wireName, flushName;
      sent := [];
    }

    method Wire(payload: T)
      requires Valid()
      modifies buffer, buffer.backing, stats
      ensures Valid() && (buffer.backing == old(buffer.backing) || fresh(buffer.backing))
      ensures buffer.Contents() == Pushed(old(buffer.Contents()), payload, buffer.maxSize)
      ensures stats.data == if |old(buffer.Contents())| >= buffer.maxSize then Dropped(old(stats.data), wireName, BUFFER_FULL)
                            else old(stats.data)
    {
      var dropped := buffer.Push(payload);
      if dropped {
        stats.RecordDrop(wireName, BUFFER_FULL);
      }
    }

    method Flush(outcome: nat -> Outcome) returns (aborted: bool)
      requires Valid()
      modifies this, buffer, stats
      ensures Valid() && (buffer.backing == old(buffer.backing) || fresh(buffer.backing)) && buffer.Contents() == []
      ensures var f := FlushFrom(old(buffer.Contents()), 0, outcome, flushName, old(stats.data));
              sent == old(sent) + f.sent && stats.data == f.data && aborted == f.aborted
    {
      var items := buffer.Drain();
      hide FlushFrom, Recorded, Dropped;
      ghost var whole := FlushFrom(items, 0, outcome, flushName, stats.data);
      ghost var done := [];
      var i := 0;
      while i < |items|
        invariant 0 <= i <= |items|
        invariant sent == old(sent) + done
        invariant whole == Preceded(done, FlushFrom(items, i, outcome, flushName, stats.data))
        modifies this`sent, stats
      {
        FlushUnfolded(done, items, i, outcome, flushName, stats.data);
        match outcome(i) {
          case Delivered(bytes, wire) =>
            sent := sent + [items[i]];
            done := done + [items[i]];
            stats.Record(flushName, bytes, wire);
          case GaveUp =>
            stats.RecordDrop(flushName, RETRY_EXHAUSTED);
          case Unmarshalable =>
          case Aborted =>
            return true;
        }
        i := i + 1;
      }
      FlushUnfolded(done, items, i, outcome, flushName, stats.data);
      aborted := false;
    }
  }

  function Preceded<T>(done: seq<T>, f: Flushed<T>): Flushed<T> {
    f.(sent := done + f.sent)
  }

  lemma FlushUnfolded<T>(done: seq<T>, items: seq<T>, i: nat, outcome: nat -> Outcome, name: string, data: Data)
    requires i <= |items|
    ensures Preceded(done, FlushFrom(items, i, outcome, name, data)) ==
            if i == |items| then Flushed(done, data, false)
            else match outcome(i)
                 case Delivered(bytes, wire) =>
                   Preceded(done + [items[i]], FlushFrom(items, i + 1, outcome, name, Recorded(data, name, bytes, wire)))
                 case GaveUp => Preceded(done, FlushFrom(items, i + 1, outcome, name, Dropped(data, name, RETRY_EXHAUSTED)))
                 case Unmarshalable => Preceded(done, FlushFrom(items, i + 1, outcome, name, data))
                 case Aborted => Flushed(done, data, true)
  {
    hide Recorded, Dropped;
    assert done + [] == done;
    if i < |items| && outcome(i).Delivered? {
      var f := FlushFrom(items, i + 1, outcome, name, Recorded(data, name, outcome(i).bytes, outcome(i).wire));
      assert done + ([items[i]] + f.sent) == done + [items[i]] + f.sent;
    }
  }
}

/** Every interleaving of collector, wiring goroutine and flush loop. Payloads are numbered in the
order the collector produces them. */
module PipelineRuns {
  import opened Wrappers
  import opened GoTime
  import opened Counting
  import opened Stats
  import opened DropOldest
  import opened Pipeline

  datatype Shape = Shape(channelSize: nat, bufferSize: nat, wireName: string, flushName: string)

  datatype State = State(
    produced: nat,
    channel: seq<nat>,
    buffer: seq<nat>,
    sending: seq<nat>,        // drained by the flush in progress
    sent: seq<nat>,
    overflowed: seq<nat>,     // pushed out of a full buffer
    exhausted: seq<nat>,      // given up after the last attempt
    unmarshalled: seq<nat>,
    abandoned: seq<nat>,      // drained by a flush that was cancelled
    data: Data)

  const Start := State(0, [], [], [], [], [], [], [], [], map[])

  datatype Event = Produce | Wire | FlushStart | Send(outcome: Outcome)

  function Step(shape: Shape, s: State, e: Event): Option<State>
    requires shape.bufferSize > 0
  {
    match e
    case Produce =>
      if |s.channel| < shape.channelSize then Some(s.(channel := s.channel + [s.produced], produced := s.produced + 1)) else None
    case Wire =>
      if s.channel == [] then None
      else
        var s' := s.(channel := s.channel[1..], buffer := Pushed(s.buffer, s.channel[0], shape.bufferSize));
        if |s.buffer| >= shape.bufferSize
        then Some(s'.(overflowed := s.overflowed + [s.buffer[0]], data := Dropped(s.data, shape.wireName, BUFFER_FULL)))
        else Some(s')
    case FlushStart =>
      if s.sending == [] then Some(s.(sending := s.buffer, buffer := [])) else None
    case Send(outcome) =>
      if s.sending == [] then None
      else
        var head, rest := s.sending[0], s.(sending := s.sending[1..]);
        match outcome
        case Delivered(bytes, wire) => Some(rest.(sent := s.sent + [head], data := Recorded(s.data, shape.flushName, bytes, wire)))
        case GaveUp => Some(rest.(exhausted := s.exhausted + [head], data := Dropped(s.data, shape.flushName, RETRY_EXHAUSTED)))
        case Unmarshalable => Some(rest.(unmarshalled := s.unmarshalled + [head]))
        case Aborted => Some(s.(sending := [], abandoned := s.abandoned + s.sending))
  }

  function Run(shape: Shape, s: State, events: seq<Event>): Option<State>
    requires shape.bufferSize > 0
    decreases |events|
  {
    if events == [] then Some(s)
    else
      match Step(shape, s, events[0])
      case None => None
      case Some(s') => Run(shape, s', events[1..])
  }

  // ---- conservation and order ----

  /** All payloads still on their way or delivered, oldest first. */
  function Line(s: State): seq<nat> { s.sent + s.sending + s.buffer + s.channel }

  function Lost(s: State, id: nat): nat {
    Occurrences(s.overflowed, id) + Occurrences(s.exhausted, id) + Occurrences(s.unmarshalled, id) + Occurrences(s.abandoned, id)
  }

  function LostCount(s: State): nat { |s.overflowed| + |s.exhausted| + |s.unmarshalled| + |s.abandoned| }

  ghost predicate Inv(shape: Shape, s: State) {
    && Increasing(Line(s))
    && (forall id: nat :: Occurrences(Line(s), id) + Lost(s, id) == if id < s.produced then 1 else 0)
    && |Line(s)| + LostCount(s) == s.produced
    && (LostCount(s) == 0 ==> Line(s) == Range(s.produced))
    && |s.buffer| <= shape.bufferSize && |s.channel| <= shape.channelSize
  }

  /** The line after a step is the line before it, less a piece that is now lost. */
  lemma PieceLost(shape: Shape, s: State, s': State, a: seq<nat>, piece: seq<nat>, b: seq<nat>)
    requires Inv(shape, s) && Line(s) == a + piece + b && Line(s') == a + b && s'.produced == s.produced
    requires forall id: nat :: Lost(s', id) == Lost(s, id) + Occurrences(piece, id)
    requires LostCount(s') == LostCount(s) + |piece|
    requires |s'.buffer| <= shape.bufferSize && |s'.channel| <= shape.channelSize
    ensures Inv(shape, s')
  {
    hide Lost, LostCount, Line, Occurrences, Increasing;
    IncreasingCut(a, piece, b);
    forall id: nat
      ensures Occurrences(Line(s'), id) + Lost(s', id) == if id < s'.produced then 1 else 0
    {
      assert Occurrences(Line(s), id) + Lost(s, id) == if id < s.produced then 1 else 0;
      OccurrencesCut(a, piece, b, id);
    }
    if LostCount(s') == 0 {
      assert piece == [] && a + piece == a;
    }
  }

  lemma ProduceKeeps(shape: Shape, s: State)
    requires Inv(shape, s) && |s.channel| < shape.channelSize
    ensures Inv(shape, s.(channel := s.channel + [s.produced], produced := s.produced + 1))
  {
    var s' := s.(channel := s.channel + [s.produced], produced := s.produced + 1);
    assert Line(s') == Line(s) + [s.produced];
    forall i | 0 <= i < |Line(s)| ensures Line(s)[i] < s.produced {
      assert Occurrences(Line(s), Line(s)[i]) + Lost(s, Line(s)[i]) == if Line(s)[i] < s.produced then 1 else 0;
      OccursIfIn(Line(s), Line(s)[i]);
    }
    hide Lost, Line;
    forall id: nat
      ensures Occurrences(Line(s) + [s.produced], id) + Lost(s', id) == if id < s'.produced then 1 else 0
    {
      assert Lost(s', id) == Lost(s, id) by { SameLost(s, s', id); }
      OccurrencesAppend(Line(s), s.produced, id);
    }
  }

  lemma SameLost(s: State, s': State, id: nat)
    requires s'.overflowed == s.overflowed && s'.exhausted == s.exhausted && s'.unmarshalled == s.unmarshalled && s'.abandoned == s.abandoned
    ensures Lost(s', id) == Lost(s, id)
  {}

  lemma WireKeeps(shape: Shape, s: State)
    requires shape.bufferSize > 0 && Inv(shape, s) && s.channel != []
    ensures Inv(shape, Step(shape, s, Wire).value)
  {
    hide Inv, Occurrences, Dropped;
    var s' := Step(shape, s, Wire).value;
    var x, rest := s.channel[0], s.channel[1..];
    assert s.channel == [x] + rest;
    InvBounds(shape, s);
    if |s.buffer| >= shape.bufferSize {
      var y, kept := s.buffer[0], s.buffer[1..] + [x];
      assert s.buffer == [y] + s.buffer[1..];
      LineWith(s, [y], kept, rest);
      assert Line(s') == s.sent + s.sending + (kept + rest);
      forall id: nat ensures Lost(s', id) == Lost(s, id) + Occurrences([y], id) {
        OccurrencesConcat(s.overflowed, [y], id);
      }
      PieceLost(shape, s, s', s.sent + s.sending, [y], kept + rest);
    } else {
      assert Line(s') == Line(s);
      Unmoved(shape, s, s');
    }
  }

  lemma LineWith(s: State, piece: seq<nat>, middle: seq<nat>, rest: seq<nat>)
    requires s.buffer + s.channel == piece + middle + rest
    ensures Line(s) == s.sent + s.sending + piece + (middle + rest)
  {
    assert Line(s) == s.sent + s.sending + (s.buffer + s.channel);
  }

  lemma Unmoved(shape: Shape, s: State, s': State)
    requires Inv(shape, s) && Line(s') == Line(s) && s'.produced == s.produced
    requires s'.overflowed == s.overflowed && s'.exhausted == s.exhausted && s'.unmarshalled == s.unmarshalled && s'.abandoned == s.abandoned
    requires |s'.buffer| <= shape.bufferSize && |s'.channel| <= shape.channelSize
    ensures Inv(shape, s')
  {
    hide Line, Occurrences;
    forall id: nat ensures Lost(s', id) == Lost(s, id) {}
  }

  lemma SendKeeps(shape: Shape, s: State, outcome: Outcome)
    requires shape.bufferSize > 0 && Inv(shape, s) && s.sending != []
    ensures Inv(shape, Step(shape, s, Send(outcome)).value)
  {
    match outcome
    case Delivered(_, _) => DeliveredKeeps(shape, s, outcome);
    case Aborted => AbortKeeps(shape, s);
    case _ => GivenUpKeeps(shape, s, outcome);
  }

  lemma HeadFirst(s: State, tail: seq<nat>)
    requires s.sending != [] && tail == s.buffer + s.channel
    ensures Line(s) == s.sent + [s.sending[0]] + (s.sending[1..] + tail)
    ensures Line(s) == s.sent + s.sending + tail
  {
    assert s.sending == [s.sending[0]] + s.sending[1..];
  }

  lemma DeliveredKeeps(shape: Shape, s: State, outcome: Outcome)
    requires shape.bufferSize > 0 && Inv(shape, s) && s.sending != [] && outcome.Delivered?
    ensures Inv(shape, Step(shape, s, Send(outcome)).value)
  {
    hide Inv, Recorded;
    var s' := Step(shape, s, Send(outcome)).value;
    HeadFirst(s, s.buffer + s.channel);
    assert Line(s') == Line(s);
    InvBounds(shape, s);
    Unmoved(shape, s, s');
  }

  lemma InvBounds(shape: Shape, s: State)
    requires Inv(shape, s)
    ensures |s.buffer| <= shape.bufferSize && |s.channel| <= shape.channelSize
  {}

  lemma AbortKeeps(shape: Shape, s: State)
    requires shape.bufferSize > 0 && Inv(shape, s) && s.sending != []
    ensures Inv(shape, Step(shape, s, Send(Aborted)).value)
  {
    hide Inv, Occurrences;
    var s' := Step(shape, s, Send(Aborted)).value;
    var tail := s.buffer + s.channel;
    HeadFirst(s, tail);
    assert Line(s') == s.sent + tail;
    forall id: nat ensures Lost(s', id) == Lost(s, id) + Occurrences(s.sending, id) {
      OccurrencesConcat(s.abandoned, s.sending, id);
    }
    InvBounds(shape, s);
    PieceLost(shape, s, s', s.sent, s.sending, tail);
  }

  lemma GivenUpKeeps(shape: Shape, s: State, outcome: Outcome)
    requires shape.bufferSize > 0 && Inv(shape, s) && s.sending != [] && (outcome.GaveUp? || outcome.Unmarshalable?)
    ensures Inv(shape, Step(shape, s, Send(outcome)).value)
  {
    hide Inv, Occurrences, Dropped;
    var s' := Step(shape, s, Send(outcome)).value;
    var head, rest, tail := s.sending[0], s.sending[1..], s.buffer + s.channel;
    HeadFirst(s, tail);
    assert Line(s') == s.sent + (rest + tail);
    forall id: nat ensures Lost(s', id) == Lost(s, id) + Occurrences([head], id) {
      OccurrencesConcat(s.exhausted, [head], id);
      OccurrencesConcat(s.unmarshalled, [head], id);
    }
    InvBounds(shape, s);
    PieceLost(shape, s, s', s.sent, [head], rest + tail);
  }

  lemma StepKeeps(shape: Shape, s: State, e: Event)
    requires shape.bufferSize > 0 && Inv(shape, s) && Step(shape, s, e).Some?
    ensures Inv(shape, Step(shape, s, e).value)
  {
    hide Inv;
    match e
    case Produce => ProduceKeeps(shape, s);
    case Wire => WireKeeps(shape, s);
    case FlushStart => FlushKeeps(shape, s);
    case Send(outcome) => SendKeeps(shape, s, outcome);
  }

  lemma FlushKeeps(shape: Shape, s: State)
    requires Inv(shape, s) && s.sending == []
    ensures Inv(shape, s.(sending := s.buffer, buffer := []))
  {
    var s' := s.(sending := s.buffer, buffer := []);
    assert Line(s') == Line(s);
    Unmoved(shape, s, s');
  }

  lemma {:induction false} RunKeeps(shape: Shape, s: State, events: seq<Event>)
    requires shape.bufferSize > 0 && Inv(shape, s) && Run(shape, s, events).Some?
    ensures Inv(shape, Run(shape, s, events).value)
    decreases |events|
  {
    hide Inv, Step;
    if events != [] {
      StepKeeps(shape, s, events[0]);
      RunKeeps(shape, Step(shape, s, events[0]).value, events[1..]);
    }
  }

  /** Every payload taken from the channel is delivered, dropped for one of four reasons, being sent,
      or still buffered: exactly one of these, whatever the interleaving. */
  lemma Conservation(shape: Shape, events: seq<Event>, id: nat)
    requires shape.bufferSize > 0 && Run(shape, Start, events).Some?
    ensures var s := Run(shape, Start, events).value;
            && s.produced - |s.channel| == |s.sent| + |s.overflowed| + |s.exhausted| + |s.unmarshalled| + |s.abandoned|
                                           + |s.sending| + |s.buffer|
            && Occurrences(s.sent, id) + Occurrences(s.sending, id) + Occurrences(s.buffer, id) + Occurrences(s.channel, id)
               + Lost(s, id) == (if id < s.produced then 1 else 0)
  {
    hide Run, Step, Lost, Occurrences, Increasing;
    StartInv(shape);
    RunKeeps(shape, Start, events);
    var s := Run(shape, Start, events).value;
    OccurrencesConcat(s.sent + s.sending + s.buffer, s.channel, id);
    OccurrencesConcat(s.sent + s.sending, s.buffer, id);
    OccurrencesConcat(s.sent, s.sending, id);
    assert Occurrences(Line(s), id) + Lost(s, id) == if id < s.produced then 1 else 0;
  }

  lemma StartInv(shape: Shape)
    ensures Inv(shape, Start)
  {}

  /** Deliveries follow the order of production; and as long as nothing was lost they are exactly the
      first payloads produced. */
  lemma SentInOrder(shape: Shape, events: seq<Event>)
    requires shape.bufferSize > 0 && Run(shape, Start, events).Some?
    ensures var s := Run(shape, Start, events).value;
            && Increasing(s.sent)
            && (LostCount(s) == 0 ==> |s.sent| <= s.produced && s.sent == Range(|s.sent|))
  {
    RunKeeps(shape, Start, events);
    var s := Run(shape, Start, events).value;
    assert forall i :: 0 <= i < |s.sent| ==> s.sent[i] == Line(s)[i];
  }

  // ---- the counters ----

  function Drops(data: Data, name: string, reason: string): int { Count(Get(data, name).totalDrops, reason) }

  predicate Counters(shape: Shape, s: State) {
    && Drops(s.data, shape.wireName, BUFFER_FULL) == Wrap64(|s.overflowed|)
    && Drops(s.data, shape.flushName, RETRY_EXHAUSTED) == Wrap64(|s.exhausted|)
    && (shape.wireName != shape.flushName ==> Drops(s.data, shape.flushName, BUFFER_FULL) == 0)
  }

  lemma CountersStep(shape: Shape, s: State, e: Event)
    requires shape.bufferSize > 0 && Counters(shape, s) && Step(shape, s, e).Some?
    ensures Counters(shape, Step(shape, s, e).value)
  {
    hide Wrap64, Get, Count;
    match e
    case Produce =>
    case FlushStart =>
    case Wire =>
      if |s.buffer| >= shape.bufferSize {
        WrapAdd(|s.overflowed|, 1);
        DropCounted(s.data, shape.wireName, BUFFER_FULL, shape.flushName);
      }
    case Send(outcome) =>
      match outcome {
        case GaveUp =>
          WrapAdd(|s.exhausted|, 1);
          DropCounted(s.data, shape.flushName, RETRY_EXHAUSTED, shape.wireName);
        case Delivered(bytes, wire) => DropsUntouched(s.data, shape.flushName, bytes, wire);
        case _ =>
      }
  }

  lemma DropCounted(data: Data, name: string, reason: string, other: string)
    ensures var data' := Dropped(data, name, reason);
            && Drops(data', name, reason) == Wrap64(Drops(data, name, reason) + 1)
            && forall n, r :: n in {name, other} && (n != name || r != reason) ==> Drops(data', n, r) == Drops(data, n, r)
  {
    hide Wrap64;
  }

  lemma DropsUntouched(data: Data, name: string, bytes: int, wire: int)
    ensures forall n, r :: Drops(Recorded(data, name, bytes, wire), n, r) == Drops(data, n, r)
  {
    hide Wrap64;
  }

  lemma {:induction false} CountersKept(shape: Shape, s: State, events: seq<Event>)
    requires shape.bufferSize > 0 && Counters(shape, s) && Run(shape, s, events).Some?
    ensures Counters(shape, Run(shape, s, events).value)
    decreases |events|
  {
    hide Counters, Step;
    if events != [] {
      CountersStep(shape, s, events[0]);
      CountersKept(shape, Step(shape, s, events[0]).value, events[1..]);
    }
  }

  /** The drops counted under the name the flush loop uses are all the overflows and exhausted
      retries exactly when both goroutines use that name or the buffer never overflowed. For logs
      ("log", "logs") they are not. */
  lemma DropsUnderOneName(shape: Shape, events: seq<Event>)
    requires shape.bufferSize > 0 && Run(shape, Start, events).Some?
    requires var s := Run(shape, Start, events).value; |s.overflowed| + |s.exhausted| <= MAX_INT64
    ensures var s := Run(shape, Start, events).value;
            Drops(s.data, shape.flushName, "buffer_full") + Drops(s.data, shape.flushName, "retry_exhausted")
            == |s.overflowed| + |s.exhausted|
            <==> shape.wireName == shape.flushName || s.overflowed == []
  {
    CountersKept(shape, Start, events);
  }

  /** What the counters of the flush name say of bytes: those of the payloads delivered. */
  function DeliveredBytes(events: seq<Event>): (int, int) {
    if events == [] then (0, 0)
    else
      var (bytes, wire) := DeliveredBytes(events[1..]);
      match events[0]
      case Send(Delivered(b, w)) => (b + bytes, w + wire)
      case _ => (bytes, wire)
  }

  lemma {:induction false} BytesCounted(shape: Shape, s: State, events: seq<Event>)
    requires shape.bufferSize > 0 && Run(shape, s, events).Some?
    ensures var before, after := Get(s.data, shape.flushName), Get(Run(shape, s, events).value.data, shape.flushName);
            var (bytes, wire) := DeliveredBytes(events);
            && Wrap64(before.totalBytes + bytes) == Wrap64(after.totalBytes)
            && Wrap64(before.totalWireBytes + wire) == Wrap64(after.totalWireBytes)
    decreases |events|
  {
    hide Step, Wrap64, Get;
    if events != [] {
      var s' := Step(shape, s, events[0]).value;
      BytesCounted(shape, s', events[1..]);
      BytesStep(shape, s, events[0]);
      var (bytes, wire) := DeliveredBytes(events[1..]);
      var e, e' := Get(s.data, shape.flushName), Get(s'.data, shape.flushName);
      if events[0].Send? && events[0].outcome.Delivered? {
        WrapAdd(e.totalBytes + events[0].outcome.bytes, bytes);
        WrapAdd(e.totalWireBytes + events[0].outcome.wire, wire);
      }
    }
  }

  lemma BytesStep(shape: Shape, s: State, e: Event)
    requires shape.bufferSize > 0 && Step(shape, s, e).Some?
    ensures var before, after := Get(s.data, shape.flushName), Get(Step(shape, s, e).value.data, shape.flushName);
            if e.Send? && e.outcome.Delivered?
            then after.totalBytes == Wrap64(before.totalBytes + e.outcome.bytes)
                 && after.totalWireBytes == Wrap64(before.totalWireBytes + e.outcome.wire)
            else after.totalBytes == before.totalBytes && after.totalWireBytes == before.totalWireBytes
  {
    hide Wrap64;
  }

  // ---- the flush method is a run ----

  function FlushEvents(items: seq<nat>, i: nat, outcome: nat -> Outcome): seq<Event>
    requires i <= |items|
    decreases |items| - i
  {
    if i == |items| then []
    else if outcome(i).Aborted? then [Send(Aborted)]
    else [Send(outcome(i))] + FlushEvents(items, i + 1, outcome)
  }

  /** A `Flush` call is a run: its steps, from any state that has the drained items left to send, send
      and count what the method's contract says. */
  lemma {:induction false} FlushIsRun(shape: Shape, s: State, items: seq<nat>, i: nat, outcome: nat -> Outcome)
    requires shape.bufferSize > 0 && i <= |items| && s.sending == items[i..]
    ensures var end := Run(shape, s, FlushEvents(items, i, outcome));
            var f := FlushFrom(items, i, outcome, shape.flushName, s.data);
            && end.Some? && end.value.sent == s.sent + f.sent && end.value.data == f.data
            && end.value.sending == [] && end.value.buffer == s.buffer
            && (!f.aborted ==> end.value.abandoned == s.abandoned)
    decreases |items| - i
  {
    hide Recorded, Dropped;
    var events := FlushEvents(items, i, outcome);
    if i == |items| {
      assert s.sent + [] == s.sent;
    } else {
      assert s.sending[0] == items[i] && s.sending[1..] == items[i + 1..];
      var s' := Step(shape, s, events[0]).value;
      if outcome(i).Aborted? {
        assert events[1..] == [];
        assert s.sent + [] == s.sent;
      } else {
        assert events[1..] == FlushEvents(items, i + 1, outcome);
        FlushIsRun(shape, s', items, i + 1, outcome);
        assert s.sent + [items[i]] + FlushFrom(items, i + 1, outcome, shape.flushName, s'.data).sent
            == s.sent + ([items[i]] + FlushFrom(items, i + 1, outcome, shape.flushName, s'.data).sent);
      }
    }
  }
}
