/** Bytes-sent and drop counters per collector type (internal/sentinel/stats/stats.go). All counters
are int64 and wrap. */
module Stats {
  import opened GoTime

  type Counters = map<string, int>

  datatype Entry = Entry(totalBytes: int, totalWireBytes: int, totalDrops: Counters, lastBytes: int, lastDrops: Counters)

  datatype TypeSnapshot = TypeSnapshot(totalBytes: int, totalWireBytes: int, totalDrops: Counters, lastBytes: int, lastDrops: Counters)

  type Data = map<string, Entry>

  const Empty := Entry(0, 0, map[], 0, map[])

  function Get(data: Data, typ: string): Entry { if typ in data then data[typ] else Empty }

  function Count(counters: Counters, reason: string): int { if reason in counters then counters[reason] else 0 }

  function Recorded(data: Data, typ: string, uncompressed: int, wire: int): Data {
    var e := Get(data, typ);
    data[typ := e.(totalBytes := Wrap64(e.totalBytes + uncompressed), totalWireBytes := Wrap64(e.totalWireBytes + wire),
                   lastBytes := Wrap64(e.lastBytes + uncompressed))]
  }

  function Dropped(data: Data, typ: string, reason: string): Data {
    var e := Get(data, typ);
    data[typ := e.(totalDrops := e.totalDrops[reason := Wrap64(Count(e.totalDrops, reason) + 1)],
                   lastDrops := e.lastDrops[reason := Wrap64(Count(e.lastDrops, reason) + 1)])]
  }

  function Copied(e: Entry): TypeSnapshot {
    TypeSnapshot(e.totalBytes, e.totalWireBytes, e.totalDrops, e.lastBytes, e.lastDrops)
  }

  function SnapshotOf(data: Data): map<string, TypeSnapshot> {
    map typ | typ in data :: Copied(data[typ])
  }

  function Reset(data: Data): Data {
    map typ | typ in data :: data[typ].(lastBytes := 0, lastDrops := map[])
  }

  class Stats {
    const start: Time
    var data: Data

    constructor (now: Now)
      ensures data == map[] && start == now
    {
      start := now;
      data := map[];
    }

    method GetOrCreate(typ: string) returns (e: Entry)
      modifies this
      ensures e == Get(old(data), typ) && data == old(data)[typ := e]
    {
      if typ !in data {
        data := data[typ := Empty];
      }
      e := data[typ];
      assert data == old(data)[typ := e];
    }

    method Record(typ: string, uncompressed: int, wire: int)
      modifies this
      ensures data == Recorded(old(data), typ, uncompressed, wire)
    {
      var e := GetOrCreate(typ);
      e := e.(totalBytes := Wrap64(e.totalBytes + uncompressed));
      e := e.(totalWireBytes := Wrap64(e.totalWireBytes + wire));
      e := e.(lastBytes := Wrap64(e.lastBytes + uncompressed));
      data := data[typ := e];
    }

    method RecordDrop(typ: string, reason: string)
      modifies this
      ensures data == Dropped(old(data), typ, reason)
    {
      var e := GetOrCreate(typ);
      e := e.(totalDrops := e.totalDrops[reason := Wrap64(Count(e.totalDrops, reason) + 1)]);
      e := e.(lastDrops := e.lastDrops[reason := Wrap64(Count(e.lastDrops, reason) + 1)]);
      data := data[typ := e];
    }

    method Snapshot(now: Now) returns (snap: map<string, TypeSnapshot>, uptime: int)
      modifies this
      ensures snap == SnapshotOf(old(data)) && data == Reset(old(data)) && uptime == Sub(now, start)
    {
      ghost var before := data;
      snap := map[];
      var todo := data.Keys;
      while todo != {}
        invariant todo <= before.Keys
        invariant snap == map typ | typ in before && typ !in todo :: Copied(before[typ])
        invariant data == map typ | typ in before :: if typ in todo then before[typ] else before[typ].(lastBytes := 0, lastDrops := map[])
        decreases todo
      {
        var typ :| typ in todo;
        var e := data[typ];
        snap := snap[typ := Copied(e)];
        data := data[typ := e.(lastBytes := 0, lastDrops := map[])];
        todo := todo - {typ};
      }
      uptime := Sub(now, start);
    }
  }

  // ---- whole runs ----

  datatype Event = Sent(typ: string, uncompressed: int, wire: int) | Drop(typ: string, reason: string) | TakeSnapshot

  function Step(data: Data, e: Event): Data {
    match e
    case Sent(typ, uncompressed, wire) => Recorded(data, typ, uncompressed, wire)
    case Drop(typ, reason) => Dropped(data, typ, reason)
    case TakeSnapshot => Reset(data)
  }

  function After(events: seq<Event>): Data {
    if events == [] then map[] else Step(After(events[..|events| - 1]), events[|events| - 1])
  }

  /** Bytes of one type ever recorded. */
  function BytesSent(events: seq<Event>, typ: string): int {
    if events == [] then 0
    else
      var e := events[|events| - 1];
      BytesSent(events[..|events| - 1], typ) + (if e.Sent? && e.typ == typ then e.uncompressed else 0)
  }

  function DropsSeen(events: seq<Event>, typ: string, reason: string): int {
    if events == [] then 0
    else
      var e := events[|events| - 1];
      DropsSeen(events[..|events| - 1], typ, reason) + (if e == Drop(typ, reason) then 1 else 0)
  }

  /** The per-snapshot byte counters of one type, summed over all the snapshots taken. */
  function ReportedBytes(events: seq<Event>, typ: string): int {
    if events == [] then 0
    else
      var init := events[..|events| - 1];
      ReportedBytes(init, typ) + (if events[|events| - 1].TakeSnapshot? then LastBytes(SnapshotOf(After(init)), typ) else 0)
  }

  function LastBytes(snap: map<string, TypeSnapshot>, typ: string): int { if typ in snap then snap[typ].lastBytes else 0 }

  function ReportedDrops(events: seq<Event>, typ: string, reason: string): int {
    if events == [] then 0
    else
      var init := events[..|events| - 1];
      ReportedDrops(init, typ, reason) + (if events[|events| - 1].TakeSnapshot? then LastDrops(SnapshotOf(After(init)), typ, reason) else 0)
  }

  function LastDrops(snap: map<string, TypeSnapshot>, typ: string, reason: string): int {
    if typ in snap then Count(snap[typ].lastDrops, reason) else 0
  }

  lemma Accumulate(total: int, all: int, reported: int, pending: int, n: int)
    requires total == Wrap64(all) == Wrap64(reported + pending)
    ensures Wrap64(total + n) == Wrap64(all + n) == Wrap64(reported + Wrap64(pending + n))
  {
    hide Wrap64;
    WrapAdd(all, n);
    WrapAdd(reported + pending, n);
    WrapAdd(pending + n, reported);
    assert pending + n + reported == reported + pending + n;
    assert Wrap64(pending + n) + reported == reported + Wrap64(pending + n);
  }

  lemma AfterLast(events: seq<Event>)
    requires events != []
    ensures After(events) == Step(After(events[..|events| - 1]), events[|events| - 1])
  {}

  lemma StepBytes(data: Data, e: Event, typ: string)
    ensures var before, after := Get(data, typ), Get(Step(data, e), typ);
            match e
            case Sent(t, n, _) =>
              after.totalBytes == (if t == typ then Wrap64(before.totalBytes + n) else before.totalBytes)
              && after.lastBytes == (if t == typ then Wrap64(before.lastBytes + n) else before.lastBytes)
            case Drop(_, _) => after.totalBytes == before.totalBytes && after.lastBytes == before.lastBytes
            case TakeSnapshot =>
              after.totalBytes == before.totalBytes && after.lastBytes == 0 && before.lastBytes == LastBytes(SnapshotOf(data), typ)
  {
    hide Wrap64;
  }

  lemma StepDrops(data: Data, e: Event, typ: string, reason: string)
    ensures var before, after := Get(data, typ), Get(Step(data, e), typ);
            var total, last := Count(before.totalDrops, reason), Count(before.lastDrops, reason);
            match e
            case Sent(_, _, _) => Count(after.totalDrops, reason) == total && Count(after.lastDrops, reason) == last
            case Drop(t, r) =>
              Count(after.totalDrops, reason) == (if t == typ && r == reason then Wrap64(total + 1) else total)
              && Count(after.lastDrops, reason) == (if t == typ && r == reason then Wrap64(last + 1) else last)
            case TakeSnapshot =>
              Count(after.totalDrops, reason) == total && Count(after.lastDrops, reason) == 0
              && last == LastDrops(SnapshotOf(data), typ, reason)
  {
    hide Wrap64;
  }

  /** Nothing is counted twice or lost between snapshots: what all of them reported plus what is
      pending is the absolute counter, which is what was ever recorded, all modulo 2^64. */
  lemma {:induction false} BytesConserved(events: seq<Event>, typ: string)
    ensures var e := Get(After(events), typ);
            e.totalBytes == Wrap64(BytesSent(events, typ)) == Wrap64(ReportedBytes(events, typ) + e.lastBytes)
  {
    hide Wrap64;
    if events == [] {
      assert Wrap64(0) == 0;
    } else {
      var init, e := events[..|events| - 1], events[|events| - 1];
      BytesConserved(init, typ);
      StepBytes(After(init), e, typ);
      hide Step, Get, SnapshotOf, LastBytes;
      var before := Get(After(init), typ);
      hide After;
      assert After(events) == Step(After(init), e) by { AfterLast(events); }
      match e
      case Sent(t, n, _) =>
        if t == typ {
          Accumulate(before.totalBytes, BytesSent(init, typ), ReportedBytes(init, typ), before.lastBytes, n);
        }
      case Drop(_, _) =>
      case TakeSnapshot =>
    }
  }

  lemma {:induction false} DropsConserved(events: seq<Event>, typ: string, reason: string)
    ensures var e := Get(After(events), typ);
            Count(e.totalDrops, reason) == Wrap64(DropsSeen(events, typ, reason))
            == Wrap64(ReportedDrops(events, typ, reason) + Count(e.lastDrops, reason))
  {
    hide Wrap64;
    if events == [] {
      assert Wrap64(0) == 0;
    } else {
      var init, e := events[..|events| - 1], events[|events| - 1];
      DropsConserved(init, typ, reason);
      StepDrops(After(init), e, typ, reason);
      hide Step, Get, SnapshotOf, LastDrops, Count;
      var before := Get(After(init), typ);
      if e == Drop(typ, reason) {
        Accumulate(Count(before.totalDrops, reason), DropsSeen(init, typ, reason), ReportedDrops(init, typ, reason),
                   Count(before.lastDrops, reason), 1);
      }
    }
  }

  /** Bytes of one type ever put on the wire. */
  function WireSent(events: seq<Event>, typ: string): int {
    if events == [] then 0
    else
      var e := events[|events| - 1];
      WireSent(events[..|events| - 1], typ) + (if e.Sent? && e.typ == typ then e.wire else 0)
  }

  lemma {:induction false} WireConserved(events: seq<Event>, typ: string)
    ensures Get(After(events), typ).totalWireBytes == Wrap64(WireSent(events, typ))
  {
    hide Wrap64;
    if events == [] {
      assert Wrap64(0) == 0;
    } else {
      var init, e := events[..|events| - 1], events[|events| - 1];
      WireConserved(init, typ);
      StepWire(After(init), e, typ);
      hide Step, Get;
      if e.Sent? && e.typ == typ {
        WrapAdd(WireSent(init, typ), e.wire);
      }
    }
  }

  lemma StepWire(data: Data, e: Event, typ: string)
    ensures var before, after := Get(data, typ).totalWireBytes, Get(Step(data, e), typ).totalWireBytes;
            after == if e.Sent? && e.typ == typ then Wrap64(before + e.wire) else before
  {
    hide Wrap64;
  }

  /** What any snapshot reports under a type: the absolute counters, which are what was ever recorded, and
      what is pending since the last one. */
  lemma SnapshotReports(events: seq<Event>, typ: string, reason: string)
    ensures var snap := SnapshotOf(After(events));
            typ in snap ==>
              && snap[typ].totalBytes == Wrap64(BytesSent(events, typ))
              && snap[typ].totalWireBytes == Wrap64(WireSent(events, typ))
              && Count(snap[typ].totalDrops, reason) == Wrap64(DropsSeen(events, typ, reason))
              && snap[typ].totalBytes == Wrap64(ReportedBytes(events, typ) + snap[typ].lastBytes)
              && Count(snap[typ].totalDrops, reason) == Wrap64(ReportedDrops(events, typ, reason) + Count(snap[typ].lastDrops, reason))
    ensures typ in SnapshotOf(After(events)) <==>
              exists i :: 0 <= i < |events| && (events[i].Sent? || events[i].Drop?) && events[i].typ == typ
  {
    hide Wrap64, After, BytesSent, WireSent, DropsSeen, ReportedBytes, ReportedDrops, Count;
    BytesConserved(events, typ);
    WireConserved(events, typ);
    DropsConserved(events, typ, reason);
    KnownTypes(events, typ);
  }

  lemma {:induction false} KnownTypes(events: seq<Event>, typ: string)
    ensures typ in After(events) <==> exists i :: 0 <= i < |events| && (events[i].Sent? || events[i].Drop?) && events[i].typ == typ
  {
    hide Wrap64;
    if events != [] {
      var init, e := events[..|events| - 1], events[|events| - 1];
      KnownTypes(init, typ);
      assert events == init + [e];
    }
  }
}
