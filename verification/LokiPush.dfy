/** Turning a batch of log lines into a Loki push (internal/watchtower/forwarder/forwarder.go). JSON
parsing is left out: a line carries what it would parse to. */
module LokiPush {
  import opened Wrappers
  import opened GoTime

  const MAX_FUTURE := 10 * MINUTE
  const MAX_PAST := 168 * HOUR

  /** The zero time and the Unix epoch, in nanoseconds apart. */
  const EPOCH := 62135596800 * SECOND

  /** Text that is no JSON object, or an object's fields. */
  datatype Body = Text(text: string) | Object(fields: map<string, string>)

  /** `name` is the module field ("" when absent), `ts` the parsed time stamp if there is one. */
  datatype Line = Line(body: Body, name: string, ts: Option<Time>)

  datatype Entry = Entry(nano: int, body: Body, name: string)

  datatype Stream = Stream(validator: string, level: string, values: seq<Entry>)

  /** `t.UnixNano()`, which wraps outside the years 1678 to 2262. */
  function UnixNano(t: Time): int { Wrap64(t - EPOCH) }

  function Clamped(ts: Time, now: Now): Time {
    if ts < now - MAX_PAST || ts > now + MAX_FUTURE then now else ts
  }

  function Stripped(body: Body, keys: set<string>): Body {
    match body
    case Text(_) => body
    case Object(fields) => Object(fields - keys)
  }

  /** `stripBodyFields`: deletes the keys one by one; anything but an object passes through. */
  method StripBodyFields(body: Body, keys: seq<string>) returns (r: Body)
    ensures r == Stripped(body, set k | k in keys)
  {
    if body.Text? {
      return body;
    }
    var obj := body.fields;
    var i := 0;
    while i < |keys|
      invariant 0 <= i <= |keys|
      invariant obj == body.fields - set k | k in keys[..i]
    {
      obj := obj - {keys[i]};
      assert keys[..i + 1] == keys[..i] + [keys[i]];
      i := i + 1;
    }
    assert keys[..|keys|] == keys;
    r := Object(obj);
  }

  function Module(line: Line): string { if line.name == "" then "unknown" else line.name }

  /** One line as it is pushed. */
  function Processed(line: Line, now: Now): Entry {
    var ts := if line.ts.Some? then line.ts.value else now;
    Entry(UnixNano(Clamped(ts, now)), Stripped(line.body, {"ts", "level"}), Module(line))
  }

  function AllProcessed(lines: seq<Line>, now: Now): (es: seq<Entry>)
    ensures |es| == |lines|
  {
    seq(|lines|, i requires 0 <= i < |lines| => Processed(lines[i], now))
  }

  predicate Ascending(es: seq<Entry>) {
    forall i, j :: 0 <= i < j < |es| ==> es[i].nano <= es[j].nano
  }

  /** The library sort: some ascending permutation; equal time stamps may come in any order. */
  method SortByNano(es: seq<Entry>) returns (sorted: seq<Entry>)
    ensures Ascending(sorted) && multiset(sorted) == multiset(es)
  {
    sorted := [];
    var i := 0;
    while i < |es|
      invariant 0 <= i <= |es|
      invariant Ascending(sorted) && multiset(sorted) == multiset(es[..i])
    {
      assert es[..i + 1] == es[..i] + [es[i]];
      sorted := Insert(sorted, es[i]);
      i := i + 1;
    }
    assert es[..|es|] == es;
  }

  method Insert(es: seq<Entry>, e: Entry) returns (r: seq<Entry>)
    requires Ascending(es)
    ensures Ascending(r) && multiset(r) == multiset(es) + multiset{e}
  {
    var i := 0;
    while i < |es| && es[i].nano <= e.nano
      invariant 0 <= i <= |es|
      invariant i > 0 ==> es[i - 1].nano <= e.nano
    {
      i := i + 1;
    }
    r := es[..i] + [e] + es[i..];
    InsertKeeps(es, e, i);
  }

  lemma InsertKeeps(es: seq<Entry>, e: Entry, i: nat)
    requires i <= |es| && Ascending(es)
    requires i > 0 ==> es[i - 1].nano <= e.nano
    requires i < |es| ==> e.nano <= es[i].nano
    ensures Ascending(es[..i] + [e] + es[i..])
    ensures multiset(es[..i] + [e] + es[i..]) == multiset(es) + multiset{e}
  {
    InsertMultiset(es, e, i);
    InsertAscending(es, e, i);
  }

  lemma InsertMultiset<T>(es: seq<T>, e: T, i: nat)
    requires i <= |es|
    ensures multiset(es[..i] + [e] + es[i..]) == multiset(es) + multiset{e}
  {
    assert es == es[..i] + es[i..];
  }

  lemma InsertAscending(es: seq<Entry>, e: Entry, i: nat)
    requires i <= |es| && Ascending(es)
    requires i > 0 ==> es[i - 1].nano <= e.nano
    requires i < |es| ==> e.nano <= es[i].nano
    ensures Ascending(es[..i] + [e] + es[i..])
  {
    var r := es[..i] + [e] + es[i..];
    assert forall a :: 0 <= a < i ==> r[a] == es[a] && es[a].nano <= e.nano;
    assert forall b :: i < b < |r| ==> r[b] == es[b - 1] && e.nano <= es[b - 1].nano;
  }

  /** Instants whose whole acceptance window is representable in Unix nanoseconds. */
  predicate Representable(now: Now) {
    MIN_INT64 <= now - MAX_PAST - EPOCH && now + MAX_FUTURE - EPOCH <= MAX_INT64
  }

  /** However skewed the time stamps: the push carries every processed line once, ascending, inside the
      window Loki accepts, in one stream, or in none for an empty batch. */
  method ToLokiPush(validator: string, level: string, lines: seq<Line>, now: Now) returns (streams: seq<Stream>)
    ensures lines == [] <==> streams == []
    ensures lines != [] ==> |streams| == 1 && streams[0].validator == validator && streams[0].level == level
    ensures lines != [] ==> Ascending(streams[0].values) && multiset(streams[0].values) == multiset(AllProcessed(lines, now))
    ensures lines != [] && Representable(now) ==>
              forall i :: 0 <= i < |streams[0].values| ==>
                now - EPOCH - MAX_PAST <= streams[0].values[i].nano <= now - EPOCH + MAX_FUTURE
  {
    var entries: seq<Entry> := [];
    var i := 0;
    while i < |lines|
      invariant 0 <= i <= |lines|
      invariant entries == AllProcessed(lines, now)[..i]
    {
      var line := lines[i];
      var ts := if line.ts.Some? then line.ts.value else now;
      if ts < now - MAX_PAST || ts > now + MAX_FUTURE {
        ts := now;
      }
      var body := StripBodyFields(line.body, ["ts", "level"]);
      assert (set k | k in ["ts", "level"]) == {"ts", "level"};
      entries := entries + [Entry(UnixNano(ts), body, Module(line))];
      i := i + 1;
    }
    assert entries == AllProcessed(lines, now);
    var values := SortByNano(entries);
    if |values| == 0 {
      SameSize(values, entries);
      return [];
    }
    SameSize(values, entries);
    streams := [Stream(validator, level, values)];
    if Representable(now) {
      forall k | 0 <= k < |values|
        ensures now - EPOCH - MAX_PAST <= values[k].nano <= now - EPOCH + MAX_FUTURE
      {
        assert values[k] in multiset(values);
        var j :| 0 <= j < |entries| && entries[j] == values[k];
        InWindow(lines[j], now);
      }
    }
  }

  lemma SameSize(a: seq<Entry>, b: seq<Entry>)
    requires multiset(a) == multiset(b)
    ensures |a| == |b|
  {
    assert |a| == |multiset(a)| == |multiset(b)| == |b|;
  }

  /** Every time stamp lands in the window: one already inside it is kept, any other, and a missing
      one, becomes the time of the push. */
  lemma InWindow(line: Line, now: Now)
    requires Representable(now)
    ensures now - EPOCH - MAX_PAST <= Processed(line, now).nano <= now - EPOCH + MAX_FUTURE
    ensures var nano := Processed(line, now).nano;
            if line.ts.Some? && now - 168 * 3600 * 1_000_000_000 <= line.ts.value <= now + 600 * 1_000_000_000
            then nano == line.ts.value - EPOCH else nano == now - EPOCH
  {}

  /** The entry of any line, at any time: its stamp, wrapped; "unknown" for no module; and the fields promoted
      to time stamp and label gone from the body, no others. */
  lemma EntryOf(line: Line, now: Now)
    ensures var e := Processed(line, now);
            var kept := line.ts.Some? && now - 168 * 3600 * 1_000_000_000 <= line.ts.value <= now + 600 * 1_000_000_000;
            && e.nano == Wrap64((if kept then line.ts.value else now) - EPOCH)
            && e.name == (if line.name == "" then "unknown" else line.name)
            && (line.body.Text? ==> e.body == line.body)
            && (line.body.Object? ==> e.body.Object? && forall key :: key in e.body.fields <==> key in line.body.fields && key != "ts" && key != "level")
            && (line.body.Object? ==> forall key :: key in e.body.fields ==> e.body.fields[key] == line.body.fields[key])
  {}

  /** The 719162 days of the 1969 years before 1970. */
  lemma EpochIs()
    ensures EPOCH == (1969 * 365 + 1969 / 4 - 1969 / 100 + 1969 / 400) * 24 * 3600 * 1_000_000_000
  {}

  // ---- the stripped body ----

  /** Stripping is idempotent and touches no other field. */
  lemma StripKeepsOthers(body: Body, keys: set<string>, key: string)
    requires body.Object?
    ensures var r := Stripped(body, keys);
            && r.Object? && (key in r.fields <==> key in body.fields && key !in keys)
            && (key in r.fields ==> r.fields[key] == body.fields[key]) && Stripped(r, keys) == r
  {
    assert (body.fields - keys) - keys == body.fields - keys;
  }
}
