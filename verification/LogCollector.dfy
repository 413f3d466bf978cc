/** Log batching (internal/sentinel/logs/collector.go): lines are accumulated per level and flushed by
size, by timer and on cancellation. */
module LogCollector {
  import opened Counting
  import opened GoTime

  type Raw = string

  datatype LogLine = LogLine(level: string, raw: Raw) {
    /** `len` answers an int64. */
    predicate HasLength() { |raw| <= MAX_INT64 }
  }

  /** One payload per level per flush. */
  datatype LogPayload = LogPayload(level: string, lines: seq<Raw>)

  function LevelRank(level: string): nat {
    if level == "debug" then 0
    else if level == "info" then 1
    else if level == "warn" then 2
    else if level == "error" then 3
    else 1
  }

  /** Which lines a minimum keeps; a name that is none of the four stands for "info". */
  lemma MinimumKeeps(minimum: string, level: string)
    ensures LevelRank(level) >= LevelRank(minimum) <==>
            match minimum
            case "debug" => true
            case "warn" => level == "warn" || level == "error"
            case "error" => level == "error"
            case _ => level != "debug"
  {}

  type Batch = map<string, seq<Raw>>

  function Held(batch: Batch, level: string): seq<Raw> { if level in batch then batch[level] else [] }

  /** The raw lines of one level among those at or above the minimum, in order. */
  function Accepted(received: seq<LogLine>, minLevel: nat, level: string): seq<Raw> {
    if received == [] then []
    else
      Accepted(received[..|received| - 1], minLevel, level) + Kept(received[|received| - 1], minLevel, level)
  }

  function Kept(line: LogLine, minLevel: nat, level: string): seq<Raw> {
    if line.level == level && LevelRank(level) >= minLevel then [line.raw] else []
  }

  /** The lines of one level over all payloads, in order. */
  function Flushed(out: seq<LogPayload>, level: string): seq<Raw> {
    if out == [] then []
    else
      Flushed(out[..|out| - 1], level) + Part(out[|out| - 1], level)
  }

  function Part(p: LogPayload, level: string): seq<Raw> { if p.level == level then p.lines else [] }

  function Bytes(lines: seq<Raw>): nat {
    if lines == [] then 0 else Bytes(lines[..|lines| - 1]) + |lines[|lines| - 1]|
  }

  /** Bytes held for the levels in `levels`, which lists each level once. */
  function BytesOver(batch: Batch, levels: seq<string>): nat {
    if levels == [] then 0
    else BytesOver(batch, levels[..|levels| - 1]) + Bytes(Held(batch, levels[|levels| - 1]))
  }

  ghost predicate Lists(levels: seq<string>, batch: Batch) {
    && (forall i, j :: 0 <= i < j < |levels| ==> levels[i] != levels[j])
    && (forall level :: level in levels <==> level in batch)
  }

  lemma FlushedAppend(out: seq<LogPayload>, p: LogPayload, level: string)
    ensures Flushed(out + [p], level) == Flushed(out, level) + Part(p, level)
  {
    assert (out + [p])[..|out|] == out;
  }

  lemma AcceptedAppend(received: seq<LogLine>, line: LogLine, minLevel: nat, level: string)
    ensures Accepted(received + [line], minLevel, level)
         == Accepted(received, minLevel, level) + Kept(line, minLevel, level)
  {
    assert (received + [line])[..|received|] == received;
  }

  /** Nothing is lost, doubled or reordered within a level. */
  ghost predicate Balanced(out: seq<LogPayload>, batch: Batch, received: seq<LogLine>, minLevel: nat) {
    forall level: string :: Flushed(out, level) + Held(batch, level) == Accepted(received, minLevel, level)
  }

  lemma LineBalanced(out: seq<LogPayload>, batch: Batch, received: seq<LogLine>, minLevel: nat, line: LogLine)
    requires Balanced(out, batch, received, minLevel)
    ensures Balanced(out, if LevelRank(line.level) >= minLevel then batch[line.level := Held(batch, line.level) + [line.raw]] else batch,
                     received + [line], minLevel)
  {
    hide Flushed, Accepted, LevelRank;
    var batch' := if LevelRank(line.level) >= minLevel then batch[line.level := Held(batch, line.level) + [line.raw]] else batch;
    forall level: string
      ensures Flushed(out, level) + Held(batch', level) == Accepted(received + [line], minLevel, level)
    {
      AcceptedAppend(received, line, minLevel, level);
      assert Flushed(out, level) + Held(batch, level) == Accepted(received, minLevel, level);
      assert Held(batch', level) == Held(batch, level) + Kept(line, minLevel, level);
    }
  }

  /** A flush of every level keeps the balance. */
  lemma EmptiedBalanced(before: seq<LogPayload>, out: seq<LogPayload>, batch: Batch, received: seq<LogLine>, minLevel: nat)
    requires Delivers(before, out, batch, batch.Keys) && Balanced(before, batch, received, minLevel)
    ensures Balanced(out, map[], received, minLevel)
  {
    hide Flushed, Accepted;
    forall level: string
      ensures Flushed(out, level) + Held(map[], level) == Accepted(received, minLevel, level)
    {
      assert Flushed(before, level) + Held(batch, level) == Accepted(received, minLevel, level);
      assert Flushed(out, level) == Flushed(before, level) + Held(batch, level);
    }
  }

  lemma {:induction false} BytesOverOther(batch: Batch, levels: seq<string>, level: string, lines: seq<Raw>)
    requires level !in levels
    ensures BytesOver(batch[level := lines], levels) == BytesOver(batch, levels)
  {
    if levels != [] {
      BytesOverOther(batch, levels[..|levels| - 1], level, lines);
    }
  }

  /** Adding one line adds its length, for a level that is listed (once). */
  lemma {:induction false} BytesOverGrows(batch: Batch, levels: seq<string>, level: string, raw: Raw)
    requires level in levels && forall i, j :: 0 <= i < j < |levels| ==> levels[i] != levels[j]
    ensures BytesOver(batch[level := Held(batch, level) + [raw]], levels) == BytesOver(batch, levels) + |raw|
  {
    var n := |levels| - 1;
    var grown := batch[level := Held(batch, level) + [raw]];
    hide Bytes;
    if levels[n] == level {
      assert level !in levels[..n];
      BytesOverOther(batch, levels[..n], level, Held(batch, level) + [raw]);
      BytesAppend(Held(batch, level), raw);
    } else {
      assert level in levels[..n];
      BytesOverGrows(batch, levels[..n], level, raw);
    }
  }

  lemma ListsNext(levels: seq<string>, batch: Batch, level: string, lines: seq<Raw>)
    requires Lists(levels, batch)
    ensures Lists(if level in batch then levels else levels + [level], batch[level := lines])
  {}

  lemma ListsDistinct(levels: seq<string>, batch: Batch)
    requires Lists(levels, batch)
    ensures forall i, j :: 0 <= i < j < |levels| ==> levels[i] != levels[j]
    ensures forall level :: level in batch ==> level in levels
  {}

  lemma BytesOverNew(batch: Batch, levels: seq<string>, level: string)
    requires level !in batch
    ensures BytesOver(batch, levels + [level]) == BytesOver(batch, levels)
  {
    assert (levels + [level])[..|levels|] == levels;
    assert Bytes([]) == 0;
  }

  lemma BytesAppend(lines: seq<Raw>, raw: Raw)
    ensures Bytes(lines + [raw]) == Bytes(lines) + |raw|
  {
    assert (lines + [raw])[..|lines|] == lines;
  }

  lemma EmptyBatch(levels: seq<string>, batch: Batch)
    requires Lists(levels, batch)
    ensures batch == map[] ==> BytesOver(batch, levels) == 0
    ensures forall x: int :: 0 <= x <= MAX_INT64 ==> Wrap64(x) == x
  {
    if levels != [] {
      assert levels[0] in levels && levels[0] in batch;
    }
  }

  lemma BytesOverNothing(batch: Batch)
    ensures BytesOver(batch, []) == 0
  {}

  // ---- which line went out how often ----

  /** Lines are numbered in the order they are taken from the source. A flush, over the lines numbered
      below `at`, reached some of the levels held; a complete one reached all and reset the batch. */
  datatype Flushing = Flushing(at: nat, reached: set<string>, complete: bool)

  /** Lines below this number are no longer held. */
  function LastReset(flushes: seq<Flushing>): nat {
    if flushes == [] then 0
    else
      var f := flushes[|flushes| - 1];
      if f.complete then f.at else LastReset(flushes[..|flushes| - 1])
  }

  predicate Keeps(line: LogLine, minLevel: nat, level: string) { line.level == level && LevelRank(level) >= minLevel }

  /** The numbers of the lines of one level held since `from`. */
  function HeldIds(received: seq<LogLine>, from: nat, minLevel: nat, level: string): (ids: seq<nat>)
    ensures forall k :: 0 <= k < |ids| ==> ids[k] < |received|
  {
    if received == [] then []
    else
      var n := |received| - 1;
      HeldIds(received[..n], from, minLevel, level) + if n >= from && Keeps(received[n], minLevel, level) then [n] else []
  }

  predicate Below(ids: seq<nat>, n: nat) {
    forall k :: 0 <= k < |ids| ==> ids[k] < n
  }

  predicate Numbers(ids: seq<nat>, received: seq<LogLine>) { Below(ids, |received|) }

  function Raws(received: seq<LogLine>, ids: seq<nat>): (lines: seq<Raw>)
    requires Numbers(ids, received)
    ensures |lines| == |ids|
  {
    seq(|ids|, k requires 0 <= k < |ids| => received[ids[k]].raw)
  }

  /** How often a line is in the payloads. */
  function Emissions(trace: seq<seq<nat>>, id: nat): nat {
    if trace == [] then 0 else Emissions(trace[..|trace| - 1], id) + Occurrences(trace[|trace| - 1], id)
  }

  /** How many flushes reached a line of this level while it was held. */
  function Reaches(flushes: seq<Flushing>, level: string, id: nat): nat {
    if flushes == [] then 0
    else
      var init, f := flushes[..|flushes| - 1], flushes[|flushes| - 1];
      Reaches(init, level, id) + if LastReset(init) <= id < f.at && level in f.reached then 1 else 0
  }

  lemma {:induction false} HeldOnce(received: seq<LogLine>, from: nat, minLevel: nat, level: string, id: nat)
    ensures Occurrences(HeldIds(received, from, minLevel, level), id)
         == if from <= id < |received| && Keeps(received[id], minLevel, level) then 1 else 0
  {
    hide Keeps, Occurrences;
    assert Occurrences([], id) == 0 by { NoOccurrence(id); }
    if received != [] {
      var n := |received| - 1;
      var ids := HeldIds(received[..n], from, minLevel, level);
      HeldOnce(received[..n], from, minLevel, level, id);
      assert ids + [] == ids;
      if n >= from && Keeps(received[n], minLevel, level) {
        OccurrencesAppend(ids, n, id);
      }
    }
  }

  lemma NoOccurrence(id: nat)
    ensures Occurrences([], id) == 0
  {}

  lemma HeldIdsNext(received: seq<LogLine>, line: LogLine, from: nat, minLevel: nat, level: string)
    requires from <= |received|
    ensures HeldIds(received + [line], from, minLevel, level)
         == HeldIds(received, from, minLevel, level) + if Keeps(line, minLevel, level) then [|received|] else []
  {
    assert (received + [line])[..|received|] == received;
  }

  lemma RawsNext(received: seq<LogLine>, line: LogLine, ids: seq<nat>)
    requires Numbers(ids, received)
    ensures Raws(received + [line], ids) == Raws(received, ids)
    ensures Raws(received + [line], ids + [|received|]) == Raws(received, ids) + [line.raw]
  {}

  lemma {:induction false} NothingHeld(received: seq<LogLine>, from: nat, minLevel: nat, level: string)
    requires from >= |received|
    ensures HeldIds(received, from, minLevel, level) == []
  {
    if received != [] {
      NothingHeld(received[..|received| - 1], from, minLevel, level);
    }
  }

  lemma EmissionsAppend(trace: seq<seq<nat>>, ids: seq<nat>, id: nat)
    ensures Emissions(trace + [ids], id) == Emissions(trace, id) + Occurrences(ids, id)
  {
    assert (trace + [ids])[..|trace|] == trace;
  }

  lemma ReachesAppend(flushes: seq<Flushing>, f: Flushing, level: string, id: nat)
    ensures Reaches(flushes + [f], level, id)
         == Reaches(flushes, level, id) + if LastReset(flushes) <= id < f.at && level in f.reached then 1 else 0
    ensures LastReset(flushes + [f]) == if f.complete then f.at else LastReset(flushes)
  {
    assert (flushes + [f])[..|flushes|] == flushes;
  }

  lemma {:induction false} NotReachedYet(flushes: seq<Flushing>, level: string, id: nat)
    requires forall i :: 0 <= i < |flushes| ==> flushes[i].at <= id
    ensures Reaches(flushes, level, id) == 0 && LastReset(flushes) <= id
  {
    if flushes != [] {
      NotReachedYet(flushes[..|flushes| - 1], level, id);
    }
  }

  lemma {:induction false} NotEmittedYet(trace: seq<seq<nat>>, id: nat)
    requires forall i :: 0 <= i < |trace| ==> Below(trace[i], id)
    ensures Emissions(trace, id) == 0
  {
    if trace != [] {
      NotEmittedYet(trace[..|trace| - 1], id);
      assert Below(trace[|trace| - 1], id);
      OccursIfIn(trace[|trace| - 1], id);
    }
  }

  /** Every line has been emitted once for each flush that reached it while it was held. */
  ghost predicate EmittedAsReached(trace: seq<seq<nat>>, flushes: seq<Flushing>, received: seq<LogLine>, minLevel: nat) {
    forall id: nat :: id < |received| ==>
      Emissions(trace, id)
      == if LevelRank(received[id].level) >= minLevel then Reaches(flushes, received[id].level, id) else 0
  }

  /** The payloads carry the traced lines, and the batch the lines since the last reset. */
  ghost predicate Traces(trace: seq<seq<nat>>, out: seq<LogPayload>, batch: Batch, flushes: seq<Flushing>,
                         received: seq<LogLine>, minLevel: nat) {
    && |trace| == |out|
    && (forall i :: 0 <= i < |out| ==> Numbers(trace[i], received) && out[i].lines == Raws(received, trace[i]))
    && (forall i, j :: 0 <= i <= j < |flushes| ==> flushes[i].at <= flushes[j].at <= |received|)
    && LastReset(flushes) <= |received|
    && (forall level: string :: Held(batch, level) == Raws(received, HeldIds(received, LastReset(flushes), minLevel, level)))
  }

  lemma LineTraced(trace: seq<seq<nat>>, out: seq<LogPayload>, batch: Batch, flushes: seq<Flushing>,
                   received: seq<LogLine>, minLevel: nat, line: LogLine)
    requires Traces(trace, out, batch, flushes, received, minLevel)
    ensures Traces(trace, out, if LevelRank(line.level) >= minLevel then batch[line.level := Held(batch, line.level) + [line.raw]] else batch,
                   flushes, received + [line], minLevel)
  {
    hide LevelRank, HeldIds, Raws, LastReset, Held;
    var batch' := if LevelRank(line.level) >= minLevel then batch[line.level := Held(batch, line.level) + [line.raw]] else batch;
    var all := received + [line];
    forall i | 0 <= i < |out|
      ensures Numbers(trace[i], all) && out[i].lines == Raws(all, trace[i])
    {
      RawsNext(received, line, trace[i]);
    }
    forall level: string
      ensures Held(batch', level) == Raws(all, HeldIds(all, LastReset(flushes), minLevel, level))
    {
      LevelTraced(batch, received, LastReset(flushes), minLevel, line, level);
    }
  }

  lemma LevelTraced(batch: Batch, received: seq<LogLine>, from: nat, minLevel: nat, line: LogLine, level: string)
    requires from <= |received| && Held(batch, level) == Raws(received, HeldIds(received, from, minLevel, level))
    ensures var batch' := if LevelRank(line.level) >= minLevel then batch[line.level := Held(batch, line.level) + [line.raw]] else batch;
            Held(batch', level) == Raws(received + [line], HeldIds(received + [line], from, minLevel, level))
  {
    hide LevelRank, HeldIds, Raws;
    var ids := HeldIds(received, from, minLevel, level);
    HeldIdsNext(received, line, from, minLevel, level);
    RawsNext(received, line, ids);
    assert ids + [] == ids;
  }

  lemma LineReached(trace: seq<seq<nat>>, out: seq<LogPayload>, batch: Batch, flushes: seq<Flushing>,
                    received: seq<LogLine>, minLevel: nat, line: LogLine)
    requires Traces(trace, out, batch, flushes, received, minLevel) && EmittedAsReached(trace, flushes, received, minLevel)
    ensures EmittedAsReached(trace, flushes, received + [line], minLevel)
  {
    hide LevelRank, HeldIds, Raws, LastReset, Reaches, Emissions;
    forall id: nat | id < |received| + 1
      ensures Emissions(trace, id) == (if LevelRank((received + [line])[id].level) >= minLevel
                                       then Reaches(flushes, (received + [line])[id].level, id) else 0)
    {
      if id < |received| {
        assert Emissions(trace, id) == if LevelRank(received[id].level) >= minLevel then Reaches(flushes, received[id].level, id) else 0;
      } else {
        NotReachedYet(flushes, line.level, id);
        NotEmittedYet(trace, id);
      }
    }
  }

  /** How many interrupted flushes did. */
  function Cuts(flushes: seq<Flushing>, level: string, id: nat): nat {
    if flushes == [] then 0
    else
      var init, f := flushes[..|flushes| - 1], flushes[|flushes| - 1];
      Cuts(init, level, id) + if !f.complete && LastReset(init) <= id < f.at && level in f.reached then 1 else 0
  }

  /** A complete flush reaches every line held. */
  ghost predicate Thorough(flushes: seq<Flushing>, received: seq<LogLine>, minLevel: nat) {
    forall i, id: nat :: 0 <= i < |flushes| && id < |received| && Due(flushes, received, minLevel, i, id) ==>
                           received[id].level in flushes[i].reached
  }

  /** The i-th flush is complete and finds the line held. */
  predicate Due(flushes: seq<Flushing>, received: seq<LogLine>, minLevel: nat, i: nat, id: nat)
    requires i < |flushes| && id < |received|
  {
    flushes[i].complete && LastReset(flushes[..i]) <= id < flushes[i].at && LevelRank(received[id].level) >= minLevel
  }

  lemma {:induction false} ReachesSplit(flushes: seq<Flushing>, received: seq<LogLine>, minLevel: nat, id: nat)
    requires Thorough(flushes, received, minLevel)
    requires forall i, j :: 0 <= i <= j < |flushes| ==> flushes[i].at <= flushes[j].at <= |received|
    requires id < |received| && LevelRank(received[id].level) >= minLevel
    ensures Reaches(flushes, received[id].level, id)
         == Cuts(flushes, received[id].level, id) + if id < LastReset(flushes) then 1 else 0
    ensures flushes != [] ==> LastReset(flushes) <= flushes[|flushes| - 1].at
  {
    hide LevelRank;
    if flushes != [] {
      var n := |flushes| - 1;
      var init, f := flushes[..n], flushes[n];
      forall i, k: nat | 0 <= i < |init| && k < |received| && Due(init, received, minLevel, i, k)
        ensures received[k].level in init[i].reached
      {
        assert init[..i] == flushes[..i];
        assert Due(flushes, received, minLevel, i, k);
      }
      assert f.complete && LastReset(init) <= id < f.at ==> Due(flushes, received, minLevel, n, id);
      ReachesSplit(init, received, minLevel, id);
    }
  }

  lemma LineThorough(flushes: seq<Flushing>, received: seq<LogLine>, minLevel: nat, line: LogLine)
    requires Thorough(flushes, received, minLevel)
    requires forall i :: 0 <= i < |flushes| ==> flushes[i].at <= |received|
    ensures Thorough(flushes, received + [line], minLevel)
  {
    hide LevelRank, LastReset;
    forall i, id: nat | 0 <= i < |flushes| && id < |received| + 1 && Due(flushes, received + [line], minLevel, i, id)
      ensures (received + [line])[id].level in flushes[i].reached
    {
      assert Due(flushes, received, minLevel, i, id);
    }
  }

  lemma FlushThorough(trace: seq<seq<nat>>, out: seq<LogPayload>, batch: Batch, flushes: seq<Flushing>, received: seq<LogLine>,
                      minLevel: nat, reached: set<string>, complete: bool)
    requires Traces(trace, out, batch, flushes, received, minLevel) && Thorough(flushes, received, minLevel)
    requires complete ==> reached == batch.Keys
    ensures Thorough(flushes + [Flushing(|received|, reached, complete)], received, minLevel)
  {
    hide LevelRank, LastReset, Raws, HeldIds;
    var more := flushes + [Flushing(|received|, reached, complete)];
    forall i, id: nat | 0 <= i < |more| && id < |received| && Due(more, received, minLevel, i, id)
      ensures received[id].level in more[i].reached
    {
      assert more[..i] == flushes[..i];
      if i < |flushes| {
        assert Due(flushes, received, minLevel, i, id);
      } else {
        assert flushes[..i] == flushes;
        var level := received[id].level;
        HeldOnce(received, LastReset(flushes), minLevel, level, id);
        OccursIfIn(HeldIds(received, LastReset(flushes), minLevel, level), id);
        assert Held(batch, level) == Raws(received, HeldIds(received, LastReset(flushes), minLevel, level));
        assert |Held(batch, level)| > 0;
      }
    }
  }

  // ---- a flush in progress ----

  /** `done` are the levels reached so far. */
  ghost predicate Reaching(before: seq<seq<nat>>, trace: seq<seq<nat>>, from: nat, received: seq<LogLine>, minLevel: nat, done: set<string>) {
    forall id: nat :: id < |received| ==>
      Emissions(trace, id) == Emissions(before, id)
                              + if from <= id && LevelRank(received[id].level) >= minLevel && received[id].level in done then 1 else 0
  }

  lemma ReachingNext(before: seq<seq<nat>>, trace: seq<seq<nat>>, from: nat, received: seq<LogLine>, minLevel: nat,
                     done: set<string>, level: string)
    requires Reaching(before, trace, from, received, minLevel, done) && level !in done
    ensures Reaching(before, trace + [HeldIds(received, from, minLevel, level)], from, received, minLevel, done + {level})
  {
    hide Emissions, HeldIds, LevelRank;
    var ids := HeldIds(received, from, minLevel, level);
    forall id: nat | id < |received|
      ensures Emissions(trace + [ids], id)
           == Emissions(before, id) + (if from <= id && LevelRank(received[id].level) >= minLevel && received[id].level in done + {level} then 1 else 0)
    {
      EmissionsAppend(trace, ids, id);
      HeldOnce(received, from, minLevel, level, id);
    }
  }

  /** Recording the flush keeps the count right. */
  lemma FlushReached(before: seq<seq<nat>>, trace: seq<seq<nat>>, flushes: seq<Flushing>, received: seq<LogLine>, minLevel: nat,
                     done: set<string>, complete: bool)
    requires EmittedAsReached(before, flushes, received, minLevel)
    requires Reaching(before, trace, LastReset(flushes), received, minLevel, done)
    ensures EmittedAsReached(trace, flushes + [Flushing(|received|, done, complete)], received, minLevel)
  {
    hide Emissions, LevelRank, Reaches, LastReset;
    var f := Flushing(|received|, done, complete);
    forall id: nat | id < |received|
      ensures Emissions(trace, id)
           == if LevelRank(received[id].level) >= minLevel then Reaches(flushes + [f], received[id].level, id) else 0
    {
      ReachesAppend(flushes, f, received[id].level, id);
      assert Emissions(before, id) == if LevelRank(received[id].level) >= minLevel then Reaches(flushes, received[id].level, id) else 0;
    }
  }

  lemma FlushTraced(trace: seq<seq<nat>>, out: seq<LogPayload>, batch: Batch, flushes: seq<Flushing>, received: seq<LogLine>,
                    minLevel: nat, done: set<string>, complete: bool)
    requires Traces(trace, out, batch, flushes, received, minLevel)
    ensures Traces(trace, out, if complete then map[] else batch, flushes + [Flushing(|received|, done, complete)], received, minLevel)
  {
    hide HeldIds, Raws, Reaches, LastReset;
    var f := Flushing(|received|, done, complete);
    ReachesAppend(flushes, f, "", 0);
    if complete {
      forall level: string ensures Held(map[], level) == Raws(received, HeldIds(received, |received|, minLevel, level)) {
        NothingHeld(received, |received|, minLevel, level);
      }
    }
  }

  lemma PayloadTraced(trace: seq<seq<nat>>, out: seq<LogPayload>, batch: Batch, flushes: seq<Flushing>, received: seq<LogLine>,
                      minLevel: nat, level: string)
    requires Traces(trace, out, batch, flushes, received, minLevel) && level in batch
    ensures Traces(trace + [HeldIds(received, LastReset(flushes), minLevel, level)], out + [LogPayload(level, batch[level])],
                   batch, flushes, received, minLevel)
  {
    hide HeldIds, Raws, LastReset;
    assert batch[level] == Held(batch, level);
  }

  /** The flush has got `reached` behind it. */
  ghost predicate Delivers(before: seq<LogPayload>, out: seq<LogPayload>, batch: Batch, reached: set<string>) {
    forall level: string :: Flushed(out, level) == Flushed(before, level) + if level in reached then Held(batch, level) else []
  }

  datatype History = History(trace: seq<seq<nat>>, out: seq<LogPayload>, batch: Batch, flushes: seq<Flushing>,
                             received: seq<LogLine>, minLevel: nat)
  {
    ghost predicate Traced() { Traces(trace, out, batch, flushes, received, minLevel) }

    ghost predicate Right() {
      && Traced() && EmittedAsReached(trace, flushes, received, minLevel) && Thorough(flushes, received, minLevel)
      && (forall level :: level in batch ==> batch[level] != [])
      && (forall i :: 0 <= i < |out| ==> out[i].lines != [])
    }
  }

  lemma FlushesBefore(h: History)
    requires h.Traced()
    ensures forall i :: 0 <= i < |h.flushes| ==> h.flushes[i].at <= |h.received|
  {}

  /** `h` is how the flush found things, `now` how they are. */
  ghost predicate InFlush(h: History, now: History, reached: set<string>) {
    && now == h.(trace := now.trace, out := now.out) && reached <= h.batch.Keys
    && h.Right() && now.Traced()
    && Delivers(h.out, now.out, h.batch, reached)
    && Reaching(h.trace, now.trace, LastReset(h.flushes), h.received, h.minLevel, reached)
    && (forall i :: 0 <= i < |now.out| ==> now.out[i].lines != [])
    && |now.out| == |h.out| + |reached|
  }

  lemma FlushStarts(h: History)
    requires h.Right()
    ensures InFlush(h, h, {})
  {
    hide Flushed, Traces, EmittedAsReached, LastReset, Emissions;
  }

  lemma FlushSends(h: History, now: History, reached: set<string>, level: string)
    requires InFlush(h, now, reached) && level in h.batch && level !in reached
    ensures InFlush(h, now.(trace := now.trace + [HeldIds(h.received, LastReset(h.flushes), h.minLevel, level)],
                            out := now.out + [LogPayload(level, h.batch[level])]), reached + {level})
  {
    hide Delivers, Reaching, Traces, EmittedAsReached, LastReset, HeldIds;
    DeliversNext(h.out, now.out, h.batch, reached, level);
    ReachingNext(h.trace, now.trace, LastReset(h.flushes), h.received, h.minLevel, reached, level);
    PayloadTraced(now.trace, now.out, h.batch, h.flushes, h.received, h.minLevel, level);
  }

  lemma DeliversNext(before: seq<LogPayload>, out: seq<LogPayload>, batch: Batch, reached: set<string>, level: string)
    requires Delivers(before, out, batch, reached) && level in batch && level !in reached
    ensures Delivers(before, out + [LogPayload(level, batch[level])], batch, reached + {level})
  {
    hide Flushed;
    forall other: string
      ensures Flushed(out + [LogPayload(level, batch[level])], other)
           == Flushed(before, other) + if other in reached + {level} then Held(batch, other) else []
    {
      FlushedAppend(out, LogPayload(level, batch[level]), other);
      assert Flushed(out, other) == Flushed(before, other) + if other in reached then Held(batch, other) else [];
    }
  }

  /** Recording the flush, and resetting the batch if it is complete, leaves everything right. */
  lemma FlushEnds(h: History, now: History, reached: set<string>, complete: bool)
    requires InFlush(h, now, reached) && (complete ==> reached == h.batch.Keys)
    ensures now.(flushes := h.flushes + [Flushing(|h.received|, reached, complete)], batch := if complete then map[] else h.batch).Right()
    ensures Delivers(h.out, now.out, h.batch, reached) && |now.out| == |h.out| + |reached|
    ensures complete && Balanced(h.out, h.batch, h.received, h.minLevel)
            ==> Balanced(now.out, map[], h.received, h.minLevel)
  {
    hide Reaching, Traces, EmittedAsReached, Thorough, LastReset, Balanced;
    FlushThorough(h.trace, h.out, h.batch, h.flushes, h.received, h.minLevel, reached, complete);
    FlushTraced(now.trace, now.out, h.batch, h.flushes, h.received, h.minLevel, reached, complete);
    FlushReached(h.trace, now.trace, h.flushes, h.received, h.minLevel, reached, complete);
    if reached == h.batch.Keys && Balanced(h.out, h.batch, h.received, h.minLevel) {
      EmptiedBalanced(h.out, now.out, h.batch, h.received, h.minLevel);
    }
  }

  // ---- the collector ----

  /** `cancelled(k)` says whether the context wins over the k-th send of a flush this event causes;
      before the context is cancelled it never does. */
  datatype Event = Line(line: LogLine, cancelled: nat -> bool) | Tick(cancelled: nat -> bool)

  function LinesOf(events: seq<Event>): seq<LogLine> {
    if events == [] then []
    else
      var e := events[|events| - 1];
      LinesOf(events[..|events| - 1]) + if e.Line? then [e.line] else []
  }

  ghost predicate Never(cancelled: nat -> bool) { forall k :: !cancelled(k) }

  ghost predicate NeverCancelled(events: seq<Event>) {
    forall i :: 0 <= i < |events| ==> Never(events[i].cancelled)
  }

  /** Byte sum and number of flushes after one more event, when no flush is cut: a tick of the timer flushes,
      and so does a line with which the sum reaches the threshold; nothing else does. */
  function DueAfter(e: Event, total: int, n: nat, minLevel: nat, batchSize: int): (int, nat) {
    match e
    case Tick(_) => (0, n + 1)
    case Line(line, _) =>
      var grown := Wrap64(total + |line.raw|);
      if LevelRank(line.level) < minLevel then (total, n) else if grown >= batchSize then (0, n + 1) else (grown, n)
  }

  function DueFlushes(events: seq<Event>, minLevel: nat, batchSize: int): (int, nat) {
    if events == [] then (0, 0)
    else
      var (total, n) := DueFlushes(events[..|events| - 1], minLevel, batchSize);
      DueAfter(events[|events| - 1], total, n, minLevel, batchSize)
  }

  class Collector {
    const minLevel: nat
    const batchSize: int
    var accumulated: Batch
    var totalBytes: int
    var out: seq<LogPayload>
    /** History: every line taken from the source, and the levels held, each once. */
    ghost var received: seq<LogLine>
    ghost var levels: seq<string>
    /** History: the line numbers in each payload, and every flush. */
    ghost var trace: seq<seq<nat>>
    ghost var flushes: seq<Flushing>

    /** The byte count is right modulo 2^64, no payload and no held batch is empty, and every line was emitted as
        often as flushes reached it while it was held. */
    ghost predicate Valid()
      reads this
    {
      && Lists(levels, accumulated) && totalBytes == Wrap64(BytesOver(accumulated, levels))
      && Now().Right()
    }

    /** What holds at every loop head until the context is cancelled: nothing lost, doubled or
        reordered within a level, and the batch below the threshold; a threshold of zero or less
        holds nothing back. */
    ghost predicate AtLoopHead()
      reads this
    {
      && Valid() && Balanced(out, accumulated, received, minLevel)
      && (if batchSize > 0 then totalBytes < batchSize else accumulated == map[])
    }

    constructor (minLevel: string, batchSize: int)
      ensures AtLoopHead() && received == [] && out == [] && flushes == [] && accumulated == map[] && totalBytes == 0
      ensures this.minLevel == LevelRank(minLevel) && this.batchSize == batchSize
    {
      this.minLevel, this.batchSize := LevelRank(minLevel), batchSize;
      accumulated, totalBytes, out := map[], 0, [];
      received, levels, trace, flushes := [], [], [], [];
    }

    /** Levels are visited in any order; `cancelled(k)` says whether the context wins over the k-th
        send. An interrupted flush keeps the whole batch. */
    method Flush(cancelled: nat -> bool) returns (completed: bool, ghost reached: set<string>)
      requires Valid()
      modifies this`accumulated, this`totalBytes, this`out, this`levels, this`trace, this`flushes
      ensures Valid() && flushes == old(flushes) + [Flushing(|received|, reached, completed)]
      ensures if completed then accumulated == map[] && totalBytes == 0 && reached == old(accumulated).Keys
              else accumulated == old(accumulated) && totalBytes == old(totalBytes) && reached < old(accumulated).Keys
      ensures (forall k: nat :: k < |reached| ==> !cancelled(k)) && (!completed ==> cancelled(|reached|))
      ensures |out| == |old(out)| + |reached|
      ensures Delivers(old(out), out, old(accumulated), reached)
      ensures completed && Balanced(old(out), old(accumulated), received, minLevel) ==> Balanced(out, accumulated, received, minLevel)
    {
      hide History.Right, Delivers, Balanced, BytesOver, Lists, LastReset;
      ghost var h, was := Now(), flushes;
      completed, reached := SendLevels(cancelled);
      FlushEnds(h, Now(), reached, completed);
      flushes := flushes + [Flushing(|received|, reached, completed)];
      if completed {
        accumulated, totalBytes := map[], 0;
        levels := [];
        ListsNothing();
        BytesOverNothing(accumulated);
      }
    }

    ghost function Now(): History
      reads this
    {
      History(trace, out, accumulated, flushes, received, minLevel)
    }

    /** The loop of the flush. */
    method SendLevels(cancelled: nat -> bool) returns (completed: bool, ghost reached: set<string>)
      requires Now().Right()
      modifies this`out, this`trace
      ensures InFlush(old(Now()), Now(), reached)
      ensures completed ==> reached == accumulated.Keys
      ensures !completed ==> reached < accumulated.Keys && cancelled(|reached|)
      ensures forall k: nat :: k < |reached| ==> !cancelled(k)
    {
      hide InFlush, History.Right, LastReset, HeldIds;
      ghost var h := Now();
      var todo := accumulated.Keys;
      var sent := 0;
      reached := {};
      FlushStarts(h);
      while todo != {}
        invariant todo == accumulated.Keys - reached && reached <= accumulated.Keys
        invariant InFlush(h, Now(), reached)
        invariant sent == |reached| && forall k: nat :: k < sent ==> !cancelled(k)
        decreases todo
      {
        var level :| level in todo;
        if cancelled(sent) {
          return false, reached;
        }
        FlushSends(h, Now(), reached, level);
        trace := trace + [HeldIds(received, LastReset(flushes), minLevel, level)];
        out := out + [LogPayload(level, accumulated[level])];
        todo := todo - {level};
        reached := reached + {level};
        sent := sent + 1;
      }
      assert reached == accumulated.Keys;
      completed := true;
    }

    /** A line from the source. */
    method OnLine(line: LogLine, cancelled: nat -> bool)
      requires Valid() && line.HasLength()
      modifies this
      ensures Valid() && received == old(received) + [line]
      ensures old(AtLoopHead()) && Never(cancelled) ==> AtLoopHead()
      ensures LevelRank(line.level) < minLevel ==> accumulated == old(accumulated) && out == old(out) && flushes == old(flushes)
      ensures LevelRank(line.level) >= minLevel && Wrap64(old(totalBytes) + |line.raw|) < batchSize ==>
                && out == old(out) && flushes == old(flushes) && totalBytes == Wrap64(old(totalBytes) + |line.raw|)
                && accumulated == old(accumulated)[line.level := Held(old(accumulated), line.level) + [line.raw]]
      ensures LevelRank(line.level) < minLevel ==> totalBytes == old(totalBytes)
      ensures LevelRank(line.level) >= minLevel && Wrap64(old(totalBytes) + |line.raw|) >= batchSize ==>
                |flushes| == |old(flushes)| + 1 && (Never(cancelled) ==> accumulated == map[] && totalBytes == 0)
    {
      hide Balanced, BytesOver, LevelRank, Lists, Traces, EmittedAsReached, Thorough, Wrap64;
      EmptyBatch(levels, accumulated);
      LineTraced(trace, out, accumulated, flushes, received, minLevel, line);
      LineReached(trace, out, accumulated, flushes, received, minLevel, line);
      FlushesBefore(Now());
      LineThorough(flushes, received, minLevel, line);
      if Balanced(out, accumulated, received, minLevel) {
        LineBalanced(out, accumulated, received, minLevel, line);
      }
      received := received + [line];
      if LevelRank(line.level) < minLevel {
        return;
      }
      Accumulate(line);
      if totalBytes >= batchSize {
        var done, reached := Flush(cancelled);
      }
    }

    method Accumulate(line: LogLine)
      requires Lists(levels, accumulated) && totalBytes == Wrap64(BytesOver(accumulated, levels))
      modifies this`accumulated, this`totalBytes, this`levels
      ensures Lists(levels, accumulated) && totalBytes == Wrap64(BytesOver(accumulated, levels))
      ensures accumulated == old(accumulated)[line.level := Held(old(accumulated), line.level) + [line.raw]]
      ensures totalBytes == Wrap64(old(totalBytes) + |line.raw|)
    {
      hide Lists, BytesOver, Wrap64;
      var grown := Held(accumulated, line.level) + [line.raw];
      ListsNext(levels, accumulated, line.level, grown);
      if line.level !in accumulated {
        BytesOverNew(accumulated, levels, line.level);
        levels := levels + [line.level];
      }
      assert line.level in levels && forall i, j :: 0 <= i < j < |levels| ==> levels[i] != levels[j] by {
        ListsDistinct(levels, accumulated[line.level := grown]);
      }
      BytesOverGrows(accumulated, levels, line.level, line.raw);
      accumulated := accumulated[line.level := Held(accumulated, line.level) + [line.raw]];
      WrapAdd(BytesOver(old(accumulated), old(levels)), |line.raw|);
      totalBytes := Wrap64(totalBytes + |line.raw|);
    }

    method OnTimer(cancelled: nat -> bool) returns (completed: bool)
      requires Valid()
      modifies this
      ensures Valid() && received == old(received) && |flushes| == |old(flushes)| + 1
      ensures if completed then accumulated == map[] && totalBytes == 0 else accumulated == old(accumulated)
      ensures completed <==> forall k: nat :: k < |old(accumulated)| ==> !cancelled(k)
      ensures old(AtLoopHead()) && Never(cancelled) ==> AtLoopHead() && accumulated == map[]
    {
      hide Balanced, BytesOver, Lists, Traces, EmittedAsReached;
      ghost var reached;
      completed, reached := Flush(cancelled);
      if !completed {
        assert |reached| < |old(accumulated)| by { SmallerSet(reached, old(accumulated).Keys); }
      }
    }

    method Handle(e: Event)
      requires Valid() && (e.Line? ==> e.line.HasLength())
      modifies this
      ensures Valid() && received == old(received) + if e.Line? then [e.line] else []
      ensures old(AtLoopHead()) && Never(e.cancelled) ==>
                AtLoopHead() && (totalBytes, |flushes|) == DueAfter(e, old(totalBytes), |old(flushes)|, minLevel, batchSize)
    {
      hide AtLoopHead, Valid, Wrap64, LevelRank;
      match e {
        case Line(line, c) => OnLine(line, c);
        case Tick(c) => var done := OnTimer(c);
      }
    }

    /** Any lines and timer ticks, before and after cancellation, and, if `final` says so, the last
        flush on the way out. Every line has been emitted as often as flushes reached it while it was
        held; and as long as no flush was interrupted, what was flushed and what is held are, for
        every level, together the accepted lines received, in order. */
    method Run(events: seq<Event>, final: bool, cancelled: nat -> bool)
      requires AtLoopHead() && received == [] && out == [] && flushes == [] && totalBytes == 0
      requires forall i :: 0 <= i < |events| && events[i].Line? ==> events[i].line.HasLength()
      modifies this
      ensures Valid() && received == LinesOf(events)
      ensures EmittedAsReached(trace, flushes, LinesOf(events), minLevel)
      ensures NeverCancelled(events) && (final ==> Never(cancelled)) ==>
                && AtLoopHead() && (final ==> accumulated == map[])
                && forall level :: Flushed(out, level) + Held(accumulated, level) == Accepted(LinesOf(events), minLevel, level)
      ensures NeverCancelled(events) && !final ==> (totalBytes, |flushes|) == DueFlushes(events, minLevel, batchSize)
      ensures NeverCancelled(events) && final ==> |flushes| == DueFlushes(events, minLevel, batchSize).1 + 1
    {
      hide AtLoopHead, Valid, EmittedAsReached, DueAfter;
      HeadValid();
      var i := 0;
      while i < |events|
        invariant 0 <= i <= |events|
        invariant Valid() && received == LinesOf(events[..i])
        invariant NeverCancelled(events) ==> AtLoopHead() && (totalBytes, |flushes|) == DueFlushes(events[..i], minLevel, batchSize)
      {
        assert events[..i + 1][..i] == events[..i];
        Handle(events[i]);
        i := i + 1;
      }
      assert events[..|events|] == events;
      if final {
        var done := OnTimer(cancelled);
      }
      ValidEmitted();
      if NeverCancelled(events) && (final ==> Never(cancelled)) {
        HeadBalanced();
      }
    }

    lemma HeadValid()
      requires AtLoopHead()
      ensures Valid()
    {}

    lemma ValidEmitted()
      requires Valid()
      ensures EmittedAsReached(trace, flushes, received, minLevel)
    {}

    lemma HeadBalanced()
      requires AtLoopHead()
      ensures forall level :: Flushed(out, level) + Held(accumulated, level) == Accepted(received, minLevel, level)
    {}
  }

  // ---- cancellation ----

  /** Exactly once, for every line at or above the minimum, whatever lines and flushes came before and
      after cancellation: when some flush has completed since the line was taken, the line went out
      exactly once if and only if no interrupted flush had reached it before; when none has, if and
      only if exactly one interrupted flush did. */
  lemma AfterCancellation(h: History, id: nat)
    requires h.Right() && id < |h.received| && LevelRank(h.received[id].level) >= h.minLevel
    ensures Emissions(h.trace, id) == 1
            <==> Cuts(h.flushes, h.received[id].level, id) == if id < LastReset(h.flushes) then 0 else 1
    ensures Emissions(h.trace, id) >= Cuts(h.flushes, h.received[id].level, id)
  {
    hide LevelRank;
    ReachesSplit(h.flushes, h.received, h.minLevel, id);
  }

  method TwoHeld() returns (c: Collector)
    ensures fresh(c) && c.Valid() && c.flushes == [] && c.minLevel == 1
    ensures c.received == [LogLine("info", "a"), LogLine("warn", "b")] && c.accumulated.Keys == {"info", "warn"}
  {
    hide Collector.Valid, Collector.AtLoopHead;
    c := new Collector("info", 100);
    c.HeadValid();
    c.OnLine(LogLine("info", "a"), k => false);
    assert [] + ["a"] == ["a"] && [] + ["b"] == ["b"];
    assert c.accumulated == map["info" := ["a"]];
    c.OnLine(LogLine("warn", "b"), k => false);
    assert c.accumulated == map["info" := ["a"], "warn" := ["b"]];
  }

  /** A witness: two levels held, a flush cut after the first of them, then a complete one. */
  method LineSentTwice() returns (c: Collector, ghost id: nat)
    ensures fresh(c) && c.Valid() && id < |c.received| && Emissions(c.trace, id) == 2
  {
    hide Collector.Valid, Collector.AtLoopHead, EmittedAsReached, Emissions, Reaches, Flushed, Delivers, Balanced;
    c := TwoHeld();
    ghost var held := c.accumulated.Keys;
    var second := (k: nat) => k == 1;
    var cut, once := c.Flush(second);
    assert second(1);
    CutAfterOne(held, cut, once);
    ghost var level :| level in once;
    var done, again := c.Flush(k => false);
    assert done && again == held;
    id := if level == "info" then 0 else 1;
    assert c.received[id].level == level;
    assert c.flushes == [Flushing(2, once, false), Flushing(2, again, true)];
    c.ValidEmitted();
    TwoFlushes(Flushing(2, once, false), Flushing(2, again, true), level, id);
    EmittedSo(c.trace, c.flushes, c.received, c.minLevel, id);
  }

  lemma CutAfterOne(held: set<string>, completed: bool, reached: set<string>)
    requires held == {"info", "warn"} && (if completed then reached == held else reached < held)
    requires |reached| <= 1 && (!completed ==> |reached| == 1)
    ensures !completed && reached <= held && reached != {}
  {
    assert |held| == 2;
  }

  lemma EmittedSo(trace: seq<seq<nat>>, flushes: seq<Flushing>, received: seq<LogLine>, minLevel: nat, id: nat)
    requires EmittedAsReached(trace, flushes, received, minLevel) && id < |received| && LevelRank(received[id].level) >= minLevel
    ensures Emissions(trace, id) == Reaches(flushes, received[id].level, id)
  {}

  lemma TwoFlushes(f: Flushing, g: Flushing, level: string, id: nat)
    requires !f.complete && id < f.at && id < g.at && level in f.reached && level in g.reached
    ensures Reaches([f, g], level, id) == 2
  {
    ReachesAppend([], f, level, id);
    ReachesAppend([f], g, level, id);
    assert [] + [f] == [f] && [f] + [g] == [f, g];
  }

  lemma SmallerSet(a: set<string>, b: set<string>)
    requires a < b
    ensures |a| < |b|
  {
    assert |b - a| > 0;
    assert b == a + (b - a);
  }

  lemma ListsNothing()
    ensures Lists([], map[])
  {}
}
