/** Collector, pipeline and receiver together: what the watchtower can know about a node. */
module Delivery {
  import opened Wrappers
  import opened Counting
  import opened RpcCollector
  import opened RpcRuns
  import opened DeltaFilter
  import PipelineRuns

  /** The payloads that reached the receiver, in the order they did. */
  function Received(cfg: Config, ticks: seq<Tick>, sent: seq<nat>): (ps: seq<Payload>)
    requires forall i :: 0 <= i < |sent| ==> sent[i] < |ticks|
    ensures |ps| == |sent|
  {
    seq(|sent|, i requires 0 <= i < |sent| => PayloadAt(cfg, ticks, sent[i]))
  }

  /** Each tick of the collector produces one payload. */
  ghost predicate Runs(shape: PipelineRuns.Shape, ticks: seq<Tick>, events: seq<PipelineRuns.Event>, s: PipelineRuns.State)
    requires shape.bufferSize > 0
  {
    PipelineRuns.Run(shape, PipelineRuns.Start, events) == Some(s) && s.produced == |ticks|
  }

  lemma SentAreTicks(shape: PipelineRuns.Shape, ticks: seq<Tick>, events: seq<PipelineRuns.Event>, s: PipelineRuns.State)
    requires shape.bufferSize > 0 && Runs(shape, ticks, events, s)
    ensures forall i :: 0 <= i < |s.sent| ==> s.sent[i] < |ticks|
  {
    forall i | 0 <= i < |s.sent| ensures s.sent[i] < |ticks| {
      PipelineRuns.Conservation(shape, events, s.sent[i]);
      OccursIfIn(s.sent, s.sent[i]);
    }
  }

  /** In every interleaving in which no payload was lost, at every moment: for the keys only the change
      filter governs, the receiver holds exactly what the node answered last within the ticks it has
      received, and those are the first ones. */
  lemma ReceiverExact(cfg: Config, shape: PipelineRuns.Shape, ticks: seq<Tick>, events: seq<PipelineRuns.Event>,
                      s: PipelineRuns.State, key: string)
    requires shape.bufferSize > 0 && Runs(shape, ticks, events, s) && key in DELTA_ONLY
    requires PipelineRuns.LostCount(s) == 0
    ensures |s.sent| <= |ticks| && forall i :: 0 <= i < |s.sent| ==> s.sent[i] < |ticks|
    ensures Lookup(Fold(Received(cfg, ticks, s.sent)), key) == LastFetched(cfg, ticks[..|s.sent|], key)
  {
    PipelineRuns.SentInOrder(shape, events);
    SentAreTicks(shape, ticks, events, s);
    var k := |s.sent|;
    var prefix := ticks[..k];
    assert Received(cfg, ticks, s.sent) == Payloads(cfg, prefix) by {
      forall i | 0 <= i < k ensures Received(cfg, ticks, s.sent)[i] == Payloads(cfg, prefix)[i] {
        assert s.sent[i] == i && prefix[..i] == ticks[..i] && prefix[i] == ticks[i];
      }
    }
    Rebuilt(cfg, prefix, key);
  }

  /** Once a flush is complete and the channel is empty, that is everything the node ever answered. */
  lemma AfterCompleteFlush(cfg: Config, shape: PipelineRuns.Shape, ticks: seq<Tick>, events: seq<PipelineRuns.Event>,
                           s: PipelineRuns.State, key: string)
    requires shape.bufferSize > 0 && Runs(shape, ticks, events, s) && key in DELTA_ONLY
    requires PipelineRuns.LostCount(s) == 0 && s.sending == [] && s.buffer == [] && s.channel == []
    ensures forall i :: 0 <= i < |s.sent| ==> s.sent[i] < |ticks|
    ensures Lookup(Fold(Received(cfg, ticks, s.sent)), key) == LastFetched(cfg, ticks, key)
  {
    ReceiverExact(cfg, shape, ticks, events, s, key);
    PipelineRuns.Conservation(shape, events, 0);
    assert ticks[..|s.sent|] == ticks;
  }

  // ---- with losses ----

  /** The last of the given ticks whose payload carries the key. */
  function LastCarrying(cfg: Config, ticks: seq<Tick>, ids: seq<nat>, key: string): (id: Option<nat>)
    requires forall i :: 0 <= i < |ids| ==> ids[i] < |ticks|
    ensures id.Some? ==> id.value in ids && id.value < |ticks| && key in PayloadAt(cfg, ticks, id.value)
  {
    if ids == [] then None
    else if key in PayloadAt(cfg, ticks, ids[|ids| - 1]) then Some(ids[|ids| - 1])
    else LastCarrying(cfg, ticks, ids[..|ids| - 1], key)
  }

  /** What it carries. */
  function Carried(cfg: Config, ticks: seq<Tick>, ids: seq<nat>, key: string): Option<Raw>
    requires forall i :: 0 <= i < |ids| ==> ids[i] < |ticks|
  {
    var id := LastCarrying(cfg, ticks, ids, key);
    if id.Some? then Some(PayloadAt(cfg, ticks, id.value)[key]) else None
  }

  lemma {:induction false} FoldCarried(cfg: Config, ticks: seq<Tick>, ids: seq<nat>, key: string)
    requires forall i :: 0 <= i < |ids| ==> ids[i] < |ticks|
    ensures Lookup(Fold(Received(cfg, ticks, ids)), key) == Carried(cfg, ticks, ids, key)
  {
    hide Collected, After, PayloadAt;
    var ps := Received(cfg, ticks, ids);
    if ids != [] {
      FoldCarried(cfg, ticks, ids[..|ids| - 1], key);
      assert ps[..|ps| - 1] == Received(cfg, ticks, ids[..|ids| - 1]);
    }
  }

  /** With ids in increasing order, the last of all that carries the key is the last of any that
      include it. */
  lemma {:induction false} LastOfAll(cfg: Config, ticks: seq<Tick>, ids: seq<nat>, n: nat, key: string)
    requires Increasing(ids) && n <= |ticks| && forall i :: 0 <= i < |ids| ==> ids[i] < n
    requires var last := LastCarrying(cfg, ticks, Range(n), key); last.Some? && last.value in ids
    ensures LastCarrying(cfg, ticks, ids, key) == LastCarrying(cfg, ticks, Range(n), key)
    decreases n
  {
    hide Collected, After, PayloadAt;
    assert Range(n)[..n - 1] == Range(n - 1);
    if ids[|ids| - 1] == n - 1 {
      if key !in PayloadAt(cfg, ticks, n - 1) {
        LastOfAll(cfg, ticks, ids[..|ids| - 1], n - 1, key);
      }
    } else {
      LastOfAll(cfg, ticks, ids, n - 1, key);
    }
  }

  /** Whatever was lost, at every moment: for such a key the receiver has everything the node ever
      answered if and only if the last payload that carried the key was delivered, or the last
      delivered one that did carried the same, or none ever did. */
  lemma ExactDespiteLossIff(cfg: Config, shape: PipelineRuns.Shape, ticks: seq<Tick>, events: seq<PipelineRuns.Event>,
                            s: PipelineRuns.State, key: string)
    requires shape.bufferSize > 0 && Runs(shape, ticks, events, s) && key in DELTA_ONLY
    ensures forall i :: 0 <= i < |s.sent| ==> s.sent[i] < |ticks|
    ensures var last := LastCarrying(cfg, ticks, Range(|ticks|), key);
            Lookup(Fold(Received(cfg, ticks, s.sent)), key) == LastFetched(cfg, ticks, key)
            <==> last == None || last.value in s.sent || Carried(cfg, ticks, s.sent, key) == Some(PayloadAt(cfg, ticks, last.value)[key])
  {
    hide Collected, After, PayloadAt, LastFetched, Fold, PipelineRuns.Run, PipelineRuns.Step;
    PipelineRuns.SentInOrder(shape, events);
    SentAreTicks(shape, ticks, events, s);
    var all := Range(|ticks|);
    FoldCarried(cfg, ticks, s.sent, key);
    FoldCarried(cfg, ticks, all, key);
    assert Received(cfg, ticks, all) == Payloads(cfg, ticks);
    Rebuilt(cfg, ticks, key);
    var last := LastCarrying(cfg, ticks, all, key);
    if last == None {
      NoneCarry(cfg, ticks, s.sent, |ticks|, key);
    } else if last.value in s.sent {
      LastOfAll(cfg, ticks, s.sent, |ticks|, key);
    }
  }

  lemma {:induction false} NoneCarry(cfg: Config, ticks: seq<Tick>, ids: seq<nat>, n: nat, key: string)
    requires n <= |ticks| && (forall i :: 0 <= i < |ids| ==> ids[i] < n) && LastCarrying(cfg, ticks, Range(n), key) == None
    ensures LastCarrying(cfg, ticks, ids, key) == None
  {
    hide Collected, After, PayloadAt;
    if ids != [] {
      NoneCarry(cfg, ticks, ids[..|ids| - 1], n, key);
      NotCarrying(cfg, ticks, n, ids[|ids| - 1], key);
    }
  }

  lemma {:induction false} NotCarrying(cfg: Config, ticks: seq<Tick>, n: nat, id: nat, key: string)
    requires id < n <= |ticks| && LastCarrying(cfg, ticks, Range(n), key) == None
    ensures key !in PayloadAt(cfg, ticks, id)
    decreases n
  {
    hide Collected, After, PayloadAt;
    assert Range(n)[..n - 1] == Range(n - 1);
    if id < n - 1 {
      NotCarrying(cfg, ticks, n - 1, id, key);
    }
  }

  /** And a loss lasts: the filter never repeats itself, so when the one payload that carried a value is
      lost and the node keeps answering the same, no later tick brings that value. */
  lemma LostForGood(cfg: Config, ticks: seq<Tick>, lost: nat, key: string)
    requires key in DELTA_ONLY && lost < |ticks|
    requires LastFetched(cfg, ticks[..lost + 1], key).Some?
    requires forall i :: lost < i < |ticks| ==>
               var f := Fetched(cfg, After(cfg, ticks[..i]), ticks[i].r, ticks[i].c, key);
               f.None? || f == LastFetched(cfg, ticks[..lost + 1], key)
    ensures forall i :: lost < i < |ticks| ==> key !in PayloadAt(cfg, ticks, i)
  {
    forall i: nat | lost < i < |ticks| ensures key !in PayloadAt(cfg, ticks, i) {
      SameSince(cfg, ticks, lost, i, key);
      Rebuilt(cfg, ticks[..i], key);
      DeltaStep(cfg, After(cfg, ticks[..i]), ticks[i].r, ticks[i].c, key);
    }
  }

  lemma {:induction false} SameSince(cfg: Config, ticks: seq<Tick>, lost: nat, i: nat, key: string)
    requires lost < i <= |ticks|
    requires forall j :: lost < j < i ==>
               var f := Fetched(cfg, After(cfg, ticks[..j]), ticks[j].r, ticks[j].c, key);
               f.None? || f == LastFetched(cfg, ticks[..lost + 1], key)
    ensures LastFetched(cfg, ticks[..i], key) == LastFetched(cfg, ticks[..lost + 1], key)
    decreases i
  {
    hide Fetched, After;
    if i > lost + 1 {
      SameSince(cfg, ticks, lost, i - 1, key);
      assert ticks[..i][..i - 1] == ticks[..i - 1];
    }
  }
}
