/** How often an id occurs in a sequence; used to show that things are in exactly one place. */
module Counting {

  function Occurrences(ids: seq<nat>, id: nat): nat {
    if ids == [] then 0
    else Occurrences(ids[..|ids| - 1], id) + if ids[|ids| - 1] == id then 1 else 0
  }

  lemma OccurrencesAppend(ids: seq<nat>, last: nat, id: nat)
    ensures Occurrences(ids + [last], id) == Occurrences(ids, id) + if last == id then 1 else 0
  {
    assert (ids + [last])[..|ids|] == ids;
  }

  lemma {:induction false} OccurrencesConcat(a: seq<nat>, b: seq<nat>, id: nat)
    ensures Occurrences(a + b, id) == Occurrences(a, id) + Occurrences(b, id)
    decreases |b|
  {
    if b == [] {
      assert a + b == a;
    } else {
      assert (a + b)[..|a + b| - 1] == a + b[..|b| - 1];
      OccurrencesConcat(a, b[..|b| - 1], id);
    }
  }

  /** Taking a piece out of a sequence takes out its occurrences. */
  lemma OccurrencesCut(a: seq<nat>, piece: seq<nat>, b: seq<nat>, id: nat)
    ensures Occurrences(a + piece + b, id) == Occurrences(a + b, id) + Occurrences(piece, id)
  {
    hide Occurrences;
    OccurrencesConcat(a + piece, b, id);
    OccurrencesConcat(a, piece, id);
    OccurrencesConcat(a, b, id);
  }

  lemma {:induction false} OccursIfIn(ids: seq<nat>, id: nat)
    ensures Occurrences(ids, id) > 0 <==> id in ids
  {
    if ids != [] {
      OccursIfIn(ids[..|ids| - 1], id);
      assert ids == ids[..|ids| - 1] + [ids[|ids| - 1]];
    }
  }

  lemma Duplicate(ids: seq<nat>, i: nat, j: nat)
    requires i < j < |ids|
    ensures ids[i] == ids[j] ==> Occurrences(ids, ids[i]) >= 2
  {
    assert ids == ids[..j] + ids[j..];
    OccurrencesConcat(ids[..j], ids[j..], ids[i]);
    OccursIfIn(ids[..j], ids[i]);
    OccursIfIn(ids[j..], ids[j]);
    assert ids[..j][i] == ids[i] && ids[j..][0] == ids[j];
  }

  predicate Increasing(ids: seq<nat>) {
    forall i, j :: 0 <= i < j < |ids| ==> ids[i] < ids[j]
  }

  lemma IncreasingCut(a: seq<nat>, piece: seq<nat>, b: seq<nat>)
    requires Increasing(a + piece + b)
    ensures Increasing(a + b)
  {
    var all := a + piece + b;
    forall i, j | 0 <= i < j < |a + b|
      ensures (a + b)[i] < (a + b)[j]
    {
      var x, y := if i < |a| then i else i + |piece|, if j < |a| then j else j + |piece|;
      assert (a + b)[i] == all[x] && (a + b)[j] == all[y];
    }
  }

  /** 0, 1, ..., n - 1 */
  function Range(n: nat): (ids: seq<nat>)
    ensures |ids| == n && forall i :: 0 <= i < n ==> ids[i] == i
  {
    seq(n, i => i)
  }
}
