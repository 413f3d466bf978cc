/** The bounded drop-oldest queue of the sender (internal/sentinel/sender/buffer.go), over the
backing array its slice lives in. */
module DropOldest {

  /** One push into a queue of at most `maxSize` items. */
  function Pushed<T>(items: seq<T>, item: T, maxSize: nat): seq<T>
    requires maxSize > 0
  {
    (if |items| >= maxSize then items[1..] else items) + [item]
  }

  function PushedAll<T>(items: seq<T>, more: seq<T>, maxSize: nat): seq<T>
    requires maxSize > 0
  {
    if more == [] then items
    else Pushed(PushedAll(items, more[..|more| - 1], maxSize), more[|more| - 1], maxSize)
  }

  function Drops<T>(items: seq<T>, more: seq<T>, maxSize: nat): nat
    requires maxSize > 0
  {
    if more == [] then 0
    else
      var init := more[..|more| - 1];
      Drops(items, init, maxSize) + if |PushedAll(items, init, maxSize)| >= maxSize then 1 else 0
  }

  function Last<T>(items: seq<T>, n: nat): seq<T> {
    if |items| <= n then items else items[|items| - n..]
  }

  /** The queue holds the most recent pushes, in order, and has dropped all the others. */
  lemma {:induction false} HoldsLast<T>(items: seq<T>, more: seq<T>, maxSize: nat)
    requires maxSize > 0 && |items| <= maxSize
    ensures PushedAll(items, more, maxSize) == Last(items + more, maxSize)
    ensures Drops(items, more, maxSize) + |PushedAll(items, more, maxSize)| == |items| + |more|
  {
    hide Pushed, Last;
    if more == [] {
      assert items + more == items;
      assert Last(items, maxSize) == items by { LastAll(items, maxSize); }
    } else {
      var init := more[..|more| - 1];
      HoldsLast(items, init, maxSize);
      LastNext(items + init, more[|more| - 1], maxSize);
      assert items + more == items + init + [more[|more| - 1]];
    }
  }

  lemma LastAll<T>(items: seq<T>, n: nat)
    requires |items| <= n
    ensures Last(items, n) == items
  {}

  lemma LastNext<T>(all: seq<T>, item: T, maxSize: nat)
    requires maxSize > 0
    ensures Pushed(Last(all, maxSize), item, maxSize) == Last(all + [item], maxSize)
    ensures |Last(all, maxSize)| == if |all| <= maxSize then |all| else maxSize
    ensures |Last(all + [item], maxSize)| == if |all| < maxSize then |all| + 1 else maxSize
  {}

  /** The slice is `backing[off..off + len]` with capacity up to `end`. */
  class Buffer<T> {
    const maxSize: nat
    /** The zero value of T, written over evicted slots. */
    const zero: T
    var backing: array<T>
    var off: nat
    var len: nat
    var end: nat

    ghost predicate Valid()
      reads this, backing
    {
      && 0 < maxSize && len <= maxSize && off + len <= end <= backing.Length
      && (Clean() || (len == 0 && end == off))
    }

    /** Nothing but queued items is reachable through the backing array. */
    ghost predicate Clean()
      reads this, backing
    {
      forall i :: 0 <= i < backing.Length && !(off <= i < off + len) ==> backing[i] == zero
    }

    function Contents(): seq<T>
      reads this, backing
      requires off + len <= backing.Length
    {
      backing[off..off + len]
    }

    constructor (maxSize: nat, zero: T)
      requires maxSize > 0
      ensures Valid() && Clean() && fresh(backing) && this.maxSize == maxSize && this.zero == zero && Contents() == []
    {
      this.maxSize := maxSize;
      this.zero := zero;
      backing := new T[maxSize](i => zero);
      off, len, end := 0, 0, maxSize;
    }

    method Push(item: T) returns (dropped: bool)
      requires Valid()
      modifies this, backing
      ensures Valid() && Clean() && (backing == old(backing) || fresh(backing))
      ensures dropped == (|old(Contents())| >= maxSize)
      ensures Contents() == Pushed(old(Contents()), item, maxSize)
    {
      dropped := false;
      if len >= maxSize {
        backing[off] := zero;
        off, len := off + 1, len - 1;
        dropped := true;
      }
      assert Contents() == if dropped then old(Contents())[1..] else old(Contents());
      Append(item);
    }

    /** `append`: in place while the capacity lasts, else into a larger array. */
    method Append(item: T)
      requires Valid() && len < maxSize
      modifies this, backing
      ensures Valid() && Clean() && (backing == old(backing) || fresh(backing))
      ensures Contents() == old(Contents()) + [item]
    {
      if off + len == end {
        Grow();
      }
      backing[off + len] := item;
      len := len + 1;
    }

    method Grow()
      requires Valid()
      modifies this
      ensures Valid() && Clean() && fresh(backing) && off + len < end
      ensures Contents() == old(Contents()) && len == old(len)
    {
      var source, start, n := backing, off, len;
      var bigger := new T[2 * n + 1](i => zero);
      var i := 0;
      while i < n
        invariant 0 <= i <= n
        invariant forall k :: 0 <= k < i ==> bigger[k] == source[start + k]
        invariant forall k :: i <= k < bigger.Length ==> bigger[k] == zero
        modifies bigger
      {
        bigger[i] := source[start + i];
        i := i + 1;
      }
      backing, off, end := bigger, 0, bigger.Length;
    }

    /** `b.items[:0:0]` has no capacity left but still points into the same array: what was drained stays
        reachable, until the next push has to allocate, unless it was all zero values. */
    method Drain() returns (items: seq<T>)
      requires Valid()
      modifies this
      ensures Valid() && backing == old(backing)
      ensures items == old(Contents()) && Contents() == []
      ensures items == [] ==> (Clean() <==> old(Clean()))
      ensures items != [] ==> (Clean() <==> forall i :: 0 <= i < |items| ==> items[i] == zero)
    {
      if len == 0 {
        return [];
      }
      items := backing[off..off + len];
      assert forall i :: 0 <= i < len ==> items[i] == backing[off + i];
      len, end := 0, off;
      if Clean() {
        forall i | 0 <= i < |items| ensures items[i] == zero {
          assert backing[off + i] == zero;
        }
      }
      if forall i :: 0 <= i < |items| ==> items[i] == zero {
        forall i | 0 <= i < backing.Length ensures backing[i] == zero {
          assert off <= i < off + |items| ==> backing[i] == items[i - off];
        }
      }
    }

    method Len() returns (n: nat)
      requires Valid()
      ensures n == |Contents()|
    {
      n := len;
    }
  }
}
