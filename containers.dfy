/** com.intellij.util.indexing.containers: the index layer's iterator over a
    set of integer ids (file ids, stub ids) held in a Trove hash set. */
module IndexingContainers {
  import opened Trove

  /** TroveSetIntIterator: a ValueContainer.IntIterator that wraps a
      TIntHashSet. It keeps the set, one cursor obtained from the set, and the
      set's size as it was when the iterator was built. */
  class TroveSetIntIterator {
    /** mySet: the wrapped set, shared with the caller. */
    const backing: IntHashSet
    /** mySize: the set's size, recorded once by the constructor. */
    const count: int32
    /** mySetIterator: how many values the private cursor has passed. */
    var cursor: nat
    /** The values `Next` has returned so far, in order. */
    ghost var yielded: seq<int32>

    ghost predicate Valid()
      reads this
    {
      && backing.Valid()
      && count == backing.Size()
      && cursor <= |backing.order|
      && yielded == backing.order[..cursor]
    }

    /** The values the cursor has yet to visit, in the order it will visit them. */
    ghost function Remaining(): seq<int32>
      reads this
      requires Valid()
    {
      backing.order[cursor..]
    }

    /** The iterator over `h`: its own cursor at the start and the size of `h`
        recorded. */
    constructor (h: IntHashSet)
      requires h.Valid()
      ensures Valid()
      ensures backing == h
      ensures count as int == |h.Elements()|
      ensures yielded == [] && Remaining() == h.order
    {
      backing := h;
      cursor := 0;
      count := h.Size();
      yielded := [];
    }

    /** EMPTY: the iterator over the empty set. */
    constructor Empty()
      ensures Valid()
      ensures backing == EmptyIntHashSet()
      ensures count == 0
      ensures yielded == [] && Remaining() == []
    {
      backing := EmptyIntHashSet();
      cursor := 0;
      count := 0;
      yielded := [];
    }

    /** hasNext(): whether unread values remain. It changes nothing, so asking
        twice gives the same answer. It turns false exactly once `Next` has
        been called `Size()` times, and then the values returned so far are
        the set's members, each once. */
    method HasNext() returns (b: bool)
      requires Valid()
      ensures b <==> |yielded| < count as int
      ensures b <==> Remaining() != []
      ensures !b ==> Distinct(yielded) && Members(yielded) == backing.Elements()
    {
      b := cursor < |backing.order|;
      if !b {
        assert yielded == backing.order;
      }
    }

    /** next(): the value under the cursor, which then moves on by one. The
        value is a member of the set that has not been returned before. */
    method Next() returns (x: int32)
      requires Valid()
      requires |yielded| < count as int
      modifies this
      ensures Valid()
      ensures x == old(Remaining())[0] && Remaining() == old(Remaining())[1..]
      ensures yielded == old(yielded) + [x]
      ensures x in backing.Elements() && x !in old(yielded)
    {
      ghost var before := yielded;
      x := backing.order[cursor];
      cursor := cursor + 1;
      yielded := yielded + [x];
      assert yielded == backing.order[..cursor];
      assert x !in before;
    }

    /** size(): the member count of the set as it was at construction, the
        same whatever `HasNext` and `Next` have done since. */
    method Size() returns (n: int32)
      requires Valid()
      ensures n as int == |backing.Elements()|
      ensures n as int == |yielded| + |Remaining()|
    {
      n := count;
    }

    /** hasAscendingOrder(): hash order is not numeric order, so this
        iterator never promises ascending values, in any state. */
    method HasAscendingOrder() returns (b: bool)
      ensures !b
    {
      b := false;
    }

    /** createCopyInInitialState(): a new iterator over the same set, with a
        cursor of its own at the start, whatever this one's position. This
        iterator is left as it was. */
    method CreateCopyInInitialState() returns (c: TroveSetIntIterator)
      requires Valid()
      ensures fresh(c)
      ensures c.Valid()
      ensures c.backing == backing && c.count == count
      ensures c.yielded == [] && c.Remaining() == backing.order
    {
      c := new TroveSetIntIterator(backing);
    }
  }

  /** Advancing the original after taking a copy leaves the copy at the
      start. */
  method AdvanceOriginalAfterCopy(a: TroveSetIntIterator) returns (b: TroveSetIntIterator, x: int32)
    requires a.Valid() && a.Remaining() != []
    modifies a
    ensures fresh(b) && a.Valid() && b.Valid()
    ensures a.yielded == old(a.yielded) + [x]
    ensures b.backing == a.backing && b.yielded == [] && b.Remaining() == a.backing.order
  {
    b := a.CreateCopyInInitialState();
    x := a.Next();
  }

  /** Advancing a copy leaves the original where it was, and the copy's first
      value is the first value of the original's own scan. */
  method AdvanceCopy(a: TroveSetIntIterator) returns (b: TroveSetIntIterator, x: int32)
    requires a.Valid() && |a.backing.order| > 0
    ensures unchanged(a)
    ensures fresh(b) && b.Valid()
    ensures b.yielded == [x] && x == a.backing.order[0]
    ensures a.yielded != [] ==> x == a.yielded[0]
  {
    b := a.CreateCopyInInitialState();
    x := b.Next();
  }

  /** Copying EMPTY gives a new iterator that is empty too: size 0 and no
      next value. The code allocates it; it is not EMPTY itself. */
  method CopyOfEmpty() returns (e: TroveSetIntIterator, c: TroveSetIntIterator, more: bool, n: int32)
    ensures fresh(e) && fresh(c) && c != e
    ensures c.Valid() && c.backing == EmptyIntHashSet()
    ensures !more && n == 0
  {
    e := new TroveSetIntIterator.Empty();
    c := e.CreateCopyInInitialState();
    more := c.HasNext();
    n := c.Size();
  }

  /** A full scan of a fresh iterator over `h`, asking `HasNext` before each
      `Next`, returns every member of `h` exactly once: `Size()` values, no
      value twice. */
  method FullScan(h: IntHashSet) returns (out: seq<int32>)
    requires h.Valid()
    ensures Distinct(out)
    ensures Members(out) == h.Elements()
    ensures |out| == h.Size() as int
  {
    var it := new TroveSetIntIterator(h);
    out := [];
    var more := it.HasNext();
    while more
      invariant it.Valid() && it.backing == h
      invariant out == it.yielded
      invariant more <==> it.Remaining() != []
      decreases |it.Remaining()|
    {
      var x := it.Next();
      out := out + [x];
      more := it.HasNext();
    }
  }
}
