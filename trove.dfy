/** The part of the Trove primitive-collections library that the index-layer
    iterator relies on: a hash set of Java `int`s, seen only through its
    members, its size and the (unspecified, but fixed) order in which its
    own cursor visits them. */
module Trove {

  /** Java's 32-bit `int`. */
  newtype int32 = x: int | -0x8000_0000 <= x < 0x8000_0000

  /** A hash set is backed by Java arrays, so it never holds more than
      Integer.MAX_VALUE members and its `size()` always fits in an `int`. */
  const MaxSetSize: int := 0x7fff_ffff

  /** No value occurs twice in `s`. */
  ghost predicate Distinct(s: seq<int32>)
  {
    forall i, j :: 0 <= i < j < |s| ==> s[i] != s[j]
  }

  /** The values occurring in `s`. */
  function Members(s: seq<int32>): set<int32>
  {
    set x | x in s
  }

  /** A duplicate-free sequence has exactly as many members as elements. */
  lemma {:induction false} DistinctMembersCardinality(s: seq<int32>)
    requires Distinct(s)
    ensures |Members(s)| == |s|
  {
    if s != [] {
      var rest := s[1..];
      assert Distinct(rest) by {
        forall i, j | 0 <= i < j < |rest| ensures rest[i] != rest[j] {
          assert rest[i] == s[i + 1] && rest[j] == s[j + 1];
        }
      }
      DistinctMembersCardinality(rest);
      assert Members(s) == {s[0]} + Members(rest) by {
        assert forall x :: x in s <==> x == s[0] || x in rest;
      }
      assert s[0] !in Members(rest);
    }
  }

  /** A TIntHashSet as its iterator sees it: its members listed in the order
      in which the set's own cursor visits them. The library decides that
      order from the hash table's layout; the model leaves it arbitrary but
      fixed, so every cursor derived from the same set sees the same order. */
  datatype IntHashSet = IntHashSet(order: seq<int32>)
  {
    /** A set holds no value twice and fits the Java array limit. */
    ghost predicate Valid()
    {
      Distinct(order) && |order| <= MaxSetSize
    }

    /** The integers the set contains. */
    function Elements(): set<int32>
    {
      Members(order)
    }

    /** TIntHashSet.size(): the number of members, which is also the number
        of values a full traversal visits. */
    function Size(): (n: int32)
      requires Valid()
      ensures n as int == |Elements()|
      ensures n as int == |order|
    {
      DistinctMembersCardinality(order);
      |order| as int32
    }
  }

  /** EmptyIntHashSet.INSTANCE: the shared set with no members. */
  function EmptyIntHashSet(): (h: IntHashSet)
    ensures h.Valid()
    ensures h.Elements() == {}
    ensures h.Size() == 0
  {
    IntHashSet([])
  }

  /** Every finite set of `int`s that fits in a hash set is the member set of
      some hash set, whatever iteration order the table happens to give it:
      the model of TIntHashSet loses no set. */
  ghost function SomeHashOrder(s: set<int32>): (h: IntHashSet)
    requires |s| <= MaxSetSize
    ensures h.Valid()
    ensures h.Elements() == s
    decreases s
  {
    if s == {} then IntHashSet([])
    else
      var x :| x in s;
      var rest := SomeHashOrder(s - {x});
      var order := [x] + rest.order;
      assert Members(order) == {x} + rest.Elements() by {
        assert forall y :: y in order <==> y == x || y in rest.order;
      }
      assert |order| == |s| by {
        DistinctMembersCardinality(rest.order);
      }
      IntHashSet(order)
  }
}
