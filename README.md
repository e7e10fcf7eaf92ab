# TroveSetIntIterator, modelled in Dafny

This project models the index layer's integer-set iterator of the IntelliJ
platform, `com.intellij.util.indexing.containers.TroveSetIntIterator`. It is a
`ValueContainer.IntIterator`, a restartable cursor over a set of integer ids
(file ids, stub ids) held in a Trove `TIntHashSet`. The iterator keeps a
reference to the set. It also keeps one cursor obtained from `set.iterator()`
and the set's `size()` as it was at construction. `hasNext`/`next` advance the
cursor. `size` returns the recorded count. `hasAscendingOrder` is always
false. `createCopyInInitialState` builds a new iterator over the same set with
a fresh cursor. The constant `EMPTY` wraps the shared empty set.

Files:

- `trove.dfy`, module `Trove`: the parts of the foreign Trove library that the
  iterator depends on. Java `int` is the newtype `int32`. A `TIntHashSet` is
  the datatype `IntHashSet`: a duplicate-free sequence that lists the set's
  members in the set's own iteration order. The model keeps that order
  arbitrary but fixed, so every cursor over the same set sees the same order.
  `EmptyIntHashSet` stands for `EmptyIntHashSet.INSTANCE`.
- `containers.dfy`, module `IndexingContainers`: the class
  `TroveSetIntIterator`. Its fields are:
  - `backing`: `mySet`, a constant.
  - `count`: `mySize`, a constant.
  - `cursor`: the position of `mySetIterator`, mutable.
  - `yielded`: a ghost record of the values `Next` has returned.

  Client methods prove three things. A copy and its original do not share a
  cursor. A copy of `EMPTY` is empty. A full `hasNext`/`next` scan returns
  every member of the set exactly once (`FullScan`).

Because `count` and `backing` are `const`, no call to `HasNext` or `Next` can
change `Size()`. `Valid()` ties the cursor to the ghost record of returned
values. From that, `HasNext` proves what a full scan gives: once `HasNext` is
false, exactly `Size()` values have been returned, each member of the set
once.

`createCopyInInitialState` (line 59) allocates a new iterator on every call,
`EMPTY` included, so a copy of `EMPTY` is never `EMPTY` itself; `CopyOfEmpty`
proves the copy is a different object that is also empty.

## Model

| member | source | states |
|---|---|---|
| `Trove.IntHashSet.Size` | platform/lang-impl/src/com/intellij/util/indexing/containers/TroveSetIntIterator.java:34 | the set's size is the number of its distinct members, and also the length of a full traversal of the set |
| `Trove.DistinctMembersCardinality` | platform/lang-impl/src/com/intellij/util/indexing/containers/TroveSetIntIterator.java:34 | a traversal that never repeats a value visits as many values as the set has members |
| `Trove.EmptyIntHashSet` | platform/lang-impl/src/com/intellij/util/indexing/containers/TroveSetIntIterator.java:25 | the shared empty set is a valid set with no members and size 0 |
| `Trove.SomeHashOrder` | platform/lang-impl/src/com/intellij/util/indexing/containers/TroveSetIntIterator.java:27 | every finite set of ints within the Java size limit is the member set of some valid hash set, under some iteration order, so the abstraction of `TIntHashSet` covers every set the iterator can wrap |
| `IndexingContainers.TroveSetIntIterator.constructor` | platform/lang-impl/src/com/intellij/util/indexing/containers/TroveSetIntIterator.java:31-35 | the new iterator wraps the given set, its cursor is at the start (nothing returned, the whole iteration order remaining), and its recorded size is the set's member count |
| `IndexingContainers.TroveSetIntIterator.Empty` | platform/lang-impl/src/com/intellij/util/indexing/containers/TroveSetIntIterator.java:25 | `EMPTY` wraps the empty set, its size is 0 and nothing remains to be read from the start |
| `IndexingContainers.TroveSetIntIterator.HasNext` | platform/lang-impl/src/com/intellij/util/indexing/containers/TroveSetIntIterator.java:37-40 | changes nothing; true exactly while fewer than `size()` values have been returned (unread values remain); once false, the returned values are duplicate-free and are exactly the set's members |
| `IndexingContainers.TroveSetIntIterator.Next` | platform/lang-impl/src/com/intellij/util/indexing/containers/TroveSetIntIterator.java:42-45 | requires `hasNext()`; returns the first remaining value and advances the cursor by one; the value is a member of the set that was not returned before |
| `IndexingContainers.TroveSetIntIterator.Size` | platform/lang-impl/src/com/intellij/util/indexing/containers/TroveSetIntIterator.java:47-50 | the set's member count at construction, equal in every state to the number of values returned plus the number remaining |
| `IndexingContainers.TroveSetIntIterator.HasAscendingOrder` | platform/lang-impl/src/com/intellij/util/indexing/containers/TroveSetIntIterator.java:52-55 | always false, in any state, whether or not the iterator is valid |
| `IndexingContainers.TroveSetIntIterator.CreateCopyInInitialState` | platform/lang-impl/src/com/intellij/util/indexing/containers/TroveSetIntIterator.java:57-60 | a newly allocated iterator over the same set with the same size, positioned at the start whatever the original's position; the original is left as it was |
| `IndexingContainers.AdvanceOriginalAfterCopy` | platform/lang-impl/src/com/intellij/util/indexing/containers/TroveSetIntIterator.java:57-60 | after a copy is taken, advancing the original moves only the original: the copy still has nothing returned and the whole order remaining |
| `IndexingContainers.AdvanceCopy` | platform/lang-impl/src/com/intellij/util/indexing/containers/TroveSetIntIterator.java:31-35 | advancing a copy leaves the original unchanged, and the copy's first value is the first value of the original's scan |
| `IndexingContainers.CopyOfEmpty` | platform/lang-impl/src/com/intellij/util/indexing/containers/TroveSetIntIterator.java:25 | a copy of `EMPTY` is a new object, distinct from `EMPTY`, over the empty set, whose `hasNext()` is false and whose `size()` is 0 |
| `IndexingContainers.FullScan` | platform/lang-impl/src/com/intellij/util/indexing/containers/TroveSetIntIterator.java:37-45 | a caller that builds an iterator over a set and calls `next()` while `hasNext()` holds gets a duplicate-free sequence of exactly the set's members, `size()` values long |

## Left out

- Trove's hashing internals (`TIntHashSet`, its `TIntIterator`, `EmptyIntHashSet`) are foreign code. They are modelled only as a finite duplicate-free iteration order. Which order the hash table produces is left arbitrary.
- The set is modelled as an immutable value. The source shares a mutable `TIntHashSet` by reference (line 32) and relies on callers not to change it while a scan is in progress. The value model builds that assumption in. It does not model what Trove does when the set is changed during a scan.
- `IndexingContainers.TroveSetIntIterator.Next`: calling `next()` on an exhausted iterator makes the Trove cursor throw. The model makes `hasNext()` a precondition instead, as the `IntIterator` contract requires of callers.
- The `ValueContainer.IntIterator` interface and its other implementations are not modelled. The class carries the interface's operations directly.
- `EMPTY` is one static instance in the source. Dafny has no static objects, so the named constructor `Empty` builds an iterator over the shared empty set. Apart from reference identity, one shared instance and many fresh ones behave alike under the five interface operations: in Java every reference to `EMPTY` is the same object, while two iterators built by `Empty` are different objects. Calling `next()` on `EMPTY` throws in the source; that exhausted-`next()` case is the one covered by the `Next` line above.
- Concurrent use of iterators over one set is out of scope.
