/** Pushing data points in batches cut from one shared source. */
module Batches {
  import opened Basics

  class SharedIterator<T> {
    const items: seq<T>
    var position: nat

    ghost predicate Valid()
      reads this
    {
      position <= |items|
    }

    constructor (items: seq<T>)
      ensures this.items == items && position == 0
    {
      this.items, position := items, 0;
    }

    method Next() returns (item: Option<T>)
      requires Valid()
      modifies this
      ensures Valid()
      ensures if old(position) < |items| then item == Some(items[old(position)]) && position == old(position) + 1
              else item == None && position == old(position)
    {
      if position == |items| {
        return None;
      }
      item := Some(items[position]);
      position := position + 1;
    }
  }

  function Flatten<T>(batches: seq<seq<T>>): seq<T> {
    if batches == [] then [] else Flatten(batches[..|batches| - 1]) + batches[|batches| - 1]
  }

  /** The items in order, in batches of exactly `size` but for the last, which may be shorter. */
  ghost predicate IsBatching<T>(batches: seq<seq<T>>, items: seq<T>, size: int) {
    && Flatten(batches) == items
    && forall i | 0 <= i < |batches| :: 0 < |batches[i]| <= size && (i < |batches| - 1 ==> |batches[i]| == size)
  }

  /** There are as many batches as the quotient rounded up. */
  lemma {:induction false} BatchCount<T>(batches: seq<seq<T>>, items: seq<T>, size: int)
    requires IsBatching(batches, items, size)
    ensures batches == [] <==> items == []
    ensures batches != [] ==> size * (|batches| - 1) < |items| <= size * |batches|
  {
    if batches != [] {
      var n := |batches| - 1;
      var init := batches[..n];
      FullBatches(init, size);
      assert |items| == size * n + |batches[n]|;
      assert size * (n + 1) == size * n + size;
    }
  }

  /** The k-th item is in the batch it belongs to by its index. */
  lemma {:induction false} BatchAt<T>(batches: seq<seq<T>>, items: seq<T>, size: int, i: nat, j: nat)
    requires IsBatching(batches, items, size) && i < |batches| && j < |batches[i]|
    ensures 0 <= size * i + j < |items| && items[size * i + j] == batches[i][j]
    decreases |batches|
  {
    var n := |batches| - 1;
    FullBatches(batches[..n], size);
    assert size * i >= 0;
    if i < n {
      BatchAt(batches[..n], Flatten(batches[..n]), size, i, j);
    }
  }

  lemma {:induction false} FullBatches<T>(batches: seq<seq<T>>, size: int)
    requires forall i | 0 <= i < |batches| :: |batches[i]| == size
    ensures |Flatten(batches)| == size * |batches|
  {
    if batches != [] {
      FullBatches(batches[..|batches| - 1], size);
      assert size * |batches| == size * (|batches| - 1) + size;
    }
  }

  /** Draining one chunk: the element the outer loop took, and up to `size - 1` more from the same source.
      A size below one is refused by the slice, after the first element was taken. */
  method DrainChunk<T>(source: SharedIterator<T>, first: T, size: int) returns (chunk: Option<seq<T>>)
    requires source.Valid()
    modifies source
    ensures source.Valid() && old(source.position) <= source.position
    ensures size < 1 ==> chunk == None
    ensures size >= 1 ==> chunk == Some([first] + source.items[old(source.position)..source.position])
                          && |chunk.value| <= size && (|chunk.value| < size ==> source.position == |source.items|)
  {
    if size - 1 < 0 {
      return None;
    }
    ghost var start := source.position;
    assert source.items[start..start] == [];
    var batch := [first];
    var more := true;
    while |batch| < size && more
      invariant source.Valid() && start <= source.position && |batch| <= size
      invariant batch == [first] + source.items[start..source.position]
      invariant !more ==> source.position == |source.items|
      decreases |source.items| - source.position, more
    {
      var item := source.Next();
      if item == None {
        more := false;
      } else {
        assert source.items[start..source.position] == source.items[start..source.position - 1] + [item.value];
        batch := batch + [item.value];
      }
    }
    chunk := Some(batch);
  }

  /** Every batch is drained and posted before the next one is begun. */
  method Push<T>(data: seq<T>, size: int) returns (posted: seq<seq<T>>, ok: bool)
    ensures ok <==> size >= 1 || data == []
    ensures if ok then IsBatching(posted, data, size) else posted == []
  {
    var source := new SharedIterator(data);
    posted, ok := [], true;
    var first := source.Next();
    while first.Some? && ok
      invariant source.Valid() && source.items == data && (first.Some? ==> source.position > 0)
      invariant ok ==> first == (if |Flatten(posted)| < |data| then Some(data[|Flatten(posted)|]) else None)
      invariant ok ==> source.position == |Flatten(posted)| + (if first.Some? then 1 else 0)
      invariant ok ==> Flatten(posted) == data[..|Flatten(posted)|]
      invariant size < 1 ==> posted == []
      invariant !ok ==> size < 1 && data != []
      invariant forall i | 0 <= i < |posted| ::
                0 < |posted[i]| <= size && (i < |posted| - 1 || first.Some? ==> |posted[i]| == size)
      decreases |data| - |Flatten(posted)|, ok
    {
      var chunk := DrainChunk(source, first.value, size);
      if chunk == None {
        ok := false;
      } else {
        posted := posted + [chunk.value];
        first := source.Next();
      }
    }
  }
}
