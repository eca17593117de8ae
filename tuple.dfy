/** The accumulator a worker pushes statistic results into. A result of any
    arity is kept whole, so the values of one invocation stay aligned across
    fields by construction. */
module Tuple {

  /** Concatenation of a sequence of chunks, in order. */
  function Flatten<T>(chunks: seq<seq<T>>): seq<T>
  {
    if chunks == [] then [] else Flatten(chunks[..|chunks| - 1]) + chunks[|chunks| - 1]
  }

  /** Flattening a non-empty sequence of chunks appends the last chunk to the
      flattened rest. */
  lemma FlattenLast<T>(chunks: seq<seq<T>>)
    requires chunks != []
    ensures Flatten(chunks) == Flatten(chunks[..|chunks| - 1]) + chunks[|chunks| - 1]
  {
  }

  /** Flattening commutes with concatenation, so merging builders one by one
      gives the same sequence however the merges are grouped. */
  lemma {:induction false} FlattenAppend<T>(xs: seq<seq<T>>, ys: seq<seq<T>>)
    ensures Flatten(xs + ys) == Flatten(xs) + Flatten(ys)
    decreases |ys|
  {
    if ys != [] {
      var m := |ys| - 1;
      assert (xs + ys)[..|xs + ys| - 1] == xs + ys[..m];
      FlattenAppend(xs, ys[..m]);
    } else {
      assert xs + ys == xs;
    }
  }

  /** A growable sequence of statistic results. */
  class Builder<T> {
    /** The capacity reserved at construction; it bounds nothing. */
    const capacity: nat
    var items: seq<T>

    constructor (capacity: nat)
      ensures this.capacity == capacity && items == []
    {
      this.capacity := capacity;
      items := [];
    }

    /** Appends one result. */
    method Push(x: T)
      modifies this
      ensures items == old(items) + [x]
    {
      items := items + [x];
    }

    /** Moves all of `other`'s results to the end of this builder, in order. */
    method Extend(other: Builder<T>)
      requires other != this
      modifies this, other
      ensures items == old(items) + old(other.items)
      ensures other.items == []
    {
      items := items + other.items;
      other.items := [];
    }
  }
}
