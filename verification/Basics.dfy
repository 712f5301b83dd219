/** Vocabulary shared by every module of the model. */
module Basics {

  datatype Option<+T> = None | Some(value: T)

  /** A string that the program only ever compares: it stands for its place in an
      abstract total order, with the empty string first. */
  type Text = nat

  const EMPTY_TEXT: Text := 0

  /** JavaScript's `a ?? b` on an optional value. */
  function Coalesce<T>(a: Option<T>, b: Option<T>): Option<T> {
    if a.Some? then a else b
  }

  /** The batches of a stream, one after another. */
  function Flatten<T>(batches: seq<seq<T>>): seq<T> {
    if batches == [] then [] else batches[0] + Flatten(batches[1..])
  }

  lemma {:induction false} FlattenAppend<T>(batches: seq<seq<T>>, last: seq<T>)
    ensures Flatten(batches + [last]) == Flatten(batches) + last
  {
    if batches != [] {
      assert (batches + [last])[1..] == batches[1..] + [last];
      FlattenAppend(batches[1..], last);
    }
  }

  /** Every batch holds between one and `size` elements. */
  predicate Bounded<T>(batches: seq<seq<T>>, size: nat) {
    forall i :: 0 <= i < |batches| ==> 1 <= |batches[i]| <= size
  }

  /** A stream being cut into batches: those that have been yielded, and the one being filled. */
  predicate Collected<T(==)>(batches: seq<seq<T>>, batch: seq<T>, size: nat, all: seq<T>) {
    Flatten(batches) + batch == all && Bounded(batches, size) && |batch| < size
  }

  /** Adds one element; a full batch is yielded. */
  method Collect<T(==)>(batches: seq<seq<T>>, batch: seq<T>, element: T, size: nat, ghost all: seq<T>)
    returns (batches': seq<seq<T>>, batch': seq<T>)
    requires Collected(batches, batch, size, all)
    ensures Collected(batches', batch', size, all + [element])
  {
    batches', batch' := batches, batch + [element];
    assert Flatten(batches) + batch + [element] == Flatten(batches) + (batch + [element]);
    if |batch'| >= size {
      FlattenAppend(batches, batch');
      batches', batch' := batches + [batch'], [];
      assert Flatten(batches') + batch' == Flatten(batches');
    }
  }

  /** At the end of the stream the last batch is yielded, unless it is empty. */
  method CollectRest<T(==)>(batches: seq<seq<T>>, batch: seq<T>, size: nat, ghost all: seq<T>) returns (batches': seq<seq<T>>)
    requires Collected(batches, batch, size, all)
    ensures Flatten(batches') == all && Bounded(batches', size)
  {
    batches' := batches;
    if |batch| > 0 {
      FlattenAppend(batches, batch);
      batches' := batches + [batch];
    }
  }

  /** A generated id: one that none of those issued before equals. */
  lemma {:induction false} FreshId(issued: set<nat>) returns (id: nat)
    ensures forall k :: k in issued ==> k < id
    decreases |issued|
  {
    if issued == {} {
      id := 0;
    } else {
      var k :| k in issued;
      var rest := FreshId(issued - {k});
      id := Max(rest, k + 1);
      assert forall j :: j in issued ==> j == k || j in issued - {k};
    }
  }

  function Min(a: int, b: int): int {
    if a <= b then a else b
  }

  function Max(a: int, b: int): int {
    if a <= b then b else a
  }
}
