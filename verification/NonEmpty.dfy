/** Sequences that cannot be empty. */
module NonEmptySeq {
  import opened Wrappers

  datatype NonEmptyError = Empty

  datatype NonEmpty<+T> = NonEmpty(head: T, tail: seq<T>) {
    /** All the values, head first. */
    function ToSeq(): (values: seq<T>)
      ensures |values| == Len() && values[0] == head && values[1..] == tail
    {
      [head] + tail
    }

    function Len(): nat {
      1 + |tail|
    }
  }

  function Single<T>(head: T): NonEmpty<T> {
    NonEmpty(head, [])
  }

  function FromSeq<T>(values: seq<T>): Result<NonEmpty<T>, NonEmptyError> {
    if values == [] then Err(Empty) else Ok(NonEmpty(values[0], values[1..]))
  }

  /** `FromSeq` fails on the empty sequence alone, and is otherwise the inverse of `ToSeq`. */
  lemma FromSeqInvertsToSeq<T>(values: seq<T>, n: NonEmpty<T>)
    ensures FromSeq(values) == Ok(n) <==> n.ToSeq() == values
    ensures FromSeq(values).Err? <==> values == []
  {
    if n.ToSeq() == values {
      assert values[1..] == n.tail;
    }
  }

  /** Removes the first value from a vector of its own and keeps what remains as the tail. */
  method TryFromVec<T>(values: seq<T>) returns (r: Result<NonEmpty<T>, NonEmptyError>)
    ensures r == FromSeq(values)
    ensures r.Ok? ==> r.value.ToSeq() == values
  {
    var remaining := values;
    if remaining == [] {
      return Err(Empty);
    }
    var head := remaining[0];
    remaining := remaining[1..];
    return Ok(NonEmpty(head, remaining));
  }

  /** Yields the head once and then the tail in order. */
  class NonEmptyIterator<T> {
    var head: Option<T>
    var tail: seq<T>

    constructor (values: NonEmpty<T>)
      ensures Remaining() == values.ToSeq()
    {
      head := Some(values.head);
      tail := values.tail;
    }

    ghost function Remaining(): seq<T>
      reads this
    {
      (if head.Some? then [head.value] else []) + tail
    }

    method Next() returns (r: Option<T>)
      modifies this
      ensures old(Remaining()) == [] ==> r.None? && Remaining() == []
      ensures old(Remaining()) != [] ==> r == Some(old(Remaining())[0]) && Remaining() == old(Remaining())[1..]
    {
      if head.Some? {
        r := head;
        head := None;
      } else if tail == [] {
        r := None;
      } else {
        r := Some(tail[0]);
        tail := tail[1..];
      }
    }
  }

  /** Running the iterator dry yields every value exactly once, in order. */
  method Collect<T>(values: NonEmpty<T>) returns (all: seq<T>)
    ensures all == values.ToSeq()
  {
    var cursor := new NonEmptyIterator(values);
    all := [];
    var next := cursor.Next();
    while next.Some?
      invariant next.Some? ==> all + [next.value] + cursor.Remaining() == values.ToSeq()
      invariant next.None? ==> all == values.ToSeq()
      decreases next.Some?, |cursor.Remaining()|
    {
      ghost var remaining := cursor.Remaining();
      all := all + [next.value];
      next := cursor.Next();
      assert remaining != [] ==> remaining == [remaining[0]] + remaining[1..];
    }
  }
}
