// Result types shared by every decoder.
module Decoding {

  /** A JavaScript value that may be `undefined` (an optional record field). */
  datatype Option<+T> = None | Some(value: T)

  /** A field decoded at some offset, and the offset just after it. */
  datatype Field<T> = Field(value: T, next: nat)

  /**
   * One pass of a reader's loop body: the loop's `break`, a `return
   * undefined`, an exception, or one element and the offset after it.
   */
  datatype Step<T> = Done | Undef | Throw | Read(value: T, next: nat)

  /**
   * The outcome of one of the repository's readers.  `Ok` is a decoded
   * record, `Undefined` the reader's own `return undefined`, and `Thrown` an
   * exception the reader does not catch: a DataView `RangeError` from a read
   * that its code does not bound-check, or an explicit `throw`.
   */
  datatype Decoded<+T> = Ok(value: T) | Undefined | Thrown
  {
    predicate IsFailure() { !Ok? }

    function PropagateFailure<U>(): Decoded<U>
      requires IsFailure()
    {
      if Undefined? then Undefined else Thrown
    }

    function Extract(): T
      requires Ok?
    {
      value
    }
  }

  /** A reader that returns a record or `undefined` and never throws, as a Decoded outcome. */
  function FromOption<T>(x: Option<T>): (r: Decoded<T>)
    ensures r.Ok? <==> x.Some?
    ensures !r.Thrown?
    ensures x.Some? ==> r.value == x.value
  {
    if x.Some? then Ok(x.value) else Undefined
  }

  /**
   * A nested reader's outcome as seen by a caller that keeps only defined
   * results (`if (desc != null) list.push(desc)`): an exception still escapes.
   */
  function Keep<T>(d: Decoded<T>, list: seq<T>): (r: Decoded<seq<T>>)
    ensures d.Ok? ==> r == Ok(list + [d.value])
    ensures d.Undefined? ==> r == Ok(list)
    ensures d.Thrown? <==> r.Thrown?
  {
    match d
    case Ok(v) => Ok(list + [v])
    case Undefined => Ok(list)
    case Thrown => Thrown
  }

  /**
   * A list decoded up to some point followed by the outcome of decoding the
   * rest: the whole list, or the failure that ended the walk.
   */
  function Chain<T>(prefix: seq<T>, rest: Decoded<seq<T>>): (r: Decoded<seq<T>>)
    ensures r.Ok? <==> rest.Ok?
    ensures r.Thrown? <==> rest.Thrown?
    ensures r.Ok? ==> r.value == prefix + rest.value
  {
    match rest
    case Ok(xs) => Ok(prefix + xs)
    case Undefined => Undefined
    case Thrown => Thrown
  }

  lemma {:induction false} ChainEmpty<T>(rest: Decoded<seq<T>>)
    ensures Chain([], rest) == rest
  {
    if rest.Ok? {
      assert [] + rest.value == rest.value;
    }
  }

  lemma {:induction false} ChainDone<T>(prefix: seq<T>)
    ensures Chain(prefix, Ok([])) == Ok(prefix)
  {
    assert prefix + [] == prefix;
  }

  lemma {:induction false} ChainAppend<T>(prefix: seq<T>, x: T, rest: Decoded<seq<T>>)
    ensures Chain(prefix, Chain([x], rest)) == Chain(prefix + [x], rest)
  {
    if rest.Ok? {
      assert prefix + ([x] + rest.value) == prefix + [x] + rest.value;
    }
  }

  /** An element chained before a list chained before the rest is the two chained together. */
  lemma {:induction false} ChainCons<T>(x: T, xs: seq<T>, rest: Decoded<seq<T>>)
    ensures Chain([x], Chain(xs, rest)) == Chain([x] + xs, rest)
  {
    if rest.Ok? {
      assert [x] + (xs + rest.value) == [x] + xs + rest.value;
    }
  }

  /** A list walk that moves one element from what is left to what is done keeps their concatenation. */
  lemma {:induction false} ListStep<T>(prefix: seq<T>, x: T, rest: seq<T>)
    ensures prefix + ([x] + rest) == (prefix + [x]) + rest
  {
  }

  /** Concatenation is associative (stated once so that callers need not prove it pointwise). */
  lemma {:induction false} ConcatAssoc<T>(a: seq<T>, b: seq<T>, c: seq<T>)
    ensures a + (b + c) == (a + b) + c
  {
    assert |a + (b + c)| == |(a + b) + c|;
    forall i | 0 <= i < |a + (b + c)|
      ensures (a + (b + c))[i] == ((a + b) + c)[i]
    {
    }
  }

  /** A reader's outcome paired with where its cursor stopped, to compare with a Field-valued specification. */
  function WithNext<T>(r: Decoded<T>, next: nat): (f: Decoded<Field<T>>)
    ensures f.Ok? <==> r.Ok?
    ensures f.Thrown? <==> r.Thrown?
    ensures f.Ok? ==> f.value == Field(r.value, next)
  {
    match r
    case Ok(v) => Ok(Field(v, next))
    case Undefined => Undefined
    case Thrown => Thrown
  }
}
