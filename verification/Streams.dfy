/** Items written one after another by a writer with state, and a reader with
    state of its own that takes them off until one says stop. */
module Streams {
  import opened ByteOrder
  import opened WireInts

  /** What the reader makes of the next item. */
  datatype Turn<Y, R> = More(next: Y) | Stop(result: R)

  function PutAll<X, E>(put: (X, E, bytes) -> bytes, step: (X, E) -> X, x: X, es: seq<E>, end: bytes): bytes
    decreases |es|
  {
    if es == [] then end else put(x, es[0], PutAll(put, step, step(x, es[0]), es[1..], end))
  }

  /** The writer's state after the items. */
  function Feed<X, E>(step: (X, E) -> X, x: X, es: seq<E>): X
    decreases |es|
  {
    if es == [] then x else Feed(step, step(x, es[0]), es[1..])
  }

  /** What every item keeps, a whole reading keeps. */
  lemma {:induction false} AllKeep<Y(!new), R(!new)>(get: (Y, bytes) -> Parse<Turn<Y, R>>, inv: Y -> bool, y: Y, s: bytes)
    requires Shrinks(get) && inv(y)
    requires forall y, s :: inv(y) && get(y, s).Got? && get(y, s).value.More? ==> inv(get(y, s).value.next)
    ensures GetAll(get, y, s).Got? ==> inv(GetAll(get, y, s).value.0)
    decreases |s|
  {
    var r := get(y, s);
    if r.Got? && r.value.More? { AllKeep(get, inv, r.value.next, r.rest); }
  }

  /** Every item uses up something. */
  ghost predicate Shrinks<Y(!new), R(!new)>(get: (Y, bytes) -> Parse<Turn<Y, R>>) {
    forall y, s :: get(y, s).Got? ==> |get(y, s).rest| < |s|
  }

  function GetAll<Y(!new), R(!new)>(get: (Y, bytes) -> Parse<Turn<Y, R>>, y: Y, s: bytes): Parse<(Y, R)>
    requires Shrinks(get)
    decreases |s|
  {
    var r := get(y, s);
    if r.IsFailure() then r.PropagateFailure()
    else
      match r.value
      case Stop(result) => Got((y, result), r.rest)
      case More(next) => GetAll(get, next, r.rest)
  }

  /** The writer may write e now. */
  ghost predicate AllOk<X, E>(ok: (X, E) -> bool, step: (X, E) -> X, x: X, es: seq<E>)
    decreases |es|
  {
    es == [] || (ok(x, es[0]) && AllOk(ok, step, step(x, es[0]), es[1..]))
  }

  /** From related states, one item goes over and leaves related states. */
  ghost predicate Faithful<X(!new), Y(!new), E(!new), R(!new)>(put: (X, E, bytes) -> bytes, step: (X, E) -> X,
                                                               get: (Y, bytes) -> Parse<Turn<Y, R>>,
                                                               rel: (X, Y) -> bool, ok: (X, E) -> bool)
  {
    forall x, y, e, tail :: rel(x, y) && ok(x, e) ==> Taken(get, y, put(x, e, tail), tail, step(x, e), rel)
  }

  ghost predicate Taken<X(!new), Y(!new), R(!new)>(get: (Y, bytes) -> Parse<Turn<Y, R>>, y: Y, s: bytes, tail: bytes,
                                                   x': X, rel: (X, Y) -> bool)
  {
    var r := get(y, s);
    r.Got? && r.value.More? && r.rest == tail && rel(x', r.value.next)
  }

  /** Then all items go over, and the reader stops where the writer did. */
  lemma {:induction false} AllTaken<X(!new), Y(!new), E(!new), R(!new)>(
      put: (X, E, bytes) -> bytes, step: (X, E) -> X, get: (Y, bytes) -> Parse<Turn<Y, R>>,
      rel: (X, Y) -> bool, ok: (X, E) -> bool, x: X, y: Y, es: seq<E>, end: bytes, result: R, tail: bytes) returns (y': Y)
    requires Shrinks(get) && Faithful(put, step, get, rel, ok) && rel(x, y) && AllOk(ok, step, x, es)
    requires forall z :: get(z, end) == Got(Stop(result), tail)
    ensures rel(Feed(step, x, es), y')
    ensures GetAll(get, y, PutAll(put, step, x, es, end)) == Got((y', result), tail)
    decreases |es|
  {
    if es == [] {
      y' := y;
      assert get(y, end) == Got(Stop(result), tail);
    } else {
      var after := PutAll(put, step, step(x, es[0]), es[1..], end);
      var s := put(x, es[0], after);
      assert Taken(get, y, s, after, step(x, es[0]), rel);
      y' := AllTaken(put, step, get, rel, ok, step(x, es[0]), get(y, s).value.next, es[1..], end, result, tail);
    }
  }

  /** The items from i on: one, and then those from i + 1 on. */
  lemma PutAllStep<X, E>(put: (X, E, bytes) -> bytes, step: (X, E) -> X, x: X, es: seq<E>, i: nat, end: bytes)
    requires i < |es|
    ensures PutAll(put, step, x, es[i..], end) == put(x, es[i], PutAll(put, step, step(x, es[i]), es[i + 1..], end))
    ensures Feed(step, x, es[i..]) == Feed(step, step(x, es[i]), es[i + 1..])
  {
    assert es[i..][1..] == es[i + 1..];
  }
}
