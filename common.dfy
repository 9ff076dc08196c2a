/** Small shared vocabulary: optional values, results with an error side,
    absolute values and the "first minimal element" selection that Python's
    `min(iterable, key=...)` performs. */
module Common {

  datatype Option<T> = None | Some(value: T)

  /** A computation that either yields a value or stops with an error
      (an exception the source does not catch). */
  datatype Result<T, E> = Ok(value: T) | Err(error: E)

  function Abs(x: int): nat {
    if x < 0 then -x else x
  }

  function AbsReal(x: real): real {
    if x < 0.0 then -x else x
  }

  /** `keys[i]` is the least of `keys`, and every earlier key is larger. */
  predicate IsFirstMin(keys: seq<real>, i: nat) {
    && i < |keys|
    && (forall k :: 0 <= k < |keys| ==> keys[i] <= keys[k])
    && (forall k :: 0 <= k < i ==> keys[i] < keys[k])
  }

  /** Position of the element `min(xs, key=...)` returns, given the keys of
      `xs` in order: the scan keeps the current best and replaces it only by a
      strictly smaller key, so on a tie the element met first wins. */
  function FirstArgMin(keys: seq<real>): (i: nat)
    requires |keys| > 0
    ensures IsFirstMin(keys, i)
  {
    if |keys| == 1 then 0
    else
      var best := FirstArgMin(keys[..|keys| - 1]);
      if keys[|keys| - 1] < keys[best] then |keys| - 1 else best
  }

  /** The first-wins minimum is unique: whatever position has the least key
      and beats every earlier one is the position `FirstArgMin` picks. */
  lemma FirstMinIsUnique(keys: seq<real>, i: nat, j: nat)
    requires IsFirstMin(keys, i) && IsFirstMin(keys, j)
    ensures i == j
  {
    assert keys[i] == keys[j];
  }
}
