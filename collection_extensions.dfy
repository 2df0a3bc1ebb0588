/** Collection+TexturedMaaku: bounds-checked subscripting. */
module CollectionExtensions {
  import opened Foundation

  /** `xs[safe: index]`: the element at `index` when it is a valid index, nothing otherwise. */
  function SafeAt<T>(xs: seq<T>, index: int): (r: Option<T>)
    ensures r.Some? <==> 0 <= index < |xs|
    ensures r.Some? ==> r.value == xs[index]
  {
    if 0 <= index < |xs| then Some(xs[index]) else None
  }

  /** Safe subscripting agrees with plain subscripting on every valid index, and only there. */
  lemma SafeAtAgreesWithIndexing<T>(xs: seq<T>)
    ensures forall i :: 0 <= i < |xs| ==> SafeAt(xs, i) == Some(xs[i])
    ensures forall i :: i < 0 || |xs| <= i ==> SafeAt(xs, i) == None
  {
  }

  lemma SafeAtExamples()
    ensures SafeAt([1, 2, 3], 0) == Some(1)
    ensures SafeAt([1, 2, 3], 1) == Some(2)
    ensures SafeAt([1, 2, 3], 2) == Some(3)
    ensures SafeAt([1, 2, 3], 4) == None
    ensures SafeAt([1, 2, 3], -1) == None
  {
  }
}
