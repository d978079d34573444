/**
 * Instances of a Magma subclass as values: construction from an integer,
 * the binary operation by table lookup, and equality on the value alone.
 */
module Elements {
  import opened Wrappers
  import opened CayleyTable

  /** An instance: its value n and its usegreek display flag. */
  datatype Element = Element(n: nat, greek: bool)

  /**
   * Magma.__init__: an instance exists only for a value in SET; it keeps the
   * value as given and starts with the class default usegreek = False.
   */
  function Construct(d: MagmaDef, n: nat): (r: Result<Element>)
    ensures r.Ok? <==> n in d.elements
    ensures r.Ok? ==> r.value.n == n && !r.value.greek
    ensures r.Err? ==> r.error == InvalidArgument
  {
    if n in d.elements then Ok(Element(n, false)) else Err(InvalidArgument)
  }

  /**
   * Magma.magmaOp (the internal operator &): build an instance from
   * CAYLEY_TABLE[x.n][y.n]; it is greek when either operand is.
   */
  function MagmaOp(d: MagmaDef, x: Element, y: Element): (r: Result<Element>)
    requires Admitted(d)
    ensures r.Ok? <==> x.n < |d.table| && y.n < |d.table|
    ensures r.Ok? ==> r.value.n == d.table[x.n][y.n] && r.value.n in d.elements
    ensures r.Ok? ==> r.value.greek == (x.greek || y.greek)
    ensures r.Err? ==> r.error == IndexOutOfRange
  {
    if x.n < |d.table| && y.n < |d.table[x.n]| then
      CellInElements(d, x.n, y.n);
      var built := Construct(d, d.table[x.n][y.n]);
      Ok(Element(built.value.n, built.value.greek || x.greek || y.greek))
    else
      Err(IndexOutOfRange)
  }

  /** Magma.__eq__: two instances are equal when their values are; the display flag is ignored. */
  predicate Equals(x: Element, y: Element) {
    x.n == y.n
  }

  /**
   * On a well-formed table every instance value indexes the table, so the
   * construction inside magmaOp never fails and & is exactly Prod.
   */
  lemma MagmaOpIsProd(d: MagmaDef, x: Element, y: Element)
    requires WellFormed(d) && x.n in d.elements && y.n in d.elements
    ensures MagmaOp(d, x, y) == Ok(Element(Prod(d, x.n, y.n), x.greek || y.greek))
  {
    OrderBound(d);
  }

  /** Equality of instances is an equivalence relation that ignores the display flag. */
  lemma EqualsIsEquivalence(x: Element, y: Element, z: Element)
    ensures Equals(x, x)
    ensures Equals(x, y) ==> Equals(y, x)
    ensures Equals(x, y) && Equals(y, z) ==> Equals(x, z)
    ensures Equals(x, Element(x.n, !x.greek))
  {
  }
}
