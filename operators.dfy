/**
 * The class-wide choice of the public operator: `*` (mode "mult", the
 * default) or `+` (mode "add"). The other operator yields None.
 */
module Operators {
  import opened Wrappers
  import opened CayleyTable
  import opened Elements

  datatype Mode = Multiplicative | Additive

  /** A Magma subclass at run time: its constants and its mutable __magma_operator. */
  class MagmaClass {
    const def: MagmaDef
    var mode: Mode

    constructor (d: MagmaDef)
      requires Admitted(d)
      ensures def == d && mode == Multiplicative
    {
      def := d;
      mode := Multiplicative;
    }

    /** setMagmaOperator: "mult" and "add" select a mode; any other string leaves the mode as it was. */
    method SetMagmaOperator(op: string)
      modifies this`mode
      ensures mode == (if op == "mult" then Multiplicative else if op == "add" then Additive else old(mode))
    {
      if op == "mult" {
        mode := Multiplicative;
      } else if op == "add" {
        mode := Additive;
      }
    }

    /** __mul__: the product when the class is in "mult" mode, None otherwise. */
    function Mul(x: Element, y: Element): (r: Option<Result<Element>>)
      reads this
      requires Admitted(def)
      ensures r.Some? <==> mode == Multiplicative
      ensures r.Some? ==> r.value == MagmaOp(def, x, y)
    {
      if mode == Multiplicative then Some(MagmaOp(def, x, y)) else None
    }

    /** __add__: the product when the class is in "add" mode, None otherwise. */
    function Add(x: Element, y: Element): (r: Option<Result<Element>>)
      reads this
      requires Admitted(def)
      ensures r.Some? <==> mode == Additive
      ensures r.Some? ==> r.value == MagmaOp(def, x, y)
    {
      if mode == Additive then Some(MagmaOp(def, x, y)) else None
    }
  }

  /** In every state exactly one of `*` and `+` yields the product. */
  lemma ExactlyOneOperator(c: MagmaClass, x: Element, y: Element)
    requires Admitted(c.def)
    ensures c.Mul(x, y).Some? != c.Add(x, y).Some?
  {
  }
}
