/**
 * The class-level constants of a Magma subclass: CAYLEY_TABLE, and the SET
 * and ORDER that the metaclass derives from it when the subclass is declared.
 */
module CayleyTable {
  import opened Wrappers

  type Table = seq<seq<nat>>

  /** CAYLEY_TABLE, SET and ORDER of one Magma subclass. */
  datatype MagmaDef = MagmaDef(table: Table, elements: set<nat>, order: nat)

  /** Every row is as long as the table has rows. */
  predicate Square(t: Table) {
    forall i | 0 <= i < |t| :: |t[i]| == |t|
  }

  function RowEntries(row: seq<nat>): set<nat> {
    set x | x in row
  }

  /** All distinct values written in the table, collected row by row. */
  function Entries(t: Table): set<nat> {
    if t == [] then {} else Entries(t[..|t| - 1]) + RowEntries(t[|t| - 1])
  }

  /** What the metaclass stores for an accepted table: SET is the set of entries, ORDER its size. */
  function Definition(t: Table): MagmaDef {
    var s := Entries(t);
    MagmaDef(t, s, |s|)
  }

  /** The definition a successful declaration leaves behind. */
  predicate Admitted(d: MagmaDef) {
    Square(d.table) && d.elements == Entries(d.table) && d.order == |d.elements|
  }

  /**
   * The tables on which the law checkers run without raising: square, every
   * entry a valid row/column index, and SET == {0, ..., ORDER - 1}.
   */
  ghost predicate WellFormed(d: MagmaDef) {
    Admitted(d)
    && (forall i, j | 0 <= i < |d.table| && 0 <= j < |d.table[i]| :: d.table[i][j] < |d.table|)
    && (forall x: nat :: x in d.elements <==> x < d.order)
  }

  /** A value is an entry exactly when it is written in some cell. */
  lemma {:induction false} InEntries(t: Table, x: nat)
    ensures x in Entries(t) <==> exists i, j | 0 <= i < |t| && 0 <= j < |t[i]| :: t[i][j] == x
  {
    if t != [] {
      var init := t[..|t| - 1];
      InEntries(init, x);
      if x in Entries(t) && x !in Entries(init) {
        assert x in t[|t| - 1];
        var j :| 0 <= j < |t[|t| - 1]| && t[|t| - 1][j] == x;
        assert t[|t| - 1][j] == x;
      }
      if exists i, j | 0 <= i < |t| && 0 <= j < |t[i]| :: t[i][j] == x {
        var i, j :| 0 <= i < |t| && 0 <= j < |t[i]| && t[i][j] == x;
        if i < |t| - 1 {
          assert init[i][j] == x;
        } else {
          assert t[|t| - 1][j] in RowEntries(t[|t| - 1]);
        }
      }
    }
  }

  /** Every cell's value is in SET. */
  lemma CellInElements(d: MagmaDef, i: nat, j: nat)
    requires Admitted(d) && i < |d.table| && j < |d.table[i]|
    ensures d.table[i][j] in d.elements
  {
    InEntries(d.table, d.table[i][j]);
  }

  /** On a well-formed table, ORDER never exceeds the number of rows. */
  lemma OrderBound(d: MagmaDef)
    requires WellFormed(d)
    ensures d.order <= |d.table|
  {
    if d.order > 0 {
      var top := d.order - 1;
      assert top in d.elements;
      InEntries(d.table, top);
    }
  }

  /** The table lookup behind x & y, on indices below ORDER of a well-formed table. */
  function Prod(d: MagmaDef, x: nat, y: nat): (r: nat)
    requires WellFormed(d) && x < d.order && y < d.order
    ensures r < d.order
  {
    OrderBound(d);
    CellInElements(d, x, y);
    d.table[x][y]
  }

  /**
   * MagmaMeta.__new__: a subclass without a table is refused; then every row
   * is checked against the table's length; then SET is collected entry by
   * entry and ORDER is its size.
   */
  method Admit(declared: Option<Table>) returns (r: Result<MagmaDef>)
    ensures declared.None? ==> r == Err(MissingTable)
    ensures declared.Some? ==> (r.Err? <==> !Square(declared.value))
    ensures declared.Some? && r.Err? ==> r.error == NonSquareTable
    ensures r.Ok? ==> r.value.table == declared.value && Admitted(r.value)
  {
    if declared.None? {
      return Err(MissingTable);
    }
    var t := declared.value;
    for i := 0 to |t|
      invariant forall k | 0 <= k < i :: |t[k]| == |t|
    {
      if |t[i]| != |t| {
        return Err(NonSquareTable);
      }
    }
    var s: set<nat> := {};
    for i := 0 to |t|
      invariant s == Entries(t[..i])
    {
      var row := t[i];
      for j := 0 to |row|
        invariant s == Entries(t[..i]) + RowEntries(row[..j])
      {
        assert row[..j + 1] == row[..j] + [row[j]];
        s := s + {row[j]};
      }
      assert row[..|row|] == row;
      assert t[..i + 1][..i] == t[..i];
    }
    assert t[..|t|] == t;
    return Ok(MagmaDef(t, s, |s|));
  }
}
