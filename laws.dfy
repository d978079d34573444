/**
 * The law engine: every plain law checker of Magma is a loop nest over
 * range(ORDER) that returns False at the first tuple breaking its identity.
 * Each law is given here as a predicate on one tuple (the *At predicates),
 * the bounded quantifier over all tuples, and the loop method proved equal
 * to that quantifier. The tests are written as the Python code evaluates
 * them, including where that differs from the textbook law.
 */
module Laws {
  import opened Wrappers
  import opened CayleyTable

  /** isCommutative: x & y == y & x for every pair. */
  predicate CommutesAt(d: MagmaDef, x: nat, y: nat)
    requires WellFormed(d) && x < d.order && y < d.order
  {
    Prod(d, x, y) == Prod(d, y, x)
  }

  predicate Commutative(d: MagmaDef)
    requires WellFormed(d)
  {
    forall x: nat, y: nat | x < d.order && y < d.order :: CommutesAt(d, x, y)
  }

  /** isAssociative: (x & y) & z == x & (y & z) for every triple. */
  predicate AssociatesAt(d: MagmaDef, x: nat, y: nat, z: nat)
    requires WellFormed(d) && x < d.order && y < d.order && z < d.order
  {
    Prod(d, Prod(d, x, y), z) == Prod(d, x, Prod(d, y, z))
  }

  predicate Associative(d: MagmaDef)
    requires WellFormed(d)
  {
    forall x: nat, y: nat, z: nat | x < d.order && y < d.order && z < d.order :: AssociatesAt(d, x, y, z)
  }

  /** isSelfDistributive: x & (y & z) == (x & y) & (x & z) for every triple. */
  predicate SelfDistributesAt(d: MagmaDef, x: nat, y: nat, z: nat)
    requires WellFormed(d) && x < d.order && y < d.order && z < d.order
  {
    Prod(d, x, Prod(d, y, z)) == Prod(d, Prod(d, x, y), Prod(d, x, z))
  }

  predicate SelfDistributive(d: MagmaDef)
    requires WellFormed(d)
  {
    forall x: nat, y: nat, z: nat | x < d.order && y < d.order && z < d.order :: SelfDistributesAt(d, x, y, z)
  }

  /** isParamedial: (a & x) & (y & b) == (b & x) & (y & a) for every x, y, a, b. */
  predicate ParamedialAt(d: MagmaDef, x: nat, y: nat, a: nat, b: nat)
    requires WellFormed(d) && x < d.order && y < d.order && a < d.order && b < d.order
  {
    Prod(d, Prod(d, a, x), Prod(d, y, b)) == Prod(d, Prod(d, b, x), Prod(d, y, a))
  }

  predicate Paramedial(d: MagmaDef)
    requires WellFormed(d)
  {
    forall x: nat, y: nat, a: nat, b: nat | x < d.order && y < d.order && a < d.order && b < d.order :: ParamedialAt(d, x, y, a, b)
  }

  /** isFlexible: x & (y & x) == (x & y) & x for every pair. */
  predicate FlexibleAt(d: MagmaDef, x: nat, y: nat)
    requires WellFormed(d) && x < d.order && y < d.order
  {
    Prod(d, x, Prod(d, y, x)) == Prod(d, Prod(d, x, y), x)
  }

  predicate Flexible(d: MagmaDef)
    requires WellFormed(d)
  {
    forall x: nat, y: nat | x < d.order && y < d.order :: FlexibleAt(d, x, y)
  }

  /** isJordan: ((x & x) & y) & x == (x & x) & (y & x) for every pair. */
  predicate JordanAt(d: MagmaDef, x: nat, y: nat)
    requires WellFormed(d) && x < d.order && y < d.order
  {
    Prod(d, Prod(d, Prod(d, x, x), y), x) == Prod(d, Prod(d, x, x), Prod(d, y, x))
  }

  predicate Jordan(d: MagmaDef)
    requires WellFormed(d)
  {
    forall x: nat, y: nat | x < d.order && y < d.order :: JordanAt(d, x, y)
  }

  /** isAlternative as Python parses its test `not L and R`: a pair fails only when the
   * left law (x & x) & y == x & (x & y) is broken while the right law x & (y & y) == (x & y) & y holds. */
  predicate AlternativeAt(d: MagmaDef, x: nat, y: nat)
    requires WellFormed(d) && x < d.order && y < d.order
  {
    !(Prod(d, Prod(d, x, x), y) != Prod(d, x, Prod(d, x, y)) && Prod(d, x, Prod(d, y, y)) == Prod(d, Prod(d, x, y), y))
  }

  predicate Alternative(d: MagmaDef)
    requires WellFormed(d)
  {
    forall x: nat, y: nat | x < d.order && y < d.order :: AlternativeAt(d, x, y)
  }

  /** isExtra as written: a triple fails when ((x & y) & z) & x == x & (y & (z & x)),
   * so the check holds only when that identity is broken at every triple. */
  predicate ExtraAt(d: MagmaDef, x: nat, y: nat, z: nat)
    requires WellFormed(d) && x < d.order && y < d.order && z < d.order
  {
    Prod(d, Prod(d, Prod(d, x, y), z), x) != Prod(d, x, Prod(d, y, Prod(d, z, x)))
  }

  predicate Extra(d: MagmaDef)
    requires WellFormed(d)
  {
    forall x: nat, y: nat, z: nat | x < d.order && y < d.order && z < d.order :: ExtraAt(d, x, y, z)
  }

  /** isLeftBol: y & (z & (y & x)) == (y & (z & y)) & x for every triple. */
  predicate LeftBolAt(d: MagmaDef, x: nat, y: nat, z: nat)
    requires WellFormed(d) && x < d.order && y < d.order && z < d.order
  {
    Prod(d, y, Prod(d, z, Prod(d, y, x))) == Prod(d, Prod(d, y, Prod(d, z, y)), x)
  }

  predicate LeftBol(d: MagmaDef)
    requires WellFormed(d)
  {
    forall x: nat, y: nat, z: nat | x < d.order && y < d.order && z < d.order :: LeftBolAt(d, x, y, z)
  }

  /** isRightBol: ((x & y) & z) & y == x & ((y & z) & y) for every triple. */
  predicate RightBolAt(d: MagmaDef, x: nat, y: nat, z: nat)
    requires WellFormed(d) && x < d.order && y < d.order && z < d.order
  {
    Prod(d, Prod(d, Prod(d, x, y), z), y) == Prod(d, x, Prod(d, Prod(d, y, z), y))
  }

  predicate RightBol(d: MagmaDef)
    requires WellFormed(d)
  {
    forall x: nat, y: nat, z: nat | x < d.order && y < d.order && z < d.order :: RightBolAt(d, x, y, z)
  }

  /** isMedial: (x & y) & (u & v) == (x & u) & (y & v) for every x, y, u, v. */
  predicate MedialAt(d: MagmaDef, x: nat, y: nat, u: nat, v: nat)
    requires WellFormed(d) && x < d.order && y < d.order && u < d.order && v < d.order
  {
    Prod(d, Prod(d, x, y), Prod(d, u, v)) == Prod(d, Prod(d, x, u), Prod(d, y, v))
  }

  predicate Medial(d: MagmaDef)
    requires WellFormed(d)
  {
    forall x: nat, y: nat, u: nat, v: nat | x < d.order && y < d.order && u < d.order && v < d.order :: MedialAt(d, x, y, u, v)
  }

  /** isZeropotent as Python parses its test `not L and R`: a pair fails only when
   * (x & x) & y == (y & y) & x is broken while (x & x) & y == x & x holds. */
  predicate ZeropotentAt(d: MagmaDef, x: nat, y: nat)
    requires WellFormed(d) && x < d.order && y < d.order
  {
    !(Prod(d, Prod(d, x, x), y) != Prod(d, Prod(d, y, y), x) && Prod(d, Prod(d, x, x), y) == Prod(d, x, x))
  }

  predicate Zeropotent(d: MagmaDef)
    requires WellFormed(d)
  {
    forall x: nat, y: nat | x < d.order && y < d.order :: ZeropotentAt(d, x, y)
  }

  /** isCommutative: the loops stop at the first failing tuple. */
  method IsCommutative(d: MagmaDef) returns (holds: bool)
    requires WellFormed(d)
    ensures holds == Commutative(d)
  {
    for x := 0 to d.order
      invariant forall x': nat, y': nat | x' < x && y' < d.order :: CommutesAt(d, x', y')
    {
      for y := 0 to d.order
        invariant forall y': nat | y' < y :: CommutesAt(d, x, y')
      {
        if !(Prod(d, x, y) == Prod(d, y, x)) {
          assert !CommutesAt(d, x, y);
          return false;
        }
      }
    }
    return true;
  }

  /** isAssociative: the loops stop at the first failing tuple. */
  method IsAssociative(d: MagmaDef) returns (holds: bool)
    requires WellFormed(d)
    ensures holds == Associative(d)
  {
    for x := 0 to d.order
      invariant forall x': nat, y': nat, z': nat | x' < x && y' < d.order && z' < d.order :: AssociatesAt(d, x', y', z')
    {
      for y := 0 to d.order
        invariant forall y': nat, z': nat | y' < y && z' < d.order :: AssociatesAt(d, x, y', z')
      {
        for z := 0 to d.order
          invariant forall z': nat | z' < z :: AssociatesAt(d, x, y, z')
        {
          if !(Prod(d, Prod(d, x, y), z) == Prod(d, x, Prod(d, y, z))) {
            assert !AssociatesAt(d, x, y, z);
            return false;
          }
        }
      }
    }
    return true;
  }

  /** isSelfDistributive: the loops stop at the first failing tuple. */
  method IsSelfDistributive(d: MagmaDef) returns (holds: bool)
    requires WellFormed(d)
    ensures holds == SelfDistributive(d)
  {
    for x := 0 to d.order
      invariant forall x': nat, y': nat, z': nat | x' < x && y' < d.order && z' < d.order :: SelfDistributesAt(d, x', y', z')
    {
      for y := 0 to d.order
        invariant forall y': nat, z': nat | y' < y && z' < d.order :: SelfDistributesAt(d, x, y', z')
      {
        for z := 0 to d.order
          invariant forall z': nat | z' < z :: SelfDistributesAt(d, x, y, z')
        {
          if !(Prod(d, x, Prod(d, y, z)) == Prod(d, Prod(d, x, y), Prod(d, x, z))) {
            assert !SelfDistributesAt(d, x, y, z);
            return false;
          }
        }
      }
    }
    return true;
  }

  /** isParamedial: the loops stop at the first failing tuple. */
  method IsParamedial(d: MagmaDef) returns (holds: bool)
    requires WellFormed(d)
    ensures holds == Paramedial(d)
  {
    for x := 0 to d.order
      invariant forall x': nat, y': nat, a': nat, b': nat | x' < x && y' < d.order && a' < d.order && b' < d.order :: ParamedialAt(d, x', y', a', b')
    {
      for y := 0 to d.order
        invariant forall y': nat, a': nat, b': nat | y' < y && a' < d.order && b' < d.order :: ParamedialAt(d, x, y', a', b')
      {
        for a := 0 to d.order
          invariant forall a': nat, b': nat | a' < a && b' < d.order :: ParamedialAt(d, x, y, a', b')
        {
          for b := 0 to d.order
            invariant forall b': nat | b' < b :: ParamedialAt(d, x, y, a, b')
          {
            if !(Prod(d, Prod(d, a, x), Prod(d, y, b)) == Prod(d, Prod(d, b, x), Prod(d, y, a))) {
              assert !ParamedialAt(d, x, y, a, b);
              return false;
            }
          }
        }
      }
    }
    return true;
  }

  /** isFlexible: the loops stop at the first failing tuple. */
  method IsFlexible(d: MagmaDef) returns (holds: bool)
    requires WellFormed(d)
    ensures holds == Flexible(d)
  {
    for x := 0 to d.order
      invariant forall x': nat, y': nat | x' < x && y' < d.order :: FlexibleAt(d, x', y')
    {
      for y := 0 to d.order
        invariant forall y': nat | y' < y :: FlexibleAt(d, x, y')
      {
        if !(Prod(d, x, Prod(d, y, x)) == Prod(d, Prod(d, x, y), x)) {
          assert !FlexibleAt(d, x, y);
          return false;
        }
      }
    }
    return true;
  }

  /** isJordan: the loops stop at the first failing tuple. */
  method IsJordan(d: MagmaDef) returns (holds: bool)
    requires WellFormed(d)
    ensures holds == Jordan(d)
  {
    for x := 0 to d.order
      invariant forall x': nat, y': nat | x' < x && y' < d.order :: JordanAt(d, x', y')
    {
      for y := 0 to d.order
        invariant forall y': nat | y' < y :: JordanAt(d, x, y')
      {
        if !(Prod(d, Prod(d, Prod(d, x, x), y), x) == Prod(d, Prod(d, x, x), Prod(d, y, x))) {
          assert !JordanAt(d, x, y);
          return false;
        }
      }
    }
    return true;
  }

  /** isAlternative: the loops stop at the first failing tuple. */
  method IsAlternative(d: MagmaDef) returns (holds: bool)
    requires WellFormed(d)
    ensures holds == Alternative(d)
  {
    for x := 0 to d.order
      invariant forall x': nat, y': nat | x' < x && y' < d.order :: AlternativeAt(d, x', y')
    {
      for y := 0 to d.order
        invariant forall y': nat | y' < y :: AlternativeAt(d, x, y')
      {
        if !(Prod(d, Prod(d, x, x), y) == Prod(d, x, Prod(d, x, y))) && Prod(d, x, Prod(d, y, y)) == Prod(d, Prod(d, x, y), y) {
          assert !AlternativeAt(d, x, y);
          return false;
        }
      }
    }
    return true;
  }

  /** isExtra: the loops stop at the first failing tuple. */
  method IsExtra(d: MagmaDef) returns (holds: bool)
    requires WellFormed(d)
    ensures holds == Extra(d)
  {
    for x := 0 to d.order
      invariant forall x': nat, y': nat, z': nat | x' < x && y' < d.order && z' < d.order :: ExtraAt(d, x', y', z')
    {
      for y := 0 to d.order
        invariant forall y': nat, z': nat | y' < y && z' < d.order :: ExtraAt(d, x, y', z')
      {
        for z := 0 to d.order
          invariant forall z': nat | z' < z :: ExtraAt(d, x, y, z')
        {
          if Prod(d, Prod(d, Prod(d, x, y), z), x) == Prod(d, x, Prod(d, y, Prod(d, z, x))) {
            assert !ExtraAt(d, x, y, z);
            return false;
          }
        }
      }
    }
    return true;
  }

  /** isLeftBol: the loops stop at the first failing tuple. */
  method IsLeftBol(d: MagmaDef) returns (holds: bool)
    requires WellFormed(d)
    ensures holds == LeftBol(d)
  {
    for x := 0 to d.order
      invariant forall x': nat, y': nat, z': nat | x' < x && y' < d.order && z' < d.order :: LeftBolAt(d, x', y', z')
    {
      for y := 0 to d.order
        invariant forall y': nat, z': nat | y' < y && z' < d.order :: LeftBolAt(d, x, y', z')
      {
        for z := 0 to d.order
          invariant forall z': nat | z' < z :: LeftBolAt(d, x, y, z')
        {
          if !(Prod(d, y, Prod(d, z, Prod(d, y, x))) == Prod(d, Prod(d, y, Prod(d, z, y)), x)) {
            assert !LeftBolAt(d, x, y, z);
            return false;
          }
        }
      }
    }
    return true;
  }

  /** isRightBol: the loops stop at the first failing tuple. */
  method IsRightBol(d: MagmaDef) returns (holds: bool)
    requires WellFormed(d)
    ensures holds == RightBol(d)
  {
    for x := 0 to d.order
      invariant forall x': nat, y': nat, z': nat | x' < x && y' < d.order && z' < d.order :: RightBolAt(d, x', y', z')
    {
      for y := 0 to d.order
        invariant forall y': nat, z': nat | y' < y && z' < d.order :: RightBolAt(d, x, y', z')
      {
        for z := 0 to d.order
          invariant forall z': nat | z' < z :: RightBolAt(d, x, y, z')
        {
          if !(Prod(d, Prod(d, Prod(d, x, y), z), y) == Prod(d, x, Prod(d, Prod(d, y, z), y))) {
            assert !RightBolAt(d, x, y, z);
            return false;
          }
        }
      }
    }
    return true;
  }

  /** isMedial: the loops stop at the first failing tuple. */
  method IsMedial(d: MagmaDef) returns (holds: bool)
    requires WellFormed(d)
    ensures holds == Medial(d)
  {
    for x := 0 to d.order
      invariant forall x': nat, y': nat, u': nat, v': nat | x' < x && y' < d.order && u' < d.order && v' < d.order :: MedialAt(d, x', y', u', v')
    {
      for y := 0 to d.order
        invariant forall y': nat, u': nat, v': nat | y' < y && u' < d.order && v' < d.order :: MedialAt(d, x, y', u', v')
      {
        for u := 0 to d.order
          invariant forall u': nat, v': nat | u' < u && v' < d.order :: MedialAt(d, x, y, u', v')
        {
          for v := 0 to d.order
            invariant forall v': nat | v' < v :: MedialAt(d, x, y, u, v')
          {
            if !(Prod(d, Prod(d, x, y), Prod(d, u, v)) == Prod(d, Prod(d, x, u), Prod(d, y, v))) {
              assert !MedialAt(d, x, y, u, v);
              return false;
            }
          }
        }
      }
    }
    return true;
  }

  /** isZeropotent: the loops stop at the first failing tuple. */
  method IsZeropotent(d: MagmaDef) returns (holds: bool)
    requires WellFormed(d)
    ensures holds == Zeropotent(d)
  {
    for x := 0 to d.order
      invariant forall x': nat, y': nat | x' < x && y' < d.order :: ZeropotentAt(d, x', y')
    {
      for y := 0 to d.order
        invariant forall y': nat | y' < y :: ZeropotentAt(d, x, y')
      {
        if !(Prod(d, Prod(d, x, x), y) == Prod(d, Prod(d, y, y), x)) && Prod(d, Prod(d, x, x), y) == Prod(d, x, x) {
          assert !ZeropotentAt(d, x, y);
          return false;
        }
      }
    }
    return true;
  }

  /** x & x == x for one value. */
  predicate IdempotentAt(d: MagmaDef, x: nat)
    requires WellFormed(d) && x < d.order
  {
    Prod(d, x, x) == x
  }

  /** isIdempotent reads its values from the table's cells rather than from range(ORDER). */
  predicate CellIdempotentAt(d: MagmaDef, i: nat, j: nat)
    requires WellFormed(d) && i < |d.table| && j < |d.table[i]|
  {
    CellInElements(d, i, j);
    IdempotentAt(d, d.table[i][j])
  }

  /** isIdempotent as written: every value found in a cell satisfies x & x == x. */
  predicate IdempotentOnCells(d: MagmaDef)
    requires WellFormed(d)
  {
    forall i: nat, j: nat | i < |d.table| && j < |d.table[i]| :: CellIdempotentAt(d, i, j)
  }

  /** The idempotent law over all of SET. */
  predicate Idempotent(d: MagmaDef)
    requires WellFormed(d)
  {
    forall x: nat | x < d.order :: IdempotentAt(d, x)
  }

  /**
   * One cell of isIdempotent on any admitted table: its value v indexes the
   * table (otherwise x & x raises IndexError) ...
   */
  predicate CellIndexes(d: MagmaDef, i: nat, j: nat)
    requires Admitted(d) && i < |d.table| && j < |d.table[i]|
  {
    d.table[i][j] < |d.table|
  }

  /** ... and v & v == v, where v & v is the cell CAYLEY_TABLE[v][v]. */
  predicate CellPasses(d: MagmaDef, i: nat, j: nat)
    requires Admitted(d) && i < |d.table| && j < |d.table[i]|
  {
    CellIndexes(d, i, j) && d.table[d.table[i][j]][d.table[i][j]] == d.table[i][j]
  }

  /** Every cell of the first i rows passes. */
  predicate RowsPass(d: MagmaDef, i: nat)
    requires Admitted(d) && i <= |d.table|
  {
    forall i': nat, j': nat | i' < i && j' < |d.table[i']| :: CellPasses(d, i', j')
  }

  /** Every cell read before cell (i, j), in the row-major order of the loop, passes. */
  predicate PassesBefore(d: MagmaDef, i: nat, j: nat)
    requires Admitted(d) && i < |d.table| && j <= |d.table[i]|
  {
    RowsPass(d, i) && forall j': nat | j' < j :: CellPasses(d, i, j')
  }

  /**
   * isIdempotent: a loop over the rows of CAYLEY_TABLE and over the values in
   * each row. It stops at the first cell that does not pass: with IndexError
   * when the value does not index the table, with False when v & v != v.
   * On a well-formed table it never raises and tests IdempotentOnCells.
   */
  method IsIdempotent(d: MagmaDef) returns (r: Result<bool>)
    requires Admitted(d)
    ensures r == Ok(true) <==> RowsPass(d, |d.table|)
    ensures r.Err? ==> r.error == IndexOutOfRange
    ensures r.Err? <==> exists i: nat, j: nat | i < |d.table| && j < |d.table[i]| ::
      PassesBefore(d, i, j) && !CellIndexes(d, i, j)
    ensures r == Ok(false) <==> exists i: nat, j: nat | i < |d.table| && j < |d.table[i]| ::
      PassesBefore(d, i, j) && CellIndexes(d, i, j) && !CellPasses(d, i, j)
    ensures WellFormed(d) ==> r == Ok(IdempotentOnCells(d))
  {
    for i := 0 to |d.table|
      invariant RowsPass(d, i)
    {
      var row := d.table[i];
      for j := 0 to |row|
        invariant PassesBefore(d, i, j)
      {
        var v := row[j];
        if !(v < |d.table|) {
          FirstFailureIsUnique(d, i, j);
          return Err(IndexOutOfRange);
        }
        if !(d.table[v][v] == v) {
          FirstFailureIsUnique(d, i, j);
          return Ok(false);
        }
      }
    }
    AllPassWellFormed(d);
    return Ok(true);
  }

  /** A cell that does not pass, with every earlier cell passing, is the only such cell. */
  lemma FirstFailureIsUnique(d: MagmaDef, i: nat, j: nat)
    requires Admitted(d) && i < |d.table| && j < |d.table[i]|
    requires PassesBefore(d, i, j) && !CellPasses(d, i, j)
    ensures !RowsPass(d, |d.table|)
    ensures forall i': nat, j': nat | i' < |d.table| && j' < |d.table[i']| && PassesBefore(d, i', j') && !CellPasses(d, i', j') ::
      i' == i && j' == j
    ensures WellFormed(d) ==> !IdempotentOnCells(d) && CellIndexes(d, i, j)
  {
    forall i': nat, j': nat | i' < |d.table| && j' < |d.table[i']| && PassesBefore(d, i', j') && !CellPasses(d, i', j')
      ensures i' == i && j' == j
    {
      assert !(i' < i) && !(i < i');
      assert !(j' < j) && !(j < j');
    }
    if WellFormed(d) {
      CellPassesIff(d, i, j);
    }
  }

  /** On a well-formed table a cell passes exactly when it is idempotent, and it always indexes. */
  lemma CellPassesIff(d: MagmaDef, i: nat, j: nat)
    requires WellFormed(d) && i < |d.table| && j < |d.table[i]|
    ensures CellIndexes(d, i, j)
    ensures CellPasses(d, i, j) <==> CellIdempotentAt(d, i, j)
  {
    CellInElements(d, i, j);
    OrderBound(d);
  }

  /** When every cell passes, nothing raises and, on a well-formed table, every cell is idempotent. */
  lemma AllPassWellFormed(d: MagmaDef)
    requires Admitted(d) && RowsPass(d, |d.table|)
    ensures forall i: nat, j: nat | i < |d.table| && j < |d.table[i]| :: !(PassesBefore(d, i, j) && !CellPasses(d, i, j))
    ensures WellFormed(d) ==> IdempotentOnCells(d)
  {
    if WellFormed(d) {
      forall i: nat, j: nat | i < |d.table| && j < |d.table[i]|
        ensures CellIdempotentAt(d, i, j)
      {
        CellPassesIff(d, i, j);
      }
    }
  }

  /**
   * Because every value of SET occurs in some cell, testing the cells is the
   * same as testing x & x == x for every x below ORDER.
   */
  lemma IdempotentOnCellsIff(d: MagmaDef)
    requires WellFormed(d)
    ensures IdempotentOnCells(d) <==> Idempotent(d)
  {
    if IdempotentOnCells(d) {
      forall x: nat | x < d.order
        ensures IdempotentAt(d, x)
      {
        assert x in d.elements;
        InEntries(d.table, x);
        var i: nat, j: nat :| i < |d.table| && j < |d.table[i]| && d.table[i][j] == x;
        assert CellIdempotentAt(d, i, j);
      }
    }
    if Idempotent(d) {
      forall i: nat, j: nat | i < |d.table| && j < |d.table[i]|
        ensures CellIdempotentAt(d, i, j)
      {
        CellInElements(d, i, j);
        assert IdempotentAt(d, d.table[i][j]);
      }
    }
  }

  /** isSteiner builds y from _x, so the test at x is x & (x & x) == x. */
  predicate SteinerAt(d: MagmaDef, x: nat)
    requires WellFormed(d) && x < d.order
  {
    Prod(d, x, Prod(d, x, x)) == x
  }

  /** The condition isSteiner tests at x (for each of its ORDER values of _y): the test at x and isCommutative. */
  predicate SteinerPassAt(d: MagmaDef, x: nat)
    requires WellFormed(d) && x < d.order
  {
    SteinerAt(d, x) && Commutative(d)
  }

  /** isSteiner as written: the condition holds at every x. */
  predicate Steiner(d: MagmaDef)
    requires WellFormed(d)
  {
    forall x: nat | x < d.order :: SteinerPassAt(d, x)
  }

  /** isSteiner: re-runs isCommutative inside its double loop; the inner loop variable is unused. */
  method IsSteiner(d: MagmaDef) returns (holds: bool)
    requires WellFormed(d)
    ensures holds == Steiner(d)
  {
    for x := 0 to d.order
      invariant forall x': nat | x' < x :: SteinerPassAt(d, x')
    {
      for y := 0 to d.order
        invariant y > 0 ==> SteinerPassAt(d, x)
      {
        var yValue := x;
        var commutative := IsCommutative(d);
        if !(Prod(d, x, Prod(d, x, yValue)) == yValue && commutative) {
          assert !SteinerPassAt(d, x);
          return false;
        }
      }
    }
    return true;
  }

  /** The textbook Steiner test at a pair: x & (x & y) == y. */
  predicate TextbookSteinerAt(d: MagmaDef, x: nat, y: nat)
    requires WellFormed(d) && x < d.order && y < d.order
  {
    Prod(d, x, Prod(d, x, y)) == y
  }

  /**
   * Since y is taken equal to x, isSteiner is commutativity plus
   * x & (x & x) == x, which every textbook Steiner magma satisfies.
   */
  lemma SteinerReduced(d: MagmaDef)
    requires WellFormed(d)
    ensures Steiner(d) <==> Commutative(d) && forall x: nat | x < d.order :: SteinerAt(d, x)
    ensures Commutative(d) && (forall x: nat, y: nat | x < d.order && y < d.order :: TextbookSteinerAt(d, x, y))
            ==> Steiner(d)
  {
    if Steiner(d) {
      if d.order > 0 {
        assert SteinerPassAt(d, 0);
      }
      forall x: nat | x < d.order
        ensures SteinerAt(d, x)
      {
        assert SteinerPassAt(d, x);
      }
    }
    if Commutative(d) && forall x: nat | x < d.order :: SteinerAt(d, x) {
      forall x: nat | x < d.order
        ensures SteinerPassAt(d, x)
      {
      }
    }
    if Commutative(d) && (forall x: nat, y: nat | x < d.order && y < d.order :: TextbookSteinerAt(d, x, y)) {
      forall x: nat | x < d.order
        ensures SteinerPassAt(d, x)
      {
        assert TextbookSteinerAt(d, x, x);
      }
    }
  }

  /**
   * In a non-empty associative magma ((x & y) & z) & x == x & (y & (z & x))
   * holds at every triple, so isExtra, which demands it fail everywhere, is false.
   */
  lemma AssociativeIsNotExtra(d: MagmaDef)
    requires WellFormed(d) && d.order > 0 && Associative(d)
    ensures !Extra(d)
  {
    var x, y, z: nat := 0, 0, 0;
    var xy, zx := Prod(d, x, y), Prod(d, z, x);
    assert AssociatesAt(d, xy, z, x);
    assert AssociatesAt(d, x, y, zx);
    assert !ExtraAt(d, x, y, z);
  }

  /** An associative magma satisfies the left alternative law everywhere, so isAlternative holds. */
  lemma AssociativeIsAlternative(d: MagmaDef)
    requires WellFormed(d) && Associative(d)
    ensures Alternative(d)
  {
    forall x: nat, y: nat | x < d.order && y < d.order
      ensures AlternativeAt(d, x, y)
    {
      assert AssociatesAt(d, x, x, y);
    }
  }

  /** The textbook alternative law (both sides) implies the check as written. */
  lemma TextbookAlternativeIsAlternative(d: MagmaDef)
    requires WellFormed(d)
    requires forall x: nat, y: nat | x < d.order && y < d.order ::
      Prod(d, Prod(d, x, x), y) == Prod(d, x, Prod(d, x, y)) && Prod(d, x, Prod(d, y, y)) == Prod(d, Prod(d, x, y), y)
    ensures Alternative(d)
  {
  }
}
