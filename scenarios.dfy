/** Concrete tables on which the model's answers are worked out in full. */
module Scenarios {
  import opened Wrappers
  import opened CayleyTable
  import opened Elements
  import opened Laws
  import opened Instances
  import opened Composites

  /** x & y == 1 when x == y, else 0: the two-element group with identity 1. */
  const Xnor: Table := [[1, 0], [0, 1]]

  /** x & y == min(x, y): commutative and idempotent, but no Steiner triple system. */
  const Min: Table := [[0, 0], [0, 1]]

  /** x & y == x: every element is a right identity, none a left identity. */
  const LeftProjection: Table := [[0, 0], [1, 1]]

  /** One value in every cell, and that value is not a row index below ORDER. */
  const AllTwos: Table := [[2, 2, 2], [2, 2, 2], [2, 2, 2]]

  /** Addition modulo 3: the cyclic group of order 3. */
  const Cyclic3: Table := [[0, 1, 2], [1, 2, 0], [2, 0, 1]]

  /** The one-element magma. */
  const Trivial: Table := [[0]]

  /** Both two-by-two tables hold each of 0 and 1, so they are well formed with ORDER 2. */
  lemma TwoByTwoWellFormed(t: Table)
    requires t == Xnor || t == Min
    ensures WellFormed(Definition(t)) && Definition(t).order == 2
  {
    assert t[..1][..0] == [];
    assert Entries(t[..1]) == RowEntries(t[0]);
    assert t[..|t| - 1] == t[..1];
    assert RowEntries(t[0]) + RowEntries(t[1]) == {0, 1} by {
      assert t[0][1] == 0 && t[1][1] == 1;
    }
    assert Entries(t) == {0, 1};
  }

  /**
   * [[1, 0], [0, 1]]: hasIdentity finds 1 (x & 1 == x for both x); 1 is also
   * a left identity, and the table is the two-element group.
   */
  lemma XnorIsGroup()
    ensures WellFormed(Definition(Xnor))
    ensures FirstIdentity(Definition(Xnor)) == Some(1)
    ensures Group(Definition(Xnor)) && AbelianGroup(Definition(Xnor))
    ensures !Quasidihedral(Definition(Xnor))
  {
    var d := Definition(Xnor);
    TwoByTwoWellFormed(Xnor);
    assert Prod(d, 0, 0) == 1 && Prod(d, 0, 1) == 0 && Prod(d, 1, 0) == 0 && Prod(d, 1, 1) == 1;
    assert !IsRightIdentity(d, 0) by {
      assert Prod(d, 0, 0) != 0;
    }
    assert IsRightIdentity(d, 1);
    FirstIdentityIsLeast(d, 1);
    forall x: nat, y: nat, z: nat | x < 2 && y < 2 && z < 2
      ensures AssociatesAt(d, x, y, z)
    {
    }
    forall x: nat | x < 2
      ensures HasInverseWith(d, Some(1), x)
    {
      assert Prod(d, x, x) == 1;
    }
  }

  lemma LeftProjectionWellFormed()
    ensures WellFormed(Definition(LeftProjection)) && Definition(LeftProjection).order == 2
  {
    var t: Table := LeftProjection;
    assert t[..1][..0] == [];
    assert t[..2][..1] == t[..1];
    assert t[..|t|] == t;
    assert RowEntries(t[0]) == {0} by {
      assert t[0][0] == 0;
    }
    assert RowEntries(t[1]) == {1} by {
      assert t[1][0] == 1;
    }
    assert Entries(t) == {0, 1};
  }

  /** e is a left identity: e & x == x for every x. isIdentity never tests this side. */
  predicate IsLeftIdentity(d: MagmaDef, e: nat)
    requires WellFormed(d) && e < d.order
  {
    forall x: nat | x < d.order :: Prod(d, e, x) == x
  }

  /**
   * [[0, 0], [1, 1]]: 0 passes isIdentity although 0 & 1 == 0, so hasIdentity
   * caches 0 and isMonoid answers True on a magma with no two-sided identity.
   * It is not a group: 1 & y == 1 for every y, so 1 has no inverse.
   */
  lemma LeftProjectionIsMonoid()
    ensures WellFormed(Definition(LeftProjection)) && Definition(LeftProjection).order == 2
    ensures FirstIdentity(Definition(LeftProjection)) == Some(0)
    ensures Monoid(Definition(LeftProjection)) && !Group(Definition(LeftProjection))
    ensures forall e: nat | e < 2 :: !IsLeftIdentity(Definition(LeftProjection), e)
  {
    var d := Definition(LeftProjection);
    LeftProjectionWellFormed();
    assert Prod(d, 0, 0) == 0 && Prod(d, 0, 1) == 0 && Prod(d, 1, 0) == 1 && Prod(d, 1, 1) == 1;
    assert IsRightIdentity(d, 0);
    FirstIdentityIsLeast(d, 0);
    forall x: nat, y: nat, z: nat | x < 2 && y < 2 && z < 2
      ensures AssociatesAt(d, x, y, z)
    {
    }
    assert !HasInverseWith(d, Some(0), 1);
    forall e: nat | e < 2
      ensures !IsLeftIdentity(d, e)
    {
      assert Prod(d, e, 1 - e) != 1 - e;
    }
  }

  /**
   * [[2, 2, 2], [2, 2, 2], [2, 2, 2]] is admitted with SET {2} and ORDER 1 but
   * is not well formed; isIdempotent still answers True on it, since
   * CAYLEY_TABLE[2][2] == 2.
   */
  lemma AllTwosIdempotent()
    ensures Admitted(Definition(AllTwos)) && Definition(AllTwos).order == 1
    ensures !WellFormed(Definition(AllTwos))
    ensures RowsPass(Definition(AllTwos), 3)
  {
    var t: Table := AllTwos;
    var d := Definition(AllTwos);
    assert t[..1][..0] == [];
    assert t[..2][..1] == t[..1];
    assert t[..3][..2] == t[..2];
    assert t[..|t|] == t;
    assert RowEntries(t[0]) == {2} by {
      assert t[0][0] == 2;
    }
    assert Entries(t[..1]) == {2};
    assert Entries(t[..2]) == {2};
    assert Entries(t) == {2};
    assert !(0 in d.elements);
  }

  /**
   * [[0, 0], [0, 1]] passes isSteiner (and isSquag), because isSteiner only
   * tries y == x, yet 0 & (0 & 1) == 0 != 1 breaks the textbook Steiner law.
   */
  lemma MinPassesSteiner()
    ensures WellFormed(Definition(Min)) && Definition(Min).order == 2
    ensures Steiner(Definition(Min)) && Squag(Definition(Min))
    ensures !TextbookSteinerAt(Definition(Min), 0, 1)
  {
    var d := Definition(Min);
    TwoByTwoWellFormed(Min);
    assert Prod(d, 0, 0) == 0 && Prod(d, 0, 1) == 0 && Prod(d, 1, 0) == 0 && Prod(d, 1, 1) == 1;
    forall x: nat, y: nat | x < 2 && y < 2
      ensures CommutesAt(d, x, y)
    {
    }
    forall x: nat | x < 2
      ensures IdempotentAt(d, x)
    {
    }
    SquagIffCommutativeIdempotent(d);
  }

  /** Constructing the value 5 in a magma of order 2 fails with an invalid-argument error. */
  lemma OutOfSetValueRejected()
    ensures Construct(Definition(Xnor), 5) == Err(InvalidArgument)
  {
    TwoByTwoWellFormed(Xnor);
  }

  /** [[0]] is a group, commutative and idempotent, and so (at order 1) a rack and a quandle. */
  lemma TrivialIsGroup()
    ensures WellFormed(Definition(Trivial)) && Definition(Trivial).order == 1
    ensures Group(Definition(Trivial)) && Commutative(Definition(Trivial))
    ensures IdempotentOnCells(Definition(Trivial)) && Quandle(Definition(Trivial))
  {
    var d := Definition(Trivial);
    assert Trivial[..0] == [];
    assert Entries(Trivial) == {0};
    assert Prod(d, 0, 0) == 0;
    assert IsRightIdentity(d, 0);
    FirstIdentityIsLeast(d, 0);
    assert HasInverseWith(d, Some(0), 0);
    QuandleIffOrderOne(d);
    IdempotentOnCellsIff(d);
  }

  lemma Cyclic3WellFormed()
    ensures WellFormed(Definition(Cyclic3)) && Definition(Cyclic3).order == 3
  {
    var t: Table := Cyclic3;
    assert t[..1][..0] == [];
    assert t[..2][..1] == t[..1];
    assert t[..3][..2] == t[..2];
    assert t[..|t|] == t;
    assert RowEntries(t[0]) == {0, 1, 2} by {
      assert t[0][0] == 0 && t[0][1] == 1 && t[0][2] == 2;
    }
    assert Entries(t[..1]) == {0, 1, 2};
    assert Entries(t[..2]) == {0, 1, 2};
    assert Entries(t) == {0, 1, 2};
  }

  /** Each product of the cyclic table is the sum of its operands, less 3 when it reaches 3. */
  lemma Cyclic3Prod(x: nat, y: nat)
    requires x < 3 && y < 3
    ensures WellFormed(Definition(Cyclic3)) && Definition(Cyclic3).order == 3
    ensures Prod(Definition(Cyclic3), x, y) == if x + y < 3 then x + y else x + y - 3
  {
    Cyclic3WellFormed();
  }

  lemma Cyclic3Associative()
    ensures WellFormed(Definition(Cyclic3)) && Definition(Cyclic3).order == 3
    ensures Associative(Definition(Cyclic3))
  {
    var d := Definition(Cyclic3);
    Cyclic3WellFormed();
    forall x: nat, y: nat, z: nat | x < 3 && y < 3 && z < 3
      ensures AssociatesAt(d, x, y, z)
    {
      Cyclic3Prod(x, y);
      Cyclic3Prod(y, z);
      Cyclic3Prod(Prod(d, x, y), z);
      Cyclic3Prod(x, Prod(d, y, z));
    }
  }

  /** Addition modulo 3 is an abelian group; its order is not a power of two, so it is not quasidihedral. */
  lemma Cyclic3IsAbelianGroup()
    ensures WellFormed(Definition(Cyclic3))
    ensures Group(Definition(Cyclic3)) && AbelianGroup(Definition(Cyclic3))
    ensures !Quasidihedral(Definition(Cyclic3))
  {
    var d := Definition(Cyclic3);
    Cyclic3WellFormed();
    Cyclic3Associative();
    forall x: nat | x < 3
      ensures Prod(d, x, 0) == x
    {
      Cyclic3Prod(x, 0);
    }
    assert IsRightIdentity(d, 0);
    FirstIdentityIsLeast(d, 0);
    forall x: nat, y: nat | x < 3 && y < 3
      ensures CommutesAt(d, x, y)
    {
      Cyclic3Prod(x, y);
      Cyclic3Prod(y, x);
    }
    forall x: nat | x < 3
      ensures HasInverseWith(d, Some(0), x)
    {
      var y := if x == 0 then 0 else 3 - x;
      Cyclic3Prod(x, y);
      assert Prod(d, x, y) == 0;
    }
    assert !IsPowerOfTwo(3);
  }
}
