/**
 * The one piece of instance state in the law engine: hasIdentity stores the
 * first right identity it finds in the instance's __identity cache (only if
 * the cache is still empty), and hasInverse / isInvertable read that cache.
 * Every composite that starts with hasIdentity (isMonoid, isGroup,
 * isAbeleanGroup, isLoop, isQuasidihedral) is a method of the instance here.
 */
module Instances {
  import opened Wrappers
  import opened CayleyTable
  import opened Elements
  import opened Laws

  /** isIdentity(e): x & e == x for every x. Only the right side is tested. */
  predicate IsRightIdentity(d: MagmaDef, e: nat)
    requires WellFormed(d) && e < d.order
  {
    forall x: nat | x < d.order :: Prod(d, x, e) == x
  }

  predicate HasRightIdentity(d: MagmaDef)
    requires WellFormed(d)
  {
    exists e: nat | e < d.order :: IsRightIdentity(d, e)
  }

  /** The first right identity at k or above, searched upwards as hasIdentity does. */
  function FirstIdentityFrom(d: MagmaDef, k: nat): (r: Option<nat>)
    requires WellFormed(d) && k <= d.order
    ensures r.Some? ==> k <= r.value < d.order && IsRightIdentity(d, r.value)
    ensures r.Some? ==> forall e: nat | k <= e < r.value :: !IsRightIdentity(d, e)
    ensures r.None? ==> forall e: nat | k <= e < d.order :: !IsRightIdentity(d, e)
    decreases d.order - k
  {
    if k == d.order then None
    else if IsRightIdentity(d, k) then Some(k)
    else FirstIdentityFrom(d, k + 1)
  }

  /** The value hasIdentity caches: the least right identity, if there is one. */
  function FirstIdentity(d: MagmaDef): (r: Option<nat>)
    requires WellFormed(d)
    ensures r.Some? <==> HasRightIdentity(d)
    ensures r.Some? ==> r.value < d.order && IsRightIdentity(d, r.value)
  {
    FirstIdentityFrom(d, 0)
  }

  /** A right identity with no right identity below it is the one the search finds. */
  lemma FirstIdentityIsLeast(d: MagmaDef, e: nat)
    requires WellFormed(d) && e < d.order && IsRightIdentity(d, e)
    requires forall e': nat | e' < e :: !IsRightIdentity(d, e')
    ensures FirstIdentity(d) == Some(e)
  {
    var r := FirstIdentityFrom(d, 0);
    assert r.Some? && IsRightIdentity(d, r.value);
  }

  /** The cache after a hasIdentity() call, given the cache before it. */
  function AfterSearch(d: MagmaDef, cache: Option<nat>): Option<nat>
    requires WellFormed(d)
  {
    if HasRightIdentity(d) && cache.None? then FirstIdentity(d) else cache
  }

  /** hasInverse(x) with the given cache: false on an empty cache, else some y has x & y == e. */
  predicate HasInverseWith(d: MagmaDef, cache: Option<nat>, x: nat)
    requires WellFormed(d) && x < d.order && (cache.Some? ==> cache.value < d.order)
  {
    cache.Some? && exists y: nat | y < d.order :: Prod(d, x, y) == cache.value
  }

  /** isInvertable with the given cache: hasInverse(x) for every x. */
  predicate InvertibleWith(d: MagmaDef, cache: Option<nat>)
    requires WellFormed(d) && (cache.Some? ==> cache.value < d.order)
  {
    forall x: nat | x < d.order :: HasInverseWith(d, cache, x)
  }

  /** isMonoid: hasIdentity() and isAssociative(). */
  predicate Monoid(d: MagmaDef)
    requires WellFormed(d)
  {
    HasRightIdentity(d) && Associative(d)
  }

  /** isGroup: isMonoid() and then isInvertable(), which reads the identity just cached. */
  predicate Group(d: MagmaDef)
    requires WellFormed(d)
  {
    Monoid(d) && InvertibleWith(d, FirstIdentity(d))
  }

  /** isAbeleanGroup: isGroup() and isCommutative(). */
  predicate AbelianGroup(d: MagmaDef)
    requires WellFormed(d)
  {
    Group(d) && Commutative(d)
  }

  /** isLoop: hasIdentity() and then isInvertable(); associativity is not required. */
  predicate Loop(d: MagmaDef)
    requires WellFormed(d)
  {
    HasRightIdentity(d) && InvertibleWith(d, FirstIdentity(d))
  }

  /** Integer stand-in for log(ORDER, 2).is_integer(). */
  predicate IsPowerOfTwo(n: nat) {
    n == 1 || (n >= 2 && n % 2 == 0 && IsPowerOfTwo(n / 2))
  }

  function Pow2(k: nat): nat {
    if k == 0 then 1 else 2 * Pow2(k - 1)
  }

  /** The stand-in holds exactly for the powers 2^k. */
  lemma {:induction false} PowerOfTwoIff(n: nat)
    ensures IsPowerOfTwo(n) <==> exists k: nat :: Pow2(k) == n
  {
    if IsPowerOfTwo(n) {
      if n != 1 {
        PowerOfTwoIff(n / 2);
        var k: nat :| Pow2(k) == n / 2;
        assert Pow2(k + 1) == n;
      } else {
        assert Pow2(0) == n;
      }
    }
    if exists k: nat :: Pow2(k) == n {
      var k: nat :| Pow2(k) == n;
      PowerOfTwoHolds(k);
    }
  }

  lemma {:induction false} PowerOfTwoHolds(k: nat)
    ensures IsPowerOfTwo(Pow2(k))
  {
    if k > 0 {
      PowerOfTwoHolds(k - 1);
      assert Pow2(k) / 2 == Pow2(k - 1);
    }
  }

  /** isQuasidihedral: isGroup(), not isCommutative(), and ORDER a power of two. */
  predicate Quasidihedral(d: MagmaDef)
    requires WellFormed(d)
  {
    Group(d) && !Commutative(d) && IsPowerOfTwo(d.order)
  }

  /**
   * An instance of a Magma subclass: its value part (n and usegreek) is the
   * Element that Magma.__init__ builds, and the instance adds its private
   * identity cache.
   */
  class Magma {
    const def: MagmaDef
    const value: Element
    var identity: Option<nat>

    /** The cache is empty or holds the identity the search finds first. */
    ghost predicate Valid()
      reads this
    {
      WellFormed(def) && value.n in def.elements && (identity.Some? ==> identity == FirstIdentity(def))
    }

    /**
     * Magma.__init__ for a value in SET: the element Construct builds, and the
     * class-level default Nothing in the cache.
     */
    constructor (d: MagmaDef, n: nat)
      requires WellFormed(d) && n in d.elements
      ensures Valid() && def == d && identity == None
      ensures Construct(d, n) == Ok(value)
    {
      def := d;
      value := Construct(d, n).value;
      identity := None;
    }

    /** isIdentity(e): stops at the first x with x & e != x. */
    method IsIdentity(e: nat) returns (holds: bool)
      requires Valid() && e < def.order
      ensures holds == IsRightIdentity(def, e)
    {
      for x := 0 to def.order
        invariant forall x': nat | x' < x :: Prod(def, x', e) == x'
      {
        if !(Prod(def, x, e) == x) {
          return false;
        }
      }
      return true;
    }

    /**
     * hasIdentity: tries each candidate from 0 up; at the first right identity
     * it fills an empty cache (a filled one is kept) and answers True.
     */
    method HasIdentity() returns (found: bool)
      requires Valid()
      modifies this`identity
      ensures Valid()
      ensures found == HasRightIdentity(def)
      ensures identity == (if found && old(identity).None? then FirstIdentity(def) else old(identity))
    {
      for x := 0 to def.order
        invariant forall e: nat | e < x :: !IsRightIdentity(def, e)
        invariant identity == old(identity)
      {
        var isIdentity := IsIdentity(x);
        if isIdentity {
          FirstIdentityIsLeast(def, x);
          if identity.None? {
            identity := Some(x);
          }
          return true;
        }
      }
      return false;
    }

    /** hasInverse(x): False on an empty cache, else whether some y has x & y == identity. */
    method HasInverse(x: nat) returns (holds: bool)
      requires Valid() && x < def.order
      ensures holds == HasInverseWith(def, identity, x)
    {
      if identity.None? {
        return false;
      }
      var e := identity.value;
      for y := 0 to def.order
        invariant forall y': nat | y' < y :: Prod(def, x, y') != e
      {
        if Prod(def, x, y) == e {
          return true;
        }
      }
      return false;
    }

    /** isInvertable: hasInverse(x) for each x, with whatever the cache holds now. */
    method IsInvertable() returns (holds: bool)
      requires Valid()
      ensures holds == InvertibleWith(def, identity)
    {
      for x := 0 to def.order
        invariant forall x': nat | x' < x :: HasInverseWith(def, identity, x')
      {
        var hasInverse := HasInverse(x);
        if !hasInverse {
          return false;
        }
      }
      return true;
    }

    method IsMonoid() returns (holds: bool)
      requires Valid()
      modifies this`identity
      ensures Valid() && identity == AfterSearch(def, old(identity))
      ensures holds == Monoid(def)
    {
      var found := HasIdentity();
      if !found {
        return false;
      }
      holds := IsAssociative(def);
    }

    method IsGroup() returns (holds: bool)
      requires Valid()
      modifies this`identity
      ensures Valid() && identity == AfterSearch(def, old(identity))
      ensures holds == Group(def)
    {
      var monoid := IsMonoid();
      if !monoid {
        return false;
      }
      holds := IsInvertable();
    }

    method IsAbeleanGroup() returns (holds: bool)
      requires Valid()
      modifies this`identity
      ensures Valid() && identity == AfterSearch(def, old(identity))
      ensures holds == AbelianGroup(def)
    {
      var group := IsGroup();
      if !group {
        return false;
      }
      holds := IsCommutative(def);
    }

    method IsLoop() returns (holds: bool)
      requires Valid()
      modifies this`identity
      ensures Valid() && identity == AfterSearch(def, old(identity))
      ensures holds == Loop(def)
    {
      var found := HasIdentity();
      if !found {
        return false;
      }
      holds := IsInvertable();
    }

    method IsQuasidihedral() returns (holds: bool)
      requires Valid()
      modifies this`identity
      ensures Valid() && identity == AfterSearch(def, old(identity))
      ensures holds == Quasidihedral(def)
    {
      var group := IsGroup();
      if !group {
        return false;
      }
      var commutative := IsCommutative(def);
      if commutative {
        return false;
      }
      holds := IsPowerOfTwo(def.order);
    }
  }

  /**
   * With an empty cache isInvertable answers False as soon as there is an
   * element, so its answer depends on whether hasIdentity ran before it.
   */
  lemma EmptyCacheNotInvertible(d: MagmaDef)
    requires WellFormed(d) && d.order > 0
    ensures !InvertibleWith(d, None)
  {
    assert !HasInverseWith(d, None, 0);
  }

  /** Once hasIdentity has filled the cache, the cache no longer changes. */
  lemma SearchIsIdempotent(d: MagmaDef, cache: Option<nat>)
    requires WellFormed(d)
    ensures AfterSearch(d, AfterSearch(d, cache)) == AfterSearch(d, cache)
    ensures HasRightIdentity(d) ==> AfterSearch(d, cache).Some?
    ensures !HasRightIdentity(d) ==> AfterSearch(d, cache) == cache
  {
  }

  /** isGroup implies isMonoid, which implies hasIdentity and isAssociative; a group is also a loop. */
  lemma GroupChain(d: MagmaDef)
    requires WellFormed(d)
    ensures Group(d) ==> Monoid(d)
    ensures Monoid(d) ==> HasRightIdentity(d) && Associative(d)
    ensures Group(d) ==> Loop(d)
    ensures AbelianGroup(d) <==> Group(d) && Commutative(d)
  {
  }

  /** A quasidihedral magma is a non-commutative group, so it has at least two elements. */
  lemma QuasidihedralIsNonAbelianGroup(d: MagmaDef)
    requires WellFormed(d) && Quasidihedral(d)
    ensures Group(d) && !Commutative(d) && !AbelianGroup(d)
    ensures d.order >= 2 && exists k: nat :: Pow2(k) == d.order
  {
    PowerOfTwoIff(d.order);
    var x: nat, y: nat :| x < d.order && y < d.order && !CommutesAt(d, x, y);
    assert x != y;
  }
}
