/**
 * The composites that do not touch the identity cache: each one is a
 * short-circuit conjunction of law checkers, evaluated left to right.
 */
module Composites {
  import opened Wrappers
  import opened CayleyTable
  import opened Laws
  import opened RackCount

  /** isRack: isSelfDistributive() and __rackProperty__(). */
  predicate Rack(d: MagmaDef)
    requires WellFormed(d)
  {
    SelfDistributive(d) && RackProperty(d)
  }

  /** isQuandle: isRack() and isIdempotent(). */
  predicate Quandle(d: MagmaDef)
    requires WellFormed(d)
  {
    Rack(d) && IdempotentOnCells(d)
  }

  /** isBand: isAssociative() and isIdempotent(). */
  predicate Band(d: MagmaDef)
    requires WellFormed(d)
  {
    Associative(d) && IdempotentOnCells(d)
  }

  /** isSquag: isSteiner() and isIdempotent(). */
  predicate Squag(d: MagmaDef)
    requires WellFormed(d)
  {
    Steiner(d) && IdempotentOnCells(d)
  }

  /**
   * isKei: isQuandle() and isRightInvoulntary(). The second check is declared
   * without self, so reaching it raises TypeError; otherwise the answer is False.
   */
  function Kei(d: MagmaDef): Result<bool>
    requires WellFormed(d)
  {
    if Quandle(d) then Err(NotCallable) else Ok(false)
  }

  method IsRack(d: MagmaDef) returns (holds: bool)
    requires WellFormed(d)
    ensures holds == Rack(d)
  {
    var distributive := IsSelfDistributive(d);
    if !distributive {
      return false;
    }
    holds := IsRackProperty(d);
  }

  method IsQuandle(d: MagmaDef) returns (holds: bool)
    requires WellFormed(d)
    ensures holds == Quandle(d)
  {
    var rack := IsRack(d);
    if !rack {
      return false;
    }
    var idempotent := IsIdempotent(d);
    holds := idempotent.value;
  }

  method IsBand(d: MagmaDef) returns (holds: bool)
    requires WellFormed(d)
    ensures holds == Band(d)
  {
    var associative := IsAssociative(d);
    if !associative {
      return false;
    }
    var idempotent := IsIdempotent(d);
    holds := idempotent.value;
  }

  method IsSquag(d: MagmaDef) returns (holds: bool)
    requires WellFormed(d)
    ensures holds == Squag(d)
  {
    var steiner := IsSteiner(d);
    if !steiner {
      return false;
    }
    var idempotent := IsIdempotent(d);
    holds := idempotent.value;
  }

  method IsKei(d: MagmaDef) returns (r: Result<bool>)
    requires WellFormed(d)
    ensures r == Kei(d)
  {
    var quandle := IsQuandle(d);
    if quandle {
      return Err(NotCallable);
    }
    return Ok(false);
  }

  /** In a magma of order 1 every product is 0, so every identity of the engine holds. */
  lemma OrderOneProducts(d: MagmaDef, x: nat, y: nat)
    requires WellFormed(d) && d.order == 1 && x < 1 && y < 1
    ensures x == 0 && y == 0 && Prod(d, x, y) == 0
  {
  }

  /** isQuandle implies isRack implies isSelfDistributive; isBand is associativity plus x & x == x. */
  lemma CompositeChain(d: MagmaDef)
    requires WellFormed(d)
    ensures Quandle(d) ==> Rack(d)
    ensures Rack(d) ==> SelfDistributive(d)
    ensures Band(d) <==> Associative(d) && Idempotent(d)
  {
    IdempotentOnCellsIff(d);
  }

  /** Because __rackProperty__ holds only at order 1, isRack holds exactly for order 1. */
  lemma RackIffOrderOne(d: MagmaDef)
    requires WellFormed(d)
    ensures Rack(d) <==> d.order == 1
  {
    RackPropertyIffOrderOne(d);
    if d.order == 1 {
      forall x: nat, y: nat, z: nat | x < d.order && y < d.order && z < d.order
        ensures SelfDistributesAt(d, x, y, z)
      {
        OrderOneProducts(d, x, y);
        OrderOneProducts(d, y, z);
      }
    }
  }

  /** Likewise isQuandle holds exactly for order 1. */
  lemma QuandleIffOrderOne(d: MagmaDef)
    requires WellFormed(d)
    ensures Quandle(d) <==> d.order == 1
  {
    RackIffOrderOne(d);
    IdempotentOnCellsIff(d);
    if d.order == 1 {
      forall x: nat | x < d.order
        ensures IdempotentAt(d, x)
      {
        OrderOneProducts(d, x, x);
      }
    }
  }

  /** isKei raises exactly when the magma has order 1 and answers False otherwise. */
  lemma KeiRaisesIffOrderOne(d: MagmaDef)
    requires WellFormed(d)
    ensures Kei(d).Err? <==> d.order == 1
    ensures Kei(d).Ok? ==> Kei(d) == Ok(false)
  {
    QuandleIffOrderOne(d);
  }

  /**
   * With x & x == x, the test x & (x & x) == x of isSteiner holds by itself,
   * so isSquag is just commutativity plus idempotence.
   */
  lemma SquagIffCommutativeIdempotent(d: MagmaDef)
    requires WellFormed(d)
    ensures Squag(d) <==> Commutative(d) && Idempotent(d)
  {
    IdempotentOnCellsIff(d);
    SteinerReduced(d);
    if Idempotent(d) {
      forall x: nat | x < d.order
        ensures SteinerAt(d, x)
      {
        assert IdempotentAt(d, x);
      }
    }
  }
}
