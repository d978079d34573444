/**
 * __rackProperty__ keeps ONE counter for the whole triple loop over (a, b, c),
 * adding one whenever a & c == b. It answers False as soon as the counter
 * passes 1 and otherwise answers whether it ended at exactly 1. The counter
 * is modelled as the nested sums below; on a well-formed table it reaches
 * ORDER * ORDER, so the check holds exactly for magmas of order 1.
 */
module RackCount {
  import opened CayleyTable

  function Hit(d: MagmaDef, a: nat, b: nat, c: nat): nat
    requires WellFormed(d) && a < d.order && c < d.order
  {
    if Prod(d, a, c) == b then 1 else 0
  }

  /** Hits for fixed a and b among c < c'. */
  function ColumnHits(d: MagmaDef, a: nat, b: nat, c: nat): nat
    requires WellFormed(d) && a < d.order && c <= d.order
  {
    if c == 0 then 0 else ColumnHits(d, a, b, c - 1) + Hit(d, a, b, c - 1)
  }

  /** Hits for fixed a among b' < b and c' < c. */
  function RowHits(d: MagmaDef, a: nat, b: nat, c: nat): nat
    requires WellFormed(d) && a < d.order && c <= d.order
  {
    if b == 0 then 0 else RowHits(d, a, b - 1, c) + ColumnHits(d, a, b - 1, c)
  }

  /** Hits among a' < a and all b, c below ORDER. */
  function TableHits(d: MagmaDef, a: nat): nat
    requires WellFormed(d) && a <= d.order
  {
    if a == 0 then 0 else TableHits(d, a - 1) + RowHits(d, a - 1, d.order, d.order)
  }

  /** The counter's value after the whole triple loop. */
  function SolutionCount(d: MagmaDef): nat
    requires WellFormed(d)
  {
    TableHits(d, d.order)
  }

  /** The value __rackProperty__ returns when it runs to the end. */
  predicate RackProperty(d: MagmaDef)
    requires WellFormed(d)
  {
    SolutionCount(d) == 1
  }

  lemma {:induction false} ColumnHitsMonotone(d: MagmaDef, a: nat, b: nat, c: nat, c': nat)
    requires WellFormed(d) && a < d.order && c <= c' <= d.order
    ensures ColumnHits(d, a, b, c) <= ColumnHits(d, a, b, c')
    decreases c'
  {
    if c < c' {
      ColumnHitsMonotone(d, a, b, c, c' - 1);
    }
  }

  lemma {:induction false} RowHitsMonotone(d: MagmaDef, a: nat, b: nat, b': nat)
    requires WellFormed(d) && a < d.order && b <= b'
    ensures RowHits(d, a, b, d.order) <= RowHits(d, a, b', d.order)
    decreases b'
  {
    if b < b' {
      RowHitsMonotone(d, a, b, b' - 1);
    }
  }

  lemma {:induction false} TableHitsMonotone(d: MagmaDef, a: nat, a': nat)
    requires WellFormed(d) && a <= a' <= d.order
    ensures TableHits(d, a) <= TableHits(d, a')
    decreases a'
  {
    if a < a' {
      TableHitsMonotone(d, a, a' - 1);
    }
  }

  /** Within row a, the hits counted before (b, c) never exceed the row's total. */
  lemma RowPartialBound(d: MagmaDef, a: nat, b: nat, c: nat)
    requires WellFormed(d) && a < d.order && b < d.order && c <= d.order
    ensures RowHits(d, a, b, d.order) + ColumnHits(d, a, b, c) <= RowHits(d, a, d.order, d.order)
  {
    ColumnHitsMonotone(d, a, b, c, d.order);
    RowHitsMonotone(d, a, b + 1, d.order);
  }

  /** The hits of the rows up to and including a never exceed the final count. */
  lemma RowsBelowTotal(d: MagmaDef, a: nat)
    requires WellFormed(d) && a < d.order
    ensures TableHits(d, a) + RowHits(d, a, d.order, d.order) <= SolutionCount(d)
  {
    TableHitsMonotone(d, a + 1, d.order);
  }

  /** The counter part-way through the loops never exceeds its final value. */
  lemma PartialCountBound(d: MagmaDef, a: nat, b: nat, c: nat)
    requires WellFormed(d) && a < d.order && b < d.order && c <= d.order
    ensures TableHits(d, a) + RowHits(d, a, b, d.order) + ColumnHits(d, a, b, c) <= SolutionCount(d)
  {
    RowPartialBound(d, a, b, c);
    RowsBelowTotal(d, a);
  }

  /**
   * __rackProperty__: the single counter runs across all (a, b, c); the method
   * answers False once it exceeds 1, and otherwise whether it ended at 1.
   */
  method IsRackProperty(d: MagmaDef) returns (holds: bool)
    requires WellFormed(d)
    ensures holds == RackProperty(d)
  {
    var count := 0;
    for a := 0 to d.order
      invariant count == TableHits(d, a)
    {
      for b := 0 to d.order
        invariant count == TableHits(d, a) + RowHits(d, a, b, d.order)
      {
        for c := 0 to d.order
          invariant count == TableHits(d, a) + RowHits(d, a, b, d.order) + ColumnHits(d, a, b, c)
        {
          if Prod(d, a, c) == b {
            count := count + 1;
          }
          if count > 1 {
            PartialCountBound(d, a, b, c + 1);
            return false;
          }
        }
      }
    }
    return count == 1;
  }

  /**
   * Adding column c to the sums over b' < b adds one exactly when the
   * product a & c is below b.
   */
  lemma {:induction false} RowHitsStep(d: MagmaDef, a: nat, b: nat, c: nat)
    requires WellFormed(d) && a < d.order && c < d.order
    ensures RowHits(d, a, b, c + 1) == RowHits(d, a, b, c) + (if Prod(d, a, c) < b then 1 else 0)
  {
    if b > 0 {
      RowHitsStep(d, a, b - 1, c);
    }
  }

  /** For each a, every c has exactly one b with a & c == b, so row a contributes c' hits up to c'. */
  lemma {:induction false} RowHitsFull(d: MagmaDef, a: nat, c: nat)
    requires WellFormed(d) && a < d.order && c <= d.order
    ensures RowHits(d, a, d.order, c) == c
  {
    if c == 0 {
      RowHitsZero(d, a, d.order);
    } else {
      RowHitsFull(d, a, c - 1);
      RowHitsStep(d, a, d.order, c - 1);
    }
  }

  lemma {:induction false} RowHitsZero(d: MagmaDef, a: nat, b: nat)
    requires WellFormed(d) && a < d.order
    ensures RowHits(d, a, b, 0) == 0
  {
    if b > 0 {
      RowHitsZero(d, a, b - 1);
    }
  }

  lemma {:induction false} TableHitsCount(d: MagmaDef, a: nat)
    requires WellFormed(d) && a <= d.order
    ensures TableHits(d, a) == a * d.order
  {
    if a > 0 {
      TableHitsCount(d, a - 1);
      RowHitsFull(d, a - 1, d.order);
      assert TableHits(d, a) == (a - 1) * d.order + d.order;
      assert (a - 1) * d.order + d.order == a * d.order by {
        SumOfRows(a - 1, d.order);
      }
    }
  }

  lemma SumOfRows(k: nat, n: nat)
    ensures k * n + n == (k + 1) * n
  {
  }

  /** On a well-formed table the counter ends at ORDER * ORDER. */
  lemma SolutionCountIsSquare(d: MagmaDef)
    requires WellFormed(d)
    ensures SolutionCount(d) == d.order * d.order
  {
    TableHitsCount(d, d.order);
  }

  /**
   * The check holds exactly for magmas of order 1: it does not test the
   * per-(a, b) unique solvability that its doc-comment describes.
   */
  lemma RackPropertyIffOrderOne(d: MagmaDef)
    requires WellFormed(d)
    ensures RackProperty(d) <==> d.order == 1
  {
    SolutionCountIsSquare(d);
    SquareIsOne(d.order);
  }

  lemma SquareIsOne(n: nat)
    ensures n * n == 1 <==> n == 1
  {
    if n >= 2 {
      assert n * n >= n * 2;
    }
  }
}
