# magpy Magma core in Dafny

magpy describes a finite magma by its Cayley table. A `Magma` subclass declares
`CAYLEY_TABLE`; the metaclass `MagmaMeta` refuses a non-square table. From the
entries it derives `SET` (every distinct entry) and `ORDER = |SET|`. An instance
wraps one value of `SET`. The internal operator `&` (`magmaOp`) looks the product
up in the table. A class-wide switch decides whether `*` or `+` exposes `&`. A
battery of brute-force law checkers loops over `range(ORDER)` and answers False
at the first counterexample. The derived checkers (monoid, group, loop, rack,
quandle, band, squag, quasidihedral, kei) are short-circuit conjunctions of these.

The model, module by module:

- `Wrappers` (`wrappers.dfy`): `Option` stands for pymonad's `Maybe`. `Result`
  and `MagmaError` stand for the exceptions the core raises.
- `CayleyTable` (`table.dfy`): `Admit` is the metaclass. It returns an error for
  a missing or non-square table. Otherwise it collects `SET` entry by entry in a
  double loop. `WellFormed` is the condition the law checkers are modelled
  under: the table is square, every entry is a valid index, and `SET` is
  `{0, ..., ORDER-1}`. On such a table every construction and lookup inside
  the checkers' loops succeeds. `Prod` is the table lookup on such a table.
- `Elements` (`elements.dfy`): the value part of an instance, `Element(n, greek)`
  for `n` and `usegreek`. This module holds construction, `magmaOp` with its
  greek-flag propagation, and `__eq__`. Products are new instances with an
  empty cache, so on them only the value part matters.
- `Operators` (`operators.dfy`): the class `MagmaClass` holds the mutable
  class-wide operator mode. `setMagmaOperator`, `__mul__` and `__add__` live here.
- `Laws` (`laws.dfy`): each plain law has a predicate on one tuple. It also has
  the bounded quantifier over all tuples, and a loop method proved equal to that
  quantifier.
- `RackCount` (`rack.dfy`): `__rackProperty__` keeps one global counter. The
  module proves that on a well-formed table the counter ends at `ORDER * ORDER`.
- `Instances` (`instances.dfy`): the class `Magma` is a whole instance. Its
  `Element` is built by `Elements.Construct`, and it adds the per-instance
  identity cache. `hasIdentity` writes the cache; `hasInverse` and
  `isInvertable` read it. The composites that begin with `hasIdentity` are
  methods of this class.
- `Composites` (`composites.dfy`): the cache-free composites (`isRack`,
  `isQuandle`, `isBand`, `isSquag`, `isKei`).
- `Scenarios` (`scenarios.dfy`): concrete tables worked out in full.

The checkers that read only class constants take the `MagmaDef` instead of an
instance. The loop methods do not build an instance for every index, as the
source does. On a well-formed table that construction cannot fail
(`Elements.MagmaOpIsProd`), and the product is then `Prod`.

Where the code and its doc-comments or the usual textbook law differ, the model
follows the code:

- `isIdentity` tests only `x & e == x`, so it finds right identities.
  In `[[0, 0], [1, 1]]` (`x & y == x`) 0 passes although `0 & 1 == 0`, and
  `isMonoid` answers True on a magma with no two-sided identity
  (`Scenarios.LeftProjectionIsMonoid`).
- `isIdempotent` reads its values from the cells of the table, not from
  `range(ORDER)`. It is therefore the only checker that can answer True on an
  admitted table that is not well formed. The checkers over `range(ORDER)`
  answer False or raise there. It is also the only checker modelled on every
  admitted table. For example, it answers True on the 3 by 3 table of 2s
  (`Scenarios.AllTwosIdempotent`).
- `__rackProperty__` counts solutions of `a & c == b` over all `(a, b, c)`
  together. On a well-formed table the check therefore holds exactly at order 1.
  It does not test unique solvability for each `(a, b)`. So `isRack` and
  `isQuandle` hold exactly at order 1.
- `isExtra` returns False when the Extra identity holds, so it demands that the
  identity fail at every triple. Every non-empty associative magma fails it.
- `isAlternative` and `isZeropotent` are parsed by Python as `(not L) and R`. A
  pair fails only when the first law is broken and the second holds.
- `isSteiner` builds `y` from `_x`. It is commutativity plus `x & (x & x) == x`,
  and `[[0, 0], [0, 1]]` passes it without being a Steiner magma.
- `isKei` calls `isRightInvoulntary`, which is declared without `self`.
  Reaching that call raises `TypeError`, so `isKei` either answers False or raises.
- An empty table is admitted, with `ORDER = 0`.
- The identity cache belongs to the instance on which `hasIdentity` was called.
  Before that call, `isInvertable` answers False on any magma with an element.

## Model

| member | source | states |
|---|---|---|
| `CayleyTable.Admit` | magpy/Magma.py:23-39 | a missing table is refused; otherwise the result is an error exactly when some row's length differs from the number of rows; on success the table is kept, SET is exactly the set of entries and ORDER is its size |
| `CayleyTable.InEntries` | magpy/Magma.py:34-37 | a value is in the collected SET exactly when it is written in some cell |
| `CayleyTable.OrderBound` | magpy/Magma.py:33-38 | on a well-formed table ORDER, the number of distinct entries, never exceeds the number of rows |
| `CayleyTable.Prod` | magpy/Magma.py:132-133 | on a well-formed table the lookup `CAYLEY_TABLE[x][y]` of two values below ORDER is again below ORDER |
| `Elements.Construct` | magpy/Magma.py:124-130 | construction succeeds exactly when the value is in SET, keeps the value unchanged and starts non-greek; otherwise it fails with an invalid-argument error |
| `Elements.MagmaOp` | magpy/Magma.py:132-136 | the product exists exactly when both values index the table; its value is the cell `CAYLEY_TABLE[x.n][y.n]`, which is in SET, so the construction inside never fails; it is greek exactly when an operand is |
| `Elements.MagmaOpIsProd` | magpy/Magma.py:132-136 | on a well-formed table, `&` of two instances always succeeds and gives the table lookup used by every law checker |
| `Elements.EqualsIsEquivalence` | magpy/Magma.py:158-162 | `==` compares values only: it is reflexive, symmetric and transitive, and ignores the display flag |
| `Operators.MagmaClass.constructor` | magpy/Magma.py:98 | a class starts in "mult" mode |
| `Operators.MagmaClass.SetMagmaOperator` | magpy/Magma.py:138-144 | "mult" and "add" select the mode class-wide; any other string leaves the mode unchanged |
| `Operators.MagmaClass.Mul` | magpy/Magma.py:154-156 | `*` gives the product exactly in "mult" mode and None otherwise |
| `Operators.MagmaClass.Add` | magpy/Magma.py:150-152 | `+` gives the product exactly in "add" mode and None otherwise |
| `Operators.ExactlyOneOperator` | magpy/Magma.py:150-156 | in every state exactly one of `*` and `+` yields the product |
| `Laws.IsCommutative` | magpy/Magma.py:172-182 | true iff `x & y == y & x` for all x, y below ORDER |
| `Laws.IsAssociative` | magpy/Magma.py:184-196 | true iff `(x & y) & z == x & (y & z)` for all triples below ORDER |
| `Laws.IsSelfDistributive` | magpy/Magma.py:278-288 | true iff `x & (y & z) == (x & y) & (x & z)` for all triples |
| `Laws.IsIdempotent` | magpy/Magma.py:322-332 | on any admitted table, the cells are read row by row and the first cell that fails decides. If its value v is not a row index the answer is an index error; if `CAYLEY_TABLE[v][v] != v` it is False. When every cell passes it is True. On a well-formed table it never raises and answers whether every cell value is idempotent |
| `Laws.IdempotentOnCellsIff` | magpy/Magma.py:322-332 | on a well-formed table, testing the cells is the same as `x & x == x` for every x below ORDER |
| `Laws.IsParamedial` | magpy/Magma.py:338-350 | true iff `(a & x) & (y & b) == (b & x) & (y & a)` for all four-tuples |
| `Laws.IsFlexible` | magpy/Magma.py:352-360 | true iff `x & (y & x) == (x & y) & x` for all pairs |
| `Laws.IsJordan` | magpy/Magma.py:362-370 | true iff `((x & x) & y) & x == (x & x) & (y & x)` for all pairs |
| `Laws.IsAlternative` | magpy/Magma.py:376-384 | true iff no pair breaks `(x & x) & y == x & (x & y)` while `x & (y & y) == (x & y) & y` holds |
| `Laws.AssociativeIsAlternative` | magpy/Magma.py:376-384 | every associative magma passes isAlternative |
| `Laws.TextbookAlternativeIsAlternative` | magpy/Magma.py:376-384 | a magma satisfying both alternative laws passes isAlternative |
| `Laws.IsExtra` | magpy/Magma.py:386-396 | true iff `((x & y) & z) & x != x & (y & (z & x))` at every triple |
| `Laws.AssociativeIsNotExtra` | magpy/Magma.py:386-396 | a non-empty associative magma, and so every group, fails isExtra |
| `Laws.IsLeftBol` | magpy/Magma.py:398-408 | true iff `y & (z & (y & x)) == (y & (z & y)) & x` for all triples |
| `Laws.IsRightBol` | magpy/Magma.py:410-420 | true iff `((x & y) & z) & y == x & ((y & z) & y)` for all triples |
| `Laws.IsSteiner` | magpy/Magma.py:456-464 | true iff every x has `x & (x & x) == x` together with isCommutative; y is built from `_x` |
| `Laws.SteinerReduced` | magpy/Magma.py:456-464 | isSteiner is commutativity plus `x & (x & x) == x`, and every textbook Steiner magma passes it |
| `Laws.IsMedial` | magpy/Magma.py:477-489 | true iff `(x & y) & (u & v) == (x & u) & (y & v)` for all four-tuples |
| `Laws.IsZeropotent` | magpy/Magma.py:495-503 | true iff no pair breaks `(x & x) & y == (y & y) & x` while `(x & x) & y == x & x` holds |
| `RackCount.IsRackProperty` | magpy/Magma.py:290-306 | one counter over all (a, b, c) of solutions to `a & c == b`; the answer is False once it passes 1 and otherwise whether its final value is 1 |
| `RackCount.TableHitsCount` | magpy/Magma.py:293-303 | after the first a rows the counter has counted exactly a * ORDER solutions, one for each (a, c) |
| `RackCount.SolutionCountIsSquare` | magpy/Magma.py:290-306 | on a well-formed table the counter ends at ORDER * ORDER |
| `RackCount.RackPropertyIffOrderOne` | magpy/Magma.py:290-306 | the check holds exactly when ORDER is 1, not per-(a, b) unique solvability as its doc-comment says |
| `Instances.FirstIdentityFrom` | magpy/Magma.py:200-204 | the upward search from k returns the least right identity at or above k, or nothing when none exists there |
| `Instances.FirstIdentity` | magpy/Magma.py:198-205 | the cached value exists exactly when some right identity exists, and is then a right identity below ORDER |
| `Instances.FirstIdentityIsLeast` | magpy/Magma.py:200-204 | a right identity with none below it is the one the search caches |
| `Instances.PowerOfTwoIff` | magpy/Magma.py:428 | the integer test stands for `log(ORDER, 2).is_integer()`: it holds exactly for the powers 2^k |
| `Instances.Magma.constructor` | magpy/Magma.py:122-130 | an instance holds the element that construction builds for its value, and starts with an empty identity cache |
| `Instances.Magma.IsIdentity` | magpy/Magma.py:207-213 | true iff `x & e == x` for every x (right identity only) |
| `Instances.Magma.HasIdentity` | magpy/Magma.py:198-205 | true iff some e below ORDER is a right identity; on success an empty cache receives the first such e and a filled cache is kept; on failure the cache is untouched |
| `Instances.Magma.HasInverse` | magpy/Magma.py:215-225 | false on an empty cache, otherwise true iff some y has `x & y` equal to the cached identity |
| `Instances.Magma.IsInvertable` | magpy/Magma.py:227-233 | true iff hasInverse holds for every x with the cache as it is now |
| `Instances.Magma.IsMonoid` | magpy/Magma.py:235-240 | true iff a right identity exists and the table is associative; the cache is updated as by hasIdentity |
| `Instances.Magma.IsGroup` | magpy/Magma.py:242-247 | true iff monoid and every x has a right inverse for the first right identity; the cache is updated as by hasIdentity |
| `Instances.Magma.IsAbeleanGroup` | magpy/Magma.py:249-254 | true iff group and commutative; the cache is updated as by hasIdentity |
| `Instances.Magma.IsLoop` | magpy/Magma.py:256-261 | true iff hasIdentity, evaluated first, and then isInvertable with the identity it cached; associativity is not required |
| `Instances.Magma.IsQuasidihedral` | magpy/Magma.py:422-431 | true iff group, not commutative and ORDER a power of two |
| `Instances.EmptyCacheNotInvertible` | magpy/Magma.py:215-218 | with an empty cache isInvertable is false on every magma with an element |
| `Instances.SearchIsIdempotent` | magpy/Magma.py:200-204 | repeating hasIdentity never changes a filled cache, and it leaves the cache alone when there is no right identity |
| `Instances.GroupChain` | magpy/Magma.py:235-254 | group implies monoid implies right identity and associativity; a group is a loop; abelian group iff group and commutative |
| `Instances.QuasidihedralIsNonAbelianGroup` | magpy/Magma.py:422-431 | a quasidihedral magma is a non-commutative group of order 2^k with at least two elements |
| `Composites.IsRack` | magpy/Magma.py:308-313 | true iff self-distributive and the rack property holds |
| `Composites.IsQuandle` | magpy/Magma.py:315-320 | true iff rack and idempotent on the cells |
| `Composites.IsBand` | magpy/Magma.py:433-438 | true iff associative and idempotent on the cells |
| `Composites.IsSquag` | magpy/Magma.py:466-471 | true iff isSteiner and idempotent on the cells |
| `Composites.IsKei` | magpy/Magma.py:449-454 | raises (the call to isRightInvoulntary fails) exactly when isQuandle holds, and answers False otherwise |
| `Composites.CompositeChain` | magpy/Magma.py:308-320 | quandle implies rack implies self-distributive; band iff associative and `x & x == x` for every x |
| `Composites.RackIffOrderOne` | magpy/Magma.py:308-313 | on a well-formed table isRack holds exactly at order 1 |
| `Composites.QuandleIffOrderOne` | magpy/Magma.py:315-320 | on a well-formed table isQuandle holds exactly at order 1 |
| `Composites.KeiRaisesIffOrderOne` | magpy/Magma.py:449-454 | isKei raises exactly at order 1 and answers False otherwise |
| `Composites.SquagIffCommutativeIdempotent` | magpy/Magma.py:466-471 | isSquag holds exactly for commutative magmas with `x & x == x` for every x |
| `Scenarios.XnorIsGroup` | magpy/Magma.py:198-213 | `[[1, 0], [0, 1]]` has the cached identity 1, is an abelian group and is not quasidihedral |
| `Scenarios.LeftProjectionIsMonoid` | magpy/Magma.py:198-213 | in `[[0, 0], [1, 1]]` the search caches 0, which is a right identity only; isMonoid holds and isGroup does not, and no element is a left identity |
| `Scenarios.AllTwosIdempotent` | magpy/Magma.py:322-332 | the 3 by 3 table of 2s is admitted with ORDER 1 and is not well formed, yet every cell passes isIdempotent |
| `Scenarios.MinPassesSteiner` | magpy/Magma.py:456-464 | `[[0, 0], [0, 1]]` passes isSteiner and isSquag although `0 & (0 & 1) != 1` |
| `Scenarios.OutOfSetValueRejected` | magpy/Magma.py:127-130 | the value 5 is refused in a magma of order 2 |
| `Scenarios.TrivialIsGroup` | magpy/Magma.py:242-247 | `[[0]]` is a group, commutative, idempotent and a quandle |
| `Scenarios.Cyclic3Associative` | magpy/Magma.py:184-196 | addition modulo 3 passes isAssociative |
| `Scenarios.Cyclic3IsAbelianGroup` | magpy/Magma.py:249-254 | addition modulo 3 is an abelian group and is not quasidihedral, since 3 is not a power of two |

## Left out

- `Instances.Magma.IsQuasidihedral`: the floating-point `log(ORDER, 2).is_integer()` is replaced by an exact integer power-of-two test. Rounding of the logarithm is not modelled.
- `isMoufangLoop`: its first test uses the undefined names `z`, `x` and `zy`, so it raises `NameError` for any non-empty magma. It has no behaviour to state.
- `isRightInvoulntary`: it is declared without `self` and cannot be called as a method. It appears only through the error it makes `isKei` raise.
- Placeholder methods that return None are not modelled: `isSzasz`, `isAntiCommutative`, `isDiassociative`, `IsSubMagma`, `isLeftSemimedial`, `isRightSemimedial`, `isSemimedial`, `nucleus`, `evaluate` and `applyToAllOfOrder`.
- Display is not modelled. That covers `__repr__`, the greek, `eabc` and custom charsets, and a subclass that turns `usegreek` on for the whole class. The greek flag is only carried along by `magmaOp`.
- The `print` in `setMagmaOperator` is output only and is left out.
- The abstract-class guard in `__init__` and the metaclass's `name is not 'Magma'` test are left out. They concern only classes named `Magma`: such a class skips the table checks and cannot be instantiated.
- Table entries are natural numbers; the code would accept any hashable value.
- Every law checker except `isIdempotent`, and the instance class, require a well-formed table. On other admitted tables the source's loops either raise or answer, depending on where they stop. Building an instance of a value outside SET raises; a value past the last row raises an index error. A counterexample found before either of these gives False: on `[[0, 1], [2, 3]]`, `isCommutative` answers False at (0, 1). Those answers are not modelled for these checkers. The raising paths are modelled for `Elements.Construct` and `Elements.MagmaOp`, and `Laws.IsIdempotent` is modelled on every admitted table.
- Class objects are not shared between subclasses: each `MagmaClass` carries its own mode. Name mangling and attribute lookup through the class hierarchy are left out.
