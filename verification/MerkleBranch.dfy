/** Merkle branches over any pair hash: the climb from a leaf, and the full tree it climbs. */
module MerkleBranch {
  import opened Powers

  /** Two different pairs, one of each set, have the same hash. */
  ghost predicate Collides<T(!new)>(H: (T, T) -> T, s: set<(T, T)>, t: set<(T, T)>) {
    exists x, y :: x in s && y in t && x != y && H(x.0, x.1) == H(y.0, y.1)
  }

  /** Pairs with one hash are the same pair, unless they collide. */
  lemma SamePair<T(!new)>(H: (T, T) -> T, x: (T, T), y: (T, T), s: set<(T, T)>, t: set<(T, T)>)
    requires H(x.0, x.1) == H(y.0, y.1) && x in s && y in t
    ensures x == y || Collides(H, s, t)
  {
  }

  lemma CollidesGrows<T(!new)>(H: (T, T) -> T, s: set<(T, T)>, t: set<(T, T)>, s': set<(T, T)>, t': set<(T, T)>)
    requires s <= s' && t <= t'
    ensures Collides(H, s, t) ==> Collides(H, s', t')
  {
  }

  // ---------- Merkle branches ----------

  function Climb<T(!new)>(H: (T, T) -> T, hash: T, sibling: T, index: int): T {
    if index % 2 == 1 then H(sibling, hash) else H(hash, sibling)
  }

  /** The pair that is hashed for that. */
  ghost function ClimbPair<T(!new)>(hash: T, sibling: T, index: int): (T, T) {
    if index % 2 == 1 then (sibling, hash) else (hash, sibling)
  }

  /** The root a branch leads to. */
  ghost function BranchRoot<T(!new)>(H: (T, T) -> T, hash: T, branch: seq<T>, index: int): T
    decreases |branch|
  {
    if branch == [] then hash else BranchRoot(H, Climb(H, hash, branch[0], index), branch[1..], index / 2)
  }

  /** The pairs hashed on the way. */
  ghost function ClimbPairs<T(!new)>(H: (T, T) -> T, hash: T, branch: seq<T>, index: int): set<(T, T)>
    decreases |branch|
  {
    if branch == [] then {} else
      {ClimbPair(hash, branch[0], index)} + ClimbPairs(H, Climb(H, hash, branch[0], index), branch[1..], index / 2)
  }

  /** One row of a tree over the row below it. */
  ghost predicate IsAbove<T(!new)>(H: (T, T) -> T, row: seq<T>, up: seq<T>) {
    |row| == 2 * |up| && forall j | 0 <= j < |up| :: up[j] == H(row[2 * j], row[2 * j + 1])
  }

  /** A full tree, as its rows from the leaves to the root. */
  ghost predicate IsTree<T(!new)>(H: (T, T) -> T, rows: seq<seq<T>>) {
    if |rows| <= 1 then |rows| == 1 && |rows[0]| == 1
    else IsAbove(H, rows[0], rows[1]) && IsTree(H, rows[1..])
  }

  ghost function TreeRoot<T(!new)>(H: (T, T) -> T, rows: seq<seq<T>>): T
    requires IsTree(H, rows)
  {
    if |rows| == 1 then rows[0][0] else TreeRoot(H, rows[1..])
  }

  lemma {:induction false} LeafCount<T(!new)>(H: (T, T) -> T, rows: seq<seq<T>>)
    requires IsTree(H, rows)
    ensures |rows[0]| == P2(|rows| - 1)
    decreases |rows|
  {
    if |rows| > 1 { LeafCount(H, rows[1..]); }
  }

  ghost function Sibling<T(!new)>(row: seq<T>, i: nat): T
    requires i < |row| && |row| % 2 == 0
  {
    if i % 2 == 1 then row[i - 1] else row[i + 1]
  }

  /** The branch that belongs to leaf i. */
  ghost function BranchOf<T(!new)>(H: (T, T) -> T, rows: seq<seq<T>>, i: nat): (b: seq<T>)
    requires IsTree(H, rows) && i < |rows[0]|
    ensures |b| == |rows| - 1
  {
    if |rows| == 1 then [] else [Sibling(rows[0], i)] + BranchOf(H, rows[1..], i / 2)
  }

  lemma ClimbRow<T(!new)>(H: (T, T) -> T, row: seq<T>, up: seq<T>, i: nat)
    requires IsAbove(H, row, up) && i < |row|
    ensures Climb(H, row[i], Sibling(row, i), i) == up[i / 2]
  {
    var j := i / 2;
    if i % 2 == 1 {
      assert i == 2 * j + 1;
    } else {
      assert i == 2 * j;
    }
  }

  lemma ClimbOne<T(!new)>(H: (T, T) -> T, x: T, sibling: T, rest: seq<T>, i: int)
    ensures BranchRoot(H, x, [sibling] + rest, i) == BranchRoot(H, Climb(H, x, sibling, i), rest, i / 2)
  {
    assert ([sibling] + rest)[1..] == rest;
  }

  /** An honest branch leads to the root. */
  lemma {:induction false} BranchComplete<T(!new)>(H: (T, T) -> T, rows: seq<seq<T>>, i: nat)
    requires IsTree(H, rows) && i < |rows[0]|
    ensures BranchRoot(H, rows[0][i], BranchOf(H, rows, i), i) == TreeRoot(H, rows)
    decreases |rows|
  {
    if |rows| > 1 {
      BranchComplete(H, rows[1..], i / 2);
      ClimbRow(H, rows[0], rows[1], i);
      ClimbOne(H, rows[0][i], Sibling(rows[0], i), BranchOf(H, rows[1..], i / 2), i);
    }
  }

  /** Two branches of one length and index that lead to one root are the same, unless a pair hashed
      on one way collides with a pair hashed on the other. */
  lemma {:induction false} BranchBinds<T(!new)>(H: (T, T) -> T, x: T, y: T, p: seq<T>, q: seq<T>, i: int)
    requires |p| == |q| && BranchRoot(H, x, p, i) == BranchRoot(H, y, q, i)
    ensures (x == y && p == q) || Collides(H, ClimbPairs(H, x, p, i), ClimbPairs(H, y, q, i))
    decreases |p|
  {
    if p != [] {
      var x', y' := Climb(H, x, p[0], i), Climb(H, y, q[0], i);
      var s, t := ClimbPairs(H, x, p, i), ClimbPairs(H, y, q, i);
      BranchBinds(H, x', y', p[1..], q[1..], i / 2);
      CollidesGrows(H, ClimbPairs(H, x', p[1..], i / 2), ClimbPairs(H, y', q[1..], i / 2), s, t);
      if x' == y' { SamePair(H, ClimbPair(x, p[0], i), ClimbPair(y, q[0], i), s, t); }
      assert p == [p[0]] + p[1..] && q == [q[0]] + q[1..];
    }
  }

  /** The pairs of a tree on the way from leaf i to the root. */
  ghost function PathPairs<T(!new)>(H: (T, T) -> T, rows: seq<seq<T>>, i: nat): set<(T, T)>
    requires IsTree(H, rows) && i < |rows[0]|
  {
    ClimbPairs(H, rows[0][i], BranchOf(H, rows, i), i)
  }

  /** They are neighbours in the rows of the tree. */
  lemma {:induction false} PathInTree<T(!new)>(H: (T, T) -> T, rows: seq<seq<T>>, i: nat, x: (T, T))
    requires IsTree(H, rows) && i < |rows[0]| && x in PathPairs(H, rows, i)
    ensures exists k: nat, j: nat :: k < |rows| && 2 * j + 1 < |rows[k]| && x == (rows[k][2 * j], rows[k][2 * j + 1])
    decreases |rows|
  {
    if |rows| > 1 {
      var row := rows[0];
      var rest := BranchOf(H, rows[1..], i / 2);
      ClimbRow(H, row, rows[1], i);
      assert ([Sibling(row, i)] + rest)[1..] == rest;
      if x == ClimbPair(row[i], Sibling(row, i), i) {
        assert x == (rows[0][2 * (i / 2)], rows[0][2 * (i / 2) + 1]);
      } else {
        PathInTree(H, rows[1..], i / 2, x);
        var k: nat, j: nat :| k < |rows[1..]| && 2 * j + 1 < |rows[1..][k]| && x == (rows[1..][k][2 * j], rows[1..][k][2 * j + 1]);
        assert rows[1..][k] == rows[k + 1];
      }
    }
  }

  /** Only the leaf really at the index, with its own branch, leads to the root of a full tree,
      unless a pair hashed on the way collides with a pair of the tree. */
  lemma BranchSound<T(!new)>(H: (T, T) -> T, rows: seq<seq<T>>, x: T, branch: seq<T>, i: nat)
    requires IsTree(H, rows) && |rows| == |branch| + 1 && i < |rows[0]|
    requires BranchRoot(H, x, branch, i) == TreeRoot(H, rows)
    ensures (x == rows[0][i] && branch == BranchOf(H, rows, i)) || Collides(H, ClimbPairs(H, x, branch, i), PathPairs(H, rows, i))
  {
    BranchComplete(H, rows, i);
    BranchBinds(H, x, rows[0][i], branch, BranchOf(H, rows, i), i);
  }
}
