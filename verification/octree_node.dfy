/** The octree's nodes as values, and the value-level meaning of the three
    recursive walks of the low-memory octree: create (`createLeafRecursive`
    followed by the leaf's `setData`), find (`findLeafRecursive`) and delete
    (`deleteLeafRecursive`). The class in LowMemOctree runs these walks and
    is proved against the functions here. */
module OctreeNodes {
  import opened Util
  import opened OctreeKeys

  /** One child slot of a branch: absent, a leaf holding its data vector,
      or a branch with eight slots. The root is always a Branch. */
  datatype Node<D> = Empty | Leaf(data: seq<D>) | Branch(kids: seq<Node<D>>)

  /** A freshly created branch: eight absent children. */
  function EmptyBranch<D>(): (n: Node<D>)
    ensures n.Branch? && |n.kids| == 8
    ensures forall i :: 0 <= i < 8 ==> n.kids[i] == Empty
  {
    Branch(seq(8, _ => Empty))
  }

  /** The branch at this level has eight slots; while the mask is above 1
      every occupied slot is a branch of the next level, at mask 1 (or 0)
      every occupied slot is a leaf. */
  ghost predicate Shaped<D>(n: Node<D>, mask: nat)
    decreases mask
  {
    && n.Branch? && |n.kids| == 8
    && forall i :: 0 <= i < 8 ==>
         n.kids[i] == Empty ||
         (if mask > 1 then n.kids[i].Branch? && Shaped(n.kids[i], mask / 2) else n.kids[i].Leaf?)
  }

  /** `branchHasChild` for some slot: the branch still owns a child. */
  predicate Occupied<D>(n: Node<D>)
    requires n.Branch?
  {
    exists i :: 0 <= i < |n.kids| && n.kids[i] != Empty
  }

  /** Every branch below the root owns at least one child: the structure
      holds exactly the occupied voxels (nothing to prune). */
  ghost predicate Compact<D>(n: Node<D>)
  {
    n.Branch? ==>
      forall i :: 0 <= i < |n.kids| && n.kids[i].Branch? ==>
        Occupied(n.kids[i]) && Compact(n.kids[i])
  }

  /** Number of leaves in the tree. */
  function Leaves<D>(n: Node<D>): int
  {
    match n
    case Empty => 0
    case Leaf(_) => 1
    case Branch(kids) => Sum(seq(|kids|, i requires 0 <= i < |kids| => Leaves(kids[i])))
  }

  /** Number of branches in the tree, this one included. */
  function Branches<D>(n: Node<D>): int
  {
    match n
    case Empty => 0
    case Leaf(_) => 0
    case Branch(kids) => 1 + Sum(seq(|kids|, i requires 0 <= i < |kids| => Branches(kids[i])))
  }

  /** The two keys choose the same octant at every level from mask down to 1. */
  predicate SamePath(k1: Key, k2: Key, mask: nat)
    decreases mask
  {
    ChildIdx(k1, mask) == ChildIdx(k2, mask) && (mask > 1 ==> SamePath(k1, k2, mask / 2))
  }

  /** Levels below this one at which the create walk needs a branch. */
  function BranchLevels(mask: nat): nat
    decreases mask
  {
    if mask > 1 then 1 + BranchLevels(mask / 2) else 0
  }

  /** How many of those branches already exist along the key's path. */
  function PathDepth<D>(n: Node<D>, k: Key, mask: nat): nat
    requires Shaped(n, mask)
    decreases mask
  {
    var kid := n.kids[ChildIdx(k, mask)];
    if mask > 1 && kid != Empty then 1 + PathDepth(kid, k, mask / 2) else 0
  }

  /** The branch directly above the key's leaf slot exists. */
  predicate ParentExists<D>(n: Node<D>, k: Key, mask: nat)
    requires Shaped(n, mask)
    decreases mask
  {
    var kid := n.kids[ChildIdx(k, mask)];
    mask <= 1 || (kid != Empty && ParentExists(kid, k, mask / 2))
  }

  /** findLeafRecursive: the data vector of the leaf at the key's path, or
      None as soon as a slot on the path is absent. */
  function Find<D>(n: Node<D>, k: Key, mask: nat): Option<seq<D>>
    requires Shaped(n, mask)
    decreases mask
  {
    var kid := n.kids[ChildIdx(k, mask)];
    if kid == Empty then None
    else if mask > 1 then Find(kid, k, mask / 2)
    else Some(kid.data)
  }

  /** The data held at the key so far (nothing when there is no leaf). */
  function DataAt<D>(n: Node<D>, k: Key, mask: nat): seq<D>
    requires Shaped(n, mask)
  {
    match Find(n, k, mask)
    case None => []
    case Some(d) => d
  }

  /** createLeafRecursive then setData: create the missing branches and the
      missing leaf along the key's path, reuse existing ones, and append v
      to the leaf's data. */
  function Insert<D>(n: Node<D>, k: Key, mask: nat, v: D): (r: Node<D>)
    requires Shaped(n, mask)
    ensures Shaped(r, mask)
    decreases mask
  {
    var i := ChildIdx(k, mask);
    var kid := n.kids[i];
    if mask > 1 then
      var child := if kid == Empty then EmptyBranch() else kid;
      Branch(n.kids[i := Insert(child, k, mask / 2, v)])
    else
      var data := if kid == Empty then [] else kid.data;
      Branch(n.kids[i := Leaf(data + [v])])
  }

  /** deleteLeafRecursive: clear the key's leaf slot, and unlink every
      child branch on the path that is left without children. */
  function Delete<D>(n: Node<D>, k: Key, mask: nat): (r: Node<D>)
    requires Shaped(n, mask)
    ensures Shaped(r, mask)
    decreases mask
  {
    var i := ChildIdx(k, mask);
    var kid := n.kids[i];
    if mask > 1 then
      if kid == Empty then n
      else
        var c := Delete(kid, k, mask / 2);
        Branch(n.kids[i := if Occupied(c) then c else Empty])
    else
      Branch(n.kids[i := Empty])
  }

  // ---------------------------------------------------------------------
  // Counting after replacing one child

  lemma LeavesUpdate<D>(kids: seq<Node<D>>, i: nat, c: Node<D>)
    requires i < |kids|
    ensures Leaves(Branch(kids[i := c])) == Leaves(Branch(kids)) - Leaves(kids[i]) + Leaves(c)
  {
    var s := seq(|kids|, j requires 0 <= j < |kids| => Leaves(kids[j]));
    var kids' := kids[i := c];
    var s' := seq(|kids'|, j requires 0 <= j < |kids'| => Leaves(kids'[j]));
    assert s' == s[i := Leaves(c)];
    SumUpdate(s, i, Leaves(c));
  }

  lemma BranchesUpdate<D>(kids: seq<Node<D>>, i: nat, c: Node<D>)
    requires i < |kids|
    ensures Branches(Branch(kids[i := c])) == Branches(Branch(kids)) - Branches(kids[i]) + Branches(c)
  {
    var s := seq(|kids|, j requires 0 <= j < |kids| => Branches(kids[j]));
    var kids' := kids[i := c];
    var s' := seq(|kids'|, j requires 0 <= j < |kids'| => Branches(kids'[j]));
    assert s' == s[i := Branches(c)];
    SumUpdate(s, i, Branches(c));
  }

  /** A branch without children holds no leaf and is a single branch. */
  lemma UnoccupiedCounts<D>(n: Node<D>)
    requires n.Branch? && !Occupied(n)
    ensures Leaves(n) == 0 && Branches(n) == 1
  {
    var s := seq(|n.kids|, j requires 0 <= j < |n.kids| => Leaves(n.kids[j]));
    var t := seq(|n.kids|, j requires 0 <= j < |n.kids| => Branches(n.kids[j]));
    SumAllZero(s);
    SumAllZero(t);
  }

  lemma EmptyBranchCounts<D>()
    ensures Leaves(EmptyBranch<D>()) == 0 && Branches(EmptyBranch<D>()) == 1
    ensures !Occupied(EmptyBranch<D>())
  {
    UnoccupiedCounts(EmptyBranch<D>());
  }

  // ---------------------------------------------------------------------
  // Create

  /** After inserting at k, the key k (and any key on the same path) finds
      the old data with v appended; every other key finds what it found. */
  lemma {:induction false} FindInsert<D>(n: Node<D>, k: Key, k2: Key, mask: nat, v: D)
    requires Shaped(n, mask)
    ensures Find(Insert(n, k, mask, v), k2, mask) ==
            if SamePath(k, k2, mask) then Some(DataAt(n, k, mask) + [v]) else Find(n, k2, mask)
    decreases mask
  {
    var i := ChildIdx(k, mask);
    var kid := n.kids[i];
    if mask > 1 {
      var child := if kid == Empty then EmptyBranch() else kid;
      FindInsert(child, k, k2, mask / 2, v);
    }
  }

  /** The create walk adds a leaf exactly when none was there. */
  lemma {:induction false} LeavesInsert<D>(n: Node<D>, k: Key, mask: nat, v: D)
    requires Shaped(n, mask)
    ensures Leaves(Insert(n, k, mask, v)) == Leaves(n) + (if Find(n, k, mask).None? then 1 else 0)
    decreases mask
  {
    var i := ChildIdx(k, mask);
    var kid := n.kids[i];
    if mask > 1 {
      var child := if kid == Empty then EmptyBranch() else kid;
      if kid == Empty {
        EmptyBranchCounts<D>();
      }
      LeavesInsert(child, k, mask / 2, v);
      LeavesUpdate(n.kids, i, Insert(child, k, mask / 2, v));
    } else {
      var data := if kid == Empty then [] else kid.data;
      LeavesUpdate(n.kids, i, Leaf(data + [v]));
    }
  }

  /** The create walk adds one branch per level whose branch is missing on
      the key's path, and reuses the ones that exist. */
  lemma {:induction false} BranchesInsert<D>(n: Node<D>, k: Key, mask: nat, v: D)
    requires Shaped(n, mask)
    ensures Branches(Insert(n, k, mask, v)) == Branches(n) + BranchLevels(mask) - PathDepth(n, k, mask)
    decreases mask
  {
    var i := ChildIdx(k, mask);
    var kid := n.kids[i];
    if mask > 1 {
      var child := if kid == Empty then EmptyBranch() else kid;
      if kid == Empty {
        EmptyBranchCounts<D>();
        PathDepthEmpty<D>(k, mask / 2);
      }
      BranchesInsert(child, k, mask / 2, v);
      BranchesUpdate(n.kids, i, Insert(child, k, mask / 2, v));
    } else {
      var data := if kid == Empty then [] else kid.data;
      BranchesUpdate(n.kids, i, Leaf(data + [v]));
    }
  }

  lemma PathDepthEmpty<D>(k: Key, mask: nat)
    ensures Shaped(EmptyBranch<D>(), mask) && PathDepth(EmptyBranch<D>(), k, mask) == 0
  {
  }

  /** Creating never leaves a childless branch behind. */
  lemma {:induction false} CompactInsert<D>(n: Node<D>, k: Key, mask: nat, v: D)
    requires Shaped(n, mask) && Compact(n)
    ensures Compact(Insert(n, k, mask, v))
    decreases mask
  {
    var i := ChildIdx(k, mask);
    var kid := n.kids[i];
    var r := Insert(n, k, mask, v);
    if mask > 1 {
      var child := if kid == Empty then EmptyBranch() else kid;
      CompactInsert(child, k, mask / 2, v);
      var c := Insert(child, k, mask / 2, v);
      assert c.kids[ChildIdx(k, mask / 2)] != Empty;
      assert Occupied(c);
      assert r.kids == n.kids[i := c];
    }
  }

  // ---------------------------------------------------------------------
  // Delete

  /** A branch without children finds nothing. */
  lemma FindUnoccupied<D>(n: Node<D>, k: Key, mask: nat)
    requires Shaped(n, mask) && !Occupied(n)
    ensures Find(n, k, mask).None?
  {
    assert n.kids[ChildIdx(k, mask)] == Empty;
  }

  /** After deleting at k, the keys on k's path find nothing and every other
      key finds what it found: pruning removes no other leaf. */
  lemma {:induction false} FindDelete<D>(n: Node<D>, k: Key, k2: Key, mask: nat)
    requires Shaped(n, mask)
    ensures Find(Delete(n, k, mask), k2, mask) == if SamePath(k, k2, mask) then None else Find(n, k2, mask)
    decreases mask
  {
    var i := ChildIdx(k, mask);
    var kid := n.kids[i];
    if mask > 1 && kid != Empty {
      var c := Delete(kid, k, mask / 2);
      FindDelete(kid, k, k2, mask / 2);
      if !Occupied(c) && ChildIdx(k2, mask) == i {
        FindUnoccupied(c, k2, mask / 2);
      }
    }
  }

  /** The delete walk removes one leaf exactly when the key had one. */
  lemma {:induction false} LeavesDelete<D>(n: Node<D>, k: Key, mask: nat)
    requires Shaped(n, mask)
    ensures Leaves(Delete(n, k, mask)) == Leaves(n) - (if Find(n, k, mask).Some? then 1 else 0)
    decreases mask
  {
    var i := ChildIdx(k, mask);
    var kid := n.kids[i];
    if mask > 1 {
      if kid != Empty {
        var c := Delete(kid, k, mask / 2);
        LeavesDelete(kid, k, mask / 2);
        if !Occupied(c) {
          UnoccupiedCounts(c);
        }
        LeavesUpdate(n.kids, i, if Occupied(c) then c else Empty);
      }
    } else {
      LeavesUpdate(n.kids, i, Empty);
    }
  }

  /** Deleting never adds a branch. */
  lemma {:induction false} BranchesDelete<D>(n: Node<D>, k: Key, mask: nat)
    requires Shaped(n, mask)
    ensures Branches(Delete(n, k, mask)) <= Branches(n)
    decreases mask
  {
    var i := ChildIdx(k, mask);
    var kid := n.kids[i];
    if mask > 1 {
      if kid != Empty {
        var c := Delete(kid, k, mask / 2);
        BranchesDelete(kid, k, mask / 2);
        if !Occupied(c) {
          UnoccupiedCounts(c);
        }
        BranchesUpdate(n.kids, i, if Occupied(c) then c else Empty);
      }
    } else {
      BranchesUpdate(n.kids, i, Empty);
    }
  }

  /** Deleting keeps the structure compact: every branch that the deletion
      leaves childless is pruned. */
  lemma {:induction false} CompactDelete<D>(n: Node<D>, k: Key, mask: nat)
    requires Shaped(n, mask) && Compact(n)
    ensures Compact(Delete(n, k, mask))
    decreases mask
  {
    var i := ChildIdx(k, mask);
    var kid := n.kids[i];
    if mask > 1 && kid != Empty {
      CompactDelete(kid, k, mask / 2);
    }
  }

  /** In a compact tree, deleting a key that has no leaf changes nothing. */
  lemma {:induction false} DeleteMissing<D>(n: Node<D>, k: Key, mask: nat)
    requires Shaped(n, mask) && Compact(n) && Find(n, k, mask).None?
    ensures Delete(n, k, mask) == n
    decreases mask
  {
    var i := ChildIdx(k, mask);
    var kid := n.kids[i];
    if mask > 1 {
      if kid != Empty {
        DeleteMissing(kid, k, mask / 2);
        assert n.kids[i := kid] == n.kids;
      }
    } else {
      assert n.kids[i := Empty] == n.kids;
    }
  }

  /** The pruning cascade: in a compact tree whose only leaf is at k,
      deleting k prunes every branch below the root, so the root is left
      childless and is the only branch. */
  lemma {:induction false} DeleteOnlyLeaf<D>(n: Node<D>, k: Key, mask: nat)
    requires Shaped(n, mask) && Compact(n) && Find(n, k, mask).Some? && Leaves(n) == 1
    ensures !Occupied(Delete(n, k, mask))
    ensures Branches(Delete(n, k, mask)) == 1
    decreases mask
  {
    var r := Delete(n, k, mask);
    LeavesDelete(n, k, mask);
    CompactDelete(n, k, mask);
    forall j | 0 <= j < 8
      ensures r.kids[j] == Empty
    {
      OnlyLeafSlot(r, mask, j);
    }
    UnoccupiedCounts(r);
  }

  /** A compact tree without leaves has no occupied slot. */
  lemma OnlyLeafSlot<D>(n: Node<D>, mask: nat, j: nat)
    requires Shaped(n, mask) && Compact(n) && Leaves(n) == 0 && j < 8
    ensures n.kids[j] == Empty
  {
    if n.kids[j] != Empty {
      var s := seq(|n.kids|, t requires 0 <= t < |n.kids| => Leaves(n.kids[t]));
      forall t | 0 <= t < 8 ensures s[t] >= 0 { LeavesNonNegative(n.kids[t]); }
      LeavesPositive(n.kids[j]);
      SumPositive(s, j);
    }
  }

  lemma {:induction false} LeavesNonNegative<D>(n: Node<D>)
    ensures Leaves(n) >= 0
  {
    if n.Branch? {
      var s := seq(|n.kids|, t requires 0 <= t < |n.kids| => Leaves(n.kids[t]));
      forall t | 0 <= t < |n.kids| ensures s[t] >= 0 { LeavesNonNegative(n.kids[t]); }
      SumNonNegative(s);
    }
  }

  /** A leaf, or an occupied branch of a compact tree, holds at least one leaf. */
  lemma {:induction false} LeavesPositive<D>(n: Node<D>)
    requires n.Leaf? || (n.Branch? && Occupied(n) && Compact(n))
    ensures Leaves(n) > 0
  {
    if n.Branch? {
      var j :| 0 <= j < |n.kids| && n.kids[j] != Empty;
      var s := seq(|n.kids|, t requires 0 <= t < |n.kids| => Leaves(n.kids[t]));
      forall t | 0 <= t < |n.kids| ensures s[t] >= 0 { LeavesNonNegative(n.kids[t]); }
      if n.kids[j].Branch? || n.kids[j].Leaf? {
        LeavesPositive(n.kids[j]);
      }
      SumPositive(s, j);
    }
  }

  lemma {:induction false} SumPositive(s: seq<int>, j: nat)
    requires j < |s| && s[j] > 0 && forall t :: 0 <= t < |s| ==> s[t] >= 0
    ensures Sum(s) > 0
  {
    assert s == s[..j] + [s[j]] + s[j + 1..];
    SumAppend(s[..j] + [s[j]], s[j + 1..]);
    SumSnoc(s[..j], s[j]);
    SumNonNegative(s[..j]);
    SumNonNegative(s[j + 1..]);
  }
}
