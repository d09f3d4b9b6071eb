/** The voxel key that accompanies every walk through the low-memory octree:
    three unsigned coordinates, one bit of each consumed per tree level. */
module OctreeKeys {
  import opened Util

  datatype Key = Key(x: nat, y: nat, z: nat)

  /** `!!(v & mask)` for a mask with a single set bit (or no bit at all). */
  function Bit(v: nat, mask: nat): (b: nat)
    ensures b <= 1
    ensures mask == 0 ==> b == 0
  {
    if mask == 0 then 0 else (v / mask) % 2
  }

  /** The octant selected at one level: x-bit at position 2, y-bit at 1, z-bit at 0. */
  function ChildIdx(k: Key, mask: nat): (i: nat)
    ensures i < 8
    ensures i / 4 == Bit(k.x, mask) && (i / 2) % 2 == Bit(k.y, mask) && i % 2 == Bit(k.z, mask)
  {
    4 * Bit(k.x, mask) + 2 * Bit(k.y, mask) + Bit(k.z, mask)
  }

  /** Descend one level: append the octant's three bits to the coordinates. */
  function PushBranch(k: Key, i: nat): Key
    requires i < 8
  {
    Key(2 * k.x + (if i >= 4 then 1 else 0),
        2 * k.y + (if i % 4 >= 2 then 1 else 0),
        2 * k.z + (if i % 2 == 1 then 1 else 0))
  }

  /** popBranch undoes pushBranch, and the pushed octant is the key's lowest level. */
  lemma PushPop(k: Key, i: nat)
    requires i < 8
    ensures PopBranch(PushBranch(k, i)) == k
    ensures ChildIdx(PushBranch(k, i), 1) == i
  {
  }

  /** Ascend one level: drop the most recently appended bit of each coordinate. */
  function PopBranch(k: Key): Key
  {
    Key(k.x / 2, k.y / 2, k.z / 2)
  }

  /** The key's coordinates with the lowest `n` bits shifted out: `n` pops. */
  function Shift(k: Key, n: nat): Key
    decreases n
  {
    if n == 0 then k else Shift(PopBranch(k), n - 1)
  }

  /** Two different octants below the same key give different keys. */
  lemma PushBranchInjective(k: Key, i: nat, j: nat)
    requires i < 8 && j < 8 && i != j
    ensures PushBranch(k, i) != PushBranch(k, j)
  {
    PushPop(k, i);
    PushPop(k, j);
  }

  /** Popping after n shifts is shifting n + 1 times. */
  lemma {:induction false} ShiftSucc(k: Key, n: nat)
    ensures Shift(k, n + 1) == PopBranch(Shift(k, n))
    decreases n
  {
    if n > 0 {
      ShiftSucc(PopBranch(k), n - 1);
    }
  }
}
