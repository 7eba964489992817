/** Transaction-id comparison: 32-bit ids wrap around, so "logically earlier" is decided by the
    sign of a 32-bit difference. The comparisons are related to the unbounded transaction
    numbers they stand for. */
module Xid {
  const WRAP: int := 0x1_0000_0000
  const HALF: int := 0x8000_0000
  const FIRST_NORMAL: nat := 3

  type TransactionId = x: nat | x < WRAP

  predicate IsNormal(xid: TransactionId) {
    xid >= FIRST_NORMAL
  }

  /** `id1.wrapping_sub(id2) as i32`. */
  function Difference(id1: TransactionId, id2: TransactionId): int {
    var d := (id1 - id2) % WRAP;
    if d < HALF then d else d - WRAP
  }

  predicate Precedes(id1: TransactionId, id2: TransactionId) {
    if !IsNormal(id1) || !IsNormal(id2) then id1 < id2 else Difference(id1, id2) < 0
  }

  predicate PrecedesOrEquals(id1: TransactionId, id2: TransactionId) {
    if !IsNormal(id1) || !IsNormal(id2) then id1 <= id2 else Difference(id1, id2) <= 0
  }

  predicate Follows(id1: TransactionId, id2: TransactionId) {
    if !IsNormal(id1) || !IsNormal(id2) then id1 > id2 else Difference(id1, id2) > 0
  }

  predicate FollowsOrEquals(id1: TransactionId, id2: TransactionId) {
    if !IsNormal(id1) || !IsNormal(id2) then id1 >= id2 else Difference(id1, id2) >= 0
  }

  /** The id of the `n`-th transaction. */
  function Id(n: nat): TransactionId {
    n % WRAP
  }

  /** Transactions less than half the id space apart. */
  predicate Near(x: nat, y: nat) {
    x - y < HALF && y - x < HALF
  }

  lemma DifferenceOfNear(x: nat, y: nat)
    requires Near(x, y)
    ensures Difference(Id(x), Id(y)) == x - y
  {
    var q := x / WRAP - y / WRAP;
    assert Id(x) - Id(y) == (x - y) - WRAP * q;
    ModuloShift(x - y, q);
  }

  lemma ModuloShift(d: int, q: int)
    ensures (d - WRAP * q) % WRAP == d % WRAP
  {
    var m := d / WRAP;
    assert d - WRAP * q == WRAP * (m - q) + d % WRAP;
  }

  /** Within a window of half the id space, all four comparisons of ids are the comparisons of
      the transactions themselves. */
  lemma RefinesUnboundedOrder(x: nat, y: nat)
    requires Near(x, y) && Id(x) >= 3 && Id(y) >= 3
    ensures Precedes(Id(x), Id(y)) <==> x < y
    ensures PrecedesOrEquals(Id(x), Id(y)) <==> x <= y
    ensures Follows(Id(x), Id(y)) <==> x > y
    ensures FollowsOrEquals(Id(x), Id(y)) <==> x >= y
  {
    DifferenceOfNear(x, y);
  }

  /** So on the normal ids of such a window `Precedes` is a strict total order. */
  lemma WindowIsTotallyOrdered(x: nat, y: nat, z: nat)
    requires Near(x, y) && Near(y, z) && Near(x, z)
    requires Id(x) >= 3 && Id(y) >= 3 && Id(z) >= 3
    ensures !Precedes(Id(x), Id(x))
    ensures Precedes(Id(x), Id(y)) || Id(x) == Id(y) || Precedes(Id(y), Id(x))
    ensures !(Precedes(Id(x), Id(y)) && Precedes(Id(y), Id(x)))
    ensures Precedes(Id(x), Id(y)) && Precedes(Id(y), Id(z)) ==> Precedes(Id(x), Id(z))
  {
    RefinesUnboundedOrder(x, x);
    RefinesUnboundedOrder(x, y);
    RefinesUnboundedOrder(y, x);
    RefinesUnboundedOrder(y, z);
    RefinesUnboundedOrder(x, z);
  }

  /** Two normal ids precede each other, and the mirror law "`a` precedes `b` exactly when `b`
      follows `a`" fails, precisely when they are half the id space apart. */
  lemma HalfwayIds(a: TransactionId, b: TransactionId)
    ensures Precedes(a, b) && Precedes(b, a) <==> a >= 3 && b >= 3 && (a - b == 0x8000_0000 || b - a == 0x8000_0000)
    ensures (Precedes(a, b) <==> Follows(b, a)) <==> !(a >= 3 && b >= 3 && (a - b == 0x8000_0000 || b - a == 0x8000_0000))
    ensures Follows(a, b) <==> !PrecedesOrEquals(a, b)
    ensures Precedes(a, b) <==> !FollowsOrEquals(a, b)
  {
    DifferenceOf(a, b);
    DifferenceOf(b, a);
  }

  lemma DifferenceOf(a: TransactionId, b: TransactionId)
    ensures Difference(a, b) == if a - b >= HALF then a - b - WRAP else if a - b < -HALF then a - b + WRAP else a - b
  {
    if a < b {
      assert (a - b) % WRAP == a - b + WRAP;
    } else {
      assert (a - b) % WRAP == a - b;
    }
  }

  /** The permanent ids 0, 1 and 2 come before every other id, and are compared as numbers. */
  lemma PermanentIds(a: TransactionId, b: TransactionId)
    requires a < 3
    ensures Precedes(a, b) <==> a < b
    ensures PrecedesOrEquals(a, b) <==> a <= b
    ensures Follows(b, a) <==> a < b
    ensures FollowsOrEquals(b, a) <==> a <= b
    ensures Precedes(b, a) <==> b < a
  {
  }

  /** Across the whole id space there is no order: three ids can precede each other in a
      circle. */
  lemma NoGlobalOrder()
    ensures Precedes(3, 0x6000_0000) && Precedes(0x6000_0000, 0xc000_0000) && Precedes(0xc000_0000, 3)
  {
    DifferenceOf(3, 0x6000_0000);
    DifferenceOf(0x6000_0000, 0xc000_0000);
    DifferenceOf(0xc000_0000, 3);
  }
}
