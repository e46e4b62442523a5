/** Where things sit in the mailbox segment, with the sizes of an LP64 glibc target: a
    4-byte int, a 32-byte sem_t (so a reader/writer lock of two semaphores and an int
    takes 72 bytes once padded) and an 8-byte pointer. */
module SegmentLayout {

  const IntSize: int := 4
  const LockSize: int := 72
  const PointerSize: int := 8
  /** The K of the source: box sizes are given in units of 1024 bytes. */
  const K: int := 1024

  /** The two header words, numBoxes then boxSize. */
  const HeaderLength: int := 2 * IntSize

  /** The length createMailboxes asks shmget for: header, one lock and one pointer per box
      (that pointer slack is not used by anything), and the boxes. */
  function SegmentLength(num: int, size: int): int {
    HeaderLength + LockSize * num + PointerSize * num + num * size * K
  }

  function LockOffset(b: int): int {
    HeaderLength + LockSize * b
  }

  /** Where the first box begins: right after the locks, the pointer slack being left out. */
  function DataBase(num: int): int {
    HeaderLength + LockSize * num
  }

  /** The capacity of a box of `size` K: at least K bytes once size is at least 1. */
  function BoxCap(size: int): (c: int)
    ensures size >= 1 ==> c >= K
    ensures size >= 0 ==> c >= 0
  {
    size * K
  }

  function BoxOffset(num: int, size: int, b: int): int {
    DataBase(num) + BoxCap(size) * b
  }

  /** a <= b scales by a non-negative factor. */
  lemma MulMonotone(a: int, b: int, c: int)
    requires a <= b && 0 <= c
    ensures a * c <= b * c
  {
    assert b * c - a * c == (b - a) * c;
  }

  /** Every lock lies inside the header-and-locks part and so inside the segment. */
  lemma LockWithinSegment(num: int, size: int, b: int)
    requires 0 <= b < num && 0 <= size
    ensures HeaderLength <= LockOffset(b)
    ensures LockOffset(b) + LockSize <= DataBase(num)
    ensures DataBase(num) <= SegmentLength(num, size)
  {
    assert num * size >= 0;
  }

  /** Every box lies after the locks and ends before the pointer slack at the end. */
  lemma {:induction false} BoxWithinSegment(num: int, size: int, b: int)
    requires 0 <= b < num && 0 <= size
    ensures DataBase(num) <= BoxOffset(num, size, b)
    ensures BoxOffset(num, size, b) + BoxCap(size) <= SegmentLength(num, size) - PointerSize * num
  {
    MulMonotone(b + 1, num, BoxCap(size));
    assert BoxCap(size) * b + BoxCap(size) == (b + 1) * BoxCap(size);
    assert num * size * K == num * BoxCap(size);
  }

  /** Boxes do not overlap: box b1 ends at or before box b2 begins. */
  lemma {:induction false} BoxesDisjoint(num: int, size: int, b1: int, b2: int)
    requires 0 <= b1 < b2 && 0 <= size
    ensures BoxOffset(num, size, b1) + BoxCap(size) <= BoxOffset(num, size, b2)
  {
    MulMonotone(b1 + 1, b2, BoxCap(size));
    assert BoxCap(size) * b1 + BoxCap(size) == (b1 + 1) * BoxCap(size);
  }

  /** The last box ends exactly where the num * sizeof(char*) slack begins, so the slack is
      never written by any box. */
  lemma {:induction false} SlackUnused(num: int, size: int)
    requires num >= 1
    ensures BoxOffset(num, size, num - 1) + BoxCap(size) == SegmentLength(num, size) - PointerSize * num
  {
    assert BoxCap(size) * (num - 1) + BoxCap(size) == num * size * K;
  }

  /** A segment shmget can grant (length at least 1) with at least one box has boxes of
      non-negative size. */
  lemma {:induction false} SizeNonnegWhenCreated(num: int, size: int)
    requires num >= 1 && SegmentLength(num, size) >= 1
    ensures size >= 0
  {
    if size < 0 {
      MulMonotone(1, num, -size * K);
    }
  }
}
