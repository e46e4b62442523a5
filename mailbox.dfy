/** The mailbox segment of prog3.c: createMailboxes lays out the header, one reader/writer
    lock per box and the boxes; writeToMailbox, readMailbox and copyMailbox each work on
    boxes under their locks. The byte-level effect of each operation on a box is given by a
    function on sequences, and the segment's methods are proved against those functions. */
module Mailbox {
  import opened Text
  import opened SegmentLayout
  import opened RwProtocol

  // ------------------------------------------------------------ boxes as byte sequences

  /** Box b of the segment image m. */
  function Box(m: seq<byte>, num: int, size: int, b: int): (box: seq<byte>)
    requires |m| == SegmentLength(num, size) && 0 <= b < num && 0 <= size
    ensures |box| == BoxCap(size)
  {
    BoxWithinSegment(num, size, b);
    m[BoxOffset(num, size, b)..BoxOffset(num, size, b) + BoxCap(size)]
  }

  /** The segment image m with box b replaced by nb. */
  function SetBox(m: seq<byte>, num: int, size: int, b: int, nb: seq<byte>): (r: seq<byte>)
    requires |m| == SegmentLength(num, size) && 0 <= b < num && 0 <= size && |nb| == BoxCap(size)
    ensures |r| == |m|
    ensures Box(r, num, size, b) == nb
  {
    BoxWithinSegment(num, size, b);
    Splice(m, BoxOffset(num, size, b), nb)
  }

  /** Replacing a box leaves every other box, and the bytes before the boxes, as they were. */
  lemma {:induction false} OtherBoxesUnchanged(m: seq<byte>, num: int, size: int, b: int, nb: seq<byte>)
    requires |m| == SegmentLength(num, size) && 0 <= b < num && 0 <= size && |nb| == BoxCap(size)
    ensures forall c :: 0 <= c < num && c != b ==> Box(SetBox(m, num, size, b, nb), num, size, c) == Box(m, num, size, c)
    ensures SetBox(m, num, size, b, nb)[..DataBase(num)] == m[..DataBase(num)]
  {
    var r := SetBox(m, num, size, b, nb);
    BoxWithinSegment(num, size, b);
    forall c | 0 <= c < num && c != b
      ensures Box(r, num, size, c) == Box(m, num, size, c)
    {
      if c < b { BoxesDisjoint(num, size, c, b); } else { BoxesDisjoint(num, size, b, c); }
      BoxWithinSegment(num, size, c);
      SpliceOutside(m, BoxOffset(num, size, b), nb, BoxOffset(num, size, c), BoxCap(size));
    }
    SpliceOutside(m, BoxOffset(num, size, b), nb, 0, DataBase(num));
  }

  /** Every box ends in a NUL, so the C string a box holds never runs past its end. */
  predicate BoxesTerminated(m: seq<byte>, num: int, size: int)
    requires |m| == SegmentLength(num, size) && (num <= 0 || size >= 1)
  {
    forall b :: 0 <= b < num ==> Box(m, num, size, b)[BoxCap(size) - 1] == 0
  }

  /** Replacing one box by a terminated box keeps every box terminated. */
  lemma SetBoxKeepsTerminated(m: seq<byte>, num: int, size: int, b: int, nb: seq<byte>)
    requires |m| == SegmentLength(num, size) && 0 <= b < num && size >= 1 && |nb| == BoxCap(size)
    requires BoxesTerminated(m, num, size) && nb[BoxCap(size) - 1] == 0
    ensures BoxesTerminated(SetBox(m, num, size, b, nb), num, size)
  {
    OtherBoxesUnchanged(m, num, size, b, nb);
  }

  /** The facts a method that replaces box b by nb needs about the segment image m: the
      box lies inside m, splicing nb at its offset is SetBox, and a terminated nb keeps
      every box terminated. */
  lemma BoxUpdate(m: seq<byte>, num: int, size: int, b: int, nb: seq<byte>)
    requires |m| == SegmentLength(num, size) && 0 <= b < num && size >= 1 && |nb| == BoxCap(size)
    ensures BoxOffset(num, size, b) + BoxCap(size) <= |m|
    ensures Box(m, num, size, b) == m[BoxOffset(num, size, b)..BoxOffset(num, size, b) + BoxCap(size)]
    ensures Splice(m, BoxOffset(num, size, b), nb) == SetBox(m, num, size, b, nb)
    ensures BoxesTerminated(m, num, size) && nb[BoxCap(size) - 1] == 0 ==>
      BoxesTerminated(SetBox(m, num, size, b, nb), num, size)
  {
    BoxWithinSegment(num, size, b);
    if BoxesTerminated(m, num, size) && nb[BoxCap(size) - 1] == 0 {
      SetBoxKeepsTerminated(m, num, size, b, nb);
    }
  }

  /** The copy of box f (at src) into box t (at dst), both of capacity cap, stated on the
      slices the copy works on and on the boxes as the segment sees them: the source holds
      a terminator, and the spliced image is the image with box t replaced, still
      terminated everywhere. */
  lemma CopyLayout(m: seq<byte>, num: int, size: int, f: int, t: int, src: int, dst: int, cap: int)
    requires |m| == SegmentLength(num, size) && 0 <= f < num && 0 <= t < num && f != t && size >= 1
    requires src == BoxOffset(num, size, f) && dst == BoxOffset(num, size, t) && cap == BoxCap(size)
    requires BoxesTerminated(m, num, size)
    ensures 0 <= src && src + cap <= |m| && 0 <= dst && dst + cap <= |m|
    ensures 0 in Box(m, num, size, f) && 0 in m[src..src + cap]
    ensures Splice(m, dst, CopyBox(m[dst..dst + cap], m[src..src + cap]))
            == SetBox(m, num, size, t, CopyBox(Box(m, num, size, t), Box(m, num, size, f)))
    ensures BoxesTerminated(SetBox(m, num, size, t, CopyBox(Box(m, num, size, t), Box(m, num, size, f))), num, size)
  {
    var from := Box(m, num, size, f);
    assert from[BoxCap(size) - 1] == 0;
    var nb := CopyBox(Box(m, num, size, t), from);
    BoxAt(m, num, size, f, src, cap);
    BoxAt(m, num, size, t, dst, cap);
    BoxUpdate(m, num, size, t, nb);
  }

  /** BoxUpdate with the offset and capacity named by the caller. */
  lemma BoxUpdateAt(m: seq<byte>, num: int, size: int, b: int, off: int, cap: int, nb: seq<byte>)
    requires |m| == SegmentLength(num, size) && 0 <= b < num && size >= 1 && |nb| == BoxCap(size)
    requires off == BoxOffset(num, size, b) && cap == BoxCap(size)
    ensures 0 <= off && off + cap <= |m| && Box(m, num, size, b) == m[off..off + cap]
    ensures Splice(m, off, nb) == SetBox(m, num, size, b, nb)
    ensures BoxesTerminated(m, num, size) && nb[cap - 1] == 0 ==>
      BoxesTerminated(SetBox(m, num, size, b, nb), num, size)
  {
    BoxAt(m, num, size, b, off, cap);
    BoxUpdate(m, num, size, b, nb);
  }

  /** Box b is the slice of m at its offset, named by the caller. */
  lemma BoxAt(m: seq<byte>, num: int, size: int, b: int, off: int, cap: int)
    requires |m| == SegmentLength(num, size) && 0 <= b < num && size >= 1
    requires off == BoxOffset(num, size, b) && cap == BoxCap(size)
    ensures 0 <= off && off + cap <= |m| && Box(m, num, size, b) == m[off..off + cap]
  {
    BoxWithinSegment(num, size, b);
  }

  /** A freshly zero-filled segment has every box terminated. */
  lemma ZerosTerminated(num: int, size: int)
    requires SegmentLength(num, size) >= 1 && (num <= 0 || size >= 1)
    ensures BoxesTerminated(seq(SegmentLength(num, size), _ => 0 as byte), num, size)
  {
    var m := seq(SegmentLength(num, size), _ => 0 as byte);
    forall b | 0 <= b < num
      ensures Box(m, num, size, b)[BoxCap(size) - 1] == 0
    {
      BoxWithinSegment(num, size, b);
    }
  }

  /** What writeToMailbox leaves in a box: a message shorter than |box| - 1 bytes is copied
      over the front without its terminator, the rest of the box keeping what it held; a
      longer one is cut to |box| - 1 bytes and a NUL is put in the last byte. */
  function WriteBox(box: seq<byte>, msg: CBytes): (r: seq<byte>)
    requires |box| >= 1
    ensures |r| == |box|
    ensures box[|box| - 1] == 0 ==> r[|box| - 1] == 0
  {
    if |msg| < |box| - 1 then msg + box[|msg|..] else msg[..|box| - 1] + [0]
  }

  /** What a read sees after a write: the whole message followed by whatever C string the
      box held from the message's end on, when the message is short; the message cut to
      |box| - 1 bytes, when it is not. */
  lemma {:induction false} ReadAfterWrite(box: seq<byte>, msg: CBytes)
    requires |box| >= 1 && box[|box| - 1] == 0
    ensures 0 in WriteBox(box, msg)
    ensures |msg| < |box| - 1 ==>
      0 in box[|msg|..] && CString(WriteBox(box, msg)) == msg + CString(box[|msg|..])
    ensures |msg| >= |box| - 1 ==> CString(WriteBox(box, msg)) == msg[..|box| - 1]
  {
    var r := WriteBox(box, msg);
    assert r[|box| - 1] == 0;
    if |msg| < |box| - 1 {
      var tail := box[|msg|..];
      assert tail[|tail| - 1] == 0;
      var t := CString(tail);
      var s := msg + t;
      assert r[|msg|..] == tail;
      assert r[..|s|] == s by {
        assert r[..|msg|] == msg;
        assert r[|msg|..|s|] == tail[..|t|];
        assert r[..|s|] == r[..|msg|] + r[|msg|..|s|];
      }
      assert r[|s|] == tail[|t|];
      CStringIs(r, s);
    } else {
      CStringIs(r, msg[..|box| - 1]);
    }
  }

  /** A box holding "hello" and a NUL, for the example below. */
  function HelloBox(cap: nat): (box: seq<byte>)
    requires cap >= 6
    ensures |box| == cap && box[..5] == [104, 101, 108, 108, 111] && box[5] == 0
    ensures box[cap - 1] == 0
  {
    Splice(seq(cap, _ => 0 as byte), 0, [104, 101, 108, 108, 111])
  }

  /** "hi" written over a box that held "hello" reads back as "hillo": the short path
      copies no terminator, so the old tail shows through. */
  lemma StaleTail()
    ensures 0 in WriteBox(HelloBox(K), [104, 105])
    ensures CString(WriteBox(HelloBox(K), [104, 105])) == [104, 105, 108, 108, 111]
  {
    var box := HelloBox(K);
    ReadAfterWrite(box, [104, 105]);
    var tail := box[2..];
    assert tail[..3] == [108, 108, 111] && tail[3] == 0;
    CStringIs(tail, [108, 108, 111]);
  }

  /** The write the evidently intended behaviour calls for: the message, cut to |box| - 1
      bytes when it does not fit, always followed by a NUL. */
  function WriteBoxTerminated(box: seq<byte>, msg: CBytes): (r: seq<byte>)
    requires |box| >= 1
    ensures |r| == |box|
    ensures box[|box| - 1] == 0 ==> r[|box| - 1] == 0
  {
    var n := if |msg| < |box| then |msg| else |box| - 1;
    msg[..n] + [0] + box[n + 1..]
  }

  /** After the corrected write a read sees exactly the message, cut to |box| - 1 bytes
      when it does not fit, whatever the box held before. */
  lemma ReadAfterTerminatedWrite(box: seq<byte>, msg: CBytes)
    requires |box| >= 1
    ensures 0 in WriteBoxTerminated(box, msg)
    ensures CString(WriteBoxTerminated(box, msg)) == (if |msg| < |box| then msg else msg[..|box| - 1])
  {
    var n := if |msg| < |box| then |msg| else |box| - 1;
    var r := WriteBoxTerminated(box, msg);
    assert r[..n] == msg[..n];
    CStringIs(r, msg[..n]);
  }

  /** What strcpy from a box into another of the same capacity leaves in the destination:
      the source's C string and its terminator over the front. */
  function CopyBox(dst: seq<byte>, src: seq<byte>): (r: seq<byte>)
    requires |dst| == |src| && 0 in src
    ensures |r| == |dst|
    ensures dst[|dst| - 1] == 0 ==> r[|r| - 1] == 0
  {
    var s := CString(src);
    s + [0] + dst[|s| + 1..]
  }

  /** After a copy the destination reads back as the source. */
  lemma CopyReadsBack(dst: seq<byte>, src: seq<byte>)
    requires |dst| == |src| && 0 in src
    ensures 0 in CopyBox(dst, src) && CString(CopyBox(dst, src)) == CString(src)
  {
    var s := CString(src);
    var r := CopyBox(dst, src);
    assert r[..|s|] == s;
    CStringIs(r, s);
  }

  /** writeToMailbox's length test, in the unsigned arithmetic the source does it in:
      boxSize is read into an unsigned int, so size * K - 1 wraps modulo 2^32. */
  function ShortWriteGuard(len: nat, size: int): bool {
    len < ((size % 0x1_0000_0000) * K % 0x1_0000_0000 - 1) % 0x1_0000_0000
  }

  /** For every box size whose capacity fits in 32 bits the unsigned test is the plain
      "shorter than the capacity less one". */
  lemma {:induction false} ShortWriteGuardPlain(len: nat, size: int)
    requires 1 <= size && size * K < 0x1_0000_0000
    ensures ShortWriteGuard(len, size) <==> len < BoxCap(size) - 1
  {
    assert size % 0x1_0000_0000 == size;
    assert size * K % 0x1_0000_0000 == size * K;
    assert (size * K - 1) % 0x1_0000_0000 == size * K - 1;
  }

  /** A segment of one box of size 0 is granted (88 bytes), and the unsigned test wraps
      to 2^32 - 1, so a 9-byte message takes the short path and its memcpy runs past the
      segment's end. */
  lemma ZeroSizeGuardAdmitsOverrun()
    ensures SegmentLength(1, 0) == 88
    ensures ShortWriteGuard(9, 0)
    ensures BoxOffset(1, 0, 0) + 9 > SegmentLength(1, 0)
  {
  }

  // ------------------------------------------------------------ the lock trace

  datatype Sem = MutexSem | RwSem

  /** What a segment's trace records: semaphore waits and posts on a box's lock, and the
      reads and writes of a box's bytes. */
  datatype Event = Wait(box: int, sem: Sem) | Post(box: int, sem: Sem) | ReadBytes(box: int) | WriteBytes(box: int)

  /** readMailbox's reader entry: take mutex, count in (the first reader also takes
      rw_mutex), give mutex back. */
  function ReaderEntry(b: int, first: bool): seq<Event> {
    [Wait(b, MutexSem)] + (if first then [Wait(b, RwSem)] else []) + [Post(b, MutexSem)]
  }

  /** readMailbox's reader exit: take mutex, count out (the last reader gives rw_mutex
      back), give mutex back. */
  function ReaderExit(b: int, last: bool): seq<Event> {
    [Wait(b, MutexSem)] + (if last then [Post(b, RwSem)] else []) + [Post(b, MutexSem)]
  }

  function WriteEvents(b: int): seq<Event> {
    [Wait(b, RwSem), WriteBytes(b), Post(b, RwSem)]
  }

  function ReadEvents(b: int, first: bool): seq<Event> {
    ReaderEntry(b, first) + [ReadBytes(b)] + ReaderExit(b, first)
  }

  /** copyMailbox's order: the destination's rw_mutex first, then reader entry on the
      source, the copy, reader exit, and the destination's rw_mutex last. */
  function CopyEvents(from: int, to: int, first: bool): seq<Event> {
    [Wait(to, RwSem)] + ReaderEntry(from, first) + [ReadBytes(from), WriteBytes(to)] +
    ReaderExit(from, first) + [Post(to, RwSem)]
  }

  /** The trace a write leaves, step by step. */
  lemma WriteEventsSplit(t: seq<Event>, b: int)
    ensures t + [Wait(b, RwSem)] + [WriteBytes(b)] + [Post(b, RwSem)] == t + WriteEvents(b)
  {
  }

  /** The trace a copy leaves, step by step. */
  lemma CopyEventsSplit(t: seq<Event>, from: int, to: int, first: bool)
    ensures t + [Wait(to, RwSem)] + ReaderEntry(from, first) + [ReadBytes(from), WriteBytes(to)] +
      ReaderExit(from, first) + [Post(to, RwSem)] == t + CopyEvents(from, to, first)
  {
  }

  // ------------------------------------------------------------ createMailboxes

  /** Which sem_init call of createMailboxes' lock loop fails, if one does. */
  datatype InitFault = RwMutexInitFails(at: nat) | MutexInitFails(at: nat)

  /** A lock whose bytes were never set: shmget hands out zero-filled memory, and a zero
      sem_t is a semaphore whose count is 0. */
  const Zeroed: RwLock := RwLock(0, 0, 0)

  /** Lock i after createMailboxes' lock loop: the loop stops at the first failing
      sem_init, so the lock where it fails keeps what was set before the failure and every
      later lock stays zero. */
  function LockAfterInit(i: int, fault: Option<InitFault>): (l: RwLock)
    ensures fault.None? ==> l == Open
    ensures fault.Some? && i < fault.value.at ==> l == Open
    ensures fault.Some? && i > fault.value.at ==> l == Zeroed
    ensures i >= 0 && fault == Some(RwMutexInitFails(i)) ==> l == Zeroed
    ensures i >= 0 && fault == Some(MutexInitFails(i)) ==> l == RwLock(0, 1, 0)
  {
    match fault
    case None => Open
    case Some(RwMutexInitFails(k)) => if i < k then Open else Zeroed
    case Some(MutexInitFails(k)) => if i < k then Open else if i == k then RwLock(0, 1, 0) else Zeroed
  }

  /** One mailbox segment, attached. */
  class Segment {
    /** The two header words: numBoxes, then boxSize in K. */
    const header: array<int>
    /** The reader/writer lock of each box. */
    const locks: array<RwLock>
    /** The segment's bytes; box b starts at BoxOffset(numBoxes, boxSize, b). The header
        and lock bytes at the front are stood in for by the two arrays above. */
    const mem: array<byte>
    /** The semaphore operations and box accesses made on this segment so far. */
    ghost var trace: seq<Event>

    /** The layout createMailboxes sets up and the other operations rely on. */
    predicate Valid()
      reads header
    {
      header.Length == 2 &&
      locks.Length == (if header[0] > 0 then header[0] else 0) &&
      mem.Length == SegmentLength(header[0], header[1]) &&
      (header[0] >= 1 ==> header[1] >= 0)
    }

    /** Every box has room for a terminator. */
    predicate Usable()
      reads header
    {
      Valid() && (header[0] <= 0 || header[1] >= 1)
    }

    predicate Terminated()
      reads header, mem
      requires Usable()
    {
      BoxesTerminated(mem[..], header[0], header[1])
    }

    predicate InRange(b: int)
      reads header
      requires Valid()
    {
      0 <= b < header[0]
    }

    /** createMailboxes once shmget has granted the segment: the header, then the lock
        loop, which stops at the first sem_init that fails. */
    constructor Create(num: int, size: int, fault: Option<InitFault>)
      requires SegmentLength(num, size) >= 1
      ensures Valid() && header[0] == num && header[1] == size
      ensures forall i :: 0 <= i < locks.Length ==> locks[i] == LockAfterInit(i, fault)
      ensures mem[..] == seq(mem.Length, _ => 0 as byte)
      ensures trace == []
      ensures fresh(header) && fresh(locks) && fresh(mem)
    {
      var n := if num > 0 then num else 0;
      var ls := new RwLock[n](_ => Zeroed);
      var i := 0;
      while i < n
        invariant 0 <= i <= n
        invariant forall k :: 0 <= k < i ==> ls[k] == Open && LockAfterInit(k, fault) == Open
        invariant forall k :: i <= k < n ==> ls[k] == Zeroed
        invariant fault.Some? ==> fault.value.at >= i
      {
        if fault == Some(RwMutexInitFails(i)) {
          break;
        }
        ls[i] := ls[i].(rwMutex := 1);
        if fault == Some(MutexInitFails(i)) {
          break;
        }
        ls[i] := ls[i].(mutex := 1);
        ls[i] := ls[i].(readCount := 0);
        i := i + 1;
      }
      var h := new int[2];
      h[0], h[1] := num, size;
      header := h;
      locks := ls;
      mem := new byte[SegmentLength(num, size)](_ => 0);
      trace := [];
      if num >= 1 {
        SizeNonnegWhenCreated(num, size);
      }
    }

    // ------------------------------------------------ the steps, each recorded as it runs

    /** sem_wait on box b's rw_mutex. */
    method WaitRwOn(b: int)
      requires 0 <= b < locks.Length && locks[b].rwMutex > 0
      modifies locks, this`trace
      ensures locks[..] == old(locks[..])[b := WaitRw(old(locks[b]))]
      ensures trace == old(trace) + [Wait(b, RwSem)]
    {
      locks[b] := WaitRw(locks[b]);
      trace := trace + [Wait(b, RwSem)];
    }

    /** sem_post on box b's rw_mutex. */
    method PostRwOn(b: int)
      requires 0 <= b < locks.Length
      modifies locks, this`trace
      ensures locks[..] == old(locks[..])[b := PostRw(old(locks[b]))]
      ensures trace == old(trace) + [Post(b, RwSem)]
    {
      locks[b] := PostRw(locks[b]);
      trace := trace + [Post(b, RwSem)];
    }

    /** sem_wait on box b's reader mutex. */
    method WaitMutexOn(b: int)
      requires 0 <= b < locks.Length && locks[b].mutex > 0
      modifies locks, this`trace
      ensures locks[..] == old(locks[..])[b := WaitMutex(old(locks[b]))]
      ensures trace == old(trace) + [Wait(b, MutexSem)]
    {
      locks[b] := WaitMutex(locks[b]);
      trace := trace + [Wait(b, MutexSem)];
    }

    /** sem_post on box b's reader mutex. */
    method PostMutexOn(b: int)
      requires 0 <= b < locks.Length
      modifies locks, this`trace
      ensures locks[..] == old(locks[..])[b := PostMutex(old(locks[b]))]
      ensures trace == old(trace) + [Post(b, MutexSem)]
    {
      locks[b] := PostMutex(locks[b]);
      trace := trace + [Post(b, MutexSem)];
    }

    /** writeToMailbox's short path on box b, at off: the message's bytes, and no
        terminator. */
    method StoreShort(b: int, off: nat, cap: nat, message: CBytes)
      requires off + cap <= mem.Length && |message| < cap - 1
      modifies mem, this`trace
      ensures mem[..] == Splice(old(mem[..]), off, WriteBox(old(mem[off..off + cap]), message))
      ensures trace == old(trace) + [WriteBytes(b)]
    {
      ghost var m := mem[..];
      CopyInto(mem, off, message);
      SpliceInWindow(m, off, cap, message);
      assert Splice(m[off..off + cap], 0, message) == message + m[off..off + cap][|message|..];
      trace := trace + [WriteBytes(b)];
    }

    /** writeToMailbox's long path on box b, at off: the first cap - 1 bytes of the
        message, then a NUL in the box's last byte. */
    method StoreCut(b: int, off: nat, cap: nat, message: CBytes)
      requires off + cap <= mem.Length && 1 <= cap <= |message| + 1
      modifies mem, this`trace
      ensures mem[..] == Splice(old(mem[..]), off, WriteBox(old(mem[off..off + cap]), message))
      ensures trace == old(trace) + [WriteBytes(b)]
    {
      ghost var m := mem[..];
      CopyInto(mem, off, message[..cap - 1]);
      mem[off + cap - 1] := 0;
      SpliceThenSet(m, off, message[..cap - 1], 0);
      trace := trace + [WriteBytes(b)];
    }

    /** The corrected write on box b, at off: at most cap - 1 bytes of the message, then
        a NUL. */
    method StoreTerminated(b: int, off: nat, cap: nat, message: CBytes)
      requires off + cap <= mem.Length && 1 <= cap
      modifies mem, this`trace
      ensures mem[..] == Splice(old(mem[..]), off, WriteBoxTerminated(old(mem[off..off + cap]), message))
      ensures trace == old(trace) + [WriteBytes(b)]
    {
      ghost var m := mem[..];
      var n := if |message| < cap then |message| else cap - 1;
      CopyInto(mem, off, message[..n]);
      mem[off + n] := 0;
      SpliceThenSet(m, off, message[..n], 0);
      SpliceInWindow(m, off, cap, message[..n] + [0]);
      assert Splice(m[off..off + cap], 0, message[..n] + [0]) == WriteBoxTerminated(m[off..off + cap], message);
      trace := trace + [WriteBytes(b)];
    }

    /** readMailbox's printf of box b, at off: the C string the box holds. */
    method ShowBox(b: int, off: nat, cap: nat) returns (shown: seq<byte>)
      requires off + cap <= mem.Length && 0 in mem[off..off + cap]
      modifies this`trace
      ensures shown == CString(mem[off..off + cap])
      ensures trace == old(trace) + [ReadBytes(b)]
    {
      shown := CString(mem[off..off + cap]);
      trace := trace + [ReadBytes(b)];
    }

    /** copyMailbox's strcpy from box f, at src, into box t, at dst, both of capacity cap:
        it reads the source's C string and writes it with its NUL into the destination. */
    method StoreCopy(f: int, t: int, src: nat, dst: nat, cap: nat)
      requires src + cap <= mem.Length && dst + cap <= mem.Length && 0 in mem[src..src + cap]
      modifies mem, this`trace
      ensures mem[..] == Splice(old(mem[..]), dst, CopyBox(old(mem[dst..dst + cap]), old(mem[src..src + cap])))
      ensures trace == old(trace) + [ReadBytes(f), WriteBytes(t)]
    {
      ghost var m := mem[..];
      var s := CString(mem[src..src + cap]);
      trace := trace + [ReadBytes(f)];
      CopyInto(mem, dst, s + [0]);
      SpliceInWindow(m, dst, cap, s + [0]);
      assert Splice(m[dst..dst + cap], 0, s + [0]) == CopyBox(m[dst..dst + cap], m[src..src + cap]);
      trace := trace + [WriteBytes(t)];
    }

    // ------------------------------------------------------------ the operations

    /** writeToMailbox's length test and locked write on the box at off, of capacity cap:
        either path waits on the box's rw_mutex, writes and posts it. */
    method WriteUnderLock(boxID: int, off: nat, cap: nat, message: CBytes, ghost nb: seq<byte>)
      requires 0 <= boxID < locks.Length && locks[boxID].rwMutex > 0
      requires off + cap <= mem.Length && cap >= 1
      requires nb == WriteBox(mem[off..off + cap], message)
      modifies locks, mem, this`trace
      ensures locks[..] == old(locks[..])
      ensures mem[..] == Splice(old(mem[..]), off, nb)
      ensures trace == old(trace) + WriteEvents(boxID)
    {
      ghost var t, l := trace, locks[boxID];
      if |message| < cap - 1 {
        WaitRwOn(boxID);
        StoreShort(boxID, off, cap, message);
        PostRwOn(boxID);
      } else {
        WaitRwOn(boxID);
        StoreCut(boxID, off, cap, message);
        PostRwOn(boxID);
      }
      assert locks[boxID] == l;
      WriteEventsSplit(t, boxID);
    }

    /** The corrected locked write: rw_mutex held while at most cap - 1 bytes of the
        message and a NUL go into the box at off. */
    method WriteTerminatedUnderLock(boxID: int, off: nat, cap: nat, message: CBytes, ghost nb: seq<byte>)
      requires 0 <= boxID < locks.Length && locks[boxID].rwMutex > 0
      requires off + cap <= mem.Length && cap >= 1
      requires nb == WriteBoxTerminated(mem[off..off + cap], message)
      modifies locks, mem, this`trace
      ensures locks[..] == old(locks[..])
      ensures mem[..] == Splice(old(mem[..]), off, nb)
      ensures trace == old(trace) + WriteEvents(boxID)
    {
      ghost var t, l := trace, locks[boxID];
      WaitRwOn(boxID);
      StoreTerminated(boxID, off, cap, message);
      PostRwOn(boxID);
      assert locks[boxID] == l;
      WriteEventsSplit(t, boxID);
    }

    /** writeToMailbox, as written: an id outside [0, numBoxes) fails with -1 before any
        lock is touched; otherwise the box is written under its rw_mutex. */
    method WriteToMailbox(boxID: int, message: CBytes) returns (r: int)
      requires Usable()
      requires InRange(boxID) ==> locks[boxID].rwMutex > 0
      modifies locks, mem, this`trace
      ensures Usable()
      ensures r == (if InRange(boxID) then 0 else -1)
      ensures locks[..] == old(locks[..])
      ensures r == -1 ==> mem[..] == old(mem[..]) && trace == old(trace)
      ensures r == 0 ==>
        mem[..] == SetBox(old(mem[..]), header[0], header[1], boxID,
                          WriteBox(Box(old(mem[..]), header[0], header[1], boxID), message)) &&
        trace == old(trace) + WriteEvents(boxID)
      ensures old(Terminated()) ==> Terminated()
    {
      var num := header[0];
      var size := header[1];
      if boxID >= num || boxID < 0 {
        return -1;
      }
      var box := BoxOffset(num, size, boxID);
      var cap := BoxCap(size);
      ghost var m := mem[..];
      ghost var nb := WriteBox(Box(m, num, size, boxID), message);
      BoxUpdateAt(m, num, size, boxID, box, cap, nb);
      ghost var wasTerminated := Terminated();
      if wasTerminated {
        assert Box(m, num, size, boxID)[cap - 1] == 0;
      }
      WriteUnderLock(boxID, box, cap, message, nb);
      assert wasTerminated ==> BoxesTerminated(mem[..], num, size);
      r := 0;
    }

    /** writeToMailbox with the terminator the short path leaves out written as well. */
    method WriteToMailboxTerminated(boxID: int, message: CBytes) returns (r: int)
      requires Usable()
      requires InRange(boxID) ==> locks[boxID].rwMutex > 0
      modifies locks, mem, this`trace
      ensures Usable()
      ensures r == (if InRange(boxID) then 0 else -1)
      ensures locks[..] == old(locks[..])
      ensures r == -1 ==> mem[..] == old(mem[..]) && trace == old(trace)
      ensures r == 0 ==>
        mem[..] == SetBox(old(mem[..]), header[0], header[1], boxID,
                          WriteBoxTerminated(Box(old(mem[..]), header[0], header[1], boxID), message)) &&
        trace == old(trace) + WriteEvents(boxID)
      ensures old(Terminated()) ==> Terminated()
    {
      var num := header[0];
      var size := header[1];
      if boxID >= num || boxID < 0 {
        return -1;
      }
      var box := BoxOffset(num, size, boxID);
      var cap := BoxCap(size);
      ghost var m := mem[..];
      ghost var nb := WriteBoxTerminated(Box(m, num, size, boxID), message);
      BoxUpdateAt(m, num, size, boxID, box, cap, nb);
      ghost var wasTerminated := Terminated();
      if wasTerminated {
        assert Box(m, num, size, boxID)[cap - 1] == 0;
      }
      WriteTerminatedUnderLock(boxID, box, cap, message, nb);
      assert wasTerminated ==> BoxesTerminated(mem[..], num, size);
      r := 0;
    }

    /** The reader entry readMailbox and copyMailbox share. */
    method BeginRead(b: int) returns (first: bool)
      requires 0 <= b < locks.Length
      requires locks[b].mutex > 0 && (locks[b].readCount == 0 ==> locks[b].rwMutex > 0)
      modifies locks, this`trace
      ensures first == (old(locks[b].readCount) == 0)
      ensures locks[..] == old(locks[..])[b := old(locks[b]).(
        rwMutex := old(locks[b]).rwMutex - (if first then 1 else 0),
        readCount := old(locks[b]).readCount + 1)]
      ensures trace == old(trace) + ReaderEntry(b, first)
    {
      WaitMutexOn(b);
      locks[b] := locks[b].(readCount := locks[b].readCount + 1);
      first := locks[b].readCount == 1;
      if first {
        WaitRwOn(b);
      }
      PostMutexOn(b);
    }

    /** The reader exit readMailbox and copyMailbox share. */
    method EndRead(b: int) returns (last: bool)
      requires 0 <= b < locks.Length
      requires locks[b].mutex > 0
      modifies locks, this`trace
      ensures last == (old(locks[b].readCount) == 1)
      ensures locks[..] == old(locks[..])[b := old(locks[b]).(
        rwMutex := old(locks[b]).rwMutex + (if last then 1 else 0),
        readCount := old(locks[b]).readCount - 1)]
      ensures trace == old(trace) + ReaderExit(b, last)
    {
      WaitMutexOn(b);
      locks[b] := locks[b].(readCount := locks[b].readCount - 1);
      last := locks[b].readCount == 0;
      if last {
        PostRwOn(b);
      }
      PostMutexOn(b);
    }

    /** readMailbox: an id outside [0, numBoxes) fails with -1; otherwise the C string in
        the box is what it prints, read between reader entry and exit. */
    method ReadMailbox(boxID: int) returns (r: int, shown: seq<byte>)
      requires Usable() && Terminated()
      requires InRange(boxID) ==>
        locks[boxID].mutex > 0 && (locks[boxID].readCount == 0 ==> locks[boxID].rwMutex > 0)
      modifies locks, this`trace
      ensures r == (if InRange(boxID) then 0 else -1)
      ensures locks[..] == old(locks[..])
      ensures r == -1 ==> shown == [] && trace == old(trace)
      ensures r == 0 ==>
        0 in Box(mem[..], header[0], header[1], boxID) &&
        shown == CString(Box(mem[..], header[0], header[1], boxID)) &&
        trace == old(trace) + ReadEvents(boxID, old(locks[boxID].readCount) == 0)
    {
      var num := header[0];
      var size := header[1];
      if boxID >= num || boxID < 0 {
        return -1, [];
      }
      BoxWithinSegment(num, size, boxID);
      var box := BoxOffset(num, size, boxID);
      var cap := BoxCap(size);
      assert mem[box..box + cap] == Box(mem[..], num, size, boxID);
      var first := BeginRead(boxID);
      assert mem[box..box + cap][cap - 1] == 0;
      shown := ShowBox(boxID, box, cap);
      var last := EndRead(boxID);
      r := 0;
    }

    /** copyMailbox's locked part: the destination's rw_mutex, reader entry on the source,
        the strcpy, reader exit, and the destination's rw_mutex given back. */
    method CopyUnderLocks(fromBox: int, toBox: int, src: nat, dst: nat, cap: nat, ghost nb: seq<byte>)
      requires 0 <= fromBox < locks.Length && 0 <= toBox < locks.Length && fromBox != toBox
      requires locks[toBox].rwMutex > 0 && locks[fromBox].mutex > 0
      requires locks[fromBox].readCount == 0 ==> locks[fromBox].rwMutex > 0
      requires src + cap <= mem.Length && dst + cap <= mem.Length && 0 in mem[src..src + cap]
      requires nb == CopyBox(mem[dst..dst + cap], mem[src..src + cap])
      modifies locks, mem, this`trace
      ensures locks[..] == old(locks[..])
      ensures mem[..] == Splice(old(mem[..]), dst, nb)
      ensures trace == old(trace) + CopyEvents(fromBox, toBox, old(locks[fromBox].readCount) == 0)
    {
      ghost var t0, lf, lt, m := trace, locks[fromBox], locks[toBox], mem[..];
      WaitRwOn(toBox);
      var first := BeginRead(fromBox);
      assert mem[..] == m && locks[fromBox].readCount == lf.readCount + 1;
      StoreCopy(fromBox, toBox, src, dst, cap);
      assert mem[..] == Splice(m, dst, nb);
      var last := EndRead(fromBox);
      assert last == first;
      PostRwOn(toBox);
      assert locks[fromBox] == lf && locks[toBox] == lt;
      CopyEventsSplit(t0, fromBox, toBox, first);
    }
    /** copyMailbox: either id outside [0, numBoxes), or the two the same, fails with -1;
        otherwise the source's C string is copied into the destination while the copier
        holds the destination's rw_mutex and is a reader of the source. */
    method CopyMailbox(fromBox: int, toBox: int) returns (r: int)
      requires Usable() && Terminated()
      requires InRange(fromBox) && InRange(toBox) && fromBox != toBox ==>
        locks[toBox].rwMutex > 0 && locks[fromBox].mutex > 0 &&
        (locks[fromBox].readCount == 0 ==> locks[fromBox].rwMutex > 0)
      modifies locks, mem, this`trace
      ensures Usable() && Terminated()
      ensures r == (if InRange(fromBox) && InRange(toBox) && fromBox != toBox then 0 else -1)
      ensures locks[..] == old(locks[..])
      ensures r == -1 ==> mem[..] == old(mem[..]) && trace == old(trace)
      ensures r == 0 ==>
        0 in Box(old(mem[..]), header[0], header[1], fromBox) &&
        mem[..] == SetBox(old(mem[..]), header[0], header[1], toBox,
                          CopyBox(Box(old(mem[..]), header[0], header[1], toBox),
                                  Box(old(mem[..]), header[0], header[1], fromBox))) &&
        trace == old(trace) + CopyEvents(fromBox, toBox, old(locks[fromBox].readCount) == 0)
    {
      var num := header[0];
      var size := header[1];
      if fromBox >= num || fromBox < 0 || toBox >= num || toBox < 0 {
        return -1;
      }
      if fromBox == toBox {
        return -1;
      }
      var cap := BoxCap(size);
      var src := BoxOffset(num, size, fromBox);
      var dst := BoxOffset(num, size, toBox);
      ghost var m := mem[..];
      CopyLayout(m, num, size, fromBox, toBox, src, dst, cap);
      ghost var nb := CopyBox(m[dst..dst + cap], m[src..src + cap]);
      CopyUnderLocks(fromBox, toBox, src, dst, cap, nb);
      r := 0;
    }
  }

  /** createMailboxes: shmget either grants a zero-filled segment of the computed length
      under a fresh id or fails, in which case -1 comes back; a segment that is granted
      gets its header and locks. */
  method CreateMailboxes(num: int, size: int, shmgetGrants: bool, newId: nat, fault: Option<InitFault>)
    returns (shmid: int, seg: Segment?)
    ensures shmgetGrants && SegmentLength(num, size) >= 1 ==>
      shmid == newId && seg != null && fresh(seg) && seg.Valid() &&
      seg.header[0] == num && seg.header[1] == size &&
      (forall i :: 0 <= i < seg.locks.Length ==> seg.locks[i] == LockAfterInit(i, fault)) &&
      seg.mem[..] == seq(seg.mem.Length, _ => 0 as byte) && seg.trace == []
    ensures !(shmgetGrants && SegmentLength(num, size) >= 1) ==> shmid == -1 && seg == null
  {
    if !shmgetGrants || SegmentLength(num, size) < 1 {
      return -1, null;
    }
    seg := new Segment.Create(num, size, fault);
    shmid := newId;
  }

  /** createMailboxes refusing counts and sizes below 1, so every box it makes has room for
      a terminator and every operation on it stays inside its box. */
  method CreateMailboxesChecked(num: int, size: int, shmgetGrants: bool, newId: nat, fault: Option<InitFault>)
    returns (shmid: int, seg: Segment?)
    ensures seg != null ==> fresh(seg) && seg.Usable() && seg.Terminated()
    ensures seg == null <==> shmid == -1
    ensures num < 1 || size < 1 ==> seg == null
  {
    if num < 1 || size < 1 {
      return -1, null;
    }
    shmid, seg := CreateMailboxes(num, size, shmgetGrants, newId, fault);
    if seg != null {
      ZerosTerminated(num, size);
    }
  }
}
