/** What the lock trace of a mailbox segment shows about prog3.c's lock discipline, for one
    process: every write of a box's bytes happens while that process holds the box's
    rw_mutex, and each of writeToMailbox, readMailbox and copyMailbox gives back every
    semaphore it takes, so any run of them keeps both facts. */
module LockTrace {
  import opened Text
  import opened RwProtocol
  import opened Mailbox

  /** The effect of one event on the count of waits less posts on semaphore s of box b. */
  function Delta(e: Event, b: int, s: Sem): int {
    match e
    case Wait(b', s') => if b' == b && s' == s then 1 else 0
    case Post(b', s') => if b' == b && s' == s then -1 else 0
    case ReadBytes(_) => 0
    case WriteBytes(_) => 0
  }

  /** The waits less the posts on semaphore s of box b over a trace: 1 while the process
      holds it. */
  function Net(t: seq<Event>, b: int, s: Sem): int
    decreases |t|
  {
    if t == [] then 0 else Net(t[..|t| - 1], b, s) + Delta(t[|t| - 1], b, s)
  }

  /** Every semaphore the trace takes it also gives back. */
  ghost predicate Released(t: seq<Event>) {
    forall b, s :: Net(t, b, s) == 0
  }

  /** Every write of a box's bytes comes while the trace holds that box's rw_mutex. */
  predicate WritesHoldRw(t: seq<Event>) {
    forall i :: 0 <= i < |t| && t[i].WriteBytes? ==> Net(t[..i], t[i].box, RwSem) == 1
  }

  ghost predicate Sound(t: seq<Event>) {
    Released(t) && WritesHoldRw(t)
  }

  /** The count over two traces one after the other is the sum of their counts. */
  lemma {:induction false} NetAppend(x: seq<Event>, y: seq<Event>, b: int, s: Sem)
    ensures Net(x + y, b, s) == Net(x, b, s) + Net(y, b, s)
    decreases |y|
  {
    if y == [] {
      assert x + y == x;
    } else {
      var y' := y[..|y| - 1];
      NetAppend(x, y', b, s);
      assert (x + y)[..|x + y| - 1] == x + y';
    }
  }

  /** The count over a single event is that event's effect. */
  lemma NetSingle(e: Event, b: int, s: Sem)
    ensures Net([e], b, s) == Delta(e, b, s)
  {
    assert [e][..0] == [];
  }

  /** The count over three events one after the other. */
  lemma NetTriple(x: seq<Event>, y: seq<Event>, z: seq<Event>, b: int, s: Sem)
    ensures Net(x + y + z, b, s) == Net(x, b, s) + Net(y, b, s) + Net(z, b, s)
  {
    NetAppend(x + y, z, b, s);
    NetAppend(x, y, b, s);
  }

  /** Taking and giving back a semaphore, with `mid` between that leaves the count unchanged. */
  lemma NetBracket(first: Event, mid: seq<Event>, last: Event, b: int, s: Sem)
    requires Delta(first, b, s) + Delta(last, b, s) == 0
    ensures Net([first] + mid + [last], b, s) == Net(mid, b, s)
  {
    NetTriple([first], mid, [last], b, s);
    NetSingle(first, b, s);
    NetSingle(last, b, s);
  }

  /** Reader entry and exit each take the box's mutex and give it back; entry takes
      rw_mutex once when first, and exit gives it back once when last. */
  lemma ReaderNets(r: int, first: bool, b: int, s: Sem)
    ensures Net(ReaderEntry(r, first), b, s) ==
      (if first && r == b && s == RwSem then 1 else 0)
    ensures Net(ReaderExit(r, first), b, s) ==
      (if first && r == b && s == RwSem then -1 else 0)
  {
    var mid: seq<Event> := if first then [Wait(r, RwSem)] else [];
    var mid': seq<Event> := if first then [Post(r, RwSem)] else [];
    NetBracket(Wait(r, MutexSem), mid, Post(r, MutexSem), b, s);
    NetBracket(Wait(r, MutexSem), mid', Post(r, MutexSem), b, s);
    if first {
      NetSingle(Wait(r, RwSem), b, s);
      NetSingle(Post(r, RwSem), b, s);
    }
  }

  /** writeToMailbox's events: rw_mutex around the write. */
  lemma WriteEventsSound(box: int)
    ensures Sound(WriteEvents(box))
  {
    var e := WriteEvents(box);
    forall b, s ensures Net(e, b, s) == 0 {
      assert e == [Wait(box, RwSem)] + [WriteBytes(box)] + [Post(box, RwSem)];
      NetBracket(Wait(box, RwSem), [WriteBytes(box)], Post(box, RwSem), b, s);
      NetSingle(WriteBytes(box), b, s);
    }
    assert e[..1] == [Wait(box, RwSem)];
    NetSingle(Wait(box, RwSem), box, RwSem);
  }

  /** readMailbox's events: reader entry, the read, reader exit, with no write. */
  lemma ReadEventsSound(box: int, first: bool)
    ensures Sound(ReadEvents(box, first))
  {
    var e := ReadEvents(box, first);
    forall b, s ensures Net(e, b, s) == 0 {
      NetTriple(ReaderEntry(box, first), [ReadBytes(box)], ReaderExit(box, first), b, s);
      ReaderNets(box, first, b, s);
      NetSingle(ReadBytes(box), b, s);
    }
  }

  /** copyMailbox's events between two different boxes: the write into the destination
      comes while the destination's rw_mutex is held, and every semaphore is given back. */
  lemma CopyEventsSound(from: int, to: int, first: bool)
    requires from != to
    ensures Sound(CopyEvents(from, to, first))
  {
    var entry := ReaderEntry(from, first);
    var exit := ReaderExit(from, first);
    var e := CopyEvents(from, to, first);
    var mid := entry + [ReadBytes(from), WriteBytes(to)] + exit;
    assert e == [Wait(to, RwSem)] + mid + [Post(to, RwSem)];
    forall b, s ensures Net(e, b, s) == 0 {
      NetBracket(Wait(to, RwSem), mid, Post(to, RwSem), b, s);
      NetTriple(entry, [ReadBytes(from), WriteBytes(to)], exit, b, s);
      ReaderNets(from, first, b, s);
      assert [ReadBytes(from), WriteBytes(to)] == [ReadBytes(from)] + [WriteBytes(to)];
      NetAppend([ReadBytes(from)], [WriteBytes(to)], b, s);
      NetSingle(ReadBytes(from), b, s);
      NetSingle(WriteBytes(to), b, s);
    }
    var w := 1 + |entry| + 1;
    assert e[w] == WriteBytes(to);
    assert e[..w] == [Wait(to, RwSem)] + entry + [ReadBytes(from)];
    NetTriple([Wait(to, RwSem)], entry, [ReadBytes(from)], to, RwSem);
    NetSingle(Wait(to, RwSem), to, RwSem);
    NetSingle(ReadBytes(from), to, RwSem);
    ReaderNets(from, first, to, RwSem);
    forall i | 0 <= i < |e| && e[i].WriteBytes?
      ensures Net(e[..i], e[i].box, RwSem) == 1
    {
      assert i == w;
    }
  }

  /** A trace with no wait or post on semaphore s of box b leaves its count at 0. */
  lemma {:induction false} NetUntouched(t: seq<Event>, b: int, s: Sem)
    requires forall k :: 0 <= k < |t| ==> Delta(t[k], b, s) == 0
    ensures Net(t, b, s) == 0
    decreases |t|
  {
    if t != [] {
      NetUntouched(t[..|t| - 1], b, s);
    }
  }

  /** A prefix of a trace that leaves semaphore s of box b alone leaves it alone too. */
  lemma NetUntouchedPrefix(t: seq<Event>, n: nat, b: int, s: Sem)
    requires n <= |t| && forall k :: 0 <= k < |t| ==> Delta(t[k], b, s) == 0
    ensures Net(t[..n], b, s) == 0
  {
    var p := t[..n];
    assert forall k :: 0 <= k < |p| ==> p[k] == t[k];
    NetUntouched(p, b, s);
  }

  /** Between its first and last event copyMailbox touches only the source's semaphores. */
  lemma CopyMidUntouched(from: int, to: int, first: bool)
    requires from != to
    ensures var mid := ReaderEntry(from, first) + [ReadBytes(from), WriteBytes(to)] + ReaderExit(from, first);
      forall k :: 0 <= k < |mid| ==> Delta(mid[k], to, RwSem) == 0
  {
  }

  /** copyMailbox holds the destination's rw_mutex from its first event to its last: every
      event after the first, the source's reader entry and exit and the copy itself among
      them, comes while the destination's rw_mutex count is 1. */
  lemma CopyHoldsDestination(from: int, to: int, first: bool)
    requires from != to
    ensures var e := CopyEvents(from, to, first);
      e[0] == Wait(to, RwSem) &&
      forall i :: 0 < i < |e| ==> Net(e[..i], to, RwSem) == 1
  {
    var e := CopyEvents(from, to, first);
    var mid := ReaderEntry(from, first) + [ReadBytes(from), WriteBytes(to)] + ReaderExit(from, first);
    assert e == [Wait(to, RwSem)] + mid + [Post(to, RwSem)];
    CopyMidUntouched(from, to, first);
    NetSingle(Wait(to, RwSem), to, RwSem);
    forall i | 0 < i < |e|
      ensures Net(e[..i], to, RwSem) == 1
    {
      assert e[..i] == [Wait(to, RwSem)] + mid[..i - 1];
      NetAppend([Wait(to, RwSem)], mid[..i - 1], to, RwSem);
      NetUntouchedPrefix(mid, i - 1, to, RwSem);
    }
  }

  /** A sound trace followed by a sound trace is sound: the second starts with nothing held. */
  lemma AppendSound(t: seq<Event>, e: seq<Event>)
    requires Sound(t) && Sound(e)
    ensures Sound(t + e)
  {
    forall b, s ensures Net(t + e, b, s) == 0 {
      NetAppend(t, e, b, s);
    }
    forall i | 0 <= i < |t + e| && (t + e)[i].WriteBytes?
      ensures Net((t + e)[..i], (t + e)[i].box, RwSem) == 1
    {
      if i < |t| {
        assert (t + e)[..i] == t[..i];
      } else {
        var j := i - |t|;
        assert (t + e)[..i] == t + e[..j];
        assert (t + e)[i] == e[j];
        NetAppend(t, e[..j], e[j].box, RwSem);
      }
    }
  }

  /** One call on the segment, with the events its method appends to the trace. */
  datatype Op = WriteOp(box: int) | ReadOp(box: int, first: bool) | CopyOp(from: int, to: int, first: bool)

  function OpEvents(op: Op): seq<Event> {
    match op
    case WriteOp(b) => WriteEvents(b)
    case ReadOp(b, first) => ReadEvents(b, first)
    case CopyOp(f, t, first) => CopyEvents(f, t, first)
  }

  /** The trace of a fresh segment after a run of calls that succeed. */
  function RunTrace(ops: seq<Op>): seq<Event> {
    if ops == [] then [] else RunTrace(ops[..|ops| - 1]) + OpEvents(ops[|ops| - 1])
  }

  /** Any run of successful calls (copyMailbox refuses one box copied onto itself) leaves a
      trace in which every write held the box's rw_mutex and every semaphore was given back. */
  lemma {:induction false} RunSound(ops: seq<Op>)
    requires forall k :: 0 <= k < |ops| && ops[k].CopyOp? ==> ops[k].from != ops[k].to
    ensures Sound(RunTrace(ops))
    decreases |ops|
  {
    if ops != [] {
      var init := ops[..|ops| - 1];
      var op := ops[|ops| - 1];
      assert forall k :: 0 <= k < |init| ==> init[k] == ops[k];
      RunSound(init);
      match op {
        case WriteOp(b) => WriteEventsSound(b);
        case ReadOp(b, first) => ReadEventsSound(b, first);
        case CopyOp(f, t, first) => CopyEventsSound(f, t, first);
      }
      AppendSound(RunTrace(init), OpEvents(op));
    }
  }

  /** One call a process makes on an attached segment. */
  datatype Call = WriteCall(box: int, message: CBytes) | ReadCall(box: int) | CopyCall(from: int, to: int)

  /** Whether the call's box ids pass its range test on a segment of num boxes. */
  predicate Accepted(num: int, c: Call) {
    match c
    case WriteCall(b, _) => 0 <= b < num
    case ReadCall(b) => 0 <= b < num
    case CopyCall(f, t) => 0 <= f < num && 0 <= t < num && f != t
  }

  /** One call on a segment whose locks are all open and whose trace is sound: the locks
      are open again afterwards, the trace is still sound, and the call returns 0 exactly
      when its ids pass the range test. */
  method RunCall(seg: Segment, c: Call) returns (r: int)
    requires seg.Usable() && seg.Terminated() && Sound(seg.trace)
    requires forall i :: 0 <= i < seg.locks.Length ==> seg.locks[i] == Open
    modifies seg.locks, seg.mem, seg`trace
    ensures seg.Usable() && seg.Terminated() && Sound(seg.trace)
    ensures seg.locks[..] == old(seg.locks[..])
    ensures r == (if Accepted(seg.header[0], c) then 0 else -1)
  {
    ghost var t := seg.trace;
    match c {
      case WriteCall(b, msg) =>
        r := seg.WriteToMailbox(b, msg);
        if r == 0 {
          WriteEventsSound(b);
          AppendSound(t, WriteEvents(b));
        }
      case ReadCall(b) =>
        var shown;
        r, shown := seg.ReadMailbox(b);
        if r == 0 {
          ReadEventsSound(b, true);
          AppendSound(t, ReadEvents(b, true));
        }
      case CopyCall(f, to) =>
        r := seg.CopyMailbox(f, to);
        if r == 0 {
          CopyEventsSound(f, to, true);
          AppendSound(t, CopyEvents(f, to, true));
        }
    }
  }

  /** One process running writeToMailbox, readMailbox and copyMailbox calls, one after
      another, on a segment whose locks are all open: each call gives back every semaphore
      it takes, so the locks are open again before the next, and the segment's trace stays
      sound throughout, every write coming while its box's rw_mutex is held. */
  method RunCalls(seg: Segment, calls: seq<Call>) returns (codes: seq<int>)
    requires seg.Usable() && seg.Terminated() && Sound(seg.trace)
    requires forall i :: 0 <= i < seg.locks.Length ==> seg.locks[i] == Open
    modifies seg.locks, seg.mem, seg`trace
    ensures seg.Usable() && seg.Terminated() && Sound(seg.trace)
    ensures seg.locks[..] == old(seg.locks[..])
    ensures |codes| == |calls|
    ensures forall k :: 0 <= k < |calls| ==> codes[k] == (if Accepted(seg.header[0], calls[k]) then 0 else -1)
  {
    codes := [];
    var i := 0;
    while i < |calls|
      invariant 0 <= i <= |calls|
      invariant seg.Usable() && seg.Terminated() && Sound(seg.trace)
      invariant seg.locks[..] == old(seg.locks[..])
      invariant |codes| == i
      invariant forall k :: 0 <= k < i ==> codes[k] == (if Accepted(seg.header[0], calls[k]) then 0 else -1)
    {
      var r := RunCall(seg, calls[i]);
      codes := codes + [r];
      i := i + 1;
    }
  }
}
