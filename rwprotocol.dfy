/** The first-reader/last-reader lock that guards each mailbox, with its two semaphores as
    counters: a wait is a step that needs the counter above zero, a post adds one. The
    operations on one lock are the steps of readMailbox's reader entry and exit and of a
    writer's hold on rw_mutex; several processes taking such steps in any order form a state
    machine, whose invariant gives mutual exclusion between writers and admitted readers. */
module RwProtocol {
  import opened Text

  /** One mailbox's lock: the reader mutex, the reader/writer mutex, and the reader count. */
  datatype RwLock = RwLock(mutex: nat, rwMutex: nat, readCount: int)

  /** The lock as createMailboxes leaves it once both sem_init calls succeed. */
  const Open: RwLock := RwLock(1, 1, 0)

  // ---------------------------------------------------------------- the steps on one lock

  function WaitMutex(l: RwLock): (r: RwLock)
    requires l.mutex > 0
    ensures r.mutex + 1 == l.mutex && r.rwMutex == l.rwMutex && r.readCount == l.readCount
  {
    l.(mutex := l.mutex - 1)
  }

  function PostMutex(l: RwLock): (r: RwLock)
    ensures r.mutex == l.mutex + 1 && r.rwMutex == l.rwMutex && r.readCount == l.readCount
  {
    l.(mutex := l.mutex + 1)
  }

  function WaitRw(l: RwLock): (r: RwLock)
    requires l.rwMutex > 0
    ensures r.rwMutex + 1 == l.rwMutex && r.mutex == l.mutex && r.readCount == l.readCount
  {
    l.(rwMutex := l.rwMutex - 1)
  }

  function PostRw(l: RwLock): (r: RwLock)
    ensures r.rwMutex == l.rwMutex + 1 && r.mutex == l.mutex && r.readCount == l.readCount
  {
    l.(rwMutex := l.rwMutex + 1)
  }

  // ---------------------------------------------------------------- processes on one lock

  /** Where a process stands in readMailbox's reader protocol (reader phases are named by
      what the process does next) or in a writer's critical section. */
  datatype Phase =
    | Idle
    | REnter     // holds mutex: readCount++ comes next
    | RGate      // holds mutex and is counted: the first reader waits on rw_mutex here
    | RAdmitted  // holds mutex, is past the gate: posts mutex next
    | RReading   // reads the box
    | RExit      // holds mutex again: readCount-- comes next
    | RRelease   // holds mutex, no longer counted: the last reader posts rw_mutex here
    | RDone      // holds mutex: posts it next
    | WWriting   // holds rw_mutex while it writes

  predicate HoldsMutex(ph: Phase) {
    ph.REnter? || ph.RGate? || ph.RAdmitted? || ph.RExit? || ph.RRelease? || ph.RDone?
  }

  /** Readers that have counted themselves in and not yet out. */
  predicate Counted(ph: Phase) {
    ph.RGate? || ph.RAdmitted? || ph.RReading? || ph.RExit?
  }

  /** Readers past the gate that are still counted: the ones that may touch the box. */
  predicate Inside(ph: Phase) {
    ph.RAdmitted? || ph.RReading? || ph.RExit?
  }

  predicate AtGate(ph: Phase) { ph.RGate? }
  predicate AtRelease(ph: Phase) { ph.RRelease? }
  predicate Writing(ph: Phase) { ph.WWriting? }

  /** How many processes satisfy `f`. */
  function Count(ps: seq<Phase>, f: Phase -> bool): (n: nat)
    ensures n <= |ps|
  {
    if ps == [] then 0 else Count(ps[..|ps| - 1], f) + (if f(ps[|ps| - 1]) then 1 else 0)
  }

  lemma {:induction false} CountUpdate(ps: seq<Phase>, i: nat, x: Phase, f: Phase -> bool)
    requires i < |ps|
    ensures Count(ps[i := x], f) == Count(ps, f) - (if f(ps[i]) then 1 else 0) + (if f(x) then 1 else 0)
  {
    var last := |ps| - 1;
    if i < last {
      CountUpdate(ps[..last], i, x, f);
      assert ps[i := x][..last] == ps[..last][i := x];
    } else {
      assert ps[i := x][..last] == ps[..last];
    }
  }

  lemma {:induction false} CountPositive(ps: seq<Phase>, i: nat, f: Phase -> bool)
    requires i < |ps| && f(ps[i])
    ensures Count(ps, f) >= 1
  {
    if i < |ps| - 1 {
      CountPositive(ps[..|ps| - 1], i, f);
    }
  }

  lemma {:induction false} CountTwo(ps: seq<Phase>, i: nat, j: nat, f: Phase -> bool)
    requires i < j < |ps| && f(ps[i]) && f(ps[j])
    ensures Count(ps, f) >= 2
  {
    if j < |ps| - 1 {
      CountTwo(ps[..|ps| - 1], i, j, f);
    } else {
      CountPositive(ps[..|ps| - 1], i, f);
    }
  }

  /** Counting a disjoint union. */
  lemma {:induction false} CountSplit(ps: seq<Phase>, f: Phase -> bool, g: Phase -> bool, h: Phase -> bool)
    requires forall ph :: f(ph) == (g(ph) || h(ph)) && !(g(ph) && h(ph))
    ensures Count(ps, f) == Count(ps, g) + Count(ps, h)
  {
    if ps != [] {
      CountSplit(ps[..|ps| - 1], f, g, h);
    }
  }

  /** The shared state of one lock and the processes using it. */
  datatype RwState = RwState(lock: RwLock, procs: seq<Phase>)

  /** Whether the readers as a group hold rw_mutex: a reader leaving at the release point
      still holds it; a reader at the gate holds it only if it is not the first; otherwise
      the readers hold it when one is counted. */
  function ReadersHoldRw(s: RwState): nat {
    if Count(s.procs, AtRelease) > 0 then 1
    else if Count(s.procs, AtGate) > 0 then (if s.lock.readCount > 1 then 1 else 0)
    else if s.lock.readCount > 0 then 1 else 0
  }

  /** The lock invariant: exactly one of the free mutex and its holder; readCount is the
      number of counted readers; exactly one of a free rw_mutex, a writer and the reader
      group. */
  predicate Inv(s: RwState) {
    s.lock.mutex + Count(s.procs, HoldsMutex) == 1 &&
    s.lock.readCount == Count(s.procs, Counted) &&
    s.lock.rwMutex + Count(s.procs, Writing) + ReadersHoldRw(s) == 1
  }

  /** What an idle process starts, or the next step of a busy one. */
  datatype Action = BeginRead | BeginWrite | Advance

  /** One step of process p, or None when that step would block on a semaphore (or does
      not apply to where p stands). */
  function Step(s: RwState, p: nat, a: Action): Option<RwState> {
    if p >= |s.procs| then None
    else
      var l := s.lock;
      var ph := s.procs[p];
      match ph
      case Idle =>
        if a == BeginRead then (if l.mutex > 0 then Some(RwState(WaitMutex(l), s.procs[p := REnter])) else None)
        else if a == BeginWrite then (if l.rwMutex > 0 then Some(RwState(WaitRw(l), s.procs[p := WWriting])) else None)
        else None
      case REnter => Some(RwState(l.(readCount := l.readCount + 1), s.procs[p := RGate]))
      case RGate =>
        if l.readCount == 1 then
          (if l.rwMutex > 0 then Some(RwState(WaitRw(l), s.procs[p := RAdmitted])) else None)
        else Some(RwState(l, s.procs[p := RAdmitted]))
      case RAdmitted => Some(RwState(PostMutex(l), s.procs[p := RReading]))
      case RReading => if l.mutex > 0 then Some(RwState(WaitMutex(l), s.procs[p := RExit])) else None
      case RExit => Some(RwState(l.(readCount := l.readCount - 1), s.procs[p := RRelease]))
      case RRelease =>
        if l.readCount == 0 then Some(RwState(PostRw(l), s.procs[p := RDone]))
        else Some(RwState(l, s.procs[p := RDone]))
      case RDone => Some(RwState(PostMutex(l), s.procs[p := Idle]))
      case WWriting => Some(RwState(PostRw(l), s.procs[p := Idle]))
  }

  /** The starting state: an open lock and n idle processes. */
  function Init(n: nat): (s: RwState)
    ensures Inv(s)
  {
    var s := RwState(Open, seq(n, _ => Idle));
    CountNone(s.procs, HoldsMutex);
    CountNone(s.procs, Counted);
    CountNone(s.procs, Writing);
    CountNone(s.procs, AtGate);
    CountNone(s.procs, AtRelease);
    s
  }

  lemma {:induction false} CountNone(ps: seq<Phase>, f: Phase -> bool)
    requires forall i :: 0 <= i < |ps| ==> !f(ps[i])
    ensures Count(ps, f) == 0
  {
    if ps != [] {
      CountNone(ps[..|ps| - 1], f);
    }
  }

  /** The counts of every class of phase after process i moves to x. */
  lemma UpdateCounts(ps: seq<Phase>, i: nat, x: Phase)
    requires i < |ps|
    ensures Count(ps[i := x], HoldsMutex) == Count(ps, HoldsMutex) - (if HoldsMutex(ps[i]) then 1 else 0) + (if HoldsMutex(x) then 1 else 0)
    ensures Count(ps[i := x], Counted) == Count(ps, Counted) - (if Counted(ps[i]) then 1 else 0) + (if Counted(x) then 1 else 0)
    ensures Count(ps[i := x], Writing) == Count(ps, Writing) - (if Writing(ps[i]) then 1 else 0) + (if Writing(x) then 1 else 0)
    ensures Count(ps[i := x], AtGate) == Count(ps, AtGate) - (if AtGate(ps[i]) then 1 else 0) + (if AtGate(x) then 1 else 0)
    ensures Count(ps[i := x], AtRelease) == Count(ps, AtRelease) - (if AtRelease(ps[i]) then 1 else 0) + (if AtRelease(x) then 1 else 0)
  {
    CountUpdate(ps, i, x, HoldsMutex);
    CountUpdate(ps, i, x, Counted);
    CountUpdate(ps, i, x, Writing);
    CountUpdate(ps, i, x, AtGate);
    CountUpdate(ps, i, x, AtRelease);
  }

  /** Under the invariant, a process holding the mutex is the only one: no other process is
      at the gate or at the release point. */
  lemma MutexHolderAlone(s: RwState, p: nat)
    requires Inv(s) && p < |s.procs| && HoldsMutex(s.procs[p])
    ensures forall q :: 0 <= q < |s.procs| && q != p ==> !HoldsMutex(s.procs[q])
  {
    forall q | 0 <= q < |s.procs| && q != p && HoldsMutex(s.procs[q])
      ensures false
    {
      if q < p {
        CountTwo(s.procs, q, p, HoldsMutex);
      } else {
        CountTwo(s.procs, p, q, HoldsMutex);
      }
    }
  }

  /** When p holds the mutex, the gate and release counts are p's own. */
  lemma HolderCounts(s: RwState, p: nat)
    requires Inv(s) && p < |s.procs| && HoldsMutex(s.procs[p])
    ensures Count(s.procs, AtGate) == (if AtGate(s.procs[p]) then 1 else 0)
    ensures Count(s.procs, AtRelease) == (if AtRelease(s.procs[p]) then 1 else 0)
  {
    MutexHolderAlone(s, p);
    var others := s.procs[p := Idle];
    CountNone(others, AtGate);
    CountNone(others, AtRelease);
    UpdateCounts(s.procs, p, Idle);
    assert others[p := s.procs[p]] == s.procs;
  }

  /** When the mutex is free, nobody is at the gate or the release point. */
  lemma FreeMutexCounts(s: RwState)
    requires Inv(s) && s.lock.mutex > 0
    ensures Count(s.procs, AtGate) == 0 && Count(s.procs, AtRelease) == 0
  {
    CountSplitGateRelease(s.procs);
  }

  /** The gate and release points are among the mutex holders. */
  lemma CountSplitGateRelease(ps: seq<Phase>)
    ensures Count(ps, AtGate) + Count(ps, AtRelease) <= Count(ps, HoldsMutex)
  {
    var gr := (ph: Phase) => AtGate(ph) || AtRelease(ph);
    var rest := (ph: Phase) => HoldsMutex(ph) && !gr(ph);
    CountSplit(ps, gr, AtGate, AtRelease);
    CountSplit(ps, HoldsMutex, gr, rest);
  }

  /** Every step keeps the invariant. */
  lemma StepPreservesInv(s: RwState, p: nat, a: Action)
    requires Inv(s) && Step(s, p, a).Some?
    ensures Inv(Step(s, p, a).value)
  {
    if HoldsMutex(s.procs[p]) {
      HolderStepPreservesInv(s, p, a);
    } else {
      OtherStepPreservesInv(s, p, a);
    }
  }

  /** The steps of a reader that holds the mutex. */
  lemma HolderStepPreservesInv(s: RwState, p: nat, a: Action)
    requires Inv(s) && Step(s, p, a).Some? && HoldsMutex(s.procs[p])
    ensures Inv(Step(s, p, a).value)
  {
    var t := Step(s, p, a).value;
    UpdateCounts(s.procs, p, t.procs[p]);
    assert t.procs == s.procs[p := t.procs[p]];
    HolderCounts(s, p);
    if HoldsMutex(t.procs[p]) {
      HolderCountsAfter(s, p, t);
    }
  }

  /** The steps of a process that does not hold the mutex: starting to read or write,
      taking the mutex again after reading, and a writer's release. */
  lemma OtherStepPreservesInv(s: RwState, p: nat, a: Action)
    requires Inv(s) && Step(s, p, a).Some? && !HoldsMutex(s.procs[p])
    ensures Inv(Step(s, p, a).value)
  {
    var t := Step(s, p, a).value;
    UpdateCounts(s.procs, p, t.procs[p]);
    assert t.procs == s.procs[p := t.procs[p]];
    if HoldsMutex(t.procs[p]) {
      FreeMutexCounts(s);
      HolderCountsAfter(s, p, t);
    }
  }

  /** After a step that leaves p holding the mutex, the gate and release counts are p's. */
  lemma HolderCountsAfter(s: RwState, p: nat, t: RwState)
    requires Inv(s) && p < |s.procs| && |t.procs| == |s.procs|
    requires t.procs == s.procs[p := t.procs[p]] && HoldsMutex(t.procs[p])
    requires HoldsMutex(s.procs[p]) || s.lock.mutex > 0
    ensures Count(t.procs, AtGate) == (if AtGate(t.procs[p]) then 1 else 0)
    ensures Count(t.procs, AtRelease) == (if AtRelease(t.procs[p]) then 1 else 0)
  {
    UpdateCounts(s.procs, p, t.procs[p]);
    if HoldsMutex(s.procs[p]) {
      HolderCounts(s, p);
    } else {
      FreeMutexCounts(s);
    }
  }

  /** Mutual exclusion: at most one writer, and while a writer holds rw_mutex no reader is
      past the gate. */
  lemma MutualExclusion(s: RwState)
    requires Inv(s)
    ensures Count(s.procs, Writing) <= 1
    ensures Count(s.procs, Writing) == 1 ==> Count(s.procs, Inside) == 0
  {
    CountSplit(s.procs, Counted, AtGate, Inside);
  }

  /** The reader count and writers: a positive count excludes a writer unless the only
      counted reader is the first one, still blocked at the gate. */
  lemma ReadersExcludeWriter(s: RwState)
    requires Inv(s)
    requires s.lock.readCount > 0
    requires !(Count(s.procs, AtGate) > 0 && s.lock.readCount == 1)
    ensures Count(s.procs, Writing) == 0
  {
  }

  /** That exception happens: a writer holds rw_mutex, and a reader has counted itself in and
      waits at the gate, so readCount is 1 while a writer is inside. */
  lemma FirstReaderBlockedBehindWriter()
    ensures var s0 := Init(2);
      var s1 := Step(s0, 0, BeginWrite);
      s1.Some? &&
      var s2 := Step(s1.value, 1, BeginRead);
      s2.Some? &&
      var s3 := Step(s2.value, 1, Advance);
      s3.Some? &&
      Step(s3.value, 1, Advance).None? &&
      Inv(s3.value) && s3.value.lock.readCount == 1 && Count(s3.value.procs, Writing) == 1
  {
    var s0 := Init(2);
    assert s0.procs == [Idle, Idle];
    var s1 := Step(s0, 0, BeginWrite);
    StepPreservesInv(s0, 0, BeginWrite);
    var s2 := Step(s1.value, 1, BeginRead);
    StepPreservesInv(s1.value, 1, BeginRead);
    var s3 := Step(s2.value, 1, Advance);
    StepPreservesInv(s2.value, 1, Advance);
    assert s3.value.procs == [WWriting, RGate];
    assert Count(s3.value.procs, Writing) == 1;
  }

  /** A run of steps, stopping at the first blocked one. */
  function Run(s: RwState, steps: seq<(nat, Action)>): RwState
    decreases |steps|
  {
    if steps == [] then s
    else
      match Step(s, steps[0].0, steps[0].1)
      case None => s
      case Some(t) => Run(t, steps[1..])
  }

  /** Every run from the starting state keeps the invariant, so mutual exclusion holds in
      every state the processes can reach. */
  lemma {:induction false} RunPreservesInv(s: RwState, steps: seq<(nat, Action)>)
    requires Inv(s)
    ensures Inv(Run(s, steps))
    decreases |steps|
  {
    if steps != [] {
      var st := Step(s, steps[0].0, steps[0].1);
      if st.Some? {
        StepPreservesInv(s, steps[0].0, steps[0].1);
        RunPreservesInv(st.value, steps[1..]);
      }
    }
  }

  /** The eight reader steps of one readMailbox on a lock nobody else is using: the wait
      on rw_mutex and its post happen exactly when no reader was counted, and the lock ends
      as it began. */
  function ReaderAlone(l: RwLock): (r: RwLock)
    requires l.mutex > 0 && (l.readCount == 0 ==> l.rwMutex > 0)
    ensures r == l
  {
    var a := WaitMutex(l);
    var b := a.(readCount := a.readCount + 1);
    var c := if b.readCount == 1 then WaitRw(b) else b;
    var d := PostMutex(c);
    var e := WaitMutex(d);
    var f := e.(readCount := e.readCount - 1);
    var g := if f.readCount == 0 then PostRw(f) else f;
    PostMutex(g)
  }
}
