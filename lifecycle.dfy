/** The life of the shared mailbox segment in prog3.c, in its file variant: startSharedMemory
    (mboxinit) has a thread run shmemServer, which creates the marker file .dsh_shmem_info,
    calls createMailboxes and writes the caller's pid and the new shmid into the file;
    getshmemAddr and getshmemParent read the two fields back; stopSharedMemory (mboxdel)
    removes the segment and the file; onExit does so only in the process that made them.
    The file and the segment are a value of the host, and each routine maps one host to the
    next; what the system answers (the pid, whether fopen and shmget succeed, the new id)
    is a parameter. */
module Lifecycle {
  import opened Text
  import opened SegmentLayout
  import opened HelperFunctions

  /** The marker file: absent, present but empty (shmemServer opened it for writing and then
      failed to create the segment), or holding pid then shmid. */
  datatype Marker = NoFile | EmptyFile | Written(pid: int, shmid: int)

  /** The marker file and the id of the segment that exists under the fixed key 1066, if any. */
  datatype Host = Host(marker: Marker, segment: Option<int>)

  /** What the system answers during one run of shmemServer. */
  datatype Env = Env(pid: int, openOk: bool, shmgetGrants: bool, newId: nat)

  /** What startSharedMemory and stopSharedMemory return, and the host they leave. */
  datatype Outcome = Outcome(ret: int, host: Host)

  /** Every marker that names a segment names the one that exists. */
  predicate Consistent(h: Host) {
    h.marker.Written? ==> h.segment == Some(h.marker.shmid)
  }

  // ---------------------------------------------------------------- reading the marker

  /** getshmemAddr: the second field of the marker; -1 (the initial value, which fread
      leaves in place) when the file is missing or empty. */
  function GetShmemAddr(m: Marker): int {
    if m.Written? then m.shmid else -1
  }

  /** getshmemParent: the first field of the marker, or -1 in the same cases. */
  function GetShmemParent(m: Marker): int {
    if m.Written? then m.pid else -1
  }

  // ---------------------------------------------------------------- making the segment

  /** Whether createMailboxes gets a segment: shmget with IPC_EXCL on the fixed key fails
      while a segment exists under it, and fails for a length below 1. */
  predicate CreateSucceeds(h: Host, num: int, size: int, env: Env) {
    env.shmgetGrants && h.segment.None? && SegmentLength(num, size) >= 1
  }

  /** shmemServer, file variant: it gives up when the file exists; otherwise it opens the
      file for writing (creating it empty), creates the mailboxes and writes pid then shmid.
      When the creation fails the file is left empty. */
  function ShmemServer(h: Host, num: int, size: int, env: Env): Host {
    if h.marker != NoFile then h
    else if !env.openOk then h
    else if !CreateSucceeds(h, num, size, env) then Host(EmptyFile, h.segment)
    else Host(Written(env.pid, env.newId), Some(env.newId))
  }

  /** What shmemServer writes, the two readers read back: the new id as the address and
      the server's pid as the parent; all other runs leave no address to read. */
  lemma ServerMarkerRoundTrip(h: Host, num: int, size: int, env: Env)
    requires h.marker == NoFile
    ensures var r := ShmemServer(h, num, size, env);
      (env.openOk && CreateSucceeds(h, num, size, env) ==>
         GetShmemAddr(r.marker) == env.newId && GetShmemParent(r.marker) == env.pid &&
         r.segment == Some(env.newId)) &&
      (!(env.openOk && CreateSucceeds(h, num, size, env)) ==>
         GetShmemAddr(r.marker) == -1 && GetShmemParent(r.marker) == -1 && r.segment == h.segment)
  {
  }

  /** shmemServer never touches a marker that is there, and never removes a segment. */
  lemma ServerKeepsExisting(h: Host, num: int, size: int, env: Env)
    ensures h.marker != NoFile ==> ShmemServer(h, num, size, env) == h
    ensures h.segment.Some? ==> ShmemServer(h, num, size, env).segment == h.segment
  {
  }

  // ---------------------------------------------------------------- mboxinit

  /** startSharedMemory: fewer than three arguments, an address already above 0, or a count
      or size strToInt refuses gives -1 and changes nothing; otherwise the thread runs
      shmemServer (when pthread_create succeeds) and 0 comes back whatever it did. */
  function StartSharedMemory(h: Host, argv: seq<string>, env: Env, threadOk: bool): Outcome {
    if |argv| < 3 then Outcome(-1, h)
    else if 0 < GetShmemAddr(h.marker) then Outcome(-1, h)
    else
      var (num, ok1) := StrToIntSpec(argv[1]);
      if ok1 != 0 then Outcome(-1, h)
      else
        var (size, ok2) := StrToIntSpec(argv[2]);
        if ok2 != 0 then Outcome(-1, h)
        else Outcome(0, if threadOk then ShmemServer(h, num, size, env) else h)
  }

  /** A second mboxinit is refused while the marker gives an address above 0. */
  lemma StartRefusesWhenPresent(h: Host, argv: seq<string>, env: Env, threadOk: bool)
    requires 0 < GetShmemAddr(h.marker)
    ensures StartSharedMemory(h, argv, env, threadOk) == Outcome(-1, h)
  {
  }

  /** On a host with neither file nor segment, "mboxinit num size" with num and size
      printed in decimal makes a segment whose id the marker gives, and records the
      caller as its owner, whenever the thread starts, the file opens and shmget grants
      the length; any other failure leaves the host as it was or with an empty file. */
  lemma {:induction false} FreshStartCreates(num: int, size: int, env: Env, threadOk: bool)
    ensures var argv := ["mboxinit", SignedDecimal(num), SignedDecimal(size)];
      var o := StartSharedMemory(Host(NoFile, None), argv, env, threadOk);
      o.ret == 0 &&
      (threadOk && env.openOk && env.shmgetGrants && SegmentLength(num, size) >= 1 ==>
         o.host == Host(Written(env.pid, env.newId), Some(env.newId)) &&
         GetShmemAddr(o.host.marker) == env.newId && GetShmemParent(o.host.marker) == env.pid) &&
      (!(threadOk && env.openOk && env.shmgetGrants && SegmentLength(num, size) >= 1) ==>
         o.host.segment.None? && GetShmemAddr(o.host.marker) == -1)
  {
    StrToIntRoundTrip(num);
    StrToIntRoundTrip(size);
  }

  /** A count or size that is not a number makes mboxinit fail with nothing changed. */
  lemma StartRefusesBadNumber(h: Host, argv: seq<string>, env: Env, threadOk: bool)
    requires |argv| >= 3 && (StrToIntSpec(argv[1]).1 != 0 || StrToIntSpec(argv[2]).1 != 0)
    ensures StartSharedMemory(h, argv, env, threadOk) == Outcome(-1, h)
  {
  }

  // ---------------------------------------------------------------- mboxdel and onExit

  /** stopSharedMemory, file variant: with an address above 0, shmctl(IPC_RMID) removes the
      segment of that id (when there is one) and the file is unlinked, and 0 comes back;
      otherwise -1 and nothing changes. */
  function StopSharedMemory(h: Host): Outcome {
    var addr := GetShmemAddr(h.marker);
    if 0 < addr then
      Outcome(0, Host(NoFile, if h.segment == Some(addr) then None else h.segment))
    else Outcome(-1, h)
  }

  /** mboxdel removes the file and the segment the marker names, and refuses without one. */
  lemma StopRemoves(h: Host)
    requires Consistent(h)
    ensures 0 < GetShmemAddr(h.marker) ==> StopSharedMemory(h) == Outcome(0, Host(NoFile, None))
    ensures GetShmemAddr(h.marker) <= 0 ==> StopSharedMemory(h) == Outcome(-1, h)
  {
  }

  /** onExit: the shell deletes the segment only if the marker names it as the owner. */
  function OnExit(h: Host, pid: int): Host {
    if GetShmemParent(h.marker) == pid then StopSharedMemory(h).host else h
  }

  /** onExit acts only in the owner; there it removes the segment and the file. */
  lemma OnExitOwnerOnly(h: Host, pid: int)
    requires Consistent(h)
    ensures GetShmemParent(h.marker) != pid ==> OnExit(h, pid) == h
    ensures GetShmemParent(h.marker) == pid && 0 < GetShmemAddr(h.marker) ==>
      OnExit(h, pid) == Host(NoFile, None)
  {
  }

  /** Every routine keeps the marker and the segment in step. */
  lemma ConsistentPreserved(h: Host, num: int, size: int, argv: seq<string>, env: Env, threadOk: bool, pid: int)
    requires Consistent(h)
    ensures Consistent(ShmemServer(h, num, size, env))
    ensures Consistent(StartSharedMemory(h, argv, env, threadOk).host)
    ensures Consistent(StopSharedMemory(h).host)
    ensures Consistent(OnExit(h, pid))
  {
  }

  /** An empty marker file, left by a failed creation, blocks every later mboxinit (the
      server finds the file) and every mboxdel (no address can be read from it). */
  lemma EmptyMarkerIsStuck(h: Host, argv: seq<string>, env: Env, threadOk: bool, pid: int)
    requires h.marker == EmptyFile
    ensures StartSharedMemory(h, argv, env, threadOk).host == h
    ensures StopSharedMemory(h) == Outcome(-1, h)
    ensures pid != -1 ==> OnExit(h, pid) == h
  {
  }

  // ---------------------------------------------------------------- shmid 0

  /** A segment whose id is 0, as shmget may return, can be neither replaced nor removed:
      mboxinit finds the file, mboxdel and onExit read address 0, which is not above 0. */
  lemma ZeroIdIsStuck(pid: int, argv: seq<string>, env: Env, threadOk: bool)
    ensures var h := Host(Written(pid, 0), Some(0));
      Consistent(h) &&
      StartSharedMemory(h, argv, env, threadOk).host == h &&
      StopSharedMemory(h) == Outcome(-1, h) &&
      OnExit(h, pid) == h
  {
  }

  /** stopSharedMemory taking every id shmget can return (0 included) as present. */
  function StopSharedMemoryChecked(h: Host): Outcome {
    var addr := GetShmemAddr(h.marker);
    if 0 <= addr then
      Outcome(0, Host(NoFile, if h.segment == Some(addr) then None else h.segment))
    else Outcome(-1, h)
  }

  /** startSharedMemory refusing whenever the marker gives an id, 0 included. */
  function StartSharedMemoryChecked(h: Host, argv: seq<string>, env: Env, threadOk: bool): Outcome {
    if 0 <= GetShmemAddr(h.marker) then Outcome(-1, h)
    else StartSharedMemory(h, argv, env, threadOk)
  }

  /** onExit removing the owner's segment with the checked stop. */
  function OnExitChecked(h: Host, pid: int): Host {
    if GetShmemParent(h.marker) == pid then StopSharedMemoryChecked(h).host else h
  }

  /** With the id tested as non-negative, every segment a marker names is removed by mboxdel
      and by the owner's exit, and a second mboxinit is refused while it exists. */
  lemma CheckedStopRemovesEvery(h: Host, argv: seq<string>, env: Env, threadOk: bool)
    requires Consistent(h) && h.marker.Written? && h.marker.shmid >= 0
    ensures StopSharedMemoryChecked(h) == Outcome(0, Host(NoFile, None))
    ensures OnExitChecked(h, h.marker.pid) == Host(NoFile, None)
    ensures StartSharedMemoryChecked(h, argv, env, threadOk) == Outcome(-1, h)
  {
  }

  /** The ids shmget returns are non-negative, so a marker written by shmemServer always
      carries one the checked routines see. */
  lemma ServerWritesNonnegativeId(h: Host, num: int, size: int, env: Env)
    requires Consistent(h)
    ensures var r := ShmemServer(h, num, size, env);
      Consistent(r) && (r.marker.Written? && h.marker == NoFile ==> r.marker.shmid >= 0)
  {
  }
}
