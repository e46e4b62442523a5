/** The /proc helpers of dsh's first part: the path getProcName and getProcCmdline assemble
    by hand, the 300-byte buffer fgets fills, and the loop that turns the NULs separating the
    words of a command line into spaces. */
module ProcFiles {
  import opened Text

  // ---------------------------------------------------------------- paths

  /** "/proc/" + pid + leaf, the text of a per-process file name. */
  function ProcPath(pid: CStr, leaf: string): (p: string)
    requires '\0' !in leaf
    ensures |p| == 6 + |pid| + |leaf|
    ensures '\0' !in p
    ensures p[..6] == "/proc/" && p[6..6 + |pid|] == pid && p[6 + |pid|..] == leaf
  {
    "/proc/" + pid + leaf
  }

  /** The pid a per-process file name was built from. */
  function PathPid(p: string, leaf: string): string
    requires 6 + |leaf| <= |p|
  {
    p[6..|p| - |leaf|]
  }

  /** Building a path and reading its pid back agree. */
  lemma PathPidRoundTrip(pid: CStr, leaf: string)
    requires '\0' !in leaf
    ensures PathPid(ProcPath(pid, leaf), leaf) == pid
  {
    var p := ProcPath(pid, leaf);
    assert p[6..|p| - |leaf|] == p[6..6 + |pid|];
  }

  /** The three copies that build a /proc file name in a buffer b: "/proc/", the pid and
      the suffix, one after the other from index 0; what lies after them is untouched. */
  lemma PathSplices(b: seq<char>, pid: CStr, suffix: string)
    requires 6 + |pid| + |suffix| <= |b| && '\0' !in suffix
    ensures var r := Splice(Splice(Splice(b, 0, "/proc/"), 6, pid), 6 + |pid|, suffix);
      r[..6 + |pid| + |suffix|] == ProcPath(pid, suffix) &&
      forall i :: 6 + |pid| + |suffix| <= i < |b| ==> r[i] == b[i]
  {
    var r1 := Splice(b, 0, "/proc/");
    var r2 := Splice(r1, 6, pid);
    var r := Splice(r2, 6 + |pid|, suffix);
    var want := ProcPath(pid, suffix);
    forall i | 0 <= i < 6 + |pid| + |suffix|
      ensures r[i] == want[i]
    {
      if i < 6 {
        assert r1[0..6][i] == "/proc/"[i];
      } else if i < 6 + |pid| {
        assert r2[6..6 + |pid|][i - 6] == pid[i - 6];
      } else {
        assert r[6 + |pid|..6 + |pid| + |suffix|][i - 6 - |pid|] == suffix[i - 6 - |pid|];
      }
    }
    assert r[..6 + |pid| + |suffix|] == want;
  }

  /** getProcName's file name: a buffer of strlen(pid)+15 characters from malloc (`junk`
      stands for what it held), "/proc/", the pid, the 7 characters of "/status", and the
      terminator written at index 13+strlen(pid). The last character stays as it was. */
  method StatusPath(pid: CStr, junk: char) returns (fname: array<char>)
    ensures fname.Length == |pid| + 15
    ensures fname[..13 + |pid|] == ProcPath(pid, "/status")
    ensures fname[13 + |pid|] == '\0' && 13 + |pid| < fname.Length
    ensures fname[14 + |pid|] == junk
  {
    fname := new char[|pid| + 15](_ => junk);
    assert fname[..] == seq(|pid| + 15, _ => junk);
    CopyInto(fname, 0, "/proc/");
    CopyInto(fname, 6, pid);
    CopyInto(fname, 6 + |pid|, "/status");
    PathSplices(seq(|pid| + 15, _ => junk), pid, "/status");
    fname[13 + |pid|] := '\0';
  }

  /** getProcCmdline's file name: strlen(pid)+16 characters, "/proc/", the pid, the 8
      characters of "/cmdline", and the terminator at index 14+strlen(pid). */
  method CmdlinePath(pid: CStr, junk: char) returns (fname: array<char>)
    ensures fname.Length == |pid| + 16
    ensures fname[..14 + |pid|] == ProcPath(pid, "/cmdline")
    ensures fname[14 + |pid|] == '\0' && 14 + |pid| < fname.Length
    ensures fname[15 + |pid|] == junk
  {
    fname := new char[|pid| + 16](_ => junk);
    assert fname[..] == seq(|pid| + 16, _ => junk);
    CopyInto(fname, 0, "/proc/");
    CopyInto(fname, 6, pid);
    CopyInto(fname, 6 + |pid|, "/cmdline");
    PathSplices(seq(|pid| + 16, _ => junk), pid, "/cmdline");
    fname[14 + |pid|] := '\0';
  }

  // ---------------------------------------------------------------- the buffer fgets fills

  /** How many characters fgets(buf, room + 1, f) stores from a file that starts with
      `line`: at most `room`, ending after the first newline or at the end of the file. */
  function FgetsLength(line: string, room: nat): (n: nat)
    ensures n <= |line| && n <= room
    ensures forall k :: 0 <= k < n - 1 ==> line[k] != '\n'
    ensures n == room || n == |line| || (n > 0 && line[n - 1] == '\n')
  {
    if room == 0 || line == [] then 0
    else if line[0] == '\n' then 1
    else 1 + FgetsLength(line[1..], room - 1)
  }

  /** The size of getProcCmdline's buffer. */
  const CmdlineSize: nat := 300

  /** getProcCmdline's buffer after memset(.., 0, 300) and fgets(.., 300, ..): the
      characters fgets read, then NULs (its own terminator among them). */
  function CmdlineBuffer(content: string): (b: string)
    ensures |b| == CmdlineSize
    ensures b[..FgetsLength(content, CmdlineSize - 1)] == content[..FgetsLength(content, CmdlineSize - 1)]
    ensures forall k :: FgetsLength(content, CmdlineSize - 1) <= k < CmdlineSize ==> b[k] == '\0'
  {
    var n := FgetsLength(content, CmdlineSize - 1);
    content[..n] + seq(CmdlineSize - n, _ => '\0')
  }

  /** The size of getProcName's buffer. */
  const NameSize: nat := 100

  /** getProcName: the path, then (when the status file opens, `content` being its text)
      the first line as fgets(name, 100, ..) stores it; None when fopen fails. */
  method GetProcName(pid: CStr, file: Option<string>, junk: char)
      returns (path: string, name: Option<string>)
    ensures path == ProcPath(pid, "/status")
    ensures file.None? ==> name.None?
    ensures file.Some? ==> name == Some(file.value[..FgetsLength(file.value, NameSize - 1)])
    ensures name.Some? ==> |name.value| < NameSize
  {
    var fname := StatusPath(pid, junk);
    path := fname[..13 + |pid|];
    if file.None? {
      return path, None;
    }
    var buf := new char[NameSize](_ => junk);
    var n := FgetsLength(file.value, NameSize - 1);
    CopyInto(buf, 0, file.value[..n]);
    buf[n] := '\0';
    name := Some(buf[..n]);
  }

  // ---------------------------------------------------------------- the NUL rewrite loop

  /** Two NULs in a row at i and i+1. */
  predicate NulPairAt(b: string, i: int) {
    0 <= i && i + 1 < |b| && b[i] == '\0' && b[i + 1] == '\0'
  }

  predicate HasNulPair(b: string) {
    exists i :: 0 <= i < |b| && NulPairAt(b, i)
  }

  /** The first pair of NULs at or after `from`. */
  function FirstNulPairFrom(b: string, from: nat): (p: nat)
    requires exists j :: from <= j < |b| && NulPairAt(b, j)
    ensures from <= p && NulPairAt(b, p)
    ensures forall j :: from <= j < p ==> !NulPairAt(b, j)
    decreases |b| - from
  {
    if NulPairAt(b, from) then from else FirstNulPairFrom(b, from + 1)
  }

  function FirstNulPair(b: string): (p: nat)
    requires HasNulPair(b)
    ensures NulPairAt(b, p)
    ensures forall j :: 0 <= j < p ==> !NulPairAt(b, j)
  {
    FirstNulPairFrom(b, 0)
  }

  /** The replacement loop of getProcCmdline as written: pointer i walks the buffer, a NUL
      after a non-NUL becomes a space, and the loop ends at a NUL that follows a NUL. It
      reads on until it meets such a pair, so the buffer must hold one. It stops at the
      second NUL of the first pair, which stays a NUL. */
  method RewriteCmdlineNuls(a: array<char>)
    requires HasNulPair(a[..])
    modifies a
    ensures a[..] == RewriteNuls(old(a[..]), FirstNulPair(old(a[..])) + 1)
  {
    ghost var b := a[..];
    ghost var p := FirstNulPair(b);
    var i := 0;
    var wasNull := false;
    var done := false;
    while !done
      invariant !done ==> 0 <= i <= p + 1
      invariant !done ==> (wasNull <==> i > 0 && b[i - 1] == '\0')
      invariant done ==> i == p + 2
      invariant forall k :: 0 <= k < a.Length ==>
                  a[k] == (if k < (if done then p + 1 else i) && b[k] == '\0' then ' ' else b[k])
      decreases p + 2 - i
    {
      if a[i] == '\0' {
        if wasNull {
          assert NulPairAt(b, i - 1);
          done := true;
        } else {
          assert i != p + 1;
          wasNull := true;
          a[i] := ' ';
        }
      } else {
        wasNull := false;
      }
      i := i + 1;
    }
    assert forall k :: 0 <= k < a.Length ==> a[..][k] == RewriteNuls(b, p + 1)[k];
  }

  /** Where the corrected loop stops: at the second NUL of the first pair, or at the last
      character of the buffer when there is no pair. */
  function CmdlineStop(b: string): (stop: nat)
    requires |b| >= 1
    ensures stop < |b|
    ensures HasNulPair(b) ==> stop == FirstNulPair(b) + 1
    ensures !HasNulPair(b) ==> stop == |b| - 1
  {
    if HasNulPair(b) then FirstNulPair(b) + 1 else |b| - 1
  }

  /** The replacement loop with the bound the buffer needs: the same walk, but it never
      goes past the last character, which it leaves as the terminator. */
  method RewriteCmdlineNulsBounded(a: array<char>)
    requires a.Length >= 1
    modifies a
    ensures a[..] == RewriteNuls(old(a[..]), CmdlineStop(old(a[..])))
  {
    ghost var b := a[..];
    ghost var stop := CmdlineStop(b);
    var i := 0;
    var wasNull := false;
    var done := false;
    while !done && i < a.Length - 1
      invariant !done ==> 0 <= i <= stop
      invariant !done ==> (wasNull <==> i > 0 && b[i - 1] == '\0')
      invariant done ==> i == stop + 1
      invariant forall k :: 0 <= k < a.Length ==>
                  a[k] == (if k < (if done then stop else i) && b[k] == '\0' then ' ' else b[k])
      decreases a.Length - i
    {
      if a[i] == '\0' {
        if wasNull {
          assert NulPairAt(b, i - 1);
          done := true;
        } else {
          assert !NulPairAt(b, i - 1);
          if HasNulPair(b) {
            assert i != FirstNulPair(b) + 1;
          }
          wasNull := true;
          a[i] := ' ';
        }
      } else {
        wasNull := false;
      }
      i := i + 1;
    }
    if !done {
      if HasNulPair(b) {
        assert i == FirstNulPair(b) + 1;
      }
    }
    assert forall k :: 0 <= k < a.Length ==> a[..][k] == RewriteNuls(b, stop)[k];
  }

  /** A buffer whose last character is a NUL comes out of the corrected loop as a string
      terminated exactly at the stopping point. */
  lemma RewriteTerminated(b: string)
    requires |b| >= 1 && b[|b| - 1] == '\0'
    ensures var r := RewriteNuls(b, CmdlineStop(b));
      r[CmdlineStop(b)] == '\0' && '\0' !in r[..CmdlineStop(b)]
  {
    var stop := CmdlineStop(b);
    var r := RewriteNuls(b, stop);
    if HasNulPair(b) {
      assert b[stop] == '\0';
    }
    assert r[stop] == r[stop..][0];
  }

  /** What getProcCmdline returns for a file that starts with `content`. */
  function CmdlineText(content: string): string {
    var b := CmdlineBuffer(content);
    RewriteNuls(b, CmdlineStop(b))[..CmdlineStop(b)]
  }

  /** The buffer getProcCmdline hands to its loop: 300 zeroed characters with what fgets
      reads from the file at the front. */
  method ReadCmdlineBuffer(content: string) returns (buf: array<char>)
    ensures fresh(buf) && buf[..] == CmdlineBuffer(content)
  {
    buf := new char[CmdlineSize](_ => '\0');
    var n := FgetsLength(content, CmdlineSize - 1);
    CopyInto(buf, 0, content[..n]);
    buf[n] := '\0';
    assert buf[..] == CmdlineBuffer(content);
  }

  /** getProcCmdline as written: the path, then (when the file opens, `content` being its
      bytes) the buffer fgets fills and the replacement loop, which stays inside the buffer
      only when the buffer holds two NULs in a row (ShortReadHasPair says when); the result
      is the C string left in the buffer, or None when fopen fails. */
  method GetProcCmdline(pid: CStr, file: Option<string>, junk: char)
      returns (path: string, cmdline: Option<string>)
    requires file.Some? ==> HasNulPair(CmdlineBuffer(file.value))
    ensures path == ProcPath(pid, "/cmdline")
    ensures file.None? ==> cmdline.None?
    ensures file.Some? ==> cmdline == Some(CmdlineText(file.value))
    ensures cmdline.Some? ==> '\0' !in cmdline.value && |cmdline.value| < CmdlineSize
  {
    var fname := CmdlinePath(pid, junk);
    path := fname[..14 + |pid|];
    if file.None? {
      return path, None;
    }
    var buf := ReadCmdlineBuffer(file.value);
    RewriteCmdlineNuls(buf);
    var stop := FirstNulPair(CmdlineBuffer(file.value)) + 1;
    cmdline := Some(buf[..stop]);
  }

  /** getProcCmdline with the bounded loop: every file that opens, however long its first
      line, gives the C string left in the buffer. */
  method GetProcCmdlineBounded(pid: CStr, file: Option<string>, junk: char)
      returns (path: string, cmdline: Option<string>)
    ensures path == ProcPath(pid, "/cmdline")
    ensures file.None? ==> cmdline.None?
    ensures file.Some? ==> cmdline == Some(CmdlineText(file.value))
    ensures cmdline.Some? ==> '\0' !in cmdline.value && |cmdline.value| < CmdlineSize
  {
    var fname := CmdlinePath(pid, junk);
    path := fname[..14 + |pid|];
    if file.None? {
      return path, None;
    }
    var buf := ReadCmdlineBuffer(file.value);
    RewriteCmdlineNulsBounded(buf);
    var stop := CmdlineStop(CmdlineBuffer(file.value));
    RewriteTerminated(CmdlineBuffer(file.value));
    cmdline := Some(buf[..stop]);
  }

  /** A command line fgets reads in fewer than 299 characters leaves two NULs at the end of
      the buffer, so the loop as written stays inside it. */
  lemma ShortReadHasPair(content: string)
    requires FgetsLength(content, CmdlineSize - 1) < CmdlineSize - 1
    ensures HasNulPair(CmdlineBuffer(content))
  {
    assert NulPairAt(CmdlineBuffer(content), CmdlineSize - 2);
  }

  /** A command line of 299 or more characters without a newline or a NUL fills the
      buffer up to its last character, so no two NULs are adjacent and the loop as
      written walks past the 300 bytes. */
  lemma LongReadOverruns()
    ensures !HasNulPair(CmdlineBuffer(seq(CmdlineSize - 1, _ => 'a')))
  {
    var content := seq(CmdlineSize - 1, _ => 'a');
    assert FgetsLength(content, CmdlineSize - 1) == CmdlineSize - 1;
    var b := CmdlineBuffer(content);
    forall i | 0 <= i ensures !NulPairAt(b, i) {
      if i + 1 < |b| {
        assert b[i] == 'a';
      }
    }
  }

  /** "ls -l" as the kernel stores it, with a NUL after each word, comes back as the words
      joined by spaces, the last NUL also turned into a space. */
  lemma CmdlineOfTwoWords()
    ensures CmdlineText("ls\0-l\0") == "ls -l "
  {
    var content := "ls\0-l\0";
    assert FgetsLength(content, CmdlineSize - 1) == 6;
    var b := CmdlineBuffer(content);
    assert b[..6] == content;
    assert NulPairAt(b, 5);
    assert forall j :: 0 <= j < 5 ==> !NulPairAt(b, j) by {
      assert b[0] == 'l' && b[1] == 's' && b[3] == '-' && b[4] == 'l';
    }
    assert FirstNulPair(b) == 5;
  }
}
