/** The first shell, dash: the argument parser of its builtins, the pid check of cmdnm, the
    NUL-to-space rewrite of a command line, the usage decision and the read-dispatch loop. */
module Dash {
  import opened Text
  import opened HelperFunctions

  // ---------------------------------------------------------------- searching for whitespace

  /** The characters dash treats as separators: " \t\n". */
  predicate IsWhite(c: char) { c == ' ' || c == '\t' || c == '\n' }

  /** find_first_of(" \t\n", from), with -1 for npos; a start of -1 (npos passed on as a
      position) finds nothing. */
  function FindWhite(s: string, from: int): (j: int)
    ensures from < 0 ==> j == -1
    ensures j == -1 || (0 <= from <= j < |s| && IsWhite(s[j]))
    ensures j == -1 && from >= 0 ==> forall k :: from <= k < |s| ==> !IsWhite(s[k])
    ensures j != -1 ==> forall k :: from <= k < j ==> !IsWhite(s[k])
    decreases |s| - from
  {
    if from < 0 || from >= |s| then -1
    else if IsWhite(s[from]) then from
    else FindWhite(s, from + 1)
  }

  /** find_first_not_of(" \t\n", from), with -1 for npos. */
  function FindNonWhite(s: string, from: int): (j: int)
    ensures from < 0 ==> j == -1
    ensures j == -1 || (0 <= from <= j < |s| && !IsWhite(s[j]))
    ensures j == -1 && from >= 0 ==> forall k :: from <= k < |s| ==> IsWhite(s[k])
    ensures j != -1 ==> forall k :: from <= k < j ==> IsWhite(s[k])
    decreases |s| - from
  {
    if from < 0 || from >= |s| then -1
    else if !IsWhite(s[from]) then from
    else FindNonWhite(s, from + 1)
  }

  predicate AllWhite(s: string) {
    forall k :: 0 <= k < |s| ==> IsWhite(s[k])
  }

  predicate NoWhite(s: string) {
    forall k :: 0 <= k < |s| ==> !IsWhite(s[k])
  }

  // ---------------------------------------------------------------- parse_first_arg

  /** parse_first_arg: the word after the first separator, found from the first separator
      on; "" (after the usage line) when there is no separator or only separators follow it. */
  function ParseFirstArg(command: string): (arg: string)
    ensures NoWhite(command) ==> arg == ""
    ensures NoWhite(arg)
  {
    var first := FindWhite(command, 0);
    if first == -1 then ""
    else
      var start := FindNonWhite(command, first);
      var second := FindWhite(command, start);
      if start == second then ""
      else if second == -1 then command[start..]
      else command[start..second]
  }

  /** A name, a run of separators, a word, and then the end or a separator: the argument is
      that word. */
  lemma ParseFirstArgIsSecondWord(name: string, gap: string, word: string, tail: string)
    requires NoWhite(name) && |gap| > 0 && AllWhite(gap)
    requires |word| > 0 && NoWhite(word)
    requires tail == [] || IsWhite(tail[0])
    ensures ParseFirstArg(name + gap + word + tail) == word
  {
    var c := name + gap + word + tail;
    var n := |name|;
    var w := n + |gap|;
    assert c[n] == gap[0];
    assert FindWhite(c, 0) == n by {
      assert forall k :: 0 <= k < n ==> c[k] == name[k];
    }
    assert FindNonWhite(c, n) == w by {
      assert forall k :: n <= k < w ==> c[k] == gap[k - n];
      assert c[w] == word[0];
    }
    assert forall k :: w <= k < w + |word| ==> c[k] == word[k - w];
    if tail == [] {
      assert FindWhite(c, w) == -1;
      assert c[w..] == word;
    } else {
      assert c[w + |word|] == tail[0];
      assert FindWhite(c, w) == w + |word|;
      assert c[w..w + |word|] == word;
    }
  }

  /** A name followed only by separators has no argument. */
  lemma ParseFirstArgOnlySeparators(name: string, gap: string)
    requires NoWhite(name) && |gap| > 0 && AllWhite(gap)
    ensures ParseFirstArg(name + gap) == ""
  {
    var c := name + gap;
    var n := |name|;
    assert c[n] == gap[0];
    assert FindWhite(c, 0) == n by {
      assert forall k :: 0 <= k < n ==> c[k] == name[k];
    }
    assert forall k :: n <= k < |c| ==> c[k] == gap[k - n];
    assert FindNonWhite(c, n) == -1;
  }

  // ---------------------------------------------------------------- cmdnm's pid check

  /** What isspace accepts in the C locale. */
  predicate IsCSpace(c: char) {
    c == ' ' || c == '\t' || c == '\n' || c == '\r' || c == '\U{B}' || c == '\U{C}'
  }

  /** The number of leading characters satisfying isspace. */
  function SpacePrefix(s: string): (n: nat)
    ensures n <= |s|
    ensures forall k :: 0 <= k < n ==> IsCSpace(s[k])
    ensures n < |s| ==> !IsCSpace(s[n])
  {
    if s == [] || !IsCSpace(s[0]) then 0 else 1 + SpacePrefix(s[1..])
  }

  /** The number of leading decimal digits. */
  function DigitPrefix(s: string): (n: nat)
    ensures n <= |s|
    ensures AllDigits(s[..n])
    ensures n < |s| ==> !IsDigit(s[n])
  {
    if s == [] || !IsDigit(s[0]) then 0
    else
      var n := 1 + DigitPrefix(s[1..]);
      assert forall k :: 1 <= k < n ==> s[..n][k] == s[1..][..n - 1][k - 1];
      n
  }

  /** strtol's range on an LP64 Linux system: a long is 64 bits. */
  const LongMin: int := -0x8000_0000_0000_0000
  const LongMax: int := 0x7FFF_FFFF_FFFF_FFFF

  /** strtol's overflow rule: a value past either end of a long gives that end. */
  function ClampLong(x: int): (r: int)
    ensures LongMin <= r <= LongMax
    ensures LongMin <= x <= LongMax ==> r == x
    ensures x > LongMax ==> r == LongMax
    ensures x < LongMin ==> r == LongMin
  {
    if x < LongMin then LongMin else if x > LongMax then LongMax else x
  }

  /** The cast of a long to a 32-bit int: the low 32 bits, read in two's complement. */
  function ToInt32(x: int): (r: int)
    ensures -0x8000_0000 <= r < 0x8000_0000
    ensures (x - r) % 0x1_0000_0000 == 0
    ensures -0x8000_0000 <= x < 0x8000_0000 ==> r == x
  {
    (x + 0x8000_0000) % 0x1_0000_0000 - 0x8000_0000
  }

  /** glibc's atoi, which is (int) strtol(s, NULL, 10): leading white space, an optional
      sign, then the digits up to the first other character; strtol clamps the value to a
      long and the cast keeps its low 32 bits. */
  function Atoi(s: string): (r: int)
    ensures -0x8000_0000 <= r < 0x8000_0000
  {
    var t := s[SpacePrefix(s)..];
    var u := if |t| > 0 && (t[0] == '-' || t[0] == '+') then t[1..] else t;
    var v := DigitsValue(u[..DigitPrefix(u)]);
    ToInt32(ClampLong(if |t| > 0 && t[0] == '-' then -(v as int) else v))
  }

  /** On a string of digits atoi is the value of the digits when that fits an int, and it
      is 0 exactly when the value fits a long and is a multiple of 2^32; a value past
      LONG_MAX gives strtol's LONG_MAX, whose low 32 bits read as -1. */
  lemma AtoiOfDigits(s: string)
    requires AllDigits(s)
    ensures DigitsValue(s) < 0x8000_0000 ==> Atoi(s) == DigitsValue(s)
    ensures DigitsValue(s) > LongMax ==> Atoi(s) == -1
    ensures Atoi(s) == 0 <==> DigitsValue(s) <= LongMax && DigitsValue(s) % 0x1_0000_0000 == 0
  {
    if s != [] {
      assert !IsCSpace(s[0]);
    }
    assert s[SpacePrefix(s)..] == s;
    assert s[..DigitPrefix(s)] == s;
    var v := DigitsValue(s);
    if v <= LongMax {
      assert Atoi(s) == ToInt32(v);
      Int32ZeroMeaning(v);
    }
  }

  /** The cast of a long gives 0 exactly on the multiples of 2^32. */
  lemma Int32ZeroMeaning(x: int)
    ensures ToInt32(x) == 0 <==> x % 0x1_0000_0000 == 0
  {
  }

  /** How cmdnm treats its argument. */
  datatype PidCheck = NotAnInteger | NoArgument | Accepted

  /** cmdnm's test: complain when atoi gives 0 for a non-empty argument or when a character
      is not a digit; return quietly on an empty argument; otherwise go on. */
  function CheckPid(arg: string): PidCheck {
    if (Atoi(arg) == 0 && |arg| != 0) || !AllDigits(arg) then NotAnInteger
    else if |arg| == 0 then NoArgument
    else Accepted
  }

  /** An argument is accepted exactly when it is a non-empty run of digits on which atoi
      is not 0: so "0" and "000" are refused as well as anything with another character,
      and so is a run of digits whose value fits a long and is a multiple of 2^32. */
  lemma CheckPidMeaning(arg: string)
    ensures CheckPid(arg) == Accepted <==>
      |arg| > 0 && AllDigits(arg) &&
      !(DigitsValue(arg) <= LongMax && DigitsValue(arg) % 0x1_0000_0000 == 0)
    ensures CheckPid(arg) == NoArgument <==> arg == ""
    ensures CheckPid(arg) == NotAnInteger <==>
      arg != "" && (!AllDigits(arg) || (DigitsValue(arg) <= LongMax && DigitsValue(arg) % 0x1_0000_0000 == 0))
  {
    if AllDigits(arg) {
      AtoiOfDigits(arg);
    }
  }

  /** For a pid that fits an int, which is every pid Linux hands out, the test accepts
      exactly the non-empty digit strings of positive value. */
  lemma CheckPidOfIntRange(arg: string)
    requires AllDigits(arg) && DigitsValue(arg) < 0x8000_0000
    ensures CheckPid(arg) == Accepted <==> |arg| > 0 && DigitsValue(arg) > 0
  {
    AtoiOfDigits(arg);
  }

  /** The digits of 2^32. */
  lemma DigitsOf2To32()
    ensures AllDigits("4294967296") && DigitsValue("4294967296") == 0x1_0000_0000
  {
    var s1 := "4";
    assert DigitsValue(s1) == 4;
    DigitsSnoc(s1, '2', 4);
    var s2 := s1 + ['2'];
    DigitsSnoc(s2, '9', 42);
    var s3 := s2 + ['9'];
    DigitsSnoc(s3, '4', 429);
    var s4 := s3 + ['4'];
    DigitsSnoc(s4, '9', 4294);
    var s5 := s4 + ['9'];
    DigitsSnoc(s5, '6', 42949);
    var s6 := s5 + ['6'];
    DigitsSnoc(s6, '7', 429496);
    var s7 := s6 + ['7'];
    DigitsSnoc(s7, '2', 4294967);
    var s8 := s7 + ['2'];
    DigitsSnoc(s8, '9', 42949672);
    var s9 := s8 + ['9'];
    DigitsSnoc(s9, '6', 429496729);
    assert s9 + ['6'] == "4294967296";
  }

  /** One more digit on the right multiplies the value so far by ten and adds the digit. */
  lemma DigitsSnoc(s: string, c: char, v: nat)
    requires AllDigits(s) && DigitsValue(s) == v && IsDigit(c)
    ensures AllDigits(s + [c]) && DigitsValue(s + [c]) == 10 * v + DigitValue(c)
  {
    assert (s + [c])[..|s|] == s;
  }

  /** "cmdnm 4294967296" names 2^32, on which atoi gives 0, so cmdnm refuses it as not an
      integer although it is a run of digits. */
  lemma CmdnmWrappedRefused()
    ensures CheckPid(ParseFirstArg("cmdnm 4294967296")) == NotAnInteger
  {
    assert "cmdnm 4294967296" == "cmdnm" + " " + "4294967296" + "";
    ParseFirstArgIsSecondWord("cmdnm", " ", "4294967296", "");
    DigitsOf2To32();
    CheckPidMeaning("4294967296");
  }

  /** "cmdnm 0" names pid 0, which cmdnm refuses as not an integer. */
  lemma CmdnmZeroRefused()
    ensures CheckPid(ParseFirstArg("cmdnm 0")) == NotAnInteger
  {
    assert "cmdnm 0" == "cmdnm" + " " + "0" + "";
    ParseFirstArgIsSecondWord("cmdnm", " ", "0", "");
    CheckPidMeaning("0");
  }

  /** "cmdnm 12x" has a stray letter, which cmdnm refuses. */
  lemma CmdnmLetterRefused()
    ensures CheckPid(ParseFirstArg("cmdnm 12x")) == NotAnInteger
  {
    assert "cmdnm 12x" == "cmdnm" + " " + "12x" + "";
    ParseFirstArgIsSecondWord("cmdnm", " ", "12x", "");
    assert !IsDigit("12x"[2]);
    CheckPidMeaning("12x");
  }

  /** "cmdnm" alone has no argument, and cmdnm returns quietly. */
  lemma CmdnmWithoutArgument()
    ensures CheckPid(ParseFirstArg("cmdnm")) == NoArgument
  {
    assert NoWhite("cmdnm");
  }

  /** cmdnm's loop over the line read from /proc/<pid>/cmdline: every NUL becomes a space. */
  method NulsToSpaces(progName: array<char>)
    modifies progName
    ensures progName[..] == RewriteNuls(old(progName[..]), progName.Length)
  {
    ghost var b := progName[..];
    var j := 0;
    while j < progName.Length
      invariant 0 <= j <= progName.Length
      invariant forall k :: 0 <= k < progName.Length ==>
                  progName[k] == (if k < j && b[k] == '\0' then ' ' else b[k])
    {
      if progName[j] == '\0' {
        progName[j] := ' ';
      }
      j := j + 1;
    }
    assert forall k :: 0 <= k < progName.Length ==>
      progName[..][k] == RewriteNuls(b, progName.Length)[k];
  }

  // ---------------------------------------------------------------- recognising lines

  /** std::string::substr(0, n). */
  function Prefix(s: string, n: nat): (p: string)
    ensures |p| <= n && |p| <= |s| && p == s[..|p|]
    ensures |s| >= n ==> |p| == n
  {
    if |s| <= n then s else s[..n]
  }

  /** command[n], where the position just past the end reads as the terminator. */
  function CharAt(s: string, n: nat): char {
    if n < |s| then s[n] else '\0'
  }

  /** The exit test shared by print_usage_if_needed and the main loop. */
  predicate IsExitStmt(command: string) {
    Prefix(command, 5) == "exit " || Prefix(command, 5) == "exit\t" ||
    (Prefix(command, 4) == "exit" && |command| == 4)
  }

  /** The exit test says: the line is "exit", or "exit" followed by a space or a tab. */
  lemma IsExitStmtMeaning(command: string)
    ensures IsExitStmt(command) <==>
      command == "exit" ||
      (|command| >= 5 && command[..4] == "exit" && (command[4] == ' ' || command[4] == '\t'))
  {
    if |command| >= 5 && command[..4] == "exit" {
      assert Prefix(command, 5) == command[..4] + [command[4]];
    }
    if |command| >= 5 && Prefix(command, 5) == "exit " {
      assert command[..4] == Prefix(command, 5)[..4];
    }
    if |command| >= 5 && Prefix(command, 5) == "exit\t" {
      assert command[..4] == Prefix(command, 5)[..4];
    }
  }

  /** The builtins the main loop knows, by the name it looks for. */
  datatype Builtin = Cmdnm | PidCmd | Systat

  function Name(b: Builtin): string {
    match b
    case Cmdnm => "cmdnm"
    case PidCmd => "pid"
    case Systat => "systat"
  }

  /** The line starts with `name`, and a space or a tab comes next or the line ends there. */
  predicate StartsWithWord(command: string, name: string) {
    Prefix(command, |name|) == name &&
    (CharAt(command, |name|) == ' ' || CharAt(command, |name|) == '\t' || |command| == |name|)
  }

  /** The main loop's else-if chain on the (trimmed) line: the first name whose prefix
      matches decides, and a prefix without a separator after it runs nothing. */
  function Dispatch(command: string): Option<Builtin> {
    if Prefix(command, 5) == "cmdnm" then
      (if CharAt(command, 5) == ' ' || CharAt(command, 5) == '\t' || |command| == 5 then Some(Cmdnm) else None)
    else if Prefix(command, 3) == "pid" then
      (if CharAt(command, 3) == ' ' || CharAt(command, 3) == '\t' || |command| == 3 then Some(PidCmd) else None)
    else if Prefix(command, 6) == "systat" then
      (if CharAt(command, 6) == ' ' || CharAt(command, 6) == '\t' || |command| == 6 then Some(Systat) else None)
    else None
  }

  /** A builtin runs exactly when the line starts with its name as a whole word. */
  lemma DispatchMeaning(command: string, b: Builtin)
    ensures Dispatch(command) == Some(b) <==> StartsWithWord(command, Name(b))
  {
    var c5, c3, c6 := Prefix(command, 5), Prefix(command, 3), Prefix(command, 6);
    // the three names differ in their first letter
    assert c5 == "cmdnm" ==> command[0] == c5[0] == 'c';
    assert c3 == "pid" ==> command[0] == c3[0] == 'p';
    assert c6 == "systat" ==> command[0] == c6[0] == 's';
  }

  /** "cmdnm 42" runs cmdnm; "cmdnmx" runs nothing, and nothing else is tried. */
  lemma DispatchExamples()
    ensures Dispatch("cmdnm 42") == Some(Cmdnm)
    ensures Dispatch("cmdnmx") == None
  {
    assert Prefix("cmdnm 42", 5) == "cmdnm";
    assert Prefix("cmdnmx", 5) == "cmdnm";
  }

  /** The line without its leading separators, when it holds something else. */
  function Trim(s: string): (t: string)
    ensures AllWhite(s) ==> t == s
    ensures !AllWhite(s) ==>
      (|t| > 0 && !IsWhite(t[0]) && exists n :: 0 <= n < |s| && s[n..] == t && AllWhite(s[..n]))
  {
    var first := FindNonWhite(s, 0);
    if first == -1 then s
    else
      assert s[first..][0] == s[first];
      s[first..]
  }

  predicate IsBlank(command: string) {
    |command| == 0 || FindNonWhite(command, 0) == -1
  }

  /** print_usage_if_needed: usage is shown only for a line that is not blank, is not an
      exit statement, and ran no builtin. */
  method PrintUsageIfNeeded(invalid: bool, command: string) returns (printed: bool)
    ensures printed <==> !AllWhite(command) && !IsExitStmt(command) && invalid
  {
    var blankLine := false;
    var exitStmt := false;
    var stillInvalid := invalid;
    if |command| == 0 || FindNonWhite(command, 0) == -1 {
      blankLine := true;
      stillInvalid := false;
    }
    if IsExitStmt(command) {
      exitStmt := true;
      stillInvalid := false;
    }
    printed := !blankLine && !exitStmt && stillInvalid;
  }

  // ---------------------------------------------------------------- the main loop

  /** One read of getline: a whole line, or end of input after `tail` (usually nothing). */
  datatype Event = Line(text: string) | Eof(tail: string)

  /** What one pass does: at end of input nothing but keeping the text read; otherwise the
      trimmed command, the builtin it runs and whether usage is shown. */
  datatype Pass = EndOfInput(command: string) | Ran(command: string, builtin: Option<Builtin>, usage: bool)

  /** The command the loop test sees after a pass. */
  function CommandOf(e: Event): string {
    match e
    case Line(s) => Trim(s)
    case Eof(t) => t
  }

  function PassOf(e: Event): Pass {
    match e
    case Eof(t) => EndOfInput(t)
    case Line(s) =>
      var c := Trim(s);
      var b := Dispatch(c);
      Ran(c, b, b.None? && !AllWhite(c) && !IsExitStmt(c))
  }

  function PassesOf(events: seq<Event>): (ps: seq<Pass>)
    ensures |ps| == |events|
  {
    if events == [] then [] else PassesOf(events[..|events| - 1]) + [PassOf(events[|events| - 1])]
  }

  /** The first event after which the loop test sees an exit statement, or |events|. */
  function FirstExit(events: seq<Event>): (n: nat)
    ensures n <= |events|
    ensures n < |events| ==> IsExitStmt(CommandOf(events[n]))
    ensures forall k :: 0 <= k < n ==> !IsExitStmt(CommandOf(events[k]))
  {
    if events == [] then 0
    else if IsExitStmt(CommandOf(events[0])) then 0
    else 1 + FirstExit(events[1..])
  }

  lemma {:induction false} FirstExitAt(events: seq<Event>, n: nat)
    requires n < |events| && IsExitStmt(CommandOf(events[n]))
    requires forall k :: 0 <= k < n ==> !IsExitStmt(CommandOf(events[k]))
    ensures FirstExit(events) == n
  {
    if n > 0 {
      FirstExitAt(events[1..], n - 1);
    }
  }

  /** The body of one pass over a line that was read: trim the leading separators, try
      the builtins in turn, and decide on the usage message. */
  method RunPass(text: string) returns (command: string, builtin: Option<Builtin>, usage: bool)
    ensures command == CommandOf(Line(text))
    ensures Ran(command, builtin, usage) == PassOf(Line(text))
  {
    // main sets invalid before each pass and resets it after one
    var invalid := true;
    command := text;
    var firstChar := FindNonWhite(command, 0);
    if firstChar != -1 {
      command := command[firstChar..];
    }
    assert command == Trim(text);
    builtin := None;
    if Prefix(command, 5) == "cmdnm" {
      if CharAt(command, 5) == ' ' || CharAt(command, 5) == '\t' || |command| == 5 {
        builtin := Some(Cmdnm);
        invalid := false;
      }
    } else if Prefix(command, 3) == "pid" {
      if CharAt(command, 3) == ' ' || CharAt(command, 3) == '\t' || |command| == 3 {
        builtin := Some(PidCmd);
        invalid := false;
      }
    } else if Prefix(command, 6) == "systat" {
      if CharAt(command, 6) == ' ' || CharAt(command, 6) == '\t' || |command| == 6 {
        builtin := Some(Systat);
        invalid := false;
      }
    }
    assert builtin == Dispatch(command) && (invalid <==> builtin.None?);
    usage := PrintUsageIfNeeded(invalid, command);
  }

  /** dash's main loop over the reads `events`: each line is trimmed and dispatched; end of
      input keeps what was read and goes round again; the loop ends after the first pass
      whose command is an exit statement. */
  method DashMain(events: seq<Event>) returns (passes: seq<Pass>, exited: bool)
    ensures exited <==> exists k :: 0 <= k < |events| && IsExitStmt(CommandOf(events[k]))
    ensures |passes| == (if exited then FirstExit(events) + 1 else |events|)
    ensures passes == PassesOf(events[..|passes|])
  {
    var command := "";
    var i := 0;
    passes := [];
    while !IsExitStmt(command) && i < |events|
      invariant 0 <= i <= |events|
      invariant passes == PassesOf(events[..i])
      invariant i == 0 ==> command == ""
      invariant i > 0 ==> command == CommandOf(events[i - 1])
      invariant forall k :: 0 <= k < i - 1 ==> !IsExitStmt(CommandOf(events[k]))
    {
      var e := events[i];
      assert events[..i + 1][..i] == events[..i];
      i := i + 1;
      if e.Eof? {
        command := e.tail;
        passes := passes + [EndOfInput(command)];
        continue;
      }
      var builtin, usage;
      command, builtin, usage := RunPass(e.text);
      passes := passes + [Ran(command, builtin, usage)];
    }
    exited := IsExitStmt(command);
    if exited {
      FirstExitAt(events, i - 1);
    }
  }

  /** "  exit now" is trimmed to an exit statement: the loop ends after it, and it shows
      no usage. */
  lemma ExitWithArgumentEnds()
    ensures CommandOf(Line("  exit now")) == "exit now"
    ensures IsExitStmt("exit now")
    ensures PassOf(Line("  exit now")) == Ran("exit now", None, false)
  {
    var c := "exit now";
    assert FindNonWhite("  exit now", 0) == 2;
    assert "  exit now"[2..] == c;
    assert Trim("  exit now") == c;
    assert Prefix(c, 5) == "exit ";
    assert Prefix(c, 3) == "exi" && Prefix(c, 6) == "exit n";
    assert Dispatch(c) == None;
  }

  /** "exitnow" is not an exit statement: the loop goes on and usage is shown. */
  lemma ExitJoinedIsUnknown()
    ensures !IsExitStmt(CommandOf(Line("exitnow")))
    ensures PassOf(Line("exitnow")) == Ran("exitnow", None, true)
  {
    assert FindNonWhite("exitnow", 0) == 0;
    assert Trim("exitnow") == "exitnow";
    assert Prefix("exitnow", 3) == "exi" && Prefix("exitnow", 6) == "exitno";
    assert Prefix("exitnow", 5) == "exitn" && Prefix("exitnow", 4) == "exit";
    assert Dispatch("exitnow") == None;
    assert !IsWhite("exitnow"[0]);
  }
}
