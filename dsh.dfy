/** dsh's command dispatch (handleCommand) and its read-tokenise-dispatch main loop. */
module Dsh {
  import opened Text
  import opened HelperFunctions
  import opened ArgScan
  import opened Lifecycle

  /** The names handleCommand compares argv[0] against, in the order it tries them. */
  const Builtins: seq<string> :=
    ["cmdnm", "signal", "systat", "pid", "dserv", "dclient", "cd",
     "mboxinit", "mboxdel", "mboxread", "mboxwrite", "mboxcopy"]

  /** What handleCommand does with a command: nothing, one of the three kinds of
      redirection, a builtin (by name), or an external program through execCmd. */
  datatype Command = NoOp | Pipe | Redirect | RemotePipe | Builtin(name: string) | Exec

  /** The requirement the scanners put on handleCommand's caller: once argv[0] is a string,
      so is every entry before argc. */
  predicate WellFormed(argc: int, argv: seq<Arg>) {
    argc <= |argv| &&
    (argc >= 1 && argv[0].Str? ==> forall k :: 0 <= k < argc ==> argv[k].Str?)
  }

  /** handleCommand's decision chain. */
  function HandleCommand(argc: int, argv: seq<Arg>): Command
    requires WellFormed(argc, argv)
  {
    if argc < 1 then NoOp
    else if argv[0].Null? then NoOp
    else
      var toks := Tokens(argv, argc);
      if ScanResult(toks, PipeTokens) != 0 then Pipe
      else if ScanResult(toks, RedirectTokens) != 0 then Redirect
      else if ScanResult(toks, RemotePipeTokens) != 0 then RemotePipe
      else if argv[0].s in Builtins then Builtin(argv[0].s)
      else if argv[0].s == "exit" then NoOp
      else if |argv[0].s| > 0 then Exec
      else NoOp
  }

  /** The order handleCommand tries things in: nothing without a first word; then a pipe,
      a redirect, a remote pipe; then a builtin by exact name; "exit" and "" do nothing and
      every other name goes to execCmd. */
  lemma HandleCommandOrder(argc: int, argv: seq<Arg>)
    requires WellFormed(argc, argv)
    ensures argc < 1 || argv[0].Null? ==> HandleCommand(argc, argv) == NoOp
    ensures argc >= 1 && argv[0].Str? ==>
      var c := HandleCommand(argc, argv);
      var toks := Tokens(argv, argc);
      var pipe := ScanResult(toks, PipeTokens);
      var red := ScanResult(toks, RedirectTokens);
      var remote := ScanResult(toks, RemotePipeTokens);
      var name := argv[0].s;
      (c == Pipe <==> pipe != 0) &&
      (c == Redirect <==> pipe == 0 && red != 0) &&
      (c == RemotePipe <==> pipe == 0 && red == 0 && remote != 0) &&
      (c.Builtin? <==> pipe == 0 && red == 0 && remote == 0 && name in Builtins) &&
      (c.Builtin? ==> c.name == name) &&
      (c == Exec <==> pipe == 0 && red == 0 && remote == 0 && name !in Builtins &&
                      name != "exit" && name != "") &&
      (c == NoOp <==> pipe == 0 && red == 0 && remote == 0 && (name == "exit" || name == ""))
  {
  }

  /** What one input line leads to: getArgs, then handleCommand on its words. */
  function LineCommand(line: string): Command {
    var ws := Split(line);
    HandleCommand(|ws|, ArgVector(ws))
  }

  /** One pass of the main loop: getArgs, then handleCommand on the vector it returns. */
  method RunLine(input: CStr) returns (cmd: Command)
    ensures cmd == LineCommand(input)
  {
    var args, words := GetArgs(Some(input));
    cmd := HandleCommand(words, args.value);
  }

  /** The commands of a run of lines, one per line, in order. */
  function LineCommands(lines: seq<string>): (cs: seq<Command>)
    ensures |cs| == |lines|
  {
    if lines == [] then [] else LineCommands(lines[..|lines| - 1]) + [LineCommand(lines[|lines| - 1])]
  }

  /** Entry k of LineCommands is the command of line k. */
  lemma LineCommandsAt(lines: seq<string>)
    ensures forall k :: 0 <= k < |lines| ==> LineCommands(lines)[k] == LineCommand(lines[k])
  {
    forall k | 0 <= k < |lines|
      ensures LineCommands(lines)[k] == LineCommand(lines[k])
    {
      LineCommandsIndex(lines, k);
    }
  }

  lemma {:induction false} LineCommandsIndex(lines: seq<string>, k: nat)
    requires k < |lines|
    ensures LineCommands(lines)[k] == LineCommand(lines[k])
    decreases |lines|
  {
    if k < |lines| - 1 {
      var init := lines[..|lines| - 1];
      LineCommandsIndex(init, k);
      assert init[k] == lines[k];
    }
  }

  /** What the system answers while one line runs: shmemServer's calls, and whether
      pthread_create starts its thread. Only mboxinit asks. */
  datatype Answer = Answer(env: Env, threadOk: bool)

  /** What one line does to the marker file and the segment: handleCommand hands mboxinit
      to startSharedMemory with the line's words and mboxdel to stopSharedMemory; no other
      command touches either, and each of the two keeps them in step. */
  function LineHost(h: Host, line: string, a: Answer): (r: Host)
    ensures Consistent(h) ==> Consistent(r)
    ensures LineCommand(line) != Builtin("mboxinit") && LineCommand(line) != Builtin("mboxdel") ==> r == h
  {
    var c := LineCommand(line);
    var r := if c == Builtin("mboxinit") then StartSharedMemory(h, Split(line), a.env, a.threadOk).host
             else if c == Builtin("mboxdel") then StopSharedMemory(h).host
             else h;
    assert Consistent(h) ==> Consistent(r) by {
      if Consistent(h) {
        ConsistentPreserved(h, 0, 0, Split(line), a.env, a.threadOk, 0);
      }
    }
    r
  }

  /** The marker file and the segment after a run of lines, line k running with answer(k). */
  function HostAfter(lines: seq<string>, answer: nat -> Answer, h: Host): (r: Host)
    ensures Consistent(h) ==> Consistent(r)
  {
    if lines == [] then h
    else LineHost(HostAfter(lines[..|lines| - 1], answer, h), lines[|lines| - 1], answer(|lines| - 1))
  }

  /** Lines that are neither mboxinit nor mboxdel leave the marker file and the segment as
      they were. */
  lemma {:induction false} HostAfterUntouched(lines: seq<string>, answer: nat -> Answer, h: Host)
    requires forall k :: 0 <= k < |lines| ==>
      LineCommand(lines[k]) != Builtin("mboxinit") && LineCommand(lines[k]) != Builtin("mboxdel")
    ensures HostAfter(lines, answer, h) == h
  {
    if lines != [] {
      var init := lines[..|lines| - 1];
      assert forall k :: 0 <= k < |init| ==> init[k] == lines[k];
      HostAfterUntouched(init, answer, h);
    }
  }

  /** dsh's main loop over the lines `lines` yields, line k running with answer(k): each
      pass tokenises the line and dispatches it, the loop stops after the line that is
      exactly "exit", and onExit then runs once, on the host the lines left, removing the
      segment when this shell (pid) made it. A run of lines without "exit" gives the host
      the lines left, with no onExit; what getInput does once input runs out is not part of
      this model. */
  method DshMain(lines: seq<CStr>, answer: nat -> Answer, host: Host, pid: int)
      returns (cmds: seq<Command>, exited: bool, final: Host)
    ensures exited <==> "exit" in lines
    ensures |cmds| == (if exited then FirstIndex(lines, {"exit"}) + 1 else |lines|)
    ensures forall k :: 0 <= k < |cmds| ==> cmds[k] == LineCommand(lines[k])
    ensures exited ==> final == OnExit(HostAfter(lines[..|cmds|], answer, host), pid)
    ensures !exited ==> final == HostAfter(lines, answer, host)
    ensures Consistent(host) ==> Consistent(final)
  {
    cmds := [];
    var h := host;
    var i := 0;
    var done := false;
    // the source's do-while, on an input that may run out
    while i < |lines| && !done
      invariant 0 <= i <= |lines|
      invariant cmds == LineCommands(lines[..i])
      invariant h == HostAfter(lines[..i], answer, host)
      invariant done ==> i > 0 && lines[i - 1] == "exit"
      invariant done ==> NoExitBefore(lines, i - 1)
      invariant !done ==> NoExitBefore(lines, i)
    {
      var cmd;
      cmd, h := RunLineOn(lines, i, answer, host, h);
      cmds := cmds + [cmd];
      done := lines[i] == "exit";
      i := i + 1;
    }
    exited := done;
    if exited {
      NoExitFirst(lines, i - 1);
      final := OnExit(h, pid);
      if Consistent(host) {
        ConsistentPreserved(h, 0, 0, [], answer(0).env, false, pid);
      }
    } else {
      NoExitAbsent(lines);
      assert lines[..i] == lines;
      final := h;
    }
    LineCommandsAt(lines[..i]);
  }

  /** No line before n is exactly "exit". */
  predicate NoExitBefore(lines: seq<string>, n: nat)
    requires n <= |lines|
  {
    n == 0 || (NoExitBefore(lines, n - 1) && lines[n - 1] != "exit")
  }

  /** What NoExitBefore says, line by line. */
  lemma {:induction false} NoExitBeforeAt(lines: seq<string>, n: nat)
    requires n <= |lines| && NoExitBefore(lines, n)
    ensures forall k :: 0 <= k < n ==> lines[k] != "exit"
  {
    if n > 0 {
      NoExitBeforeAt(lines, n - 1);
    }
  }

  /** The first "exit" is at n when it is at n and nowhere before. */
  lemma NoExitFirst(lines: seq<string>, n: nat)
    requires n < |lines| && lines[n] == "exit" && NoExitBefore(lines, n)
    ensures "exit" in lines && FirstIndex(lines, {"exit"}) == n
  {
    NoExitBeforeAt(lines, n);
    FirstIndexAt(lines, {"exit"}, n);
  }

  /** With no "exit" anywhere, "exit" is not in the lines. */
  lemma NoExitAbsent(lines: seq<string>)
    requires NoExitBefore(lines, |lines|)
    ensures "exit" !in lines
  {
    NoExitBeforeAt(lines, |lines|);
  }

  /** Pass i of the main loop: the command of line i, and the host once it has run. */
  method RunLineOn(lines: seq<CStr>, i: nat, answer: nat -> Answer, host: Host, h: Host)
      returns (cmd: Command, h': Host)
    requires i < |lines| && h == HostAfter(lines[..i], answer, host)
    ensures LineCommands(lines[..i + 1]) == LineCommands(lines[..i]) + [cmd]
    ensures h' == HostAfter(lines[..i + 1], answer, host)
  {
    cmd := RunLine(lines[i]);
    LoopStep(lines, answer, host, i);
    h' := LineHost(h, lines[i], answer(i));
  }

  /** What one more line adds to the commands and the host. */
  lemma LoopStep(lines: seq<string>, answer: nat -> Answer, host: Host, i: nat)
    requires i < |lines|
    ensures LineCommands(lines[..i + 1]) == LineCommands(lines[..i]) + [LineCommand(lines[i])]
    ensures HostAfter(lines[..i + 1], answer, host) == LineHost(HostAfter(lines[..i], answer, host), lines[i], answer(i))
  {
    assert lines[..i + 1][..i] == lines[..i];
  }

  /** "mboxinit 2 1" is the mboxinit builtin on its three words. */
  lemma MboxinitLine()
    ensures Split("mboxinit 2 1") == ["mboxinit", "2", "1"]
    ensures LineCommand("mboxinit 2 1") == Builtin("mboxinit")
  {
    var ws := ["mboxinit", "2", "1"];
    SplitMboxinit();
    WordsCommand("mboxinit 2 1", ws);
  }

  lemma SplitMboxinit()
    ensures Split("mboxinit 2 1") == ["mboxinit", "2", "1"]
  {
    var ws := ["mboxinit", "2", "1"];
    assert Join(ws) == "mboxinit 2 1";
    SplitJoin(ws);
  }

  /** On a host with neither file nor segment, "mboxinit 2 1" makes the segment, when the
      thread starts, the file opens and shmget grants, and names the caller as its owner. */
  lemma MboxinitCreates(a: Answer)
    requires a.threadOk && a.env.openOk && a.env.shmgetGrants
    ensures LineHost(Host(NoFile, None), "mboxinit 2 1", a) ==
      Host(Written(a.env.pid, a.env.newId), Some(a.env.newId))
  {
    MboxinitLine();
    StrToIntRoundTrip(2);
    StrToIntRoundTrip(1);
    assert SignedDecimal(2) == "2" && SignedDecimal(1) == "1";
  }

  /** A shell that makes the segment with "mboxinit 2 1" and then reads "exit" removes the
      segment and the marker file on the way out, as the process that made them, whenever
      the thread starts, the file opens and shmget grants an id above 0. */
  lemma InitThenExitCleansUp(answer: nat -> Answer, pid: int)
    requires answer(0).threadOk && answer(0).env.openOk && answer(0).env.shmgetGrants
    requires answer(0).env.pid == pid && answer(0).env.newId > 0
    ensures var lines := ["mboxinit 2 1", "exit"];
      OnExit(HostAfter(lines, answer, Host(NoFile, None)), pid) == Host(NoFile, None)
  {
    var lines := ["mboxinit 2 1", "exit"];
    var h0 := Host(NoFile, None);
    var h1 := Host(Written(pid, answer(0).env.newId), Some(answer(0).env.newId));
    assert lines[..0] == [] && lines[..2] == lines;
    MboxinitCreates(answer(0));
    LoopStep(lines, answer, h0, 0);
    assert HostAfter(lines[..1], answer, h0) == h1;
    ExitLine();
    LoopStep(lines, answer, h0, 1);
  }

  /** The line "exit" is one word, and handleCommand does nothing with it. */
  lemma ExitLine()
    ensures LineCommand("exit") == NoOp
  {
    IndexOfNone("exit", 0, ' ');
    WordsCommand("exit", ["exit"]);
  }

  /** The first index of a target, pinned down by its two defining facts. */
  lemma {:induction false} FirstIndexAt(toks: seq<string>, targets: set<string>, n: nat)
    requires n < |toks| && toks[n] in targets
    requires forall k :: 0 <= k < n ==> toks[k] !in targets
    ensures FirstIndex(toks, targets) == n
  {
    if n > 0 {
      FirstIndexAt(toks[1..], targets, n - 1);
    }
  }

  /** "exit" followed by anything is a no-op in handleCommand, and the loop goes on,
      because only the whole line "exit" ends it. */
  lemma ExitWithArgumentIsIgnored()
    ensures LineCommand("exit now") == NoOp
    ensures "exit now" != "exit"
  {
    var ws := ["exit", "now"];
    assert Split("exit now") == ws by {
      SplitJoin(ws);
      assert Join(ws) == "exit now";
    }
    WordsCommand("exit now", ws);
  }

  /** The command of a line whose words are ws is handleCommand on their vector, and the
      scanners see exactly those words. */
  lemma WordsCommand(line: string, ws: seq<string>)
    requires Split(line) == ws
    ensures LineCommand(line) == HandleCommand(|ws|, ArgVector(ws))
    ensures Tokens(ArgVector(ws), |ws|) == ws
    ensures ArgVector(ws)[0] == Str(ws[0])
  {
    var toks := Tokens(ArgVector(ws), |ws|);
    assert forall k :: 0 <= k < |ws| ==> toks[k] == ws[k];
  }

  /** A pipe symbol at the front is not seen as a pipe: the line goes to execCmd. */
  lemma PipeAtFrontIsExec()
    ensures LineCommand("| wc") == Exec
  {
    var ws := ["|", "wc"];
    assert Split("| wc") == ws by {
      SplitJoin(ws);
      assert Join(ws) == "| wc";
    }
    WordsCommand("| wc", ws);
  }

  /** A pipe anywhere after the first word wins over every builtin name. */
  lemma PipeBeatsBuiltin()
    ensures LineCommand("cd | wc") == Pipe
  {
    var ws := ["cd", "|", "wc"];
    assert Split("cd | wc") == ws by {
      SplitJoin(ws);
      assert Join(ws) == "cd | wc";
    }
    WordsCommand("cd | wc", ws);
  }

  /** An empty line, and a line holding only a space, do nothing. */
  lemma BlankLinesDoNothing()
    ensures LineCommand("") == NoOp
    ensures LineCommand(" ") == NoOp
  {
    assert Split(" ") == ["", ""] by {
      SplitJoin(["", ""]);
      assert Join(["", ""]) == " ";
    }
  }
}
