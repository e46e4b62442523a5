/** The argument-vector scanners of dsh (isPipe, isRedirect, isRemotePipe) and the way
    doPipe and doRedirect split the vector at the token they find. */
module ArgScan {
  import opened Text
  import opened HelperFunctions

  /** The tokens each scanner looks for. */
  const PipeTokens: set<string> := {"|"}
  const RedirectTokens: set<string> := {">", "<"}
  const RemotePipeTokens: set<string> := {"))", "(("}

  /** Index of the first token of `toks` that is one of `targets`, or |toks| when none is. */
  function FirstIndex(toks: seq<string>, targets: set<string>): (n: nat)
    ensures n <= |toks|
    ensures n < |toks| ==> toks[n] in targets
    ensures forall k :: 0 <= k < n ==> toks[k] !in targets
  {
    if toks == [] then 0
    else if toks[0] in targets then 0
    else 1 + FirstIndex(toks[1..], targets)
  }

  /** What a scanner returns: the index of the first match, or 0 when nothing matches,
      so that a match at index 0 and no match give the same answer. */
  function ScanResult(toks: seq<string>, targets: set<string>): (r: nat)
    requires |toks| >= 1
    ensures r < |toks|
    ensures r > 0 <==> 0 < FirstIndex(toks, targets) < |toks|
    ensures r > 0 ==> toks[r] in targets && forall k :: 0 <= k < r ==> toks[k] !in targets
    ensures r == 0 <==> (toks[0] in targets || forall k :: 0 <= k < |toks| ==> toks[k] !in targets)
  {
    var n := FirstIndex(toks, targets);
    if n < |toks| then n else 0
  }

  /** The strings of the first argc entries of a vector whose entries there are all strings. */
  function Tokens(argv: seq<Arg>, argc: nat): (toks: seq<string>)
    requires argc <= |argv|
    requires forall k :: 0 <= k < argc ==> argv[k].Str?
    ensures |toks| == argc
    ensures forall k :: 0 <= k < argc ==> toks[k] == argv[k].s
  {
    seq(argc, k requires 0 <= k < argc => argv[k].s)
  }

  /** The scanning loop shared by the three scanners: pointer i walks argv and stops at the
      first token in `targets`, giving up (with 0) once it has examined argv[argc-1]. */
  method Scan(argc: int, argv: array<Arg>, targets: set<string>) returns (loc: int)
    requires 1 <= argc <= argv.Length
    requires forall k :: 0 <= k < argc ==> argv[k].Str?
    ensures loc == ScanResult(Tokens(argv[..], argc), targets)
  {
    ghost var toks := Tokens(argv[..], argc);
    var i := 0;
    while argv[i].s !in targets
      invariant 0 <= i < argc
      invariant forall k :: 0 <= k < i ==> toks[k] !in targets
      decreases argc - i
    {
      if i == argc - 1 {
        return 0;
      }
      i := i + 1;
    }
    return i;
  }

  /** isPipe: the index of the first "|" among argv[0..argc), or 0. */
  method IsPipe(argc: int, argv: array<Arg>) returns (loc: int)
    requires 1 <= argc <= argv.Length
    requires forall k :: 0 <= k < argc ==> argv[k].Str?
    ensures loc == ScanResult(Tokens(argv[..], argc), PipeTokens)
    ensures 0 <= loc < argc
    ensures forall k :: 0 <= k < loc ==> argv[k].s != "|"
    ensures loc > 0 ==> argv[loc].s == "|"
  {
    loc := Scan(argc, argv, PipeTokens);
  }

  /** isRedirect: the index of the first ">" or "<" among argv[0..argc), or 0. */
  method IsRedirect(argc: int, argv: array<Arg>) returns (loc: int)
    requires 1 <= argc <= argv.Length
    requires forall k :: 0 <= k < argc ==> argv[k].Str?
    ensures loc == ScanResult(Tokens(argv[..], argc), RedirectTokens)
    ensures 0 <= loc < argc
    ensures loc > 0 ==> argv[loc].s == ">" || argv[loc].s == "<"
  {
    loc := Scan(argc, argv, RedirectTokens);
  }

  /** isRemotePipe: the index of the first "))" or "((" among argv[0..argc), or 0. */
  method IsRemotePipe(argc: int, argv: array<Arg>) returns (loc: int)
    requires 1 <= argc <= argv.Length
    requires forall k :: 0 <= k < argc ==> argv[k].Str?
    ensures loc == ScanResult(Tokens(argv[..], argc), RemotePipeTokens)
    ensures 0 <= loc < argc
    ensures loc > 0 ==> argv[loc].s == "))" || argv[loc].s == "(("
  {
    loc := Scan(argc, argv, RemotePipeTokens);
  }

  /** A token at the front hides every later one: the scanner's answer is then 0, exactly
      as when no token matches at all. */
  lemma MatchAtFrontIsAbsent(toks: seq<string>, targets: set<string>)
    requires |toks| >= 1 && toks[0] in targets
    ensures FirstIndex(toks, targets) == 0 && ScanResult(toks, targets) == 0
  {
  }

  /** The two command vectors doPipe hands to exec, and its result. */
  datatype PipeSplit = PipeSplit(left: seq<Arg>, right: seq<Arg>)

  /** doPipe without the processes: refuses (1) with fewer than 3 words or no pipe after
      the first word; otherwise NULLs argv[pLoc] so that argv[0..pLoc] is the left command
      and argv[pLoc+1..] the right one, runs them (their status is `childStatus`) and puts
      the "|" back. */
  method DoPipe(argc: int, argv: array<Arg>, childStatus: int) returns (status: int, split: Option<PipeSplit>)
    requires argc <= argv.Length
    requires argc >= 3 ==> forall k :: 0 <= k < argc ==> argv[k].Str?
    modifies argv
    ensures argv[..] == old(argv[..])
    ensures argc < 3 ==> status == 1 && split.None?
    ensures argc >= 3 ==>
      var p := ScanResult(Tokens(old(argv[..]), argc), PipeTokens);
      (p == 0 ==> status == 1 && split.None?) &&
      (p != 0 ==> status == childStatus &&
                  split == Some(PipeSplit(old(argv[..p]) + [Null], old(argv[p + 1..]))))
  {
    if argc < 3 {
      return 1, None;
    }
    var pLoc := IsPipe(argc, argv);
    if pLoc == 0 {
      return 1, None;
    }
    var pipeCmd := argv[pLoc];
    argv[pLoc] := Null;
    // the left command ends at the NULL just written; the right one starts after it
    split := Some(PipeSplit(argv[..pLoc + 1], argv[pLoc + 1..]));
    assert argv[..pLoc + 1] == old(argv[..pLoc]) + [Null];
    status := childStatus;
    argv[pLoc] := pipeCmd;
  }

  /** Where doRedirect sends the file named after the token. */
  datatype RedirectMode = FromFile | ToFile

  /** doRedirect without the processes: refuses (1) like doPipe, otherwise NULLs argv[pLoc]
      and never puts the token back; "<" reads the file named next, anything else (">")
      writes it. */
  method DoRedirect(argc: int, argv: array<Arg>, childStatus: int)
      returns (status: int, mode: Option<RedirectMode>)
    requires argc <= argv.Length
    requires argc >= 3 ==> forall k :: 0 <= k < argc ==> argv[k].Str?
    modifies argv
    ensures argc < 3 ==> status == 1 && mode.None? && argv[..] == old(argv[..])
    ensures argc >= 3 ==>
      var p := ScanResult(Tokens(old(argv[..]), argc), RedirectTokens);
      (p == 0 ==> status == 1 && mode.None? && argv[..] == old(argv[..])) &&
      (p != 0 ==> status == childStatus && argv[..] == old(argv[..])[p := Null] &&
                  mode == Some(if old(argv[p]).s == "<" then FromFile else ToFile))
  {
    if argc < 3 {
      return 1, None;
    }
    var pLoc := IsRedirect(argc, argv);
    if pLoc == 0 {
      return 1, None;
    }
    var redCmd := argv[pLoc];
    argv[pLoc] := Null;
    mode := Some(if redCmd.s == "<" then FromFile else ToFile);
    status := childStatus;
  }
}
