/** The shell's two string helpers: strToInt (signed decimal parsing with an ok flag)
    and getArgs (splitting an input line on single spaces into a NULL-terminated vector). */
module HelperFunctions {
  import opened Text

  /** An entry of a C argument vector: a string or the NULL pointer. */
  datatype Arg = Null | Str(s: string)

  // ---------------------------------------------------------------- strToInt

  predicate AllDigits(s: string) {
    forall i :: 0 <= i < |s| ==> IsDigit(s[i])
  }

  function DigitValue(c: char): nat
    requires IsDigit(c)
  {
    c as int - '0' as int
  }

  /** The value of a digit string read left to right, as num = num * 10 + digit does. */
  function DigitsValue(s: string): nat
    requires AllDigits(s)
  {
    if s == [] then 0 else 10 * DigitsValue(s[..|s| - 1]) + DigitValue(s[|s| - 1])
  }

  /** The part of the text after an optional leading '-'. */
  function Magnitude(s: string): string {
    if |s| > 0 && s[0] == '-' then s[1..] else s
  }

  /** What strToInt computes, as (value, ok): ok is 0 on success and -1 on failure. */
  function StrToIntSpec(s: string): (int, int) {
    if |s| == 0 || !AllDigits(Magnitude(s)) then (0, -1)
    else if s[0] == '-' then (-(DigitsValue(s[1..]) as int), 0)
    else (DigitsValue(s), 0)
  }

  /** strToInt: the digit loop accumulates the value and stops at the first non-digit. */
  method StrToInt(str: CStr) returns (value: int, ok: int)
    ensures (value, ok) == StrToIntSpec(str)
  {
    // str[0] of an empty C string is its terminator, which is not '-'
    var neg := |str| > 0 && str[0] == '-';
    if |str| == 0 {
      return 0, -1;
    }
    var start := if neg then 1 else 0;
    var i := start;
    var num := 0;
    while i < |str|
      invariant start <= i <= |str|
      invariant AllDigits(str[start..i]) && num == DigitsValue(str[start..i])
    {
      var temp := str[i] as int - '0' as int;
      if temp < 0 || temp > 9 {
        assert !IsDigit(Magnitude(str)[i - start]);
        return 0, -1;
      }
      assert str[start..i + 1][..i - start] == str[start..i];
      num := num * 10 + temp;
      i := i + 1;
    }
    assert str[start..i] == Magnitude(str);
    ok := 0;
    value := if neg then -num else num;
  }

  /** The four cases of strToInt: empty text, a stray character, "-" alone, a well-formed number. */
  lemma StrToIntCases(s: string)
    ensures |s| == 0 ==> StrToIntSpec(s) == (0, -1)
    ensures (exists i :: 0 <= i < |Magnitude(s)| && !IsDigit(Magnitude(s)[i])) ==> StrToIntSpec(s) == (0, -1)
    ensures s == "-" ==> StrToIntSpec(s) == (0, 0)
    ensures |s| > 0 && s[0] != '-' && AllDigits(s) ==> StrToIntSpec(s) == (DigitsValue(s), 0)
    ensures |s| > 1 && s[0] == '-' && AllDigits(s[1..]) ==> StrToIntSpec(s) == (-(DigitsValue(s[1..]) as int), 0)
  {
    if s == "-" {
      assert Magnitude(s) == [];
    }
  }

  function DigitChar(d: nat): (c: char)
    requires d < 10
    ensures IsDigit(c) && DigitValue(c) == d
  {
    ('0' as int + d) as char
  }

  /** The decimal notation of n, as printf("%d") writes it. */
  function Decimal(n: nat): (s: string)
  {
    if n < 10 then [DigitChar(n)] else Decimal(n / 10) + [DigitChar(n % 10)]
  }

  function SignedDecimal(n: int): string {
    if n < 0 then "-" + Decimal(-n) else Decimal(n)
  }

  lemma {:induction false} DecimalDigits(n: nat)
    ensures |Decimal(n)| > 0 && AllDigits(Decimal(n)) && DigitsValue(Decimal(n)) == n
  {
    if n >= 10 {
      DecimalDigits(n / 10);
      var s := Decimal(n);
      assert s[..|s| - 1] == Decimal(n / 10);
    }
  }

  /** strToInt reads back every integer printed in decimal. */
  lemma StrToIntRoundTrip(n: int)
    ensures StrToIntSpec(SignedDecimal(n)) == (n, 0)
  {
    if n < 0 {
      DecimalDigits(-n);
      assert Magnitude(SignedDecimal(n)) == Decimal(-n);
    } else {
      DecimalDigits(n);
      assert SignedDecimal(n)[0] != '-';
    }
  }

  // ---------------------------------------------------------------- getArgs

  /** strchr from index `from`: the first index of c, or -1 for NULL. */
  function IndexOf(s: string, from: nat, c: char): (j: int)
    requires from <= |s|
    ensures j == -1 || from <= j < |s|
    ensures j >= 0 ==> s[j] == c
    ensures forall k :: from <= k < |s| && (j < 0 || k < j) ==> s[k] != c
    decreases |s| - from
  {
    if from == |s| then -1 else if s[from] == c then from else IndexOf(s, from + 1, c)
  }

  /** The words getArgs produces: every piece between single spaces, empty ones included. */
  function Split(s: string): (ws: seq<string>)
    ensures |ws| > 0
    decreases |s|
  {
    var j := IndexOf(s, 0, ' ');
    if j < 0 then [s] else [s[..j]] + Split(s[j + 1..])
  }

  /** The words joined back with one space between each two. */
  function Join(ws: seq<string>): string
    requires |ws| > 0
  {
    if |ws| == 1 then ws[0] else ws[0] + " " + Join(ws[1..])
  }

  /** The number of spaces in s, counted from the front as getArgs's first loop does. */
  function CountSpaces(s: string): nat {
    if s == [] then 0 else CountSpaces(s[..|s| - 1]) + (if s[|s| - 1] == ' ' then 1 else 0)
  }

  /** The count is the multiplicity of ' ' in the line. */
  lemma {:induction false} CountSpacesIsMultiplicity(s: string)
    ensures CountSpaces(s) == multiset(s)[' ']
  {
    if s != [] {
      CountSpacesIsMultiplicity(s[..|s| - 1]);
      assert s == s[..|s| - 1] + [s[|s| - 1]];
    }
  }

  lemma {:induction false} CountSpacesConcat(a: string, b: string)
    ensures CountSpaces(a + b) == CountSpaces(a) + CountSpaces(b)
    decreases |b|
  {
    if b == [] {
      assert a + b == a;
    } else {
      CountSpacesConcat(a, b[..|b| - 1]);
      assert (a + b)[..|a + b| - 1] == a + b[..|b| - 1];
    }
  }

  lemma {:induction false} CountSpacesNone(s: string)
    requires ' ' !in s
    ensures CountSpaces(s) == 0
  {
    if s != [] {
      assert ' ' !in s[..|s| - 1];
      CountSpacesNone(s[..|s| - 1]);
    }
  }

  /** The vector getArgs returns: one entry per word, then the NULL sentinel. */
  function ArgVector(ws: seq<string>): (v: seq<Arg>)
    ensures |v| == |ws| + 1 && v[|ws|] == Null
    ensures forall k :: 0 <= k < |ws| ==> v[k] == Str(ws[k])
  {
    seq(|ws|, k requires 0 <= k < |ws| => Str(ws[k])) + [Null]
  }

  /** strchr finds c at j when c is at j and nowhere between from and j. */
  lemma IndexOfAt(s: string, from: nat, c: char, j: nat)
    requires from <= j < |s| && s[j] == c
    requires forall k :: from <= k < j ==> s[k] != c
    ensures IndexOf(s, from, c) == j
  {
  }

  /** strchr finds nothing when c is nowhere from `from` on. */
  lemma IndexOfNone(s: string, from: nat, c: char)
    requires from <= |s|
    requires forall k :: from <= k < |s| ==> s[k] != c
    ensures IndexOf(s, from, c) == -1
  {
  }

  /** Split peels off the text before the first space, if there is one. */
  lemma SplitUnfold(s: string, j: nat)
    requires j < |s| && s[j] == ' '
    requires forall k :: 0 <= k < j ==> s[k] != ' '
    ensures Split(s) == [s[..j]] + Split(s[j + 1..])
  {
    IndexOfAt(s, 0, ' ', j);
  }

  /** Split yields one word more than there are spaces. */
  lemma {:induction false} SplitCount(s: string)
    ensures |Split(s)| == CountSpaces(s) + 1
    decreases |s|
  {
    var j := IndexOf(s, 0, ' ');
    if j < 0 {
      CountSpacesNone(s);
    } else {
      var rest := s[j + 1..];
      SplitCount(rest);
      assert s == s[..j] + [' '] + rest;
      CountSpacesNone(s[..j]);
      CountSpacesConcat(s[..j] + [' '], rest);
      CountSpacesConcat(s[..j], [' ']);
    }
  }

  /** No word Split yields holds a space. */
  lemma {:induction false} SplitSpaceFree(s: string)
    ensures forall k :: 0 <= k < |Split(s)| ==> ' ' !in Split(s)[k]
    decreases |s|
  {
    var j := IndexOf(s, 0, ' ');
    if j >= 0 {
      SplitSpaceFree(s[j + 1..]);
      assert ' ' !in s[..j];
    }
  }

  /** Joining the words Split yields with single spaces gives the input back. */
  lemma {:induction false} JoinSplit(s: string)
    ensures |Split(s)| > 0 && Join(Split(s)) == s
    decreases |s|
  {
    var j := IndexOf(s, 0, ' ');
    if j >= 0 {
      var rest := s[j + 1..];
      JoinSplit(rest);
      assert Split(s)[1..] == Split(rest);
      assert s == s[..j] + " " + rest;
    }
  }

  /** Splitting space-free words joined with single spaces gives the words back. */
  lemma {:induction false} SplitJoin(ws: seq<string>)
    requires |ws| > 0
    requires forall k :: 0 <= k < |ws| ==> ' ' !in ws[k]
    ensures Split(Join(ws)) == ws
  {
    var s := Join(ws);
    if |ws| == 1 {
      assert IndexOf(s, 0, ' ') == -1;
    } else {
      SplitJoin(ws[1..]);
      var j := |ws[0]|;
      assert s == ws[0] + " " + Join(ws[1..]);
      assert s[..j] == ws[0];
      assert s[j + 1..] == Join(ws[1..]);
      assert forall k :: 0 <= k < j ==> s[k] == ws[0][k];
      SplitUnfold(s, j);
    }
  }

  /** The words of s from index `from` on, found as getArgs finds them: strchr from the
      current position ends each word. */
  function WordsFrom(s: string, from: nat): (ws: seq<string>)
    requires from <= |s|
    ensures |ws| > 0
    decreases |s| - from
  {
    var j := IndexOf(s, from, ' ');
    if j < 0 then [s[from..]] else [s[from..j]] + WordsFrom(s, j + 1)
  }

  /** Scanning with strchr from `from` yields the words of the suffix starting there. */
  lemma {:induction false} SplitIsWordsFrom(s: string, from: nat)
    requires from <= |s|
    ensures Split(s[from..]) == WordsFrom(s, from)
    decreases |s| - from
  {
    var j := IndexOf(s, from, ' ');
    if j < 0 {
      SplitSuffixLast(s, from);
    } else {
      SplitIsWordsFrom(s, j + 1);
      SplitSuffixStep(s, from, j);
    }
  }

  /** With no space from `from` on, the suffix is one word. */
  lemma SplitSuffixLast(s: string, from: nat)
    requires from <= |s| && IndexOf(s, from, ' ') < 0
    ensures Split(s[from..]) == [s[from..]] && WordsFrom(s, from) == [s[from..]]
  {
    var t := s[from..];
    assert forall k :: 0 <= k < |t| ==> t[k] == s[from + k];
    IndexOfNone(t, 0, ' ');
  }

  /** strchr from `from` on s and strchr from 0 on the suffix find the same space. */
  lemma IndexOfShift(s: string, from: nat, j: nat)
    requires from <= j < |s| && IndexOf(s, from, ' ') == j
    ensures IndexOf(s[from..], 0, ' ') == j - from
  {
    var t := s[from..];
    forall k | 0 <= k < j - from
      ensures t[k] != ' '
    {
      assert t[k] == s[from + k];
    }
    IndexOfAt(t, 0, ' ', j - from);
  }

  /** Split unfolds at the space strchr finds. */
  lemma SplitAt(t: string, j: nat)
    requires j < |t| && IndexOf(t, 0, ' ') == j
    ensures Split(t) == [t[..j]] + Split(t[j + 1..])
  {
  }

  /** The slices of a suffix are slices of the whole. */
  lemma SuffixSlices(s: string, from: nat, j: nat)
    requires from <= j < |s|
    ensures s[from..][..j - from] == s[from..j] && s[from..][j - from + 1..] == s[j + 1..]
  {
  }

  /** With the first space from `from` on at j, the suffix splits there. */
  lemma SplitSuffixStep(s: string, from: nat, j: nat)
    requires from <= j < |s| && IndexOf(s, from, ' ') == j
    ensures Split(s[from..]) == [s[from..j]] + Split(s[j + 1..])
  {
    IndexOfShift(s, from, j);
    SplitAt(s[from..], j - from);
    SuffixSlices(s, from, j);
  }

  lemma WordsFromIsSplit(s: string)
    ensures WordsFrom(s, 0) == Split(s)
  {
    SplitIsWordsFrom(s, 0);
    assert s[0..] == s;
  }

  lemma WordsFromCount(s: string)
    ensures |WordsFrom(s, 0)| == CountSpaces(s) + 1
  {
    WordsFromIsSplit(s);
    SplitCount(s);
  }

  /** What a pass of getArgs's loop learns when strchr finds no space: it copies the last word,
      the rest of the string. */
  lemma WordsFromLast(s: string, pos: nat, words: seq<string>, n: nat)
    requires pos <= |s| && n < |words| && WordsFrom(s, pos) == words[n..]
    requires IndexOf(s, pos, ' ') < 0
    ensures n == |words| - 1 && words[n] == s[pos..|s|]
  {
    var ws := words[n..];
    assert words[n] == ws[0];
    assert ws == [s[pos..]];
    assert s[pos..|s|] == s[pos..];
  }

  /** What a pass of getArgs's loop learns when strchr finds a space at j: it copies the word
      before j, and the words after j follow. */
  lemma WordsFromNext(s: string, pos: nat, words: seq<string>, n: nat, j: int)
    requires pos <= |s| && n < |words| && WordsFrom(s, pos) == words[n..]
    requires j == IndexOf(s, pos, ' ') && j >= 0
    ensures pos <= j < |s| && n + 1 < |words| && words[n] == s[pos..j]
    ensures WordsFrom(s, j + 1) == words[n + 1..]
  {
    var ws := words[n..];
    var rest := WordsFrom(s, j + 1);
    assert ws == [s[pos..j]] + rest;
    assert words[n] == ws[0];
    assert words[n + 1..] == ws[1..];
  }

  /** A vector holding each word in order and then NULL is the argument vector of those words. */
  lemma ArgVectorIs(v: seq<Arg>, ws: seq<string>)
    requires |v| == |ws| + 1 && v[|ws|] == Null
    requires forall k :: 0 <= k < |ws| ==> v[k] == Str(ws[k])
    ensures v == ArgVector(ws)
  {
  }

  /** getArgs's first loop: the number of spaces in the line. */
  method CountSpacesLoop(s: string) returns (spaces: nat)
    ensures spaces == CountSpaces(s)
  {
    var i := 0;
    spaces := 0;
    while i < |s|
      invariant 0 <= i <= |s|
      invariant spaces == CountSpaces(s[..i])
    {
      if s[i] == ' ' {
        spaces := spaces + 1;
      }
      assert s[..i + 1][..i] == s[..i];
      i := i + 1;
    }
    assert s[..i] == s;
  }

  /** getArgs: counts the spaces, then copies each word into a vector of spaces + 2 entries
      whose last entry is NULL. A NULL input gives a NULL vector (the count is then not set
      by the source; this model returns 0). */
  method GetArgs(input: Option<CStr>) returns (args: Option<seq<Arg>>, wordCount: int)
    ensures input.None? ==> args.None?
    ensures input.Some? ==> args == Some(ArgVector(Split(input.value)))
    ensures input.Some? ==> wordCount == |Split(input.value)| == CountSpaces(input.value) + 1
    ensures input.Some? ==> |args.value| == wordCount + 1 && args.value[wordCount] == Null
  {
    if input.None? {
      return None, 0;
    }
    var s := input.value;
    var spaces := CountSpacesLoop(s);
    WordsFromCount(s);
    var a := CopyWords(s, spaces);
    WordsFromIsSplit(s);
    args := Some(a[..]);
    wordCount := spaces + 1;
  }

  /** The copying loop of getArgs: entry k of the fresh vector is word k of s, and the
      entry after the last word is NULL. */
  method CopyWords(s: string, spaces: nat) returns (a: array<Arg>)
    requires |WordsFrom(s, 0)| == spaces + 1
    ensures fresh(a) && a[..] == ArgVector(WordsFrom(s, 0))
  {
    ghost var words := WordsFrom(s, 0);
    a := new Arg[spaces + 2](_ => Null);
    a[spaces + 1] := Null;
    var pos := 0;
    var wordNum := 0;
    // the source's do-while: its test wordNum <= spaces holds on entry
    while wordNum <= spaces
      invariant 0 <= wordNum <= spaces + 1 && 0 <= pos <= |s| + 1
      invariant wordNum <= spaces ==> pos <= |s| && WordsFrom(s, pos) == words[wordNum..]
      invariant forall k :: 0 <= k < wordNum ==> a[k] == Str(words[k])
      invariant a[spaces + 1] == Null
      decreases spaces - wordNum
    {
      pos := CopyWord(a, s, pos, words, wordNum);
      wordNum := wordNum + 1;
    }
    ArgVectorIs(a[..], words);
  }

  /** One pass of getArgs's loop: strchr finds the end of word n (a space, or else the
      terminator), the word is copied into entry n, and the scan resumes after it. */
  method CopyWord(a: array<Arg>, s: string, pos: nat, ghost words: seq<string>, n: nat) returns (next: nat)
    requires pos <= |s| && n < |words| && n < a.Length && WordsFrom(s, pos) == words[n..]
    modifies a
    ensures a[..] == old(a[..])[n := Str(words[n])]
    ensures n + 1 < |words| ==> next <= |s| && WordsFrom(s, next) == words[n + 1..]
    ensures next <= |s| + 1
  {
    var space := IndexOf(s, pos, ' ');
    if space < 0 {
      WordsFromLast(s, pos, words, n);
      // strchr(i, '\0'): the terminator just past the last character
      space := |s|;
    } else {
      WordsFromNext(s, pos, words, n, space);
    }
    a[n] := Str(s[pos..space]);
    next := space + 1;
  }
}
