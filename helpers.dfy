/**
  The string side of the debugger extension's helpers: splitting and trimming,
  the parsers of the output of SOS commands (`!threads`, `!PrintException`,
  `!threadpool`, `!do`, `!name2ee`), and the heuristics that pick the frame to
  blame in an exception's stack trace. Debugger output arrives as a string;
  `std::getline` over it is `Text.Lines`.
*/
module Helpers {
  import opened Text

  // ---------------------------------------------------------------------
  // The records of the debugger extension
  // ---------------------------------------------------------------------

  datatype ExceptionInfo = ExceptionInfo(threadId: string, exceptionObject: string)

  datatype ExceptionDetail = ExceptionDetail(
    exceptionObject: string,
    exceptionType: string,
    innerExceptionObject: string,
    stackTraces: seq<string>,
    hResult: string,
    rawText: string)

  datatype FieldInfo = FieldInfo(methodTable: string, offset: int, isValueType: bool, value: string, name: string)

  /** A value-initialised `FieldInfo`. */
  const EmptyField := FieldInfo("", 0, false, "", "")

  datatype ObjectInfo = ObjectInfo(address: string, typeName: string, stringValue: string, fields: seq<FieldInfo>)

  // ---------------------------------------------------------------------
  // Commands
  // ---------------------------------------------------------------------

  /** The command line `!<sos>.<command>` that runs `command` from the SOS extension loaded as `sos`. */
  function GetFullCommand(sos: string, command: string): (r: string)
    ensures |r| == |sos| + |command| + 2
    ensures r[0] == '!' && r[1..|sos| + 1] == sos && r[|sos| + 1] == '.' && r[|sos| + 2..] == command
  {
    "!" + sos + "." + command
  }

  /** An extension name without a dot is recovered from the command line, and so is the command. */
  lemma GetFullCommandInjective(sos1: string, command1: string, sos2: string, command2: string)
    requires '.' !in sos1 && '.' !in sos2
    requires GetFullCommand(sos1, command1) == GetFullCommand(sos2, command2)
    ensures sos1 == sos2 && command1 == command2
  {
    FirstDotAfterName(sos1, command1);
    FirstDotAfterName(sos2, command2);
  }

  lemma FirstDotAfterName(sos: string, command: string)
    requires '.' !in sos
    ensures IndexOf(GetFullCommand(sos, command), '.') == Some(|sos| + 1)
  {
    var r := GetFullCommand(sos, command);
    assert r[..|sos| + 1] == "!" + sos;
  }

  // ---------------------------------------------------------------------
  // SplitString: strtok
  // ---------------------------------------------------------------------

  function DelimiterSet(delimiters: string): set<char> {
    set c | c in delimiters
  }

  /** Length of the run of non-delimiters at the front of `s`. */
  function TokenLength(s: string, d: set<char>): (n: nat)
    ensures n <= |s| && forall k :: 0 <= k < n ==> s[k] !in d
    ensures n < |s| ==> s[n] in d
  {
    if s == [] || s[0] in d then 0 else 1 + TokenLength(s[1..], d)
  }

  /** The tokens `strtok` returns one after another: the maximal runs of non-delimiters, in order. */
  function Tokens(s: string, d: set<char>): (ts: seq<string>)
    ensures forall i :: 0 <= i < |ts| ==> ts[i] != []
    ensures forall i, k :: 0 <= i < |ts| && 0 <= k < |ts[i]| ==> ts[i][k] !in d
    decreases |s|
  {
    if s == [] then []
    else if s[0] in d then Tokens(s[1..], d)
    else
      var n := TokenLength(s, d);
      [s[..n]] + Tokens(s[n..], d)
  }

  lemma TokenLengthIs(s: string, d: set<char>, m: nat)
    requires m <= |s| && forall k :: 0 <= k < m ==> s[k] !in d
    requires m < |s| ==> s[m] in d
    ensures TokenLength(s, d) == m
  {
  }

  lemma TokensAtRun(s: string, i: nat, j: nat, d: set<char>)
    requires i < j <= |s| && forall k :: i <= k < j ==> s[k] !in d
    requires j < |s| ==> s[j] in d
    ensures Tokens(s[i..], d) == [s[i..j]] + Tokens(s[j..], d)
  {
    var t := s[i..];
    TokenLengthIs(t, d, j - i);
    assert t[..j - i] == s[i..j];
    assert t[j - i..] == s[j..];
  }

  lemma TokensSkipDelimiter(s: string, i: nat, d: set<char>)
    requires i < |s| && s[i] in d
    ensures Tokens(s[i..], d) == Tokens(s[i + 1..], d)
  {
    assert s[i..][1..] == s[i + 1..];
  }

  /** Splits `text` at any character of `delimiters`, dropping empty tokens. */
  method SplitString(text: string, delimiters: string) returns (tokens: seq<string>)
    ensures tokens == Tokens(text, DelimiterSet(delimiters))
  {
    var d := DelimiterSet(delimiters);
    tokens := [];
    var i := 0;
    while i < |text|
      invariant i <= |text|
      invariant tokens + Tokens(text[i..], d) == Tokens(text, d)
    {
      if text[i] in d {
        TokensSkipDelimiter(text, i, d);
        i := i + 1;
      } else {
        var j := i + 1;
        while j < |text| && text[j] !in d
          invariant i < j <= |text|
          invariant forall k :: i <= k < j ==> text[k] !in d
        {
          j := j + 1;
        }
        TokensAtRun(text, i, j, d);
        assert tokens + [text[i..j]] + Tokens(text[j..], d) == tokens + Tokens(text[i..], d);
        tokens := tokens + [text[i..j]];
        i := j;
      }
    }
  }

  function Concat(ts: seq<string>): string {
    if ts == [] then [] else ts[0] + Concat(ts[1..])
  }

  /** `s` with every character of `d` removed. */
  function Without(s: string, d: set<char>): (r: string)
    ensures forall k :: 0 <= k < |r| ==> r[k] !in d
  {
    if s == [] then [] else (if s[0] in d then [] else [s[0]]) + Without(s[1..], d)
  }

  lemma {:induction false} WithoutRun(s: string, d: set<char>, n: nat)
    requires n <= |s| && forall k :: 0 <= k < n ==> s[k] !in d
    ensures Without(s, d) == s[..n] + Without(s[n..], d)
  {
    if n > 0 {
      WithoutRun(s[1..], d, n - 1);
      assert s[1..][n - 1..] == s[n..];
      assert s[..n] == [s[0]] + s[1..][..n - 1];
    }
  }

  /** The tokens, read one after another, are exactly the text's non-delimiter characters in their order. */
  lemma {:induction false} TokensKeepText(s: string, d: set<char>)
    ensures Concat(Tokens(s, d)) == Without(s, d)
    decreases |s|
  {
    if s != [] {
      if s[0] in d {
        TokensKeepText(s[1..], d);
      } else {
        var n := TokenLength(s, d);
        TokensKeepText(s[n..], d);
        WithoutRun(s, d, n);
        var ts := Tokens(s, d);
        assert ts[0] == s[..n] && ts[1..] == Tokens(s[n..], d);
      }
    }
  }

  /** Joining tokens with one delimiter character. */
  function Join(ts: seq<string>, c: char): string {
    if ts == [] then []
    else if |ts| == 1 then ts[0]
    else ts[0] + [c] + Join(ts[1..], c)
  }

  /** Splitting undoes joining, for non-empty tokens without delimiters. */
  lemma {:induction false} SplitJoinRoundTrip(ts: seq<string>, c: char, d: set<char>)
    requires c in d
    requires forall i :: 0 <= i < |ts| ==> ts[i] != []
    requires forall i, k :: 0 <= i < |ts| && 0 <= k < |ts[i]| ==> ts[i][k] !in d
    ensures Tokens(Join(ts, c), d) == ts
  {
    if ts != [] {
      var s := Join(ts, c);
      var t0 := ts[0];
      if |ts| == 1 {
        assert s == t0;
        TokenLengthIs(s, d, |t0|);
        assert s[..|t0|] == t0;
        assert s[|t0|..] == [];
      } else {
        var rest := Join(ts[1..], c);
        assert s == t0 + [c] + rest;
        TokenLengthIs(s, d, |t0|);
        assert s[..|t0|] == t0;
        assert s[|t0|..] == [c] + rest;
        assert ([c] + rest)[1..] == rest;
        SplitJoinRoundTrip(ts[1..], c, d);
        assert ts == [t0] + ts[1..];
      }
    }
  }

  // ---------------------------------------------------------------------
  // Trim
  // ---------------------------------------------------------------------

  function TrimStart(s: string): string {
    if s != [] && s[0] == ' ' then TrimStart(s[1..]) else s
  }

  function TrimEnd(s: string): string {
    if s != [] && s[|s| - 1] == ' ' then TrimEnd(s[..|s| - 1]) else s
  }

  /** `s` without its leading and trailing blanks (only ' ' counts). */
  function Trimmed(s: string): string {
    TrimEnd(TrimStart(s))
  }

  lemma {:induction false} TrimStartIs(s: string, a: nat)
    requires a <= |s| && forall k :: 0 <= k < a ==> s[k] == ' '
    requires a < |s| ==> s[a] != ' '
    ensures TrimStart(s) == s[a..]
  {
    if a > 0 {
      TrimStartIs(s[1..], a - 1);
      assert s[1..][a - 1..] == s[a..];
    }
  }

  lemma {:induction false} TrimEndIs(s: string, b: nat)
    requires b <= |s| && forall k :: b <= k < |s| ==> s[k] == ' '
    requires b > 0 ==> s[b - 1] != ' '
    ensures TrimEnd(s) == s[..b]
    decreases |s|
  {
    if b < |s| {
      TrimEndIs(s[..|s| - 1], b);
      assert s[..|s| - 1][..b] == s[..b];
    }
  }

  /** With a non-blank first at `a` and last at `b`, trimming keeps exactly `s[a..b+1]`. */
  lemma TrimmedIsSlice(s: string, a: nat, b: nat)
    requires a <= b < |s| && s[a] != ' ' && s[b] != ' '
    requires forall k :: 0 <= k < a ==> s[k] == ' '
    requires forall k :: b < k < |s| ==> s[k] == ' '
    ensures Trimmed(s) == s[a..b + 1]
  {
    TrimStartIs(s, a);
    TrimEndIs(s[a..], b + 1 - a);
    assert s[a..][..b + 1 - a] == s[a..b + 1];
  }

  lemma {:induction false} TrimAllBlank(s: string)
    requires forall k :: 0 <= k < |s| ==> s[k] == ' '
    ensures Trimmed(s) == []
  {
    TrimStartIs(s, |s|);
    assert s[|s|..] == [];
  }

  /** Removes the leading and trailing blanks of `text`; a blank or empty text becomes empty. */
  method Trim(text: string) returns (r: string)
    ensures r == Trimmed(text)
  {
    r := text;
    var start := FindFirstNotOf(r, ' ', 0);
    if start.None? {
      TrimAllBlank(text);
      r := [];
      return;
    }
    var end := FindLastNotOf(r, ' ');
    if end.value - start.value + 1 < |r| {
      r := r[..end.value + 1];
      r := r[start.value..];
    } else {
      assert text[start.value..end.value + 1] == text;
    }
    TrimmedIsSlice(text, start.value, end.value);
  }

  /**
    Trimming keeps a contiguous piece of the text: all that is cut off is
    blanks, and the piece neither starts nor ends with a blank.
  */
  lemma TrimmedShape(s: string)
    ensures var t := Trimmed(s);
      t == [] || (t[0] != ' ' && t[|t| - 1] != ' ')
    ensures exists a: nat :: BlankPadded(s, Trimmed(s), a)
    ensures Trimmed(s) == [] <==> forall k :: 0 <= k < |s| ==> s[k] == ' '
  {
    var start := FindFirstNotOf(s, ' ', 0);
    if start.None? {
      TrimAllBlank(s);
      assert BlankPadded(s, [], 0);
    } else {
      var end := FindLastNotOf(s, ' ');
      TrimmedIsSlice(s, start.value, end.value);
      assert BlankPadded(s, Trimmed(s), start.value);
    }
  }

  /** `s` is `t` with `a` blanks before it and only blanks after it. */
  predicate BlankPadded(s: string, t: string, a: nat) {
    && a + |t| <= |s| && s[a..a + |t|] == t
    && (forall k :: 0 <= k < a ==> s[k] == ' ')
    && (forall k :: a + |t| <= k < |s| ==> s[k] == ' ')
  }

  /** Trimming twice is trimming once. */
  lemma TrimmedIdempotent(s: string)
    ensures Trimmed(Trimmed(s)) == Trimmed(s)
  {
    var t := Trimmed(s);
    TrimmedShape(s);
    if t == [] {
      TrimAllBlank(t);
    } else {
      TrimmedIsSlice(t, 0, |t| - 1);
      assert t[0..|t|] == t;
    }
  }

  // ---------------------------------------------------------------------
  // Frames and the symbol to blame
  // ---------------------------------------------------------------------

  /** Frames starting with one of these (ignoring case, and longer than the entry) are never blamed. */
  const ImmunizedSymbolsStartWithIgnoreCase: seq<string> := [
    "mscorlib",
    "System",
    "Microsoft_VisualStudio_Validation",
    "Microsoft_VisualStudio_Threading",
    "Microsoft_Collections_Immutable",
    "Microsoft.VisualStudio.Validation",
    "Microsoft.VisualStudio.Threading",
    "Microsoft.Collections.Immutable",
    "Microsoft.VisualStudio.Shell.VsTaskLibraryHelper",
    "Microsoft.VisualStudio.Services.VsTask",
    "Microsoft.VisualStudio.ProjectSystem.ThreadHandlingMultithreaded",
    "Microsoft.VisualStudio.ProjectSystem.VS.HResult",
    "Microsoft.VisualStudio.Project.VisualC.VCProjectEngine.ApartmentMarshaler.Invoke"
  ]

  /** Frames containing one of these are never blamed. */
  const ImmunizedSymbolsContain: seq<string> := [
    "ErrorUtilities.",
    "ErrorHandler.",
    "ThrowOnFailure",
    "ThrowIfNotOnUIThread",
    "HrInvoke"
  ]

  /** `_strnicmp(frame, entry, |entry|) == 0` on a frame strictly longer than the entry. */
  predicate StartsWithEntry(frame: string, entry: string) {
    |frame| > |entry| && EqualIgnoreCase(frame[..|entry|], entry)
  }

  /** A frame in library or error-reporting code, which the blame heuristic skips. */
  predicate IsImmunized(frame: string) {
    StartsWithAny(frame, ImmunizedSymbolsStartWithIgnoreCase) || ContainsAny(frame, ImmunizedSymbolsContain)
  }

  /** A frame is immunized exactly when it starts with a listed prefix (and is longer) or contains a listed fragment. */
  lemma IsImmunizedIff(frame: string)
    ensures IsImmunized(frame) <==>
      || (exists i :: 0 <= i < |ImmunizedSymbolsStartWithIgnoreCase| && StartsWithEntry(frame, ImmunizedSymbolsStartWithIgnoreCase[i]))
      || (exists i :: 0 <= i < |ImmunizedSymbolsContain| && Contains(frame, ImmunizedSymbolsContain[i]))
  {
  }

  function StartsWithAny(frame: string, entries: seq<string>): (r: bool)
    ensures r <==> exists i :: 0 <= i < |entries| && StartsWithEntry(frame, entries[i])
  {
    if entries == [] then false
    else StartsWithEntry(frame, entries[0]) || StartsWithAny(frame, entries[1..])
  }

  function ContainsAny(frame: string, entries: seq<string>): (r: bool)
    ensures r <==> exists i :: 0 <= i < |entries| && Contains(frame, entries[i])
  {
    if entries == [] then false
    else Find(frame, entries[0]).Some? || ContainsAny(frame, entries[1..])
  }

  /** Any frame in a `System` namespace, with the namespace spelt in whatever case, is immunized. */
  lemma SystemFramesImmunized(namespace: string, rest: string)
    requires EqualIgnoreCase(namespace, "System") && rest != []
    ensures IsImmunized(namespace + rest)
  {
    var entry := ImmunizedSymbolsStartWithIgnoreCase[1];
    assert entry == "System";
    assert |LowerAll(namespace)| == |LowerAll(entry)|;
    assert (namespace + rest)[..|entry|] == namespace;
    assert StartsWithEntry(namespace + rest, entry);
  }

  /** A frame that only names an entry, with nothing after it, is not immunized by that entry. */
  lemma EntryAloneNotMatched(entry: string)
    ensures !StartsWithEntry(entry, entry)
  {
  }

  /** The symbol of a frame: the text before its first '(', with the "_ni" of an NGEN image name removed. */
  function GetSymbolFromFrame(frame: string): (r: string)
    ensures '(' !in r
    ensures |r| <= |frame|
  {
    var symbol := match IndexOf(frame, '(') case None => frame case Some(p) => frame[..p];
    assert '(' !in symbol;
    match Find(symbol, "_ni!")
    case None => symbol
    case Some(p) =>
      assert symbol[..p] + symbol[p + 3..] == symbol[..p] + symbol[p + 3..];
      assert forall c :: c in symbol[..p] + symbol[p + 3..] ==> c in symbol;
      symbol[..p] + symbol[p + 3..]
  }

  /**
    An NGEN image name `m_ni` is reported as `m`: both `m_ni!f(args)` and a
    frame `m_ni!f` without an argument list have the symbol `m!f`.
  */
  lemma NgenImageNormalized(m: string, f: string, args: string)
    requires '!' !in m && '(' !in m && '(' !in f
    requires args == [] || args[0] == '('
    ensures GetSymbolFromFrame(m + "_ni!" + f + args) == m + "!" + f
  {
    var frame := m + "_ni!" + f + args;
    var symbol := m + "_ni!" + f;
    var p := |symbol|;
    assert frame[..p] == symbol;
    assert '(' !in frame[..p];
    if args == [] {
      assert frame == symbol;
      assert IndexOf(frame, '(') == None;
    } else {
      assert frame[p] == '(';
      assert IndexOf(frame, '(') == Some(p);
    }
    assert OccursAt(symbol, "_ni!", |m|);
    forall j: nat | j < |m|
      ensures !OccursAt(symbol, "_ni!", j)
    {
      if j + 3 < |m| {
        assert symbol[j + 3] == m[j + 3];
      } else {
        assert symbol[j + 3] == "_ni!"[j + 3 - |m|];
      }
      assert symbol[j + 3] != '!';
    }
    assert Find(symbol, "_ni!") == Some(|m|);
    assert symbol[..|m|] == m;
    assert symbol == (m + "_ni") + ("!" + f);
    assert symbol[|m| + 3..] == "!" + f;
  }

  /**
    A frame from an image without "_ni!" keeps the whole text before its
    first '(', and the whole frame when it has no argument list.
  */
  lemma PlainFrameSymbol(m: string, args: string)
    requires '(' !in m && !Contains(m, "_ni!")
    requires args == [] || args[0] == '('
    ensures GetSymbolFromFrame(m + args) == m
  {
    var frame := m + args;
    assert frame[..|m|] == m;
    if args == [] {
      assert frame == m;
      assert IndexOf(frame, '(') == None;
    } else {
      assert frame[|m|] == '(';
      assert IndexOf(frame, '(') == Some(|m|);
    }
  }

  /**
    The symbol to blame for an exception: that of the first frame that is not
    immunized, or else that of the last frame. The stack must not be empty.
  */
  function GuessBlamedSymbol(detail: ExceptionDetail): (r: string)
    requires detail.stackTraces != []
    ensures var st := detail.stackTraces;
      exists i :: 0 <= i < |st| && r == GetSymbolFromFrame(st[i])
        && (forall j :: 0 <= j < i ==> IsImmunized(st[j]))
        && (!IsImmunized(st[i]) || i == |st| - 1)
  {
    var st := detail.stackTraces;
    GetSymbolFromFrame(st[BlamedFrame(st, 0)])
  }

  /** The first frame from `from` on that is not immunized, or the last frame if there is none. */
  function BlamedFrame(st: seq<string>, from: nat): (i: nat)
    requires from < |st|
    ensures from <= i < |st|
    ensures forall j :: from <= j < i ==> IsImmunized(st[j])
    ensures !IsImmunized(st[i]) || i == |st| - 1
    decreases |st| - from
  {
    if !IsImmunized(st[from]) || from == |st| - 1 then from else BlamedFrame(st, from + 1)
  }

  /** The exception was thrown by the hang detector: some frame mentions `OnHangDetected`. */
  function IsDueToHangDetected(detail: ExceptionDetail): (r: bool)
    ensures r <==> exists i :: 0 <= i < |detail.stackTraces| && Contains(detail.stackTraces[i], "OnHangDetected")
  {
    FirstWhere(detail.stackTraces, (frame: string) => Find(frame, "OnHangDetected").Some?).Some?
  }

  /** The ECMAScript line terminators a `.` does not match. */
  predicate IsLineTerminator(c: char) {
    c == '\n' || c == '\r'
  }

  /** The text matched by `([a-z].+)` with case ignored: a letter and at least one more character on the same line. */
  predicate IsClrFunctionText(f: string) {
    |f| >= 2 && IsAsciiLetter(f[0]) && forall k :: 1 <= k < |f| ==> !IsLineTerminator(f[k])
  }

  /**
    A `!clrstack` frame `<sp> <ip> <function>`, with two 8-digit hexadecimal
    numbers, matched as a whole; the result is the function text.
  */
  function ParseClrStackFrame(frame: string): (r: Option<string>)
    ensures r.Some? ==> IsClrFunctionText(r.value) && |frame| == 18 + |r.value| && frame[18..] == r.value
  {
    if |frame| >= 18 && IsHex8(frame[..8]) && frame[8] == ' ' && IsHex8(frame[9..17]) && frame[17] == ' '
       && IsClrFunctionText(frame[18..])
    then Some(frame[18..])
    else None
  }

  /** Building a frame from its parts and parsing it gives the function text back, exactly when the text is one. */
  lemma ClrStackFrameRoundTrip(sp: string, ip: string, f: string)
    requires IsHex8(sp) && IsHex8(ip)
    ensures ParseClrStackFrame(sp + " " + ip + " " + f) == if IsClrFunctionText(f) then Some(f) else None
  {
    var frame := sp + " " + ip + " " + f;
    assert frame[..8] == sp;
    assert frame[9..17] == ip;
    assert frame[18..] == f;
  }

  /** A frame that parses is made of its two numbers and the function text. */
  lemma ClrStackFrameParts(frame: string)
    requires ParseClrStackFrame(frame).Some?
    ensures frame == frame[..8] + " " + frame[9..17] + " " + ParseClrStackFrame(frame).value
    ensures IsHex8(frame[..8]) && IsHex8(frame[9..17])
  {
  }

  // ---------------------------------------------------------------------
  // !threads: the exception object of each thread
  // ---------------------------------------------------------------------

  /** `!threads` columns are separated by blanks and parentheses. */
  const ThreadsDelimiters: string := " ()"

  /** The highest index at or above `low` whose token is exactly 8 hexadecimal digits. */
  function LastAddressToken(tokens: seq<string>, low: nat): (r: Option<nat>)
    ensures r.Some? ==> low <= r.value < |tokens| && IsHex8(tokens[r.value])
    ensures r.Some? ==> forall j :: r.value < j < |tokens| ==> !IsHex8(tokens[j])
    ensures r.None? <==> forall j :: low <= j < |tokens| ==> !IsHex8(tokens[j])
    decreases |tokens|
  {
    if |tokens| <= low then None
    else if IsHex8(tokens[|tokens| - 1]) then Some(|tokens| - 1)
    else LastAddressToken(tokens[..|tokens| - 1], low)
  }

  /** What one line of `!threads` output contributes: its thread id and its last address column from index 10 on. */
  function LineExceptionInfo(line: string): (r: Option<ExceptionInfo>)
    ensures r.Some? ==> IsHex8(r.value.exceptionObject) && r.value.threadId != []
  {
    var tokens := Tokens(line, DelimiterSet(ThreadsDelimiters));
    match LastAddressToken(tokens, 10)
    case None => None
    case Some(i) => Some(ExceptionInfo(tokens[0], tokens[i]))
  }

  function ExceptionInfosOfLines(lines: seq<string>): (r: seq<ExceptionInfo>)
    ensures |r| <= |lines|
    ensures forall i :: 0 <= i < |r| ==> IsHex8(r[i].exceptionObject) && r[i].threadId != []
  {
    if lines == [] then []
    else
      var last := LineExceptionInfo(lines[|lines| - 1]);
      ExceptionInfosOfLines(lines[..|lines| - 1]) + (if last.Some? then [last.value] else [])
  }

  /**
    Collects, line by line, the thread id and the exception object of every
    thread whose `!threads` line shows one. A line without any token is
    skipped (see the Findings of the README for the code as written).
  */
  method ExtractExceptionInfosFromThreadsOutput(output: string) returns (exceptionInfos: seq<ExceptionInfo>)
    ensures exceptionInfos == ExceptionInfosOfLines(Lines(output))
  {
    exceptionInfos := [];
    var lines := Lines(output);
    var k := 0;
    while k < |lines|
      invariant k <= |lines|
      invariant exceptionInfos == ExceptionInfosOfLines(lines[..k])
    {
      assert lines[..k + 1][..k] == lines[..k];
      var tokens := SplitString(lines[k], ThreadsDelimiters);
      if |tokens| > 0 {
        var i: int := |tokens| - 1;
        while i >= 10
          invariant -1 <= i < |tokens|
          invariant forall j :: i < j < |tokens| ==> !IsHex8(tokens[j])
          invariant exceptionInfos == ExceptionInfosOfLines(lines[..k])
        {
          if IsHex8(tokens[i]) {
            exceptionInfos := exceptionInfos + [ExceptionInfo(tokens[0], tokens[i])];
            break;
          }
          i := i - 1;
        }
      }
      k := k + 1;
    }
    assert lines[..|lines|] == lines;
  }

  /** At most one entry per line; each carries an 8-digit exception object and a non-empty thread id. */
  lemma ExceptionInfosWellFormed(output: string)
    ensures var infos := ExceptionInfosOfLines(Lines(output));
      && |infos| <= |Lines(output)|
      && forall i :: 0 <= i < |infos| ==> IsHex8(infos[i].exceptionObject) && infos[i].threadId != []
  {
  }

  /** What the backwards scan over a line's tokens meets first. */
  datatype ScanOutcome = FoundAt(index: nat) | NoneFound | ReadsOutOfRange(index: nat)

  /**
    `SIZE_MAX + 1`: values of `size_t` are taken modulo this number. The
    64-bit build is modelled; on a 32-bit build it is 2^32 and every fact
    below holds the same way.
  */
  const SizeMaxPlusOne: nat := 0x1_0000_0000_0000_0000

  /** `SIZE_MAX`, the value `0 - 1` wraps to in `size_t`. */
  const SizeMax: nat := SizeMaxPlusOne - 1

  /** The scan as written, from the unsigned counter `i` down to 10, reading `tokens[i]` at each step. */
  function ScanFromAsWritten(tokens: seq<string>, i: nat): ScanOutcome
    decreases i
  {
    if i < 10 then NoneFound
    else if i >= |tokens| then ReadsOutOfRange(i)
    else if IsHex8(tokens[i]) then FoundAt(i)
    else ScanFromAsWritten(tokens, i - 1)
  }

  /** The scan as written starts at `tokens.size() - 1` computed in `size_t`. */
  function ScanAsWritten(tokens: seq<string>): ScanOutcome
    requires |tokens| < SizeMaxPlusOne
  {
    ScanFromAsWritten(tokens, (|tokens| + SizeMaxPlusOne - 1) % SizeMaxPlusOne)
  }

  lemma {:induction false} ScanFromAgrees(tokens: seq<string>, i: nat)
    requires i < |tokens|
    ensures ScanFromAsWritten(tokens, i) ==
      match LastAddressToken(tokens[..i + 1], 10) case Some(j) => FoundAt(j) case None => NoneFound
  {
    if i >= 10 && !IsHex8(tokens[i]) {
      assert tokens[..i + 1][..i] == tokens[..i];
      ScanFromAgrees(tokens, i - 1);
    }
  }

  /**
    As written, a line with no token at all starts the scan at SIZE_MAX, which
    passes the loop test and reads far outside the empty token vector; every
    other line gets the entry the corrected extractor records.
  */
  lemma ScanAsWrittenReadsOutOfRange(tokens: seq<string>)
    requires |tokens| < SizeMaxPlusOne
    ensures tokens == [] ==> ScanAsWritten(tokens) == ReadsOutOfRange(SizeMax)
    ensures tokens != [] ==> (ScanAsWritten(tokens) ==
      match LastAddressToken(tokens, 10) case Some(j) => FoundAt(j) case None => NoneFound)
  {
    if tokens == [] {
      SizeWraps(SizeMax);
    } else {
      SizeWraps(|tokens| - 1 + SizeMaxPlusOne);
      ScanFromAgrees(tokens, |tokens| - 1);
      assert tokens[..|tokens|] == tokens;
    }
  }

  /** Reduction modulo `SIZE_MAX + 1` of a value below twice that. */
  lemma SizeWraps(n: nat)
    requires n < 2 * SizeMaxPlusOne
    ensures n % SizeMaxPlusOne == if n < SizeMaxPlusOne then n else n - SizeMaxPlusOne
  {
  }

  /** An output holding an empty line, such as "\n", gives such a line. */
  lemma EmptyLineHasNoTokens()
    ensures Lines("\n") == [""]
    ensures Tokens("", DelimiterSet(ThreadsDelimiters)) == []
    ensures ScanAsWritten([]) == ReadsOutOfRange(SizeMax)
  {
    assert IndexOf("\n", '\n') == Some(0);
    assert "\n"[1..] == [];
  }

  // ---------------------------------------------------------------------
  // !PrintException
  // ---------------------------------------------------------------------

  /** Eight hexadecimal digits start at position `j` of `line`. */
  predicate AddressAt(line: string, j: nat) {
    j + 8 <= |line| && IsHex8(line[j..j + 8])
  }

  /** The first place `[0-9a-fA-F]{8}` matches in `line`, searching from `from`. */
  function FindAddressFrom(line: string, from: nat): (r: Option<nat>)
    ensures r.Some? ==> from <= r.value && AddressAt(line, r.value)
    ensures r.Some? ==> forall j: nat :: from <= j < r.value ==> !AddressAt(line, j)
    ensures r.None? ==> forall j: nat :: from <= j ==> !AddressAt(line, j)
    decreases |line| - from
  {
    if from + 8 > |line| then None
    else if AddressAt(line, from) then Some(from)
    else FindAddressFrom(line, from + 1)
  }

  /** The address a `regex_search` for `[0-9a-fA-F]{8}` finds in `line`. */
  function FindAddress(line: string): (r: Option<string>)
    ensures r.Some? ==> IsHex8(r.value) && Contains(line, r.value)
    ensures r.None? ==> forall j: nat :: !AddressAt(line, j)
  {
    match FindAddressFrom(line, 0)
    case None => None
    case Some(a) =>
      assert OccursAt(line, line[a..a + 8], a);
      Some(line[a..a + 8])
  }

  /** The text after the last ' ' or ':' of a line, as `substr(find_last_of(" :") + 1)` gives it. */
  function AfterLastSeparator(line: string): (r: Option<string>)
    ensures r.Some? ==> ' ' !in r.value && ':' !in r.value
    ensures r.Some? ==> |r.value| < |line| && line[|line| - |r.value|..] == r.value
    ensures r.None? <==> ' ' !in line && ':' !in line
  {
    match FindLastOf(line, {' ', ':'})
    case None => None
    case Some(p) =>
      assert forall j :: p + 1 <= j < |line| ==> line[j] != ' ' && line[j] != ':';
      Some(line[p + 1..])
  }

  /** The frames read after the "Function" header, from line `k` up to an empty line or the end of the text. */
  datatype FrameRun = Frames(frames: seq<string>, next: nat) | FrameThrown

  /** Frame `i` of `frames` is line `k + i` of `ls`, non-empty and cut at `column`. */
  predicate FrameAt(ls: seq<string>, k: nat, column: nat, frames: seq<string>, i: nat) {
    && i < |frames|
    && k + i < |ls|
    && ls[k + i] != []
    && column <= |ls[k + i]|
    && frames[i] == ls[k + i][column..]
  }

  /**
    Each frame line is cut at the column of "Function"; a line shorter than
    that column makes `substr` throw `out_of_range`.
  */
  function StackFrames(ls: seq<string>, k: nat, column: nat): (r: FrameRun)
    requires k <= |ls|
    ensures r.Frames? ==> k <= r.next <= |ls| && r.next == k + |r.frames|
    ensures r.Frames? ==> r.next == |ls| || ls[r.next] == []
    ensures r.Frames? ==> forall i: nat :: i < |r.frames| ==> FrameAt(ls, k, column, r.frames, i)
    decreases |ls| - k
  {
    if k == |ls| || ls[k] == [] then Frames([], k)
    else if column > |ls[k]| then FrameThrown
    else
      match StackFrames(ls, k + 1, column)
      case FrameThrown => FrameThrown
      case Frames(fs, n) =>
        FramesShift(ls, k, k + 1, column, ls[k][column..], fs);
        Frames([ls[k][column..]] + fs, n)
  }

  lemma FramesShift(ls: seq<string>, k: nat, next: nat, column: nat, head: string, fs: seq<string>)
    requires next == k + 1
    requires forall i: nat :: i < |fs| ==> FrameAt(ls, next, column, fs, i)
    requires k < |ls| && ls[k] != [] && column <= |ls[k]| && head == ls[k][column..]
    ensures forall i: nat :: i < |fs| + 1 ==> FrameAt(ls, k, column, [head] + fs, i)
  {
    forall i: nat | i < |fs| + 1
      ensures FrameAt(ls, k, column, [head] + fs, i)
    {
      if i > 0 {
        assert FrameAt(ls, next, column, fs, i - 1);
      }
    }
  }

  /** The frames `pre` read before a run, put in front of it. */
  function Prefixed(pre: seq<string>, run: FrameRun): (r: FrameRun)
    ensures r.FrameThrown? <==> run.FrameThrown?
    ensures r.Frames? ==> r.frames == pre + run.frames && r.next == run.next
  {
    match run
    case FrameThrown => FrameThrown
    case Frames(fs, n) => Frames(pre + fs, n)
  }

  datatype PrintExceptionOutcome = Parsed(detail: ExceptionDetail) | NotParsed | OutOfRangeThrown

  /** What the six lines before the frames give: the exception object, its type, the inner exception object and the frame column. */
  datatype Header = Header(exceptionObject: string, exceptionType: string, innerExceptionObject: string, column: nat)

  /**
    The first six lines of `!PrintException` output: the exception object on
    line 0, the type after the last separator of line 1, the message line, an
    optional inner exception object on line 3, the "StackTrace (generated)"
    line and the column header, where "Function" marks the frame column.
  */
  function PrintExceptionHeader(ls: seq<string>): (r: Option<Header>)
    ensures r.Some? <==>
      |ls| >= 6 && FindAddress(ls[0]).Some? && AfterLastSeparator(ls[1]).Some? && FindLast(ls[5], "Function").Some?
  {
    if |ls| < 6 then None
    else
      var exceptionObject, exceptionType := FindAddress(ls[0]), AfterLastSeparator(ls[1]);
      var column := FindLast(ls[5], "Function");
      if exceptionObject.Some? && exceptionType.Some? && column.Some? then
        Some(Header(exceptionObject.value, exceptionType.value, FindAddress(ls[3]).GetOr(""), column.value))
      else None
  }

  /**
    How `!PrintException` output is read: the header lines, at least one frame
    up to an empty line, the StackTraceString line skipped, and the HResult
    after the last separator of the line after it. A missing line means no
    parse; a frame line shorter than the frame column throws.
  */
  function ParsePrintException(output: string): PrintExceptionOutcome {
    ParsePrintExceptionLines(Lines(output), output)
  }

  function ParsePrintExceptionLines(ls: seq<string>, output: string): PrintExceptionOutcome {
    match PrintExceptionHeader(ls)
    case None => NotParsed
    case Some(h) =>
      match StackFrames(ls, 6, h.column)
      case FrameThrown => OutOfRangeThrown
      case Frames(frames, next) =>
        if frames == [] || next + 2 >= |ls| then NotParsed
        else
          match AfterLastSeparator(ls[next + 2])
          case None => NotParsed
          case Some(hResult) =>
            Parsed(ExceptionDetail(h.exceptionObject, h.exceptionType, h.innerExceptionObject, frames, hResult, output))
  }

  /** Reads the six header lines one after the other; any missing line or unmatched pattern ends the parse. */
  method ReadPrintExceptionHeader(ls: seq<string>) returns (h: Option<Header>)
    ensures h == PrintExceptionHeader(ls)
  {
    // Line 0 holds the address of the exception object.
    if |ls| < 1 {
      return None;
    }
    var exceptionObject := FindAddress(ls[0]);
    if exceptionObject.None? {
      return None;
    }
    // Line 1 holds its type after the last separator.
    if |ls| < 2 {
      return None;
    }
    var exceptionType := AfterLastSeparator(ls[1]);
    if exceptionType.None? {
      return None;
    }
    // Line 2 is skipped; line 3 may hold the inner exception's address.
    if |ls| < 4 {
      return None;
    }
    var inner := "";
    var innerMatch := FindAddress(ls[3]);
    if innerMatch.Some? {
      inner := innerMatch.value;
    }
    // Line 4 is skipped; line 5 gives the column where the frames start.
    if |ls| < 6 {
      return None;
    }
    var column := FindLast(ls[5], "Function");
    if column.None? {
      return None;
    }
    return Some(Header(exceptionObject.value, exceptionType.value, inner, column.value));
  }

  /** Reads the detail of an exception from the output of `!PrintException`, line by line. */
  method TryParsePrintExceptionOutput(output: string) returns (r: PrintExceptionOutcome)
    ensures r == ParsePrintException(output)
  {
    var ls := Lines(output);
    r := ParseExceptionLines(ls, output);
  }

  method ParseExceptionLines(ls: seq<string>, output: string) returns (r: PrintExceptionOutcome)
    ensures r == ParsePrintExceptionLines(ls, output)
  {
    var header := ReadPrintExceptionHeader(ls);
    if header.None? {
      return NotParsed;
    }
    var h := header.value;
    var run := ReadStackFrames(ls, h.column);
    if run.FrameThrown? {
      return OutOfRangeThrown;
    }
    if run.frames == [] {
      return NotParsed;
    }
    // The empty line ended the frames; skip StackTraceString, then HResult
    if run.next + 2 >= |ls| {
      return NotParsed;
    }
    var hResult := AfterLastSeparator(ls[run.next + 2]);
    if hResult.None? {
      return NotParsed;
    }
    return Parsed(ExceptionDetail(h.exceptionObject, h.exceptionType, h.innerExceptionObject, run.frames, hResult.value, output));
  }

  /** Reads frame lines from line 6 up to an empty line or the end, cutting each at `column`. */
  method ReadStackFrames(ls: seq<string>, column: nat) returns (run: FrameRun)
    requires 6 <= |ls|
    ensures run == StackFrames(ls, 6, column)
  {
    var stackTraces := [];
    var k := 6;
    while k < |ls| && ls[k] != []
      invariant 6 <= k <= |ls|
      invariant StackFrames(ls, 6, column) == Prefixed(stackTraces, StackFrames(ls, k, column))
    {
      if column > |ls[k]| {
        return FrameThrown;
      }
      var frame := ls[k][column..];
      PrefixedStep(ls, k, column, stackTraces);
      stackTraces := stackTraces + [frame];
      k := k + 1;
    }
    return Frames(stackTraces, k);
  }

  /** Moving one frame line from the run to the frames already read. */
  lemma PrefixedStep(ls: seq<string>, k: nat, column: nat, pre: seq<string>)
    requires k < |ls| && ls[k] != [] && column <= |ls[k]|
    ensures Prefixed(pre, StackFrames(ls, k, column)) == Prefixed(pre + [ls[k][column..]], StackFrames(ls, k + 1, column))
  {
    var rest := StackFrames(ls, k + 1, column);
    if rest.Frames? {
      assert pre + ([ls[k][column..]] + rest.frames) == (pre + [ls[k][column..]]) + rest.frames;
    }
  }

  /**
    A successful parse yields an 8-digit exception object, an empty or 8-digit
    inner exception object, a non-empty stack, a type and an HResult free of
    ' ' and ':', and the raw text; so the blamed symbol is always defined.
  */
  lemma ParsedDetailShape(output: string)
    requires ParsePrintException(output).Parsed?
    ensures var d := ParsePrintException(output).detail;
      && IsHex8(d.exceptionObject)
      && (d.innerExceptionObject == [] || IsHex8(d.innerExceptionObject))
      && d.stackTraces != []
      && ' ' !in d.exceptionType && ':' !in d.exceptionType
      && ' ' !in d.hResult && ':' !in d.hResult
      && d.rawText == output
  {
  }

  /** Ten lines at least are needed: six header lines, a frame, the empty line, StackTraceString and HResult. */
  lemma ParsedNeedsTenLines(output: string)
    requires ParsePrintException(output).Parsed?
    ensures |Lines(output)| >= 10
  {
    var ls := Lines(output);
    var h := PrintExceptionHeader(ls).value;
    var run := StackFrames(ls, 6, h.column);
    assert run.Frames? && run.frames != [];
  }

  /** Each frame is the tail, from the "Function" column on, of a non-empty line after the header. */
  lemma ParsedFramesAreColumns(output: string)
    requires ParsePrintException(output).Parsed?
    ensures var ls := Lines(output);
      var d := ParsePrintException(output).detail;
      && FindLast(ls[5], "Function").Some?
      && var column := FindLast(ls[5], "Function").value;
      && 6 + |d.stackTraces| < |ls|
      && forall i: nat :: i < |d.stackTraces| ==> FrameAt(ls, 6, column, d.stackTraces, i)
  {
    var ls := Lines(output);
    var h := PrintExceptionHeader(ls).value;
    var run := StackFrames(ls, 6, h.column);
    assert run.Frames? && run.frames == ParsePrintException(output).detail.stackTraces;
  }

  // ---------------------------------------------------------------------
  // !threadpool
  // ---------------------------------------------------------------------

  const WorkerTotalLabel: string := "Worker Thread: Total: "

  const RunningLabel: string := " Running: "

  /** `s` starts with `prefix`, ignoring the case of ASCII letters. */
  predicate StartsWithIgnoreCase(s: string, prefix: string) {
    |prefix| <= |s| && EqualIgnoreCase(s[..|prefix|], prefix)
  }

  predicate AllDigits(s: string) {
    forall i :: 0 <= i < |s| ==> IsDigit(s[i])
  }

  /**
    The second number of a line of the form `<first label><digits><second
    label><digits>...`, the labels compared without regard to case: what a
    regular expression `^<first label>(\d+)<second label>(\d+)` captures
    last, read with `atoi`.
  */
  function SecondLabelledNumber(line: string, first: string, second: string): Option<nat> {
    if !StartsWithIgnoreCase(line, first) then None
    else
      var afterFirst := line[|first|..];
      var total := DigitRun(afterFirst);
      var rest := afterFirst[total..];
      if total == 0 || !StartsWithIgnoreCase(rest, second) then None
      else
        var running := rest[|second|..];
        var n := DigitRun(running);
        if n == 0 then None else Some(DecimalValue(running[..n]))
  }

  /** The running-worker count of a line matching `^Worker Thread: Total: (\d+) Running: (\d+)`, case ignored. */
  function WorkerLineRunning(line: string): Option<nat> {
    SecondLabelledNumber(line, WorkerTotalLabel, RunningLabel)
  }

  lemma {:induction false} DigitRunIs(s: string, n: nat)
    requires n <= |s| && AllDigits(s[..n])
    requires n < |s| ==> !IsDigit(s[n])
    ensures DigitRun(s) == n
  {
    if n > 0 {
      assert IsDigit(s[..n][0]);
      assert s[1..][..n - 1] == s[..n][1..];
      DigitRunIs(s[1..], n - 1);
    }
  }

  lemma LabelledRoundTrip(first: string, total: string, second: string, running: string, rest: string)
    requires total != [] && running != [] && AllDigits(total) && AllDigits(running)
    requires second != [] && !IsDigit(second[0])
    requires rest == [] || !IsDigit(rest[0])
    ensures SecondLabelledNumber(first + total + second + running + rest, first, second) == Some(DecimalValue(running))
  {
    RightNested(first, total, second, running, rest);
    LabelledLine(first + total + second + running + rest, first, total, second, running, rest);
  }

  lemma RightNested(a: string, b: string, c: string, d: string, e: string)
    ensures a + b + c + d + e == a + (b + (c + (d + e)))
  {
  }

  lemma LabelledLine(line: string, first: string, total: string, second: string, running: string, rest: string)
    requires total != [] && running != [] && AllDigits(total) && AllDigits(running)
    requires second != [] && !IsDigit(second[0])
    requires rest == [] || !IsDigit(rest[0])
    requires line == first + (total + (second + (running + rest)))
    ensures SecondLabelledNumber(line, first, second) == Some(DecimalValue(running))
  {
    var tail := running + rest;
    var afterTotal := second + tail;
    var afterFirst := total + afterTotal;
    LabelThen(first, afterFirst);
    DigitsThen(total, afterTotal);
    LabelThen(second, tail);
    DigitsThen(running, rest);
  }

  /** A label read at the front of a line, with the text after it. */
  lemma LabelThen(key: string, tail: string)
    ensures StartsWithIgnoreCase(key + tail, key)
    ensures (key + tail)[|key|..] == tail
  {
    assert (key + tail)[..|key|] == key;
  }

  /** A run of digits at the front of a text, ended by a non-digit or the end. */
  lemma DigitsThen(digits: string, tail: string)
    requires AllDigits(digits)
    requires tail == [] || !IsDigit(tail[0])
    ensures DigitRun(digits + tail) == |digits|
    ensures (digits + tail)[..|digits|] == digits && (digits + tail)[|digits|..] == tail
  {
    assert (digits + tail)[..|digits|] == digits;
    DigitRunIs(digits + tail, |digits|);
  }

  /** The line `!threadpool` prints for the worker threads gives back its running count. */
  lemma WorkerLineRoundTrip(total: string, running: string, rest: string)
    requires total != [] && running != [] && AllDigits(total) && AllDigits(running)
    requires rest == [] || !IsDigit(rest[0])
    ensures WorkerLineRunning(WorkerTotalLabel + total + RunningLabel + running + rest) == Some(DecimalValue(running))
  {
    assert RunningLabel[0] == ' ';
    LabelledRoundTrip(WorkerTotalLabel, total, RunningLabel, running, rest);
  }

  /**
    The number of running workers, from the first line of `!threadpool` output
    that matches the worker-thread pattern; no such line means no status.
  */
  function GetThreadPoolStatus(output: string): (r: Option<nat>)
    ensures r.None? <==> NoneAnywhere(Lines(output), WorkerLineRunning)
    ensures r.Some? ==> exists i: nat :: FirstSomeAt(Lines(output), WorkerLineRunning, i) && r == WorkerLineRunning(Lines(output)[i])
  {
    FirstSome(Lines(output), WorkerLineRunning)
  }

  // ---------------------------------------------------------------------
  // !do: the field table header
  // ---------------------------------------------------------------------

  /** Where the run of white space starting at `from` ends. */
  function SpaceEnd(s: string, from: nat): (e: nat)
    requires from <= |s|
    ensures from <= e <= |s|
    ensures forall k :: from <= k < e ==> IsSpace(s[k])
    ensures e < |s| ==> !IsSpace(s[e])
    decreases |s| - from
  {
    if from == |s| || !IsSpace(s[from]) then from else SpaceEnd(s, from + 1)
  }

  /** Where the run of non-blank characters starting at `from` ends. */
  function WordEnd(s: string, from: nat): (e: nat)
    requires from <= |s|
    ensures from <= e <= |s|
    ensures forall k :: from <= k < e ==> !IsSpace(s[k])
    ensures e < |s| ==> IsSpace(s[e])
    decreases |s| - from
  {
    if from == |s| || IsSpace(s[from]) then from else WordEnd(s, from + 1)
  }

  /** A column's width: a number of characters, or `npos` for the last column, which runs to the end of the line. */
  datatype ColumnLength = Chars(n: nat) | ToEnd

  /** A column of the field table: its title, where its leading blanks start, and its width. */
  datatype FieldHeader = FieldHeader(name: string, start: nat, length: ColumnLength)

  /** `h` is a column of `s`: one or more blanks, then its title, a maximal run of non-blanks. */
  predicate HeaderColumn(s: string, h: FieldHeader) {
    h.length.Chars? &&
    (var end := h.start + h.length.n;
     && 0 < |h.name| < h.length.n
     && end <= |s|
     && s[end - |h.name|..end] == h.name
     && (forall k :: h.start <= k < end - |h.name| ==> IsSpace(s[k]))
     && (forall k :: 0 <= k < |h.name| ==> !IsSpace(h.name[k]))
     && (end < |s| ==> IsSpace(s[end])))
  }

  /** The columns `^\s+(\S+)` matches one after another from `begin`. */
  function HeadersFrom(s: string, begin: nat): seq<FieldHeader>
    requires begin <= |s|
    decreases |s| - begin
  {
    var nameStart := SpaceEnd(s, begin);
    var end := WordEnd(s, nameStart);
    if nameStart == begin || end == nameStart then []
    else [FieldHeader(s[nameStart..end], begin, Chars(end - begin))] + HeadersFrom(s, end)
  }

  /**
    The headers found from `begin` are columns of the line, the first starting
    at `begin` and each next one where the one before ends.
  */
  lemma {:induction false} HeadersFromColumns(s: string, begin: nat)
    requires begin <= |s|
    ensures var hs := HeadersFrom(s, begin);
      && AllColumns(s, hs)
      && (hs != [] ==> hs[0].start == begin)
      && Chained(hs)
    decreases |s| - begin
  {
    var nameStart := SpaceEnd(s, begin);
    var end := WordEnd(s, nameStart);
    if nameStart != begin && end != nameStart {
      var h := FieldHeader(s[nameStart..end], begin, Chars(end - begin));
      FirstColumn(s, begin);
      HeadersFromColumns(s, end);
      ColumnsCons(s, h, HeadersFrom(s, end));
    }
  }

  /** Every header is a column of the line. */
  predicate AllColumns(s: string, hs: seq<FieldHeader>) {
    forall i :: 0 <= i < |hs| ==> HeaderColumn(s, hs[i])
  }

  /** Each column but the last has a width, and the next one starts where it ends. */
  predicate Chained(hs: seq<FieldHeader>) {
    forall i :: 0 <= i < |hs| - 1 ==> hs[i].length.Chars? && hs[i + 1].start == hs[i].start + hs[i].length.n
  }

  /** The first match from `begin`, when there is one, is a column of the line. */
  lemma FirstColumn(s: string, begin: nat)
    requires begin <= |s|
    requires SpaceEnd(s, begin) != begin && WordEnd(s, SpaceEnd(s, begin)) != SpaceEnd(s, begin)
    ensures var nameStart := SpaceEnd(s, begin);
      var end := WordEnd(s, nameStart);
      && HeaderColumn(s, FieldHeader(s[nameStart..end], begin, Chars(end - begin)))
      && HeadersFrom(s, begin) == [FieldHeader(s[nameStart..end], begin, Chars(end - begin))] + HeadersFrom(s, end)
  {
  }

  /** A column put in front of the columns that follow it. */
  lemma ColumnsCons(s: string, h: FieldHeader, rest: seq<FieldHeader>)
    requires HeaderColumn(s, h) && AllColumns(s, rest) && Chained(rest)
    requires rest != [] ==> rest[0].start == h.start + h.length.n
    ensures AllColumns(s, [h] + rest) && Chained([h] + rest)
  {
    var hs := [h] + rest;
    assert forall i :: 1 <= i < |hs| ==> hs[i] == rest[i - 1];
  }

  /** The last column runs to the end of the line. */
  function LastToEnd(hs: seq<FieldHeader>): (r: seq<FieldHeader>)
    ensures |r| == |hs|
    ensures forall i :: 0 <= i < |hs| - 1 ==> r[i] == hs[i]
    ensures hs != [] ==> r[|hs| - 1] == hs[|hs| - 1].(length := ToEnd)
  {
    if hs == [] then [] else hs[..|hs| - 1] + [hs[|hs| - 1].(length := ToEnd)]
  }

  /** Reads the column titles of the field table; it succeeds when there are exactly eight. */
  method ParseFieldHeaders(headerLine: string) returns (ok: bool, headers: seq<FieldHeader>)
    ensures headers == LastToEnd(HeadersFrom(headerLine, 0))
    ensures ok <==> |headers| == 8
  {
    headers := MatchHeaders(headerLine);
    if headers != [] {
      headers := headers[..|headers| - 1] + [headers[|headers| - 1].(length := ToEnd)];
    }
    ok := |headers| == 8;
  }

  /** Matches `^\s+(\S+)` again and again, each time from where the last match ended. */
  method MatchHeaders(headerLine: string) returns (headers: seq<FieldHeader>)
    ensures headers == HeadersFrom(headerLine, 0)
  {
    headers := [];
    var begin := 0;
    while true
      invariant begin <= |headerLine|
      invariant HeadersFrom(headerLine, 0) == headers + HeadersFrom(headerLine, begin)
      decreases |headerLine| - begin
    {
      var nameStart := SpaceEnd(headerLine, begin);
      var end := WordEnd(headerLine, nameStart);
      if nameStart == begin || end == nameStart {
        break;
      }
      var h := FieldHeader(headerLine[nameStart..end], begin, Chars(end - begin));
      FirstColumn(headerLine, begin);
      assert headers + ([h] + HeadersFrom(headerLine, end)) == (headers + [h]) + HeadersFrom(headerLine, end);
      headers := headers + [h];
      begin := end;
    }
  }

  /** Column starts strictly increase: each column begins where the one before it ends. */
  lemma {:induction false} HeaderStartsIncrease(s: string, begin: nat, i: nat, j: nat)
    requires begin <= |s|
    requires i < j < |HeadersFrom(s, begin)|
    ensures var hs := HeadersFrom(s, begin);
      hs[i].length.Chars? && hs[i].start + hs[i].length.n <= hs[j].start
    decreases j - i
  {
    var hs := HeadersFrom(s, begin);
    HeadersFromColumns(s, begin);
    assert HeaderColumn(s, hs[j - 1]);
    if i < j - 1 {
      HeaderStartsIncrease(s, begin, i, j - 1);
    }
  }

  /** The eight columns of a `!do` field table, as a successful `ParseFieldHeaders` leaves them. */
  predicate TableHeaders(headers: seq<FieldHeader>) {
    && |headers| == 8
    && headers[0].start == 0
    && headers[7].length == ToEnd
    && (forall i :: 0 <= i < 7 ==> headers[i].start < headers[i + 1].start)
    && (forall i :: 0 <= i < 7 ==> headers[i].length == Chars(headers[i + 1].start - headers[i].start))
    && (forall i :: 0 <= i < 7 ==> headers[i].start < headers[7].start)
  }

  /** A successful header parse yields the eight tiling columns the rows are cut by. */
  lemma FieldHeadersTable(headerLine: string)
    requires |LastToEnd(HeadersFrom(headerLine, 0))| == 8
    ensures TableHeaders(LastToEnd(HeadersFrom(headerLine, 0)))
  {
    var hs := HeadersFrom(headerLine, 0);
    var r := LastToEnd(hs);
    HeadersFromColumns(headerLine, 0);
    forall i | 0 <= i < 7
      ensures r[i].start < r[7].start
    {
      HeaderStartsIncrease(headerLine, 0, i, 7);
    }
    forall i | 0 <= i < 7
      ensures r[i].start < r[i + 1].start
    {
      assert HeaderColumn(headerLine, hs[i]);
    }
  }

  // ---------------------------------------------------------------------
  // !do: the field rows
  // ---------------------------------------------------------------------

  /** The value `SetFieldValue` stores: the trimmed text, read with `atoi` for the numeric columns. */
  function WithFieldValue(field: FieldInfo, name: string, value: string): FieldInfo {
    var v := Trimmed(value);
    if name == "MT" then field.(methodTable := v)
    else if name == "Offset" then field.(offset := Atoi(v))
    else if name == "VT" then field.(isValueType := Atoi(v) != 0)
    else if name == "Value" then field.(value := v)
    else if name == "Name" then field.(name := v)
    else field
  }

  /** Stores the trimmed `value` in the member of `field` that column `name` describes; other columns are ignored. */
  method SetFieldValue(field: FieldInfo, name: string, value: string) returns (r: FieldInfo)
    ensures r == WithFieldValue(field, name, value)
  {
    var v := Trim(value);
    if name == "MT" {
      r := field.(methodTable := v);
    } else if name == "Offset" {
      r := field.(offset := Atoi(v));
    } else if name == "VT" {
      r := field.(isValueType := Atoi(v) != 0);
    } else if name == "Value" {
      r := field.(value := v);
    } else if name == "Name" {
      r := field.(name := v);
    } else {
      r := field;
    }
  }

  function Spaces(n: nat): (r: string)
    ensures |r| == n && forall k :: 0 <= k < n ==> r[k] == ' '
  {
    seq(n, _ => ' ')
  }

  /** Blanks around a cell do not matter: the column's member gets the same value. */
  lemma PaddingIgnored(field: FieldInfo, name: string, value: string, before: nat, after: nat)
    ensures WithFieldValue(field, name, Spaces(before) + value + Spaces(after)) == WithFieldValue(field, name, value)
  {
    TrimmedPadding(value, before, after);
  }

  lemma TrimmedPadding(value: string, before: nat, after: nat)
    ensures Trimmed(Spaces(before) + value + Spaces(after)) == Trimmed(value)
  {
    var padded := Spaces(before) + value + Spaces(after);
    var first := FindFirstNotOf(value, ' ', 0);
    if first.None? {
      TrimAllBlank(value);
      TrimAllBlank(padded);
    } else {
      var last := FindLastNotOf(value, ' ');
      TrimmedIsSlice(value, first.value, last.value);
      TrimmedIsSlice(padded, before + first.value, before + last.value);
      assert padded[before + first.value..before + last.value + 1] == value[first.value..last.value + 1];
    }
  }

  /** Text stored by `SetFieldValue` has no blank at either end. */
  lemma StoredTextTrimmed(field: FieldInfo, name: string, value: string)
    requires name in {"MT", "Value", "Name"}
    ensures var r := WithFieldValue(field, name, value);
      Trimmed(r.methodTable) == r.methodTable || name != "MT"
    ensures var r := WithFieldValue(field, name, value);
      Trimmed(r.value) == r.value || name != "Value"
    ensures var r := WithFieldValue(field, name, value);
      Trimmed(r.name) == r.name || name != "Name"
  {
    TrimmedIdempotent(value);
  }

  /** `std::string(line, h.start, h.length)`: the text of column `h`, cut short at the end of the line. */
  function ColumnText(line: string, h: FieldHeader): (r: string)
    requires h.start <= |line|
    ensures |r| <= |line| - h.start && r == line[h.start..h.start + |r|]
  {
    match h.length
    case ToEnd => line[h.start..]
    case Chars(n) => line[h.start..if h.start + n <= |line| then h.start + n else |line|]
  }

  /** Where the next word after `from` lies: blanks skipped, then non-blanks taken. */
  function WordBounds(line: string, from: nat): (r: (nat, nat))
    requires from <= |line|
    ensures from <= r.0 <= r.1 <= |line|
    ensures forall k :: from <= k < r.0 ==> IsSpace(line[k])
    ensures forall k :: r.0 <= k < r.1 ==> !IsSpace(line[k])
    ensures r.0 < |line| ==> r.0 < r.1
    ensures r.1 < |line| ==> IsSpace(line[r.1])
  {
    var s := SpaceEnd(line, from);
    (s, WordEnd(line, s))
  }

  /**
    A row of the field table, read column by column from column `i` on: the
    first six columns are cut at their header's position, the last two (value
    and name, which SOS does not align) are the next two words.
  */
  function RowFrom(line: string, headers: seq<FieldHeader>, i: nat, start: nat, field: FieldInfo): FieldInfo
    requires TableHeaders(headers) && headers[7].start < |line|
    requires i <= 8 && start <= |line|
    decreases 8 - i
  {
    if i == 8 then field
    else if i < 6 then
      RowFrom(line, headers, i + 1, headers[i + 1].start,
        WithFieldValue(field, headers[i].name, ColumnText(line, headers[i])))
    else
      var word := WordBounds(line, start);
      RowFrom(line, headers, i + 1, word.1, WithFieldValue(field, headers[i].name, line[word.0..word.1]))
  }

  function RowField(line: string, headers: seq<FieldHeader>): FieldInfo
    requires TableHeaders(headers) && headers[7].start < |line|
  {
    RowFrom(line, headers, 0, 0, EmptyField)
  }

  /** One column of a row: a fixed column for the first six, the next word for the others. */
  lemma FixedColumnStep(line: string, headers: seq<FieldHeader>, i: nat, start: nat, field: FieldInfo)
    requires TableHeaders(headers) && headers[7].start < |line|
    requires i < 6 && start <= |line|
    ensures headers[i + 1].start <= |line|
    ensures RowFrom(line, headers, i, start, field) ==
      RowFrom(line, headers, i + 1, headers[i + 1].start, WithFieldValue(field, headers[i].name, ColumnText(line, headers[i])))
  {
  }

  lemma WordColumnStep(line: string, headers: seq<FieldHeader>, i: nat, start: nat, field: FieldInfo)
    requires TableHeaders(headers) && headers[7].start < |line|
    requires 6 <= i < 8 && start <= |line|
    ensures var word := WordBounds(line, start);
      RowFrom(line, headers, i, start, field) ==
      RowFrom(line, headers, i + 1, word.1, WithFieldValue(field, headers[i].name, line[word.0..word.1]))
  {
  }

  /** Skips the blanks from `start`, then the word after them; returns where the word starts and ends. */
  method NextWord(line: string, start: nat) returns (wordStart: nat, wordEnd: nat)
    requires start <= |line|
    ensures (wordStart, wordEnd) == WordBounds(line, start)
  {
    ghost var word := WordBounds(line, start);
    wordStart := start;
    while wordStart < |line| && IsSpace(line[wordStart])
      invariant start <= wordStart <= word.0
    {
      wordStart := wordStart + 1;
    }
    wordEnd := wordStart;
    while wordEnd < |line| && !IsSpace(line[wordEnd])
      invariant wordStart <= wordEnd <= word.1
    {
      wordEnd := wordEnd + 1;
    }
  }

  /** Reads one row of the field table into a fresh `FieldInfo`. */
  method ParseFieldRow(line: string, headers: seq<FieldHeader>) returns (field: FieldInfo)
    requires TableHeaders(headers) && headers[7].start < |line|
    ensures field == RowField(line, headers)
  {
    var start: nat := 0;
    field := EmptyField;
    for fieldIndex := 0 to |headers|
      invariant start <= |line|
      invariant RowField(line, headers) == RowFrom(line, headers, fieldIndex, start, field)
    {
      start, field := ReadColumn(line, headers, fieldIndex, start, field);
    }
  }

  /** Reads column `i` of a row: a fixed column for the first six, the next word for the others. */
  method ReadColumn(line: string, headers: seq<FieldHeader>, i: nat, start: nat, field: FieldInfo)
    returns (next: nat, updated: FieldInfo)
    requires TableHeaders(headers) && headers[7].start < |line|
    requires i < 8 && start <= |line|
    ensures next <= |line|
    ensures RowFrom(line, headers, i, start, field) == RowFrom(line, headers, i + 1, next, updated)
  {
    var h := headers[i];
    if i < 6 {
      FixedColumnStep(line, headers, i, start, field);
      assert h.length == Chars(headers[i + 1].start - h.start);
      var value := ColumnText(line, h);
      updated := SetFieldValue(field, h.name, value);
      next := h.start + h.length.n;
      assert next == headers[i + 1].start;
    } else {
      WordColumnStep(line, headers, i, start, field);
      var wordStart, wordEnd := NextWord(line, start);
      updated := SetFieldValue(field, h.name, line[wordStart..wordEnd]);
      next := wordEnd;
    }
  }

  // ---------------------------------------------------------------------
  // !do: the object header and the whole output
  // ---------------------------------------------------------------------

  /** The text after the blanks that follow the ':' at `sep`, if any: `assign(line, find_first_not_of(' ', sep + 1))`. */
  function ValueAfter(line: string, sep: nat): (r: Option<string>)
    requires sep < |line|
    ensures r.Some? ==> r.value != [] && r.value[0] != ' ' && |r.value| < |line| - sep
    ensures r.Some? ==> line[|line| - |r.value|..] == r.value
    ensures r.None? <==> forall k :: sep < k < |line| ==> line[k] == ' '
  {
    match FindFirstNotOf(line, ' ', sep + 1)
    case None => None
    case Some(start) => Some(line[start..])
  }

  /**
    `strncmp(line, key, sep) == 0` for a line whose first ':' is at `sep`: the
    text before the ':' is a prefix of `key`, so a shorter text matches too.
  */
  predicate KeyIs(line: string, sep: nat, key: string)
    requires sep <= |line|
  {
    line[..sep] <= key
  }

  /** `key:`, some blanks, and a value: the first ':' is the one after the key, and the value is read back. */
  lemma KeyedValue(key: string, pad: nat, value: string)
    requires ':' !in key && value != [] && value[0] != ' '
    ensures var line := key + ":" + Spaces(pad) + value;
      && IndexOf(line, ':') == Some(|key|)
      && ValueAfter(line, |key|) == Some(value)
      && line[..|key|] == key
  {
    var line := key + ":" + Spaces(pad) + value;
    assert line[|key|] == ':';
    assert forall k :: 0 <= k < |key| ==> line[k] == key[k];
    assert forall k :: |key| < k < |key| + 1 + pad ==> line[k] == ' ';
    assert line[|key| + 1 + pad] == value[0];
    assert FindFirstNotOf(line, ' ', |key| + 1) == Some(|key| + 1 + pad);
    assert line[|key| + 1 + pad..] == value;
    assert line[..|key|] == key;
  }

  /** What reading one header line has done: go on, or stop because the field table follows. */
  datatype HeaderStep = Continue(typeName: string, stringValue: string) | FieldsFollow(typeName: string, stringValue: string)

  /**
    One line of the object header: a "Name" key sets the type name, a
    "String" key sets the string value, and otherwise a "Fields" key ends the
    header. A key with no value after it changes nothing.
  */
  function ObjectHeaderLine(line: string, typeName: string, stringValue: string): HeaderStep {
    match IndexOf(line, ':')
    case None => Continue(typeName, stringValue)
    case Some(sep) =>
      var value := ValueAfter(line, sep);
      var t := if KeyIs(line, sep, "Name") && value.Some? then value.value else typeName;
      if KeyIs(line, sep, "String") then Continue(t, if value.Some? then value.value else stringValue)
      else if KeyIs(line, sep, "Fields") then FieldsFollow(t, stringValue)
      else Continue(t, stringValue)
  }

  /** The `Name:` line of `!do` output gives the type of the object. */
  lemma NameLineSetsType(pad: nat, typeName: string, t0: string, s0: string)
    requires typeName != [] && typeName[0] != ' '
    ensures ObjectHeaderLine("Name" + ":" + Spaces(pad) + typeName, t0, s0) == Continue(typeName, s0)
  {
    KeyedHeaderLine("Name", pad, typeName, t0, s0);
    assert !("Name" <= "String") by { assert "Name"[0] != "String"[0]; }
    assert !("Name" <= "Fields") by { assert "Name"[0] != "Fields"[0]; }
  }

  /** The `String:` line of `!do` output on a string gives its text. */
  lemma StringLineSetsValue(pad: nat, text: string, t0: string, s0: string)
    requires text != [] && text[0] != ' '
    ensures ObjectHeaderLine("String" + ":" + Spaces(pad) + text, t0, s0) == Continue(t0, text)
  {
    KeyedHeaderLine("String", pad, text, t0, s0);
    assert !("String" <= "Name") by { assert |"Name"| < |"String"|; }
  }

  /** The `Fields:` line ends the header. */
  lemma FieldsLineEndsHeader(t0: string, s0: string)
    ensures ObjectHeaderLine("Fields" + ":", t0, s0) == FieldsFollow(t0, s0)
  {
    BareKeyHeaderLine("Fields", t0, s0);
    DifferentAt("Fields", "String", 0);
  }

  /** A `key:` line with nothing after the ':' sets nothing; only the key decides whether the header ends. */
  lemma BareKeyHeaderLine(key: string, t0: string, s0: string)
    requires ':' !in key
    ensures ObjectHeaderLine(key + ":", t0, s0) ==
      if key <= "String" then Continue(t0, s0)
      else if key <= "Fields" then FieldsFollow(t0, s0)
      else Continue(t0, s0)
  {
    var line := key + ":";
    assert line[|key|] == ':' && line[..|key|] == key;
    assert IndexOf(line, ':') == Some(|key|);
    assert ValueAfter(line, |key|).None?;
  }

  /** Any key that is a prefix of "Name", such as "Na", sets the type name as well. */
  lemma ShortKeySetsType(pad: nat, typeName: string, t0: string, s0: string)
    requires typeName != [] && typeName[0] != ' '
    ensures ObjectHeaderLine("Na" + ":" + Spaces(pad) + typeName, t0, s0) == Continue(typeName, s0)
  {
    KeyedHeaderLine("Na", pad, typeName, t0, s0);
    assert "Na" <= "Name" by { assert "Name"[..2] == "Na"; }
    assert !("Na" <= "String") by { assert "Na"[0] != "String"[0]; }
    assert !("Na" <= "Fields") by { assert "Na"[0] != "Fields"[0]; }
  }

  /** A `key:` line with a value: what the header scan does with it depends on the key alone. */
  lemma KeyedHeaderLine(key: string, pad: nat, value: string, t0: string, s0: string)
    requires ':' !in key && value != [] && value[0] != ' '
    ensures ObjectHeaderLine(key + ":" + Spaces(pad) + value, t0, s0) ==
      var t := if key <= "Name" then value else t0;
      if key <= "String" then Continue(t, value)
      else if key <= "Fields" then FieldsFollow(t, s0)
      else Continue(t, s0)
  {
    KeyedValue(key, pad, value);
  }

  /** The header as read so far, and the index of the line that announced the field table. */
  datatype ObjectHeader = ObjectHeader(typeName: string, stringValue: string, fieldsLine: Option<nat>)

  /**
    The header scan over lines `k` onwards, starting from what was read before
    them. What each kind of line does is stated by NameLineSetsType,
    StringLineSetsValue, ShortKeySetsType and FieldsLineEndsHeader.
  */
  function ObjectHeaderFrom(ls: seq<string>, k: nat, typeName: string, stringValue: string): (r: ObjectHeader)
    requires k <= |ls|
    ensures r.fieldsLine.Some? ==> k <= r.fieldsLine.value < |ls|
    decreases |ls| - k
  {
    if k == |ls| then ObjectHeader(typeName, stringValue, None)
    else match ObjectHeaderLine(ls[k], typeName, stringValue)
      case FieldsFollow(t, s) => ObjectHeader(t, s, Some(k))
      case Continue(t, s) => ObjectHeaderFrom(ls, k + 1, t, s)
  }

  /** Reads the header lines of `!do` output up to the `Fields:` line. */
  method ReadObjectHeader(ls: seq<string>, stringValue: string) returns (header: ObjectHeader)
    ensures header == ObjectHeaderFrom(ls, 0, "", stringValue)
  {
    var typeName, text := "", stringValue;
    var k := 0;
    while k < |ls|
      invariant k <= |ls|
      invariant ObjectHeaderFrom(ls, 0, "", stringValue) == ObjectHeaderFrom(ls, k, typeName, text)
    {
      var line := ls[k];
      var sep := IndexOf(line, ':');
      if sep.Some? {
        var value := ValueAfter(line, sep.value);
        if line[..sep.value] <= "Name" && value.Some? {
          typeName := value.value;
        }
        if line[..sep.value] <= "String" {
          if value.Some? {
            text := value.value;
          }
        } else if line[..sep.value] <= "Fields" {
          return ObjectHeader(typeName, text, Some(k));
        }
      }
      k := k + 1;
    }
    return ObjectHeader(typeName, text, None);
  }

  /** A row the field loop passes over: empty, indented, or not reaching the last column. */
  predicate SkippedRow(line: string, headers: seq<FieldHeader>)
    requires |headers| == 8
  {
    line == [] || IsSpace(line[0]) || |line| <= headers[7].start
  }

  /** The fields of the rows that are not passed over, in order. */
  function FieldRows(rows: seq<string>, headers: seq<FieldHeader>): (r: seq<FieldInfo>)
    requires TableHeaders(headers)
    ensures |r| <= |rows|
  {
    if rows == [] then []
    else
      var last := rows[|rows| - 1];
      FieldRows(rows[..|rows| - 1], headers) + (if SkippedRow(last, headers) then [] else [RowField(last, headers)])
  }

  /** The fields of the table that starts after the `Fields:` line at `k`, when its header has eight columns. */
  function FieldTable(ls: seq<string>, k: nat): seq<FieldInfo>
    requires k < |ls|
  {
    if k + 1 == |ls| then []
    else
      var headers := LastToEnd(HeadersFrom(ls[k + 1], 0));
      if |headers| != 8 then []
      else
        FieldHeadersTable(ls[k + 1]);
        FieldRows(ls[k + 2..], headers)
  }

  /**
    What `!do` output leaves in an object description: the type name, the
    string value (kept from before when the output has none) and the fields.
    Fields are read only once a type name is known.
  */
  function DumpObject(dump: string, info: ObjectInfo): (r: ObjectInfo)
    ensures r.address == info.address
    ensures r.fields != [] ==> r.typeName != []
  {
    var ls := Lines(dump);
    var header := ObjectHeaderFrom(ls, 0, "", info.stringValue);
    var fields :=
      if header.fieldsLine.Some? && header.typeName != [] then FieldTable(ls, header.fieldsLine.value) else [];
    info.(typeName := header.typeName, stringValue := header.stringValue, fields := fields)
  }

  /** Reads the field table's rows, passing over the ones that hold no field. */
  method ReadFieldRows(rows: seq<string>, headers: seq<FieldHeader>) returns (fields: seq<FieldInfo>)
    requires TableHeaders(headers)
    ensures fields == FieldRows(rows, headers)
  {
    fields := [];
    for j := 0 to |rows|
      invariant fields == FieldRows(rows[..j], headers)
    {
      var line := rows[j];
      assert rows[..j + 1][..j] == rows[..j];
      if !(line == [] || IsSpace(line[0]) || |line| <= headers[7].start) {
        var field := ParseFieldRow(line, headers);
        fields := fields + [field];
      }
    }
    assert rows[..|rows|] == rows;
  }

  /** Describes an object from the output of `!do`; it succeeds when both a type name and fields were found. */
  method ParseDumpObjectOutput(dump: string, objectInfo: ObjectInfo) returns (ok: bool, info: ObjectInfo)
    ensures info == DumpObject(dump, objectInfo)
    ensures ok <==> info.typeName != [] && info.fields != []
  {
    var ls := Lines(dump);
    var header := ReadObjectHeader(ls, objectInfo.stringValue);
    var fields := [];
    if header.fieldsLine.Some? && header.typeName != [] {
      var k := header.fieldsLine.value;
      if k + 1 < |ls| {
        var found, headers := ParseFieldHeaders(ls[k + 1]);
        if found {
          FieldHeadersTable(ls[k + 1]);
          fields := ReadFieldRows(ls[k + 2..], headers);
        }
      }
    }
    info := objectInfo.(typeName := header.typeName, stringValue := header.stringValue, fields := fields);
    ok := header.typeName != [] && fields != [];
  }

  /** Fields come only with a `Fields:` line followed by an eight-column header, and at most one per later line. */
  lemma DumpObjectFieldsShape(dump: string, info: ObjectInfo)
    requires DumpObject(dump, info).fields != []
    ensures var ls := Lines(dump);
      var header := ObjectHeaderFrom(ls, 0, "", info.stringValue);
      && header.fieldsLine.Some?
      && var k := header.fieldsLine.value;
      && k + 2 < |ls|
      && |LastToEnd(HeadersFrom(ls[k + 1], 0))| == 8
      && |DumpObject(dump, info).fields| <= |ls| - (k + 2)
  {
  }

  // ---------------------------------------------------------------------
  // !name2ee
  // ---------------------------------------------------------------------

  /** The method table a line of `!name2ee` output gives: the value of a key that is a prefix of "MethodTable". */
  function Name2EELine(line: string): Option<string> {
    match IndexOf(line, ':')
    case None => None
    case Some(sep) =>
      match ValueAfter(line, sep)
      case None => None
      case Some(v) => if KeyIs(line, sep, "MethodTable") then Some(v) else None
  }

  /** The method table of the first line of `!name2ee` output that gives one. */
  function ParseName2EEOutput(output: string): (r: Option<string>)
    ensures r.None? <==> NoneAnywhere(Lines(output), Name2EELine)
    ensures r.Some? ==> exists i: nat :: FirstSomeAt(Lines(output), Name2EELine, i) && r == Name2EELine(Lines(output)[i])
  {
    FirstSome(Lines(output), Name2EELine)
  }

  /** The `MethodTable:` line gives back its value. */
  lemma MethodTableLineRoundTrip(pad: nat, methodTable: string)
    requires methodTable != [] && methodTable[0] != ' '
    ensures Name2EELine("MethodTable" + ":" + Spaces(pad) + methodTable) == Some(methodTable)
  {
    KeyedName2EELine("MethodTable", pad, methodTable);
  }

  /** The `Module:` line that `!name2ee` prints first gives no method table. */
  lemma ModuleLineSkipped(pad: nat, moduleName: string)
    requires moduleName != [] && moduleName[0] != ' '
    ensures Name2EELine("Module" + ":" + Spaces(pad) + moduleName) == None
  {
    KeyedName2EELine("Module", pad, moduleName);
    DifferentAt("Module", "MethodTable", 1);
  }

  /** Texts that differ at some position are not prefixes of one another. */
  lemma DifferentAt(a: string, b: string, i: nat)
    requires i < |a| && i < |b| && a[i] != b[i]
    ensures !(a <= b)
  {
    assert |a| <= |b| ==> b[..|a|][i] == b[i];
  }

  /** A `key:` line with a value gives that value exactly when the key is a prefix of "MethodTable". */
  lemma KeyedName2EELine(key: string, pad: nat, value: string)
    requires ':' !in key && value != [] && value[0] != ' '
    ensures Name2EELine(key + ":" + Spaces(pad) + value) == if key <= "MethodTable" then Some(value) else None
  {
    KeyedValue(key, pad, value);
  }

  // ---------------------------------------------------------------------
  // Field lookup
  // ---------------------------------------------------------------------

  /** `i` is the first field named `fieldName`. */
  predicate FirstNamed(fields: seq<FieldInfo>, fieldName: string, i: nat) {
    i < |fields| && fields[i].name == fieldName && forall j :: 0 <= j < i ==> fields[j].name != fieldName
  }

  /** The first field of the object with the given name. */
  function GetFieldInfo(objectInfo: ObjectInfo, fieldName: string): (r: Option<FieldInfo>)
    ensures r.Some? ==> exists i: nat :: FirstNamed(objectInfo.fields, fieldName, i) && r.value == objectInfo.fields[i]
    ensures r.None? <==> forall i :: 0 <= i < |objectInfo.fields| ==> objectInfo.fields[i].name != fieldName
  {
    match FirstWhere(objectInfo.fields, (f: FieldInfo) => f.name == fieldName)
    case None => None
    case Some(i) =>
      assert FirstNamed(objectInfo.fields, fieldName, i);
      Some(objectInfo.fields[i])
  }
}
