/**
  Detection of an exhausted CLR thread pool in a dump, and the call stacks
  blamed for it. The pool is exhausted when `!ThreadPool` reports at least
  20 running workers. The threads that are executing a thread-pool work
  request are then grouped by their call stacks, the groups are sorted by
  size, and every stack shared by at least 10 threads is reported.

  What the debugger prints for `!ThreadPool` and for `~Nk` on each thread
  comes in as parameters. So does the parser of one `k` frame, whose regular
  expression is not part of this model.
*/
module ThreadPoolExhausted {
  import opened Text
  import Helpers

  const ThresholdToDetectThreadPoolExhausted: nat := 20

  const ThresholdToBlameCallStack: nat := 10

  /** The frame through which the CLR runs a thread-pool work item. */
  const ExecuteWorkRequestFrame := "clr!ThreadpoolMgr::ExecuteWorkRequest"

  /** A debuggee thread, by its debugger index, with the functions on its stack from the top down. */
  datatype Thread = Thread(id: nat, frames: seq<string>)

  /** A distinct call stack and how many threads share it. */
  datatype Group = Group(frames: seq<string>, count: nat)

  // ---------------------------------------------------------------------
  // The order on call stacks
  // ---------------------------------------------------------------------

  /** The sign of `std::string::compare`: by character codes, a proper prefix first. */
  function Compare(a: string, b: string): (r: int)
    ensures -1 <= r <= 1
  {
    if a == [] then (if b == [] then 0 else -1)
    else if b == [] then 1
    else if a[0] < b[0] then -1
    else if a[0] > b[0] then 1
    else Compare(a[1..], b[1..])
  }

  lemma {:induction false} CompareZeroIffEqual(a: string, b: string)
    ensures Compare(a, b) == 0 <==> a == b
  {
    if a != [] && b != [] && a[0] == b[0] {
      CompareZeroIffEqual(a[1..], b[1..]);
      assert a == [a[0]] + a[1..] && b == [b[0]] + b[1..];
    }
  }

  lemma {:induction false} CompareAntisymmetric(a: string, b: string)
    ensures Compare(b, a) == -Compare(a, b)
  {
    if a != [] && b != [] && a[0] == b[0] {
      CompareAntisymmetric(a[1..], b[1..]);
    }
  }

  lemma {:induction false} CompareTransitive(a: string, b: string, c: string)
    requires Compare(a, b) < 0 && Compare(b, c) < 0
    ensures Compare(a, c) < 0
  {
    if a != [] && b != [] && c != [] && a[0] == b[0] && b[0] == c[0] {
      CompareTransitive(a[1..], b[1..], c[1..]);
    }
  }

  /** Stacks of equal depth: the first frame that differs decides. */
  function LexLess(left: seq<string>, right: seq<string>): bool
    requires |left| == |right|
  {
    if left == [] then false
    else if Compare(left[0], right[0]) != 0 then Compare(left[0], right[0]) < 0
    else LexLess(left[1..], right[1..])
  }

  /** The order of `LessThanFrames`: a shallower stack first, then by the first differing frame. */
  function FramesLess(left: seq<string>, right: seq<string>): bool {
    if |left| != |right| then |left| < |right| else LexLess(left, right)
  }

  /** The comparator on call stacks. */
  method LessThanFrames(left: seq<string>, right: seq<string>) returns (less: bool)
    ensures less == FramesLess(left, right)
  {
    if |left| != |right| {
      return |left| < |right|;
    }
    for i := 0 to |left|
      invariant LexLess(left, right) == LexLess(left[i..], right[i..])
    {
      assert left[i..][1..] == left[i + 1..] && right[i..][1..] == right[i + 1..];
      var result := Compare(left[i], right[i]);
      if result != 0 {
        return result < 0;
      }
    }
    return false;
  }

  lemma {:induction false} LexLessIrreflexive(s: seq<string>)
    ensures !LexLess(s, s)
  {
    if s != [] {
      CompareZeroIffEqual(s[0], s[0]);
      LexLessIrreflexive(s[1..]);
    }
  }

  lemma {:induction false} LexLessAsymmetric(a: seq<string>, b: seq<string>)
    requires |a| == |b| && LexLess(a, b)
    ensures !LexLess(b, a)
  {
    CompareAntisymmetric(a[0], b[0]);
    if Compare(a[0], b[0]) == 0 {
      LexLessAsymmetric(a[1..], b[1..]);
    }
  }

  lemma {:induction false} LexLessTransitive(a: seq<string>, b: seq<string>, c: seq<string>)
    requires |a| == |b| == |c| && LexLess(a, b) && LexLess(b, c)
    ensures LexLess(a, c)
  {
    CompareZeroIffEqual(a[0], b[0]);
    CompareZeroIffEqual(b[0], c[0]);
    if Compare(a[0], b[0]) == 0 && Compare(b[0], c[0]) == 0 {
      LexLessTransitive(a[1..], b[1..], c[1..]);
    } else if Compare(a[0], b[0]) < 0 && Compare(b[0], c[0]) < 0 {
      CompareTransitive(a[0], b[0], c[0]);
    }
  }

  lemma {:induction false} LexLessTotal(a: seq<string>, b: seq<string>)
    requires |a| == |b| && a != b
    ensures LexLess(a, b) || LexLess(b, a)
  {
    CompareZeroIffEqual(a[0], b[0]);
    CompareAntisymmetric(a[0], b[0]);
    if Compare(a[0], b[0]) == 0 {
      assert a == [a[0]] + a[1..] && b == [b[0]] + b[1..];
      LexLessTotal(a[1..], b[1..]);
    }
  }

  /** No stack is less than itself. */
  lemma FramesLessIrreflexive(s: seq<string>)
    ensures !FramesLess(s, s)
  {
    LexLessIrreflexive(s);
  }

  lemma FramesLessTransitive(a: seq<string>, b: seq<string>, c: seq<string>)
    requires FramesLess(a, b) && FramesLess(b, c)
    ensures FramesLess(a, c)
  {
    if |a| == |b| == |c| {
      LexLessTransitive(a, b, c);
    }
  }

  /**
    Of two stacks exactly one is less, unless they are equal; so the stacks
    a map keyed by this order treats as the same key are the equal ones.
  */
  lemma FramesLessTrichotomy(a: seq<string>, b: seq<string>)
    ensures a == b <==> !FramesLess(a, b) && !FramesLess(b, a)
    ensures !(FramesLess(a, b) && FramesLess(b, a))
  {
    if a == b {
      FramesLessIrreflexive(a);
    } else if |a| == |b| {
      LexLessTotal(a, b);
    }
    if |a| == |b| && LexLess(a, b) {
      LexLessAsymmetric(a, b);
    }
  }

  // ---------------------------------------------------------------------
  // The decision and the thread-pool workers
  // ---------------------------------------------------------------------

  /**
    The decision of `IsThreadPoolExhausted`, given what `!ThreadPool`
    printed, or `None` when the command failed.
  */
  function IsThreadPoolExhausted(threadPoolOutput: Option<string>): bool {
    match threadPoolOutput
    case None => false
    case Some(output) =>
      match Helpers.GetThreadPoolStatus(output)
      case None => false
      case Some(running) => running >= ThresholdToDetectThreadPoolExhausted
  }

  /** On a worker-thread line the verdict is "at least 20 running workers". */
  lemma ExhaustedByRunningWorkers(total: string, running: string, rest: string)
    requires total != [] && Helpers.AllDigits(total) && running != [] && Helpers.AllDigits(running)
    requires rest == [] || !IsDigit(rest[0])
    requires '\n' !in rest
    ensures IsThreadPoolExhausted(Some(Helpers.WorkerTotalLabel + total + Helpers.RunningLabel + running + rest))
      <==> DecimalValue(running) >= ThresholdToDetectThreadPoolExhausted
  {
    var line := Helpers.WorkerTotalLabel + total + Helpers.RunningLabel + running + rest;
    Helpers.WorkerLineRoundTrip(total, running, rest);
    WorkerLineIsOneLine(total, running, rest);
    assert FirstSomeAt(Lines(line), Helpers.WorkerLineRunning, 0);
  }

  lemma WorkerLineIsOneLine(total: string, running: string, rest: string)
    requires Helpers.AllDigits(total) && Helpers.AllDigits(running) && '\n' !in rest
    ensures var line := Helpers.WorkerTotalLabel + total + Helpers.RunningLabel + running + rest;
      Lines(line) == [line]
  {
    var line := Helpers.WorkerTotalLabel + total + Helpers.RunningLabel + running + rest;
    DigitsHaveNoNewline(total);
    DigitsHaveNoNewline(running);
    assert '\n' !in Helpers.WorkerTotalLabel && '\n' !in Helpers.RunningLabel;
    assert '\n' !in line;
    assert line != [];
    assert IndexOf(line, '\n').None?;
  }

  lemma DigitsHaveNoNewline(s: string)
    requires Helpers.AllDigits(s)
    ensures '\n' !in s
  {
    forall i | 0 <= i < |s| ensures s[i] != '\n' {
      assert IsDigit(s[i]);
    }
  }

  /** Whether a thread's `k` output shows it running a thread-pool work request. */
  method IsClrThreadPoolWorkingThread(output: string) returns (r: bool)
    ensures r <==> Contains(output, ExecuteWorkRequestFrame)
  {
    var lines := Lines(output);
    ContainsOnSomeLine(output, ExecuteWorkRequestFrame);
    for i := 0 to |lines|
      invariant forall j :: 0 <= j < i ==> !Contains(lines[j], ExecuteWorkRequestFrame)
    {
      if Contains(lines[i], ExecuteWorkRequestFrame) {
        return true;
      }
    }
    return false;
  }

  // ---------------------------------------------------------------------
  // Collecting the workers' stacks
  // ---------------------------------------------------------------------

  /** The functions `parse` finds on the lines of a `k` output, in order. */
  function StackOf(lines: seq<string>, parse: string -> Option<string>): (r: seq<string>)
    ensures |r| <= |lines|
  {
    if lines == [] then []
    else
      var frame := parse(lines[|lines| - 1]);
      StackOf(lines[..|lines| - 1], parse) + (if frame.Some? then [frame.value] else [])
  }

  method ReadStack(output: string, parse: string -> Option<string>) returns (frames: seq<string>)
    ensures frames == StackOf(Lines(output), parse)
  {
    var lines := Lines(output);
    frames := [];
    for i := 0 to |lines|
      invariant frames == StackOf(lines[..i], parse)
    {
      assert lines[..i + 1][..i] == lines[..i];
      var frame := parse(lines[i]);
      if frame.Some? {
        frames := frames + [frame.value];
      }
    }
    assert lines[..|lines|] == lines;
  }

  /** The thread kept for debugger index `id`: a thread-pool worker on whose stack some frame was parsed. */
  function KeptThread(id: nat, output: Option<string>, parse: string -> Option<string>): Option<Thread> {
    if output.Some? && Contains(output.value, ExecuteWorkRequestFrame) then
      var frames := StackOf(Lines(output.value), parse);
      if frames != [] then Some(Thread(id, frames)) else None
    else None
  }

  /**
    The threads kept among debugger indices 1 to `n - 1`; index 0, the main
    thread, is never looked at. `outputs[i]` is what `~ik` printed, or `None`
    when the command failed.
  */
  function CollectedThreads(outputs: seq<Option<string>>, parse: string -> Option<string>, n: nat): (r: seq<Thread>)
    requires n <= |outputs|
    ensures forall j :: 0 <= j < |r| ==> 1 <= r[j].id < n && r[j].frames != []
    ensures forall j :: 0 <= j < |r| ==> KeptThread(r[j].id, outputs[r[j].id], parse) == Some(r[j])
    ensures forall j, k :: 0 <= j < k < |r| ==> r[j].id < r[k].id
  {
    if n <= 1 then []
    else
      var kept := KeptThread(n - 1, outputs[n - 1], parse);
      CollectedThreads(outputs, parse, n - 1) + (if kept.Some? then [kept.value] else [])
  }

  /** A thread is collected exactly when it is not the main thread and it is kept. */
  lemma {:induction false} CollectedIff(outputs: seq<Option<string>>, parse: string -> Option<string>, n: nat, id: nat)
    requires n <= |outputs| && id < |outputs|
    ensures (exists j :: 0 <= j < |CollectedThreads(outputs, parse, n)| && CollectedThreads(outputs, parse, n)[j].id == id)
      <==> 1 <= id < n && KeptThread(id, outputs[id], parse).Some?
  {
    var r := CollectedThreads(outputs, parse, n);
    if n > 1 {
      var kept := KeptThread(n - 1, outputs[n - 1], parse);
      var before := CollectedThreads(outputs, parse, n - 1);
      CollectedIff(outputs, parse, n - 1, id);
      assert forall j :: 0 <= j < |before| ==> r[j] == before[j];
      if id == n - 1 && kept.Some? {
        assert r[|r| - 1].id == id;
      }
    }
  }

  method CollectThreads(outputs: seq<Option<string>>, parse: string -> Option<string>) returns (threads: seq<Thread>)
    ensures threads == CollectedThreads(outputs, parse, |outputs|)
  {
    threads := [];
    var i := 1;
    while i < |outputs|
      invariant 1 <= i
      invariant i <= |outputs| || |outputs| == 0
      invariant threads == CollectedThreads(outputs, parse, if |outputs| == 0 then 0 else i)
    {
      var output := outputs[i];
      if output.Some? {
        var working := IsClrThreadPoolWorkingThread(output.value);
        if working {
          var frames := ReadStack(output.value, parse);
          if frames != [] {
            threads := threads + [Thread(i, frames)];
          }
        }
      }
      i := i + 1;
    }
  }

  // ---------------------------------------------------------------------
  // Grouping, sorting and reporting
  // ---------------------------------------------------------------------

  /** The stacks of the threads, in order. */
  function FramesOf(threads: seq<Thread>): (r: seq<seq<string>>)
    ensures |r| == |threads|
    ensures forall i :: 0 <= i < |threads| ==> r[i] == threads[i].frames
  {
    seq(|threads|, i requires 0 <= i < |threads| => threads[i].frames)
  }

  /**
    Counts the threads per distinct stack. The map is keyed by stacks under
    `LessThanFrames`, whose equivalent keys are the equal ones
    (`FramesLessTrichotomy`), so each count is a multiplicity in the
    multiset of the threads' stacks.
  */
  method GroupByFrames(threads: seq<Thread>) returns (groups: map<seq<string>, nat>)
    ensures forall frames :: frames in groups <==> frames in multiset(FramesOf(threads))
    ensures forall frames :: frames in groups ==> groups[frames] == multiset(FramesOf(threads))[frames] >= 1
  {
    groups := map[];
    var stacks := FramesOf(threads);
    for i := 0 to |threads|
      invariant CountsOf(groups, multiset(stacks[..i]))
    {
      var key := threads[i].frames;
      assert stacks[..i + 1] == stacks[..i] + [key];
      CountOneMore(groups, multiset(stacks[..i]), key);
      groups := groups[key := (if key in groups then groups[key] else 0) + 1];
    }
    assert stacks[..|threads|] == stacks;
  }

  /** `groups` holds, for each stack in `stacks`, how many times it occurs, and nothing else. */
  ghost predicate CountsOf(groups: map<seq<string>, nat>, stacks: multiset<seq<string>>) {
    && (forall frames :: frames in groups <==> frames in stacks)
    && (forall frames :: frames in groups ==> groups[frames] == stacks[frames])
  }

  /** Counting one more thread with stack `key`. */
  lemma CountOneMore(groups: map<seq<string>, nat>, stacks: multiset<seq<string>>, key: seq<string>)
    requires CountsOf(groups, stacks)
    ensures CountsOf(groups[key := (if key in groups then groups[key] else 0) + 1], stacks + multiset{key})
  {
  }

  function SumCounts(items: seq<Group>): nat {
    if items == [] then 0 else SumCounts(items[..|items| - 1]) + items[|items| - 1].count
  }

  predicate DistinctStacks(items: seq<Group>) {
    forall i, j :: 0 <= i < j < |items| ==> items[i].frames != items[j].frames
  }

  /**
    Copies the groups into a vector: every stack once with its count, and
    the counts add up to the size of the multiset they were counted from.
  */
  method GroupItems(groups: map<seq<string>, nat>, ghost stacks: multiset<seq<string>>) returns (items: seq<Group>)
    requires forall frames :: frames in groups <==> frames in stacks
    requires forall frames :: frames in groups ==> groups[frames] == stacks[frames]
    ensures forall i :: 0 <= i < |items| ==> items[i].frames in groups && items[i].count == groups[items[i].frames]
    ensures forall frames :: frames in groups ==> exists i :: 0 <= i < |items| && items[i].frames == frames
    ensures DistinctStacks(items)
    ensures SumCounts(items) == |stacks|
  {
    items := [];
    var keys := groups.Keys;
    ghost var rest := stacks;
    while keys != {}
      invariant keys <= groups.Keys
      invariant CopiedExcept(items, groups, keys)
      invariant forall frames :: rest[frames] == (if frames in keys then stacks[frames] else 0)
      invariant SumCounts(items) + |rest| == |stacks|
      decreases |keys|
    {
      var key :| key in keys;
      CopyOneMore(items, groups, keys, key);
      assert |rest[key := 0]| + rest[key] == |rest|;
      items := items + [Group(key, groups[key])];
      keys := keys - {key};
      rest := rest[key := 0];
    }
    assert rest == multiset{};
  }

  /** `items` holds every group whose stack is not in `keys` once, with its count, and no other. */
  ghost predicate CopiedExcept(items: seq<Group>, groups: map<seq<string>, nat>, keys: set<seq<string>>) {
    && (forall i :: 0 <= i < |items| ==> items[i].frames in groups && items[i].frames !in keys)
    && (forall i :: 0 <= i < |items| ==> items[i].count == groups[items[i].frames])
    && (forall frames :: frames in groups && frames !in keys ==> exists i :: 0 <= i < |items| && items[i].frames == frames)
    && DistinctStacks(items)
  }

  /** Copying the group of one more stack. */
  lemma CopyOneMore(items: seq<Group>, groups: map<seq<string>, nat>, keys: set<seq<string>>, key: seq<string>)
    requires CopiedExcept(items, groups, keys) && keys <= groups.Keys && key in keys
    ensures CopiedExcept(items + [Group(key, groups[key])], groups, keys - {key})
    ensures SumCounts(items + [Group(key, groups[key])]) == SumCounts(items) + groups[key]
  {
    var extended := items + [Group(key, groups[key])];
    assert extended[..|items|] == items;
    assert forall i :: 0 <= i < |items| ==> extended[i] == items[i];
    assert extended[|items|].frames == key;
    forall frames | frames in groups && frames !in keys - {key}
      ensures exists i :: 0 <= i < |extended| && extended[i].frames == frames
    {
      if frames != key {
        var i :| 0 <= i < |items| && items[i].frames == frames;
        assert extended[i].frames == frames;
      }
    }
  }

  predicate SortedByCount(items: seq<Group>) {
    forall i, j :: 0 <= i < j < |items| ==> items[i].count >= items[j].count
  }

  /** The first `n` groups are in order, largest count first. */
  predicate SortedPrefix(s: seq<Group>, n: nat) {
    forall a, b :: 0 <= a < b < n && b < |s| ==> s[a].count >= s[b].count
  }

  /** Sorts the groups by their counts, largest first. */
  method SortByCount(items: array<Group>)
    modifies items
    ensures SortedByCount(items[..])
    ensures multiset(items[..]) == multiset(old(items[..]))
  {
    var i := 0;
    while i < items.Length
      invariant 0 <= i <= items.Length
      invariant SortedPrefix(items[..], i)
      invariant multiset(items[..]) == multiset(old(items[..]))
    {
      InsertDown(items, i);
      i := i + 1;
    }
  }

  /** Moves `items[i]` down past the smaller counts before it, so the first `i + 1` groups are in order. */
  method InsertDown(items: array<Group>, i: nat)
    requires i < items.Length && SortedPrefix(items[..], i)
    modifies items
    ensures SortedPrefix(items[..], i + 1)
    ensures multiset(items[..]) == multiset(old(items[..]))
  {
    var j := i;
    while j > 0 && items[j - 1].count < items[j].count
      invariant 0 <= j <= i
      invariant forall a, b :: 0 <= a < b <= i && a != j && b != j ==> items[a].count >= items[b].count
      invariant forall b :: j < b <= i ==> items[j].count > items[b].count
      invariant multiset(items[..]) == multiset(old(items[..]))
    {
      Swap(items, j - 1, j);
      j := j - 1;
    }
  }

  method Swap(items: array<Group>, a: nat, b: nat)
    requires a < b < items.Length
    modifies items
    ensures items[..] == old(items[..])[a := old(items[b])][b := old(items[a])]
    ensures multiset(items[..]) == multiset(old(items[..]))
  {
    items[a], items[b] := items[b], items[a];
  }

  /** The groups whose stacks are blamed: those shared by at least 10 threads, in the given order. */
  function Blamed(items: seq<Group>): (r: seq<Group>)
    ensures |r| <= |items|
  {
    if items == [] then []
    else
      var last := items[|items| - 1];
      Blamed(items[..|items| - 1]) + (if last.count >= ThresholdToBlameCallStack then [last] else [])
  }

  /** Blaming keeps exactly the groups at or above the threshold. */
  lemma {:induction false} BlamedMembers(items: seq<Group>)
    ensures forall g :: g in Blamed(items) <==> g in items && g.count >= ThresholdToBlameCallStack
  {
    if items != [] {
      var init, last := items[..|items| - 1], items[|items| - 1];
      BlamedMembers(init);
      assert items == init + [last];
    }
  }

  /** Blaming keeps the order by count. */
  lemma {:induction false} BlamedSorted(items: seq<Group>)
    requires SortedByCount(items)
    ensures SortedByCount(Blamed(items))
  {
    if items != [] {
      var init, last := items[..|items| - 1], items[|items| - 1];
      var before := Blamed(init);
      BlamedSorted(init);
      BlamedMembers(init);
      if last.count >= ThresholdToBlameCallStack {
        var r := Blamed(items);
        assert r == before + [last];
        forall i | 0 <= i < |before| ensures before[i].count >= last.count {
          assert before[i] in init;
          var k :| 0 <= k < |init| && init[k] == before[i];
          assert items[k] == init[k];
        }
      }
    }
  }

  /** Blaming keeps the stacks distinct. */
  lemma {:induction false} BlamedDistinct(items: seq<Group>)
    requires DistinctStacks(items)
    ensures DistinctStacks(Blamed(items))
  {
    if items != [] {
      var init, last := items[..|items| - 1], items[|items| - 1];
      var before := Blamed(init);
      BlamedDistinct(init);
      BlamedMembers(init);
      if last.count >= ThresholdToBlameCallStack {
        var r := Blamed(items);
        assert r == before + [last];
        forall i | 0 <= i < |before| ensures before[i].frames != last.frames {
          assert before[i] in init;
          var k :| 0 <= k < |init| && init[k] == before[i];
          assert items[k] == init[k];
        }
      }
    }
  }

  /**
    What `OnThreadPoolExhausted` reports for the collected threads: distinct
    stacks, largest group first, exactly the stacks shared by at least 10
    threads, each with the number of threads that share it.
  */
  predicate BlamedStacks(threads: seq<Thread>, report: seq<Group>) {
    BlamedStacksOf(multiset(FramesOf(threads)), report)
  }

  /** The report for threads whose stacks are `stacks`. */
  predicate BlamedStacksOf(stacks: multiset<seq<string>>, report: seq<Group>) {
    && SortedByCount(report)
    && DistinctStacks(report)
    && (forall i :: 0 <= i < |report| ==>
          report[i].count == stacks[report[i].frames] && report[i].count >= ThresholdToBlameCallStack)
    && (forall frames :: frames in stacks && stacks[frames] >= ThresholdToBlameCallStack ==>
          exists i :: 0 <= i < |report| && report[i].frames == frames)
  }

  /**
    Collects the thread-pool workers' stacks, groups them, sorts the groups
    by size and reports the ones at or above the blame threshold.
  */
  method OnThreadPoolExhausted(outputs: seq<Option<string>>, parse: string -> Option<string>)
    returns (threads: seq<Thread>, report: seq<Group>)
    ensures threads == CollectedThreads(outputs, parse, |outputs|)
    ensures BlamedStacks(threads, report)
  {
    threads := CollectThreads(outputs, parse);
    var groups := GroupByFrames(threads);
    ghost var stacks := multiset(FramesOf(threads));
    assert CountsOf(groups, stacks);
    var items := GroupItems(groups, stacks);
    assert CopiedExcept(items, groups, {});
    var sorted := SortedCopy(items);
    report := Blamed(sorted);
    ReportFacts(items, sorted, groups, stacks);
  }

  /** Copies the groups into a fresh array and sorts it by count. */
  method SortedCopy(items: seq<Group>) returns (sorted: seq<Group>)
    ensures SortedByCount(sorted)
    ensures multiset(sorted) == multiset(items)
  {
    var a := new Group[|items|](i requires 0 <= i < |items| => items[i]);
    assert a[..] == items;
    SortByCount(a);
    sorted := a[..];
  }

  /** The facts about the report that follow from the groups being copied, sorted as a permutation, and filtered. */
  lemma ReportFacts(items: seq<Group>, permuted: seq<Group>, groups: map<seq<string>, nat>, stacks: multiset<seq<string>>)
    requires CountsOf(groups, stacks)
    requires CopiedExcept(items, groups, {})
    requires multiset(permuted) == multiset(items)
    requires SortedByCount(permuted)
    ensures BlamedStacksOf(stacks, Blamed(permuted))
  {
    BlamedMembers(permuted);
    BlamedSorted(permuted);
    PermutationKeepsDistinct(items, permuted);
    BlamedDistinct(permuted);
    ReportedCounts(items, permuted, groups, stacks);
    ReportedCovers(items, permuted, groups, stacks);
  }

  /** Each reported group carries its stack's number of threads, at least the threshold. */
  lemma ReportedCounts(items: seq<Group>, permuted: seq<Group>, groups: map<seq<string>, nat>, stacks: multiset<seq<string>>)
    requires CountsOf(groups, stacks)
    requires CopiedExcept(items, groups, {})
    requires multiset(permuted) == multiset(items)
    requires forall g :: g in Blamed(permuted) <==> g in permuted && g.count >= ThresholdToBlameCallStack
    ensures var report := Blamed(permuted);
      forall i :: 0 <= i < |report| ==>
        report[i].count == stacks[report[i].frames] && report[i].count >= ThresholdToBlameCallStack
  {
    var report := Blamed(permuted);
    forall i | 0 <= i < |report|
      ensures report[i].count == stacks[report[i].frames] && report[i].count >= ThresholdToBlameCallStack
    {
      assert report[i] in report;
      assert report[i] in multiset(items);
    }
  }

  /** Every stack shared by at least the threshold of threads is reported. */
  lemma ReportedCovers(items: seq<Group>, permuted: seq<Group>, groups: map<seq<string>, nat>, stacks: multiset<seq<string>>)
    requires CountsOf(groups, stacks)
    requires CopiedExcept(items, groups, {})
    requires multiset(permuted) == multiset(items)
    requires forall g :: g in Blamed(permuted) <==> g in permuted && g.count >= ThresholdToBlameCallStack
    ensures forall frames :: frames in stacks && stacks[frames] >= ThresholdToBlameCallStack ==>
        exists i :: 0 <= i < |Blamed(permuted)| && Blamed(permuted)[i].frames == frames
  {
    var report := Blamed(permuted);
    forall frames | frames in stacks && stacks[frames] >= ThresholdToBlameCallStack
      ensures exists i :: 0 <= i < |report| && report[i].frames == frames
    {
      assert frames in groups;
      var k :| 0 <= k < |items| && items[k].frames == frames;
      assert items[k].count == stacks[frames];
      assert items[k] in multiset(permuted);
      assert items[k] in report;
      var i :| 0 <= i < |report| && report[i] == items[k];
      assert report[i].frames == frames;
    }
    assert report == Blamed(permuted);
  }

  /** A permutation of groups with distinct stacks has distinct stacks. */
  lemma PermutationKeepsDistinct(items: seq<Group>, permuted: seq<Group>)
    requires DistinctStacks(items)
    requires multiset(permuted) == multiset(items)
    ensures DistinctStacks(permuted)
  {
    forall i, j | 0 <= i < j < |permuted| ensures permuted[i].frames != permuted[j].frames {
      if permuted[i].frames == permuted[j].frames {
        assert permuted[i] in multiset(items) && permuted[j] in multiset(items);
        var a :| 0 <= a < |items| && items[a] == permuted[i];
        var b :| 0 <= b < |items| && items[b] == permuted[j];
        assert a == b;
        CountedTwice(permuted, i, j);
        CountedOnce(items, permuted[i]);
        assert false;
      }
    }
  }

  lemma {:induction false} CountedOnce(s: seq<Group>, g: Group)
    requires DistinctStacks(s)
    ensures multiset(s)[g] <= 1
  {
    if s != [] {
      var init := s[..|s| - 1];
      assert s == init + [s[|s| - 1]];
      CountedOnce(init, g);
    }
  }

  lemma CountedTwice(s: seq<Group>, i: nat, j: nat)
    requires i < j < |s| && s[i] == s[j]
    ensures multiset(s)[s[i]] >= 2
  {
    assert s == s[..j] + [s[j]] + s[j + 1..];
    assert s[i] in s[..j];
  }
}
