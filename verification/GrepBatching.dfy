/** Splitting the paths of a search into commands whose arguments the platform accepts. */
module GrepBatching {
  import opened GrepGroups
  import opened GrepOutput
  import opened GrepStops

  /** What the paths add to a command line: each takes its length and one more. */
  function Cost(paths: seq<string>): nat {
    if paths == [] then 0 else Cost(paths[..|paths| - 1]) + |paths[|paths| - 1]| + 1
  }

  predicate Fits(paths: seq<string>, max: int) {
    Cost(paths) < max
  }

  /** How many of the first paths are taken: the most that fit. */
  function FirstBatch(paths: seq<string>, max: int, i: nat): (n: nat)
    requires i <= |paths|
    ensures i <= n <= |paths|
    decreases |paths| - i
  {
    if i == |paths| || !Fits(paths[..i + 1], max) then i else FirstBatch(paths, max, i + 1)
  }

  method SplitStringSliceByLength(arr: seq<string>, maxLength: int) returns (first: seq<string>, rest: seq<string>)
    ensures var n := FirstBatch(arr, maxLength, 0); first == arr[..n] && rest == arr[n..]
  {
    var left := maxLength;
    for i := 0 to |arr|
      invariant left == maxLength - Cost(arr[..i])
      invariant FirstBatch(arr, maxLength, 0) == FirstBatch(arr, maxLength, i)
    {
      assert arr[..i + 1][..i] == arr[..i];
      left := left - (|arr[i]| + 1);
      if left <= 0 {
        return arr[..i], arr[i..];
      }
    }
    return arr, [];
  }

  /** The commands, and the paths that are left when one of them does not fit a command of its own. */
  function Batches(paths: seq<string>, max: int): (r: (seq<seq<string>>, seq<string>))
    decreases |paths|
  {
    var n := FirstBatch(paths, max, 0);
    if n == 0 then ([], paths)
    else
      var r := Batches(paths[n..], max);
      ([paths[..n]] + r.0, r.1)
  }

  datatype Status = Done | TooLong | Stopped(end: End)

  datatype Execution = Execution(commands: seq<seq<string>>, calls: seq<Call>, status: Status)

  /** Running the commands one by one; `output` is what each one prints. The bytes that one command printed
    are no longer there for the next. */
  function Execute(paths: seq<string>, maxArgs: int, maxLines: nat, maxBytes: int,
      output: seq<string> -> seq<Line>): Execution
    decreases |paths|
  {
    if paths == [] then Execution([], [], Done)
    else
      var n := FirstBatch(paths, maxArgs, 0);
      if n == 0 then Execution([], [], TooLong)
      else
        var o := Reading(output(paths[..n]), maxLines, maxBytes);
        if o.end != Eof then Execution([paths[..n]], o.calls, Stopped(o.end))
        else
          var more := Execute(paths[n..], maxArgs, maxLines, maxBytes - o.bytesRead, output);
          Execution([paths[..n]] + more.commands, o.calls + more.calls, more.status)
  }

  /** The batching loop of `executeGrepSingle`. */
  method ExecuteGrepSingle(paths: seq<string>, maxArgs: int, maxLines: nat, maxBytes: int,
                           output: seq<string> -> seq<Line>)
      returns (commands: seq<seq<string>>, calls: seq<Call>, status: Status)
    requires maxLines > 0
    ensures Execution(commands, calls, status) == Execute(paths, maxArgs, maxLines, maxBytes, output)
  {
    hide Reading;
    hide FirstBatch;
    commands, calls, status := [], [], Done;
    var commandPaths, budget := paths, maxBytes;
    hide Execute;
    Joined(paths, maxArgs, maxLines, maxBytes, output);
    while |commandPaths| > 0
      invariant var more := Execute(commandPaths, maxArgs, maxLines, budget, output);
                Execute(paths, maxArgs, maxLines, maxBytes, output) ==
                  Execution(commands + more.commands, calls + more.calls, more.status)
      invariant status == Done
    {
      var args, rest := SplitStringSliceByLength(commandPaths, maxArgs);
      ExecuteIs(commandPaths, maxArgs, maxLines, budget, output);
      if |args| == 0 {
        return commands + [], calls + [], TooLong;
      }
      var sent, bytesRead, end := RunSingleCommand(output(args), maxLines, budget);
      ghost var more := Execute(rest, maxArgs, maxLines, budget - bytesRead, output);
      assert commands + ([args] + more.commands) == (commands + [args]) + more.commands;
      assert calls + (sent + more.calls) == (calls + sent) + more.calls;
      commands := commands + [args];
      calls := calls + sent;
      if end != Eof {
        return commands, calls, Stopped(end);
      }
      commandPaths := rest;
      budget := budget - bytesRead;
    }
    ExecuteIs(commandPaths, maxArgs, maxLines, budget, output);
    assert commands + [] == commands && calls + [] == calls;
  }

  lemma Joined(paths: seq<string>, maxArgs: int, maxLines: nat, maxBytes: int, output: seq<string> -> seq<Line>)
    ensures var e := Execute(paths, maxArgs, maxLines, maxBytes, output);
            e == Execution([] + e.commands, [] + e.calls, e.status)
  {
  }

  /** One round of the loop. */
  lemma ExecuteIs(paths: seq<string>, maxArgs: int, maxLines: nat, maxBytes: int, output: seq<string> -> seq<Line>)
    ensures var n := FirstBatch(paths, maxArgs, 0);
            var o := Reading(output(paths[..n]), maxLines, maxBytes);
            var e := Execute(paths, maxArgs, maxLines, maxBytes, output);
            if paths == [] then e == Execution([], [], Done)
            else if n == 0 then e == Execution([], [], TooLong)
            else if o.end != Eof then e == Execution([paths[..n]], o.calls, Stopped(o.end))
            else
              var more := Execute(paths[n..], maxArgs, maxLines, maxBytes - o.bytesRead, output);
              e == Execution([paths[..n]] + more.commands, o.calls + more.calls, more.status)
  {
    hide Reading;
    hide FirstBatch;
  }

  // ----- what a batch is

  lemma {:induction false} CostConcat(a: seq<string>, b: seq<string>)
    ensures Cost(a + b) == Cost(a) + Cost(b)
  {
    if b == [] {
      assert a + b == a;
    } else {
      assert (a + b)[..|a + b| - 1] == a + b[..|b| - 1];
      CostConcat(a, b[..|b| - 1]);
    }
  }

  /** The paths as they stand on a command line, each followed by one more character. */
  function Arguments(paths: seq<string>): string {
    if paths == [] then "" else paths[0] + "\0" + Arguments(paths[1..])
  }

  lemma {:induction false} CostIsLength(paths: seq<string>)
    ensures Cost(paths) == |Arguments(paths)|
  {
    if paths != [] {
      CostIsLength(paths[1..]);
      assert paths == [paths[0]] + paths[1..] && [paths[0]][..0] == [];
      CostConcat([paths[0]], paths[1..]);
      assert Cost([paths[0]]) == |paths[0]| + 1;
    }
  }

  lemma CostOfPrefix(paths: seq<string>, i: nat, j: nat)
    requires i <= j <= |paths|
    ensures Cost(paths[..i]) <= Cost(paths[..j])
    ensures Cost(paths[i..j]) <= Cost(paths[..j])
  {
    assert paths[..j] == paths[..i] + paths[i..j];
    CostConcat(paths[..i], paths[i..j]);
  }

  /** The first batch is the longest run of first paths that fits. */
  lemma {:induction false} FirstBatchIs(paths: seq<string>, max: int, i: nat)
    requires i <= |paths| && (i == 0 || Fits(paths[..i], max))
    ensures var n := FirstBatch(paths, max, i);
            && (n == 0 || Fits(paths[..n], max))
            && forall m :: n < m <= |paths| ==> !Fits(paths[..m], max)
    decreases |paths| - i
  {
    if i < |paths| {
      if Fits(paths[..i + 1], max) {
        FirstBatchIs(paths, max, i + 1);
      } else {
        forall m | i < m <= |paths|
          ensures !Fits(paths[..m], max)
        {
          CostOfPrefix(paths, i + 1, m);
          assert paths[..m][..i + 1] == paths[..i + 1];
        }
      }
    }
  }

  predicate Alone(path: string, max: int) {
    |path| + 1 < max
  }

  lemma FirstBatchNonempty(paths: seq<string>, max: int)
    requires paths != []
    ensures FirstBatch(paths, max, 0) > 0 <==> Alone(paths[0], max)
  {
    FirstBatchIs(paths, max, 0);
    assert paths[..1] == [paths[0]] && paths[..1][..0] == [];
    assert Cost(paths[..1]) == |paths[0]| + 1;
  }

  function Concat(batches: seq<seq<string>>): seq<string> {
    if batches == [] then [] else batches[0] + Concat(batches[1..])
  }

  predicate AllAlone(paths: seq<string>, max: int) {
    forall i :: 0 <= i < |paths| ==> Alone(paths[i], max)
  }

  /** The batches and what is left make up the paths, in order, and every batch fits. Nothing is left exactly
    when every path fits a command of its own; otherwise the first one left does not. */
  lemma {:induction false} BatchesCover(paths: seq<string>, max: int)
    ensures var (batches, rest) := Batches(paths, max);
            && Concat(batches) + rest == paths
            && (forall i :: 0 <= i < |batches| ==> batches[i] != [] && Fits(batches[i], max))
            && (rest != [] ==> !Alone(rest[0], max))
            && (rest == [] <==> AllAlone(paths, max))
    decreases |paths|
  {
    var n := FirstBatch(paths, max, 0);
    FirstBatchIs(paths, max, 0);
    if paths != [] {
      FirstBatchNonempty(paths, max);
    }
    if n > 0 {
      BatchesCover(paths[n..], max);
      MembersAlone(paths, max, n);
      hide FirstBatch;
      hide Fits;
      hide Alone;
      hide AllAlone;
      FirstThenRest(paths[..n], Batches(paths[n..], max).0);
      assert paths == paths[..n] + paths[n..];
    }
  }

  lemma FirstThenRest(first: seq<string>, batches: seq<seq<string>>)
    ensures Concat([first] + batches) == first + Concat(batches)
  {
    assert ([first] + batches)[1..] == batches;
  }

  /** The paths of a batch that fits all fit alone. */
  lemma MembersAlone(paths: seq<string>, max: int, n: nat)
    requires n <= |paths| && Fits(paths[..n], max)
    ensures AllAlone(paths, max) <==> AllAlone(paths[n..], max)
  {
    forall i | 0 <= i < n
      ensures Alone(paths[i], max)
    {
      CostOfPrefix(paths, i + 1, n);
      assert paths[..i + 1][..i] == paths[..i];
    }
    hide Alone;
    assert forall i :: 0 <= i < |paths| - n ==> paths[n..][i] == paths[n + i];
    assert forall i :: n <= i < |paths| ==> paths[i] == paths[n..][i - n];
  }

  // ----- no split uses fewer commands

  /** Fewer paths never need more batches. */
  lemma {:induction false} SuffixNeedsFewer(paths: seq<string>, max: int, k: nat)
    requires k <= |paths| && AllAlone(paths, max)
    ensures |Batches(paths[k..], max).0| <= |Batches(paths, max).0|
    decreases |paths|
  {
    if paths != [] && 0 < k < |paths| {
      FirstBatchNonempty(paths, max);
      FirstBatchIs(paths, max, 0);
      var n := FirstBatch(paths, max, 0);
      var suffix := paths[k..];
      FirstBatchNonempty(suffix, max);
      FirstBatchIs(suffix, max, 0);
      var m := FirstBatch(suffix, max, 0);
      if k < n {
        CostOfPrefix(paths, k, n);
        assert suffix[..n - k] == paths[k..n];
        assert m >= n - k;
        assert suffix[m..] == paths[n..][k + m - n..];
        SuffixNeedsFewer(paths[n..], max, k + m - n);
      } else {
        assert suffix == paths[n..][k - n..];
        SuffixNeedsFewer(paths[n..], max, k - n);
      }
    } else if k == 0 {
      assert paths[k..] == paths;
    } else {
      assert paths[k..] == [];
    }
  }

  /** No way to split the paths in order into commands that fit uses fewer of them. */
  lemma {:induction false} FewestCommands(paths: seq<string>, max: int, split: seq<seq<string>>)
    requires Concat(split) == paths && forall i :: 0 <= i < |split| ==> Fits(split[i], max)
    requires AllAlone(paths, max)
    ensures |Batches(paths, max).0| <= |split|
    decreases |split|
  {
    if paths != [] {
      FirstBatchNonempty(paths, max);
      FirstBatchIs(paths, max, 0);
      var n, m := FirstBatch(paths, max, 0), |split[0]|;
      assert paths[..m] == split[0] && paths[m..] == Concat(split[1..]);
      assert m <= n;
      FewestCommands(paths[m..], max, split[1..]);
      assert paths[n..] == paths[m..][n - m..];
      SuffixNeedsFewer(paths[m..], max, n - m);
    }
  }

  // ----- the whole search

  function AllCalls(commands: seq<seq<string>>, maxLines: nat, output: seq<string> -> seq<Line>): seq<Call> {
    if commands == [] then []
    else CallsFor(maxLines, Groups(Items(output(commands[0])))) + AllCalls(commands[1..], maxLines, output)
  }

  /** A search that is not stopped runs every batch and calls back for every group of every output. One that
    is has run the first batches and called back for the first groups. */
  lemma {:induction false} SearchRunsBatches(paths: seq<string>, maxArgs: int, maxLines: nat, maxBytes: int,
                                             output: seq<string> -> seq<Line>)
    ensures var e, (batches, rest) := Execute(paths, maxArgs, maxLines, maxBytes, output), Batches(paths, maxArgs);
            && e.commands <= batches
            && e.calls <= AllCalls(batches, maxLines, output)
            && (!e.status.Stopped? ==> e.commands == batches && e.calls == AllCalls(batches, maxLines, output))
            && (e.status.Done? ==> rest == []) && (e.status.TooLong? ==> rest != [])
    decreases |paths|
  {
    hide Reading;
    hide Groups;
    hide CallsFor;
    var n := FirstBatch(paths, maxArgs, 0);
    if paths != [] && n > 0 {
      var lines := output(paths[..n]);
      CallsArePrefix(lines, maxLines, maxBytes);
      var o := Reading(lines, maxLines, maxBytes);
      SearchRunsBatches(paths[n..], maxArgs, maxLines, maxBytes - o.bytesRead, output);
      hide FirstBatch;
      var all := AllCalls(Batches(paths[n..], maxArgs).0, maxLines, output);
      assert o.calls <= CallsFor(maxLines, Groups(Items(lines)));
      AllCallsStep(paths[..n], Batches(paths[n..], maxArgs).0, maxLines, output);
    }
  }

  lemma AllCallsStep(first: seq<string>, rest: seq<seq<string>>, maxLines: nat, output: seq<string> -> seq<Line>)
    ensures AllCalls([first] + rest, maxLines, output) ==
            CallsFor(maxLines, Groups(Items(output(first)))) + AllCalls(rest, maxLines, output)
  {
    assert ([first] + rest)[1..] == rest;
  }

  // ----- the byte budget of a whole search

  /** The bytes that commands print. */
  function Printed(commands: seq<seq<string>>, output: seq<string> -> seq<Line>): nat {
    if commands == [] then 0 else |Output(output(commands[0]))| + Printed(commands[1..], output)
  }

  /** What the reader makes of command `i`, with the bytes that are left for it. */
  function ReadOf(commands: seq<seq<string>>, i: nat, maxLines: nat, maxBytes: int,
                  output: seq<string> -> seq<Line>): Outcome
    requires i < |commands|
  {
    Reading(output(commands[i]), maxLines, maxBytes - Printed(commands[..i], output))
  }

  lemma EofReadsAll(lines: seq<Line>, maxLines: nat, maxBytes: int)
    requires Reading(lines, maxLines, maxBytes).end == Eof
    ensures Reading(lines, maxLines, maxBytes).bytesRead == |Output(lines)|
    ensures Reading(lines, maxLines, maxBytes).calls == CallsFor(maxLines, Groups(Items(lines)))
  {
    var k := StopsExactly(lines, maxLines, maxBytes);
    CallsArePrefix(lines, maxLines, maxBytes);
    hide Reading;
  }

  lemma ReadFirst(first: seq<string>, more: seq<seq<string>>, maxLines: nat, maxBytes: int,
                  output: seq<string> -> seq<Line>)
    ensures ReadOf([first] + more, 0, maxLines, maxBytes, output) == Reading(output(first), maxLines, maxBytes)
  {
    hide Reading;
    assert ([first] + more)[..0] == [];
  }

  lemma ReadMore(first: seq<string>, more: seq<seq<string>>, i: nat, maxLines: nat, maxBytes: int,
                 output: seq<string> -> seq<Line>)
    requires i < |more|
    ensures ReadOf([first] + more, i + 1, maxLines, maxBytes, output) ==
            ReadOf(more, i, maxLines, maxBytes - |Output(output(first))|, output)
  {
    hide Reading;
    hide Output;
    assert ([first] + more)[..i + 1][1..] == more[..i];
  }

  /** Every command is read with the bytes that those before it have left, all but the last to the end; the last one
    decides how the search ends. */
  lemma {:induction false} SearchBudget(paths: seq<string>, maxArgs: int, maxLines: nat, maxBytes: int,
                                        output: seq<string> -> seq<Line>, i: nat)
    requires i < |Execute(paths, maxArgs, maxLines, maxBytes, output).commands|
    ensures var e := Execute(paths, maxArgs, maxLines, maxBytes, output);
            var r := ReadOf(e.commands, i, maxLines, maxBytes, output);
            if i + 1 < |e.commands| then r.end == Eof
            else if e.status.Stopped? then r.end == e.status.end && r.end != Eof
            else r.end == Eof
    decreases |paths|
  {
    hide *;
    ExecuteIs(paths, maxArgs, maxLines, maxBytes, output);
    var n := FirstBatch(paths, maxArgs, 0);
    var first := paths[..n];
    var o := Reading(output(first), maxLines, maxBytes);
    if o.end != Eof {
      assert [first] == [first] + [];
      ReadFirst(first, [], maxLines, maxBytes, output);
    } else {
      EofReadsAll(output(first), maxLines, maxBytes);
      var more := Execute(paths[n..], maxArgs, maxLines, maxBytes - o.bytesRead, output);
      ExecuteIs(paths[n..], maxArgs, maxLines, maxBytes - o.bytesRead, output);
      if i > 0 {
        SearchBudget(paths[n..], maxArgs, maxLines, maxBytes - o.bytesRead, output, i - 1);
        ReadMore(first, more.commands, i - 1, maxLines, maxBytes, output);
      } else {
        ReadFirst(first, more.commands, maxLines, maxBytes, output);
      }
    }
  }

  /** A stopped search has called back for all groups of the commands before the last, and for those that reading
    the last one reached. */
  lemma {:induction false} StoppedCalls(paths: seq<string>, maxArgs: int, maxLines: nat, maxBytes: int,
                                        output: seq<string> -> seq<Line>)
    requires Execute(paths, maxArgs, maxLines, maxBytes, output).status.Stopped?
    ensures var e := Execute(paths, maxArgs, maxLines, maxBytes, output);
            && e.commands != []
            && var last := |e.commands| - 1;
               e.calls == AllCalls(e.commands[..last], maxLines, output)
                   + ReadOf(e.commands, last, maxLines, maxBytes, output).calls
    decreases |paths|
  {
    hide *;
    ExecuteIs(paths, maxArgs, maxLines, maxBytes, output);
    var n := FirstBatch(paths, maxArgs, 0);
    var first := paths[..n];
    var o := Reading(output(first), maxLines, maxBytes);
    if o.end != Eof {
      assert [first] == [first] + [];
      ReadFirst(first, [], maxLines, maxBytes, output);
      NoCommands(maxLines, output);
      assert [first][..0] == [];
    } else {
      EofReadsAll(output(first), maxLines, maxBytes);
      StoppedCalls(paths[n..], maxArgs, maxLines, maxBytes - o.bytesRead, output);
      var more := Execute(paths[n..], maxArgs, maxLines, maxBytes - o.bytesRead, output).commands;
      var last := |more| - 1;
      ReadMore(first, more, last, maxLines, maxBytes, output);
      assert ([first] + more)[..last + 1] == [first] + more[..last];
      AllCallsStep(first, more[..last], maxLines, output);
    }
  }

  lemma NoCommands(maxLines: nat, output: seq<string> -> seq<Line>)
    ensures AllCalls([], maxLines, output) == []
  {
  }
}
