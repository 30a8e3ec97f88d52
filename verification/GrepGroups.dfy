/** What the groups read from a command's output mean: a prefix of all of them, and what was printed. */
module GrepGroups {
  import opened GrepOutput

  // ----- one call

  /** What a call keeps of a group: its file, its first lines, as many as there may be, and the number of the rest. */
  predicate IsCut(maxLines: nat, g: Group, c: Call) {
    && c.file == g.file && c.lines <= g.texts && |c.lines| + c.hidden == |g.texts|
    && |c.lines| <= maxLines && (c.hidden > 0 ==> |c.lines| == maxLines)
  }

  lemma CallIsCut(maxLines: nat, g: Group)
    ensures IsCut(maxLines, g, CallFor(maxLines, g))
  {
  }

  /** The calls are for the first of the groups, in order. */
  predicate AreCuts(maxLines: nat, groups: seq<Group>, calls: seq<Call>) {
    |calls| <= |groups| && forall i :: 0 <= i < |calls| ==> IsCut(maxLines, groups[i], calls[i])
  }

  lemma CallsAreCuts(maxLines: nat, groups: seq<Group>, calls: seq<Call>)
    requires calls <= CallsFor(maxLines, groups)
    ensures AreCuts(maxLines, groups, calls)
  {
    forall i | 0 <= i < |calls|
      ensures IsCut(maxLines, groups[i], calls[i])
    {
      CallIsCut(maxLines, groups[i]);
      assert calls[i] == CallsFor(maxLines, groups)[i];
    }
  }

  // ----- stopping early

  lemma {:induction false} ClosedGrow(items: seq<Item>, k: nat)
    requires k <= |items|
    ensures ClosedGroups(items[..k]) <= ClosedGroups(items)
    decreases |items|
  {
    if k == |items| {
      assert items[..k] == items;
    } else {
      var before := items[..|items| - 1];
      assert before[..k] == items[..k];
      ClosedGrow(before, k);
      assert ClosedGroups(before) <= ClosedGroups(items);
    }
  }

  lemma ItemsPrefix(lines: seq<Line>, k: nat)
    requires k <= |lines|
    ensures Items(lines[..k]) == Items(lines)[..k]
  {
  }

  /** The groups before a line that ends one are the first of all the groups. */
  lemma GroupsBefore(lines: seq<Line>, k: nat)
    requires k < |lines| && Ends(Items(lines[..k]), ItemOf(lines[k].first))
    ensures Groups(Items(lines[..k])) <= Groups(Items(lines))
  {
    hide Groups;
    var items := Items(lines);
    ItemsPrefix(lines, k);
    assert items[..k + 1] == items[..k] + [items[k]];
    GroupsInSteps(items[..k]);
    AfterItem(items[..k], items[k]);
    ClosedGrow(items, k + 1);
    GroupsInSteps(items);
  }

  lemma ClosedBefore(lines: seq<Line>, k: nat)
    requires k <= |lines|
    ensures ClosedGroups(Items(lines[..k])) <= Groups(Items(lines))
  {
    hide Groups;
    ItemsPrefix(lines, k);
    ClosedGrow(Items(lines), k);
    GroupsInSteps(Items(lines));
  }

  lemma CallsPrefix(maxLines: nat, a: seq<Group>, b: seq<Group>)
    requires a <= b
    ensures CallsFor(maxLines, a) <= CallsFor(maxLines, b)
  {
    CallsConcat(maxLines, a, b[|a|..]);
    assert a + b[|a|..] == b;
  }

  /** Whatever the output, the calls are made for the first groups of it, in order, each cut to its first
    `maxLines` lines; for all of them when reading reaches the end, and that happens exactly when no line is
    malformed and no line that ends a group is read with more than `maxBytes` bytes. */
  lemma CallsArePrefix(lines: seq<Line>, maxLines: nat, maxBytes: int)
    ensures var o, all := Reading(lines, maxLines, maxBytes), CallsFor(maxLines, Groups(Items(lines)));
            && o.calls <= all && AreCuts(maxLines, Groups(Items(lines)), o.calls)
            && (o.end == Eof ==> o.calls == all)
            && (o.end == Eof <==> forall i :: 0 <= i < |lines| ==> !StopsAt(lines, maxBytes, i))
  {
    CallsAreFirst(lines, maxLines, maxBytes);
    hide *;
    CallsAreCuts(maxLines, Groups(Items(lines)), Reading(lines, maxLines, maxBytes).calls);
  }

  lemma CallsAreFirst(lines: seq<Line>, maxLines: nat, maxBytes: int)
    ensures var o, all := Reading(lines, maxLines, maxBytes), CallsFor(maxLines, Groups(Items(lines)));
            && o.calls <= all
            && (o.end == Eof ==> o.calls == all)
            && (o.end == Eof <==> forall i :: 0 <= i < |lines| ==> !StopsAt(lines, maxBytes, i))
  {
    hide Groups;
    hide ClosedGroups;
    hide CallsFor;
    hide Items;
    var k := StopLine(lines, maxBytes, 0);
    if k < |lines| {
      assert StopsAt(lines, maxBytes, k);
      if ItemOf(lines[k].first).Malformed? {
        ClosedBefore(lines, k);
        CallsPrefix(maxLines, ClosedGroups(Items(lines[..k])), Groups(Items(lines)));
      } else {
        GroupsBefore(lines, k);
        CallsPrefix(maxLines, Groups(Items(lines[..k])), Groups(Items(lines)));
      }
    }
  }

  // ----- printing groups

  predicate Printable(g: Group) {
    g.texts != [] && g.file != "" && '\0' !in g.file
  }

  /** Two groups of one file in a row are told apart by a separator; between others it may be missing. */
  predicate Separated(groups: seq<Group>, cuts: seq<bool>) {
    |cuts| == |groups| && forall i :: 0 <= i < |groups| - 1 && groups[i].file == groups[i + 1].file ==> cuts[i]
  }

  /** The lines of one group, each short enough for the reader to return it in one piece. */
  function GroupLines(g: Group): (lines: seq<Line>)
    ensures |lines| == |g.texts|
    ensures forall i :: 0 <= i < |lines| ==> lines[i] == Line(g.file + "\0" + g.texts[i], [])
  {
    seq(|g.texts|, i requires 0 <= i < |g.texts| => Line(g.file + "\0" + g.texts[i], []))
  }

  function CutLine(cut: bool): seq<Line> {
    if cut then [Line("--", [])] else []
  }

  function PrintGroups(groups: seq<Group>, cuts: seq<bool>): seq<Line>
    requires |cuts| == |groups|
  {
    if groups == [] then [] else GroupLines(groups[0]) + CutLine(cuts[0]) + PrintGroups(groups[1..], cuts[1..])
  }

  lemma {:induction false} NulIndexOf(file: string, text: string)
    requires '\0' !in file
    ensures NulIndex(file + "\0" + text) == |file|
  {
    var s := file + "\0" + text;
    assert s[|file|] == '\0';
    assert forall i :: 0 <= i < |file| ==> s[i] == file[i];
  }

  lemma PrintedItem(file: string, text: string)
    requires file != "" && '\0' !in file
    ensures ItemOf(file + "\0" + text) == Match(file, text)
  {
    NulIndexOf(file, text);
    var s := file + "\0" + text;
    assert s[|file|] == '\0' && "--"[0] == '-' && "--"[1] == '-';
    assert s[..|file|] == file && s[|file| + 1..] == text;
  }

  lemma GroupItems(g: Group)
    requires Printable(g)
    ensures var items := Items(GroupLines(g));
            |items| == |g.texts| && forall i :: 0 <= i < |items| ==> items[i] == Match(g.file, g.texts[i])
  {
    forall i | 0 <= i < |g.texts|
      ensures Items(GroupLines(g))[i] == Match(g.file, g.texts[i])
    {
      PrintedItem(g.file, g.texts[i]);
    }
  }

  lemma {:induction false} RunOf(run: seq<Item>, tail: seq<Item>, file: string)
    requires run != [] && forall i :: 0 <= i < |run| ==> run[i].Match? && run[i].file == file
    requires tail != [] ==> !(tail[0].Match? && tail[0].file == file)
    ensures RunLength(run + tail) == |run|
    decreases |run|
  {
    var all := run + tail;
    if |run| > 1 {
      assert all[1..] == run[1..] + tail;
      RunOf(run[1..], tail, file);
    }
  }

  lemma RunGroup(g: Group, tail: seq<Item>)
    requires Printable(g) && (tail != [] ==> !(tail[0].Match? && tail[0].file == g.file))
    ensures Groups(Items(GroupLines(g)) + tail) == [g] + Groups(tail)
  {
    GroupItems(g);
    var run := Items(GroupLines(g));
    RunOf(run, tail, g.file);
    assert (run + tail)[..|run|] == run && (run + tail)[|run|..] == tail;
    assert Texts(run) == g.texts;
  }

  lemma ItemsConcat(a: seq<Line>, b: seq<Line>)
    ensures Items(a + b) == Items(a) + Items(b)
  {
  }

  /** Reading undoes printing: the groups of what was printed are the groups. */
  lemma {:induction false} PrintedGroupsRead(groups: seq<Group>, cuts: seq<bool>)
    requires Separated(groups, cuts) && forall i :: 0 <= i < |groups| ==> Printable(groups[i])
    ensures Groups(Items(PrintGroups(groups, cuts))) == groups
    decreases |groups|
  {
    if groups != [] {
      FewerGroups(groups, cuts);
      PrintedGroupsRead(groups[1..], cuts[1..]);
      PrintedGroupThen(groups, cuts);
    } else {
      assert PrintGroups(groups, cuts) == [];
    }
  }

  lemma PrintedGroupThen(groups: seq<Group>, cuts: seq<bool>)
    requires groups != [] && Separated(groups, cuts) && forall i :: 0 <= i < |groups| ==> Printable(groups[i])
    requires Groups(Items(PrintGroups(groups[1..], cuts[1..]))) == groups[1..]
    ensures Groups(Items(PrintGroups(groups, cuts))) == groups
  {
    var rest := PrintGroups(groups[1..], cuts[1..]);
    CutRead(groups, cuts, rest);
    hide *;
    ItemsConcat(GroupLines(groups[0]), CutLine(cuts[0]) + rest);
    RunGroup(groups[0], Items(CutLine(cuts[0]) + rest));
    OneGroupFirst(groups, cuts);
    assert [groups[0]] + groups[1..] == groups;
  }

  lemma OneGroupFirst(groups: seq<Group>, cuts: seq<bool>)
    requires groups != [] && |cuts| == |groups|
    ensures PrintGroups(groups, cuts) == GroupLines(groups[0])
            + (CutLine(cuts[0]) + PrintGroups(groups[1..], cuts[1..]))
  {
  }

  lemma FewerGroups(groups: seq<Group>, cuts: seq<bool>)
    requires groups != [] && Separated(groups, cuts)
    ensures Separated(groups[1..], cuts[1..])
  {
  }

  lemma CutRead(groups: seq<Group>, cuts: seq<bool>, rest: seq<Line>)
    requires groups != [] && Separated(groups, cuts) && forall i :: 0 <= i < |groups| ==> Printable(groups[i])
    requires rest == PrintGroups(groups[1..], cuts[1..])
    ensures var tail := Items(CutLine(cuts[0]) + rest);
            && Groups(tail) == Groups(Items(rest))
            && (tail != [] ==> !(tail[0].Match? && tail[0].file == groups[0].file))
  {
    ItemsConcat(CutLine(cuts[0]), rest);
    if cuts[0] {
      assert Items(CutLine(true)) == [Separator];
      assert ([Separator] + Items(rest))[1..] == Items(rest);
    } else {
      assert CutLine(cuts[0]) + rest == rest;
      if |groups| > 1 {
        GroupItems(groups[1]);
        assert rest[0] == GroupLines(groups[1])[0];
      }
    }
  }

  /** With a budget that the output fits, printing groups and running the reader calls back once for each. */
  lemma PrintedGroupsCalled(groups: seq<Group>, cuts: seq<bool>, maxLines: nat, maxBytes: int)
    requires Separated(groups, cuts) && forall i :: 0 <= i < |groups| ==> Printable(groups[i])
    requires SizeOfLines(PrintGroups(groups, cuts)) <= maxBytes
    ensures var lines := PrintGroups(groups, cuts);
            && Reading(lines, maxLines, maxBytes) == Outcome(CallsFor(maxLines, groups), SizeOfLines(lines), Eof)
            && |CallsFor(maxLines, groups)| == |groups| && AreCuts(maxLines, groups, CallsFor(maxLines, groups))
  {
    var lines := PrintGroups(groups, cuts);
    PrintedGroupsRead(groups, cuts);
    forall i | 0 <= i < |lines|
      ensures !StopsAt(lines, maxBytes, i)
    {
      PrintedWellFormed(groups, cuts, i);
      SizeGrows(lines, i);
    }
    CallsArePrefix(lines, maxLines, maxBytes);
    CallsAreCuts(maxLines, groups, CallsFor(maxLines, groups));
    hide AreCuts;
  }

  lemma {:induction false} SizeGrows(lines: seq<Line>, i: nat)
    requires i < |lines|
    ensures SizeOfLines(lines[..i]) + |lines[i].first| <= SizeOfLines(lines)
    decreases |lines|
  {
    var before := lines[..|lines| - 1];
    if i < |before| {
      assert before[..i] == lines[..i];
      SizeGrows(before, i);
    }
  }

  lemma {:induction false} PrintedWellFormed(groups: seq<Group>, cuts: seq<bool>, i: nat)
    requires |cuts| == |groups| && forall j :: 0 <= j < |groups| ==> Printable(groups[j])
    requires i < |PrintGroups(groups, cuts)|
    ensures !ItemOf(PrintGroups(groups, cuts)[i].first).Malformed?
    decreases |groups|
  {
    var n, cut := |GroupLines(groups[0])|, |CutLine(cuts[0])|;
    if i < n {
      PrintedItem(groups[0].file, groups[0].texts[i]);
    } else if i >= n + cut {
      PrintedWellFormed(groups[1..], cuts[1..], i - n - cut);
    }
  }
}
