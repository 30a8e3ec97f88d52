/** Where reading a command's output stops, in terms of the bytes it printed. */
module GrepStops {
  import opened GrepGroups
  import opened GrepOutput

  // ----- what a line says

  /** A line of a file is a name and a text around the first NUL. */
  lemma MatchExactly(first: string, file: string, text: string)
    ensures ItemOf(first) == Match(file, text) <==> first == file + "\0" + text && file != "" && '\0' !in file
  {
    if first == file + "\0" + text && file != "" && '\0' !in file {
      PrintedItem(file, text);
    }
    if ItemOf(first) == Match(file, text) {
      MatchParts(first);
    }
  }

  lemma MatchParts(first: string)
    requires ItemOf(first).Match?
    ensures var item := ItemOf(first); first == item.file + "\0" + item.text && item.file != "" && '\0' !in item.file
  {
    var i := NulIndex(first);
    hide NulIndex;
    assert first == first[..i] + [first[i]] + first[i + 1..];
  }

  /** A separator is two dashes; any other line without a file name before its first NUL is malformed. */
  lemma OtherExactly(first: string)
    ensures ItemOf(first) == Separator <==> first == "--"
    ensures ItemOf(first).Malformed? <==> first != "--" && (first == "" || first[0] == '\0' || '\0' !in first)
  {
    var i := NulIndex(first);
    hide NulIndex;
    assert '\0' in first <==> i >= 0;
  }

  // ----- bytes

  function Concat(pieces: seq<string>): string {
    if pieces == [] then "" else Concat(pieces[..|pieces| - 1]) + pieces[|pieces| - 1]
  }

  /** Everything that was printed. */
  function Output(lines: seq<Line>): string {
    if lines == [] then ""
    else Output(lines[..|lines| - 1]) + lines[|lines| - 1].first + Concat(lines[|lines| - 1].rest)
  }

  lemma {:induction false} SizeIsLength(pieces: seq<string>)
    ensures Size(pieces) == |Concat(pieces)|
  {
    if pieces != [] {
      SizeIsLength(pieces[..|pieces| - 1]);
    }
  }

  lemma {:induction false} LinesAreLength(lines: seq<Line>)
    ensures SizeOfLines(lines) == |Output(lines)|
  {
    if lines != [] {
      LinesAreLength(lines[..|lines| - 1]);
      SizeIsLength(lines[|lines| - 1].rest);
    }
  }

  /** The bytes printed up to the first piece of line `k`. */
  function BytesUpTo(lines: seq<Line>, k: nat): nat
    requires k < |lines|
  {
    |Output(lines[..k]) + lines[k].first|
  }

  // ----- groups

  /** Item `j` is the last line of a file before item `k`. */
  predicate LastBefore(items: seq<Item>, j: int, k: int) {
    0 <= j < k <= |items| && items[j].Match? && forall m :: j < m < k ==> !items[m].Match?
  }

  /** Item `k` ends the group before it: it is no line of a file, or the last one before it is of another file. */
  predicate Cuts(items: seq<Item>, k: nat)
    requires k < |items|
  {
    items[k].Match? ==> forall j :: 0 <= j < k && LastBefore(items, j, k) ==> items[j].file != items[k].file
  }

  lemma {:induction false} LastFileIs(items: seq<Item>)
    ensures LastFile(items) == "" || exists j :: LastBefore(items, j, |items|) && items[j].file == LastFile(items)
    ensures forall j :: LastBefore(items, j, |items|) ==> items[j].file == LastFile(items)
  {
    if items != [] {
      var n := |items| - 1;
      LastFileIs(items[..n]);
      if items[n].Match? {
        assert LastBefore(items, n, |items|);
      } else {
        assert forall j :: LastBefore(items, j, |items|) <==> LastBefore(items[..n], j, n);
      }
    }
  }

  lemma EndsIs(lines: seq<Line>, k: nat)
    requires k < |lines|
    ensures Ends(Items(lines[..k]), ItemOf(lines[k].first)) <==> Cuts(Items(lines), k)
  {
    var items, item := Items(lines), ItemOf(lines[k].first);
    assert Items(lines[..k]) == items[..k] && items[k] == item;
    LastFileIs(items[..k]);
    assert forall j :: LastBefore(items, j, k) <==> LastBefore(items[..k], j, k);
    if item.Match? {
      MatchExactly(lines[k].first, item.file, item.text);
    }
    hide ItemOf;
    hide LastBefore;
    hide LastFile;
  }

  /** Reading cannot go past line `k`: it is malformed, or ends a group when more bytes than the budget were read. */
  predicate Blocks(lines: seq<Line>, maxBytes: int, k: nat)
    requires k < |lines|
  {
    Items(lines)[k].Malformed? || (Cuts(Items(lines), k) && BytesUpTo(lines, k) > maxBytes)
  }

  lemma BlocksIs(lines: seq<Line>, maxBytes: int, k: nat)
    requires k < |lines|
    ensures StopsAt(lines, maxBytes, k) <==> Blocks(lines, maxBytes, k)
    ensures BytesAt(lines, k) == BytesUpTo(lines, k)
  {
    EndsIs(lines, k);
    LinesAreLength(lines[..k]);
    hide Cuts;
    hide Ends;
    hide ItemOf;
  }

  /** Line `k` is the first that reading cannot go past; there is none when `k` is the number of lines. */
  predicate FirstBlock(lines: seq<Line>, maxBytes: int, k: nat) {
    && k <= |lines| && (k < |lines| ==> Blocks(lines, maxBytes, k))
    && forall j :: 0 <= j < k ==> !Blocks(lines, maxBytes, j)
  }

  /** Reading stops exactly at the first line it cannot go past: how many bytes it has read then, why it stopped,
    and for how many groups it has called back. The group before a malformed line is not called back for. */
  lemma StopsExactly(lines: seq<Line>, maxLines: nat, maxBytes: int) returns (k: nat)
    ensures FirstBlock(lines, maxBytes, k)
    ensures var o := Reading(lines, maxLines, maxBytes);
            && o.bytesRead == (if k == |lines| then |Output(lines)| else BytesUpTo(lines, k))
            && o.end == (if k == |lines| then Eof else if Items(lines)[k].Malformed? then Unexpected else MaxBytes)
            && (var open := if o.end == Unexpected && k > 0 && Items(lines)[k - 1].Match? then 1 else 0;
                |o.calls| == |Groups(Items(lines[..k]))| - open)
            && AreCuts(maxLines, Groups(Items(lines[..k])), o.calls)
  {
    k := StopLine(lines, maxBytes, 0);
    FirstBlockIs(lines, maxBytes, k);
    LinesAreLength(lines);
    if k < |lines| {
      BlocksIs(lines, maxBytes, k);
    } else {
      assert lines[..k] == lines;
    }
    CallCount(lines, maxLines, maxBytes, k);
    ReadingAt(lines, maxLines, maxBytes, k);
    hide *;
    var o := Reading(lines, maxLines, maxBytes);
    CallsAreCuts(maxLines, Groups(Items(lines[..k])), o.calls);
  }

  lemma FirstBlockIs(lines: seq<Line>, maxBytes: int, k: nat)
    requires k == StopLine(lines, maxBytes, 0)
    ensures FirstBlock(lines, maxBytes, k)
  {
    hide StopsAt;
    hide Blocks;
    forall j | 0 <= j < |lines|
      ensures StopsAt(lines, maxBytes, j) <==> Blocks(lines, maxBytes, j)
    {
      BlocksIs(lines, maxBytes, j);
    }
  }

  /** How reading ends at line `k`. */
  lemma ReadingAt(lines: seq<Line>, maxLines: nat, maxBytes: int, k: nat)
    requires k == StopLine(lines, maxBytes, 0)
    ensures var o := Reading(lines, maxLines, maxBytes);
            && o.bytesRead == (if k == |lines| then SizeOfLines(lines) else BytesAt(lines, k))
            && o.end == (if k == |lines| then Eof else if Items(lines)[k].Malformed? then Unexpected else MaxBytes)
  {
    hide StopLine;
    hide ItemOf;
    hide BytesAt;
    hide Groups;
    hide ClosedGroups;
    hide CallsFor;
    hide SizeOfLines;
  }

  /** The groups called back for: all of those before line `k`, or all but an open one before a malformed line. */
  lemma CallCount(lines: seq<Line>, maxLines: nat, maxBytes: int, k: nat)
    requires k == StopLine(lines, maxBytes, 0)
    ensures var o, groups := Reading(lines, maxLines, maxBytes), Groups(Items(lines[..k]));
            && o.calls <= CallsFor(maxLines, groups)
            && (var open := if o.end == Unexpected && k > 0 && Items(lines)[k - 1].Match? then 1 else 0;
                |o.calls| == |groups| - open)
  {
    hide *;
    var items := Items(lines[..k]);
    var o := Reading(lines, maxLines, maxBytes);
    ReadingCalls(lines, maxLines, maxBytes, k);
    GroupsInSteps(items);
    OpenAtEnd(items);
    LastItem(lines, k);
    FewerCalls(maxLines, ClosedGroups(items), OpenGroup(items), o.end == Unexpected, o.calls);
  }

  lemma LastItem(lines: seq<Line>, k: nat)
    requires k <= |lines|
    ensures |Items(lines[..k])| == k && (k > 0 ==> Items(lines[..k])[k - 1] == Items(lines)[k - 1])
  {
    ItemsPrefix(lines, k);
    hide Items;
  }

  lemma FewerCalls(maxLines: nat, closed: seq<Group>, open: seq<Group>, cut: bool, calls: seq<Call>)
    requires calls == CallsFor(maxLines, if cut then closed else closed + open)
    ensures calls <= CallsFor(maxLines, closed + open)
    ensures |calls| == |closed + open| - if cut then |open| else 0
  {
    hide CallsFor;
    CallsPrefix(maxLines, closed, closed + open);
  }

  lemma ReadingCalls(lines: seq<Line>, maxLines: nat, maxBytes: int, k: nat)
    requires k == StopLine(lines, maxBytes, 0)
    ensures var o, items := Reading(lines, maxLines, maxBytes), Items(lines[..k]);
            o.calls == CallsFor(maxLines, if o.end == Unexpected then ClosedGroups(items) else Groups(items))
  {
    assert k == |lines| ==> lines[..k] == lines;
    hide StopLine;
    hide ItemOf;
    hide BytesAt;
    hide Groups;
    hide ClosedGroups;
    hide CallsFor;
    hide Items;
    hide SizeOfLines;
  }

  lemma OpenAtEnd(items: seq<Item>)
    ensures |OpenGroup(items)| == if items != [] && items[|items| - 1].Match? then 1 else 0
  {
  }
}
