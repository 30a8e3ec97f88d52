/** Reading the output of a grep command: lines of the same file are grouped, up to a number of lines each
  and a number of bytes in all. A string stands for bytes. */
module GrepOutput {

  /** One line of output, in the pieces that the buffered reader returns it. */
  datatype Line = Line(first: string, rest: seq<string>)

  /** What the first piece of a line says. The file name ends with a NUL. */
  datatype Item = Match(file: string, text: string) | Separator | Malformed

  datatype Group = Group(file: string, texts: seq<string>)

  /** One call of the callback. */
  datatype Call = Call(file: string, lines: seq<string>, hidden: nat)

  datatype End = Eof | MaxBytes | Unexpected

  /** `bytes.IndexByte(s, 0)`. */
  function NulIndex(s: string): (i: int)
    ensures -1 <= i < |s|
    ensures i >= 0 ==> s[i] == '\0'
    ensures forall j :: 0 <= j < (if i < 0 then |s| else i) ==> s[j] != '\0'
  {
    if s == "" then -1
    else if s[0] == '\0' then 0
    else
      var i := NulIndex(s[1..]);
      if i < 0 then -1 else i + 1
  }

  function ItemOf(first: string): Item {
    if first == "--" then Separator
    else
      var i := NulIndex(first);
      if i < 1 then Malformed else Match(first[..i], first[i + 1..])
  }

  function Items(lines: seq<Line>): (items: seq<Item>)
    ensures |items| == |lines|
    ensures forall i :: 0 <= i < |lines| ==> items[i] == ItemOf(lines[i].first)
  {
    seq(|lines|, i requires 0 <= i < |lines| => ItemOf(lines[i].first))
  }

  // ----- the groups of a well-formed output

  /** How many of the first items are lines of one file. */
  function RunLength(items: seq<Item>): (n: nat)
    requires items != [] && items[0].Match?
    ensures 0 < n <= |items|
  {
    if |items| > 1 && items[1].Match? && items[1].file == items[0].file then RunLength(items[1..]) + 1 else 1
  }

  function TextOf(item: Item): string {
    if item.Match? then item.text else ""
  }

  function Texts(items: seq<Item>): (texts: seq<string>)
    ensures |texts| == |items|
    ensures forall i :: 0 <= i < |items| ==> texts[i] == TextOf(items[i])
  {
    seq(|items|, i requires 0 <= i < |items| => TextOf(items[i]))
  }

  /** One group for each longest run of lines of one file that no separator cuts. */
  function Groups(items: seq<Item>): seq<Group>
    decreases |items|
  {
    if items == [] then []
    else if !items[0].Match? then Groups(items[1..])
    else
      var n := RunLength(items);
      [Group(items[0].file, Texts(items[..n]))] + Groups(items[n..])
  }

  function Min(a: nat, b: nat): nat {
    if a < b then a else b
  }

  /** What the callback gets for a group: its first lines, and how many more there are. */
  function CallFor(maxLines: nat, g: Group): Call {
    var n := Min(|g.texts|, maxLines);
    Call(g.file, g.texts[..n], |g.texts| - n)
  }

  function CallsFor(maxLines: nat, groups: seq<Group>): (calls: seq<Call>)
    ensures |calls| == |groups|
    ensures forall i :: 0 <= i < |groups| ==> calls[i] == CallFor(maxLines, groups[i])
  {
    seq(|groups|, i requires 0 <= i < |groups| => CallFor(maxLines, groups[i]))
  }

  // ----- the same, one item at a time

  /** The file of the last line of a file, if there was one. */
  function LastFile(items: seq<Item>): string {
    if items == [] then ""
    else if items[|items| - 1].Match? then items[|items| - 1].file
    else LastFile(items[..|items| - 1])
  }

  /** An item that ends the group before it: a separator, or a line of another file. */
  predicate Ends(before: seq<Item>, item: Item) {
    !item.Match? || item.file != LastFile(before)
  }

  /** The lines of the group that may go on. */
  function OpenTexts(items: seq<Item>): seq<string> {
    if items == [] || !items[|items| - 1].Match? then []
    else
      var before, item := items[..|items| - 1], items[|items| - 1];
      (if Ends(before, item) then [] else OpenTexts(before)) + [item.text]
  }

  function OpenGroup(items: seq<Item>): (g: seq<Group>)
    ensures |g| <= 1
  {
    if OpenTexts(items) == [] then [] else [Group(LastFile(items), OpenTexts(items))]
  }

  /** The groups that an item has ended. */
  function ClosedGroups(items: seq<Item>): seq<Group> {
    if items == [] then []
    else
      var before, item := items[..|items| - 1], items[|items| - 1];
      ClosedGroups(before) + if Ends(before, item) then OpenGroup(before) else []
  }

  // ----- where reading stops

  function Size(pieces: seq<string>): nat {
    if pieces == [] then 0 else Size(pieces[..|pieces| - 1]) + |pieces[|pieces| - 1]|
  }

  function SizeOfLines(lines: seq<Line>): nat {
    if lines == [] then 0
    else SizeOfLines(lines[..|lines| - 1]) + |lines[|lines| - 1].first| + Size(lines[|lines| - 1].rest)
  }

  /** The bytes read when the first piece of line `i` has been. */
  function BytesAt(lines: seq<Line>, i: nat): nat
    requires i < |lines|
  {
    SizeOfLines(lines[..i]) + |lines[i].first|
  }

  predicate OverBudget(lines: seq<Line>, maxBytes: int, i: nat)
    requires i < |lines|
  {
    Ends(Items(lines[..i]), ItemOf(lines[i].first)) && BytesAt(lines, i) > maxBytes
  }

  predicate StopsAt(lines: seq<Line>, maxBytes: int, i: nat)
    requires i < |lines|
  {
    ItemOf(lines[i].first).Malformed? || OverBudget(lines, maxBytes, i)
  }

  /** The first line at which reading stops, or the end of the output. */
  function StopLine(lines: seq<Line>, maxBytes: int, i: nat): (k: nat)
    requires i <= |lines|
    ensures i <= k <= |lines|
    ensures forall j :: i <= j < k ==> !StopsAt(lines, maxBytes, j)
    ensures k < |lines| ==> StopsAt(lines, maxBytes, k)
    decreases |lines| - i
  {
    if i == |lines| || StopsAt(lines, maxBytes, i) then i else StopLine(lines, maxBytes, i + 1)
  }

  datatype Outcome = Outcome(calls: seq<Call>, bytesRead: nat, end: End)

  /** What reading an output comes to. */
  function Reading(lines: seq<Line>, maxLines: nat, maxBytes: int): Outcome {
    var k := StopLine(lines, maxBytes, 0);
    if k == |lines| then Outcome(CallsFor(maxLines, Groups(Items(lines))), SizeOfLines(lines), Eof)
    else if ItemOf(lines[k].first).Malformed? then
      Outcome(CallsFor(maxLines, ClosedGroups(Items(lines[..k]))), BytesAt(lines, k), Unexpected)
    else Outcome(CallsFor(maxLines, Groups(Items(lines[..k]))), BytesAt(lines, k), MaxBytes)
  }

  // ----- the reader

  function Nuls(n: nat): string {
    if n == 0 then "" else Nuls(n - 1) + "\0"
  }

  /** A new buffer is not empty: it holds 1024 NULs, which no file name equals. */
  const NO_NAME := Nuls(1024)

  predicate Named(filename: string, file: string) {
    if file == "" then filename == NO_NAME else filename == file + "\0"
  }

  /** What the loop holds after the items read so far. */
  predicate Held(items: seq<Item>, filename: string, line: nat, found: seq<string>) {
    && Named(filename, LastFile(items))
    && line == |OpenTexts(items)| && (line > 0 ==> LastFile(items) != "")
    && found[..Min(line, |found|)] == OpenTexts(items)[..Min(line, |found|)]
  }

  lemma AfterItem(before: seq<Item>, item: Item)
    ensures var items := before + [item];
            && LastFile(items) == (if item.Match? then item.file else LastFile(before))
            && ClosedGroups(items) == ClosedGroups(before) + (if Ends(before, item) then OpenGroup(before) else [])
            && OpenTexts(items) ==
               if !item.Match? then [] else (if Ends(before, item) then [] else OpenTexts(before)) + [item.text]
  {
    assert (before + [item])[..|before|] == before;
  }

  lemma CallsConcat(maxLines: nat, a: seq<Group>, b: seq<Group>)
    ensures CallsFor(maxLines, a + b) == CallsFor(maxLines, a) + CallsFor(maxLines, b)
  {
  }

  /** Reading one more line. */
  lemma NextItem(lines: seq<Line>, i: nat, maxLines: nat)
    requires i < |lines|
    ensures var items, item := Items(lines[..i]), ItemOf(lines[i].first);
            && Items(lines[..i + 1]) == items + [item]
            && CallsFor(maxLines, ClosedGroups(items + [item])) ==
               CallsFor(maxLines, ClosedGroups(items)) + if Ends(items, item)
                   then CallsFor(maxLines, OpenGroup(items)) else []
    ensures SizeOfLines(lines[..i + 1]) == SizeOfLines(lines[..i]) + |lines[i].first| + Size(lines[i].rest)
  {
    hide ItemOf;
    assert lines[..i + 1][..i] == lines[..i];
    var items, item := Items(lines[..i]), ItemOf(lines[i].first);
    assert Items(lines[..i + 1]) == items + [item];
    hide *;
    AfterItem(items, item);
    CallsConcat(maxLines, ClosedGroups(items), OpenGroup(items));
    assert ClosedGroups(items) + [] == ClosedGroups(items);
  }

  /** The name of the next line is in the buffer exactly when the line is of the last file. */
  lemma SameName(items: seq<Item>, filename: string, line: nat, found: seq<string>, item: Item)
    requires Held(items, filename, line, found)
    requires item.Match? && item.file != "" && '\0' !in item.file
    ensures item.file + "\0" == filename <==> !Ends(items, item)
    ensures filename != ""
  {
    assert NO_NAME == Nuls(1023) + "\0" && Nuls(1023) == Nuls(1022) + "\0";
    if LastFile(items) == "" {
      assert (item.file + "\0")[|item.file| - 1] != '\0';
      assert '\0' in NO_NAME[..|NO_NAME| - 1];
      AllNuls(1024);
    } else if item.file + "\0" == filename {
      assert (item.file + "\0")[..|item.file|] == filename[..|item.file|];
    }
  }

  lemma {:induction false} AllNuls(n: nat)
    ensures |Nuls(n)| == n && forall i :: 0 <= i < n ==> Nuls(n)[i] == '\0'
  {
    if n > 0 {
      AllNuls(n - 1);
    }
  }

  lemma HeldNew(items: seq<Item>, item: Item, filename: string, line: nat, found: seq<string>)
    requires Held(items, filename, line, found) && found != []
    requires item.Match? && item.file != "" && Ends(items, item)
    ensures Held(items + [item], item.file + "\0", 1, found[0 := item.text])
  {
    AfterItem(items, item);
  }

  lemma HeldCut(items: seq<Item>, item: Item, filename: string, line: nat, found: seq<string>)
    requires Held(items, filename, line, found) && !item.Match?
    ensures Held(items + [item], filename, 0, found)
  {
    AfterItem(items, item);
  }

  lemma HeldMore(items: seq<Item>, item: Item, filename: string, line: nat, found: seq<string>)
    requires Held(items, filename, line, found)
    requires item.Match? && item.file != "" && !Ends(items, item)
    ensures Held(items + [item], filename, line + 1, if line < |found| then found[line := item.text] else found)
  {
    AfterItem(items, item);
    var more := if line < |found| then found[line := item.text] else found;
    assert more[..Min(line, |found|)] == found[..Min(line, |found|)];
  }

  lemma HeldNothing(found: seq<string>)
    ensures Held([], NO_NAME, 0, found)
  {
  }

  /** `send`: the result so far, if there is one. */
  method Send(found: array<string>, line: nat, filename: string, ghost items: seq<Item>) returns (sent: seq<Call>)
    requires found.Length > 0 && Held(items, filename, line, found[..])
    ensures sent == CallsFor(found.Length, OpenGroup(items))
  {
    var result := found[..];
    if line < |result| {
      result := result[..line];
    }
    if |result| == 0 {
      return [];
    }
    var path := filename;
    path := path[..|path| - 1];
    var hidden := line - |result|;
    assert Call(path, result, hidden) == CallFor(found.Length, OpenGroup(items)[0]);
    assert [Call(path, result, hidden)] == CallsFor(found.Length, OpenGroup(items));
    return [Call(path, result, hidden)];
  }

  predicate Unstopped(lines: seq<Line>, maxBytes: int, i: nat)
    requires i <= |lines|
  {
    forall j :: 0 <= j < i ==> !StopsAt(lines, maxBytes, j)
  }

  lemma {:induction false} StopLineIs(lines: seq<Line>, maxBytes: int, i: nat, k: nat)
    requires i <= k <= |lines| && Unstopped(lines, maxBytes, k)
    requires k < |lines| ==> StopsAt(lines, maxBytes, k)
    ensures StopLine(lines, maxBytes, i) == k
    decreases k - i
  {
    hide StopsAt;
    if i < k {
      StopLineIs(lines, maxBytes, i + 1, k);
    }
  }

  /** Whether reading goes past line `i`, and what it comes to when it does not. */
  lemma AtLine(lines: seq<Line>, maxLines: nat, maxBytes: int, i: nat)
    requires i < |lines| && Unstopped(lines, maxBytes, i)
    ensures var items, item := Items(lines[..i]), ItemOf(lines[i].first);
            var bytes := SizeOfLines(lines[..i]) + |lines[i].first|;
            if item.Malformed? then
              Reading(lines, maxLines, maxBytes) == Outcome(CallsFor(maxLines, ClosedGroups(items)), bytes, Unexpected)
            else if Ends(items, item) && bytes > maxBytes then
              Reading(lines, maxLines, maxBytes) ==
                Outcome(CallsFor(maxLines, ClosedGroups(items)) + CallsFor(maxLines, OpenGroup(items)), bytes, MaxBytes)
            else Unstopped(lines, maxBytes, i + 1)
    ensures !ItemOf(lines[i].first).Match? ==> Ends(Items(lines[..i]), ItemOf(lines[i].first))
  {
    var items := Items(lines[..i]);
    if StopsAt(lines, maxBytes, i) {
      StopLineIs(lines, maxBytes, 0, i);
      GroupsInSteps(items);
      CallsConcat(maxLines, ClosedGroups(items), OpenGroup(items));
    }
  }

  lemma AtEnd(lines: seq<Line>, maxLines: nat, maxBytes: int)
    requires Unstopped(lines, maxBytes, |lines|)
    ensures Reading(lines, maxLines, maxBytes) ==
            Outcome(CallsFor(maxLines, ClosedGroups(Items(lines))) + CallsFor(maxLines, OpenGroup(Items(lines))),
                    SizeOfLines(lines), Eof)
  {
    StopLineIs(lines, maxBytes, 0, |lines|);
    GroupsInSteps(Items(lines));
    CallsConcat(maxLines, ClosedGroups(Items(lines)), OpenGroup(Items(lines)));
  }

  method SkipPieces(pieces: seq<string>, bytesRead: nat) returns (n: nat)
    ensures n == bytesRead + Size(pieces)
  {
    n := bytesRead;
    for j := 0 to |pieces|
      invariant n == bytesRead + Size(pieces[..j])
    {
      assert pieces[..j + 1][..j] == pieces[..j];
      n := n + |pieces[j]|;
    }
    assert pieces[..|pieces|] == pieces;
  }

  /** `runSingleCommand`, without starting the command. The callback never fails. */
  method RunSingleCommand(lines: seq<Line>, maxLines: nat, maxBytes: int)
      returns (calls: seq<Call>, bytesRead: nat, end: End)
    requires maxLines > 0
    ensures Outcome(calls, bytesRead, end) == Reading(lines, maxLines, maxBytes)
  {
    hide Held;
    hide ClosedGroups;
    hide OpenTexts;
    hide OpenGroup;
    hide LastFile;
    hide Groups;
    hide SizeOfLines;
    hide CallsFor;
    hide Items;
    hide Reading;
    hide Unstopped;
    hide Ends;
    hide NulIndex;
    hide Size;
    var filename := NO_NAME;
    var found := new string[maxLines];
    var line := 0;
    calls, bytesRead, end := [], 0, Eof;
    Nothing(lines, maxLines, maxBytes);
    HeldNothing(found[..]);
    var i := 0;
    while i < |lines|
      invariant 0 <= i <= |lines| && end == Eof && Unstopped(lines, maxBytes, i)
      invariant bytesRead == SizeOfLines(lines[..i])
      invariant calls == CallsFor(maxLines, ClosedGroups(Items(lines[..i])))
      invariant Held(Items(lines[..i]), filename, line, found[..])
    {
      ghost var items, item := Items(lines[..i]), ItemOf(lines[i].first);
      AtLine(lines, maxLines, maxBytes, i);
      var chunk := lines[i].first;
      bytesRead := bytesRead + |chunk|;
      var isMatchLine := |chunk| != 2 || chunk[0] != '-' || chunk != "--";
      var nextFilename := "";
      if isMatchLine {
        var filenameEnd := NulIndex(chunk);
        if filenameEnd < 1 {
          return calls, bytesRead, Unexpected;
        }
        nextFilename := chunk[..filenameEnd + 1];
        assert nextFilename == item.file + "\0";
        chunk := chunk[filenameEnd + 1..];
        SameName(items, filename, line, found[..], item);
        if |filename| == 0 {
          filename := nextFilename;
        }
      }
      ghost var before, had := found[..], line;
      if !isMatchLine || nextFilename != filename {
        var sent := Send(found, line, filename, items);
        calls := calls + sent;
        if bytesRead > maxBytes {
          return calls, bytesRead, MaxBytes;
        }
        line := 0;
        if isMatchLine {
          HeldNew(items, item, filename, had, before);
          filename := nextFilename;
          found[0] := chunk;
          assert found[..] == before[0 := chunk];
          line := 1;
        } else {
          HeldCut(items, item, filename, had, before);
        }
      } else {
        HeldMore(items, item, filename, line, before);
        if line >= maxLines {
          line := line + 1;
        } else {
          found[line] := chunk;
          assert found[..] == before[line := chunk];
          line := line + 1;
        }
      }
      NextItem(lines, i, maxLines);
      bytesRead := SkipPieces(lines[i].rest, bytesRead);
      i := i + 1;
    }
    assert lines[..i] == lines;
    AtEnd(lines, maxLines, maxBytes);
    var sent := Send(found, line, filename, Items(lines));
    calls := calls + sent;
  }

  lemma Nothing(lines: seq<Line>, maxLines: nat, maxBytes: int)
    ensures lines[..0] == [] && Items([]) == [] && SizeOfLines([]) == 0
    ensures CallsFor(maxLines, ClosedGroups([])) == [] && Unstopped(lines, maxBytes, 0)
  {
  }

  // ----- the two agree

  lemma {:induction false} RunLengthGrows(items: seq<Item>, item: Item)
    requires items != [] && items[0].Match?
    ensures RunLength(items + [item]) ==
            if RunLength(items) == |items| && item.Match? && item.file == items[0].file then |items| + 1
                else RunLength(items)
    decreases |items|
  {
    var all := items + [item];
    if |items| > 1 {
      assert all[1..] == items[1..] + [item];
      if items[1].Match? && items[1].file == items[0].file {
        RunLengthGrows(items[1..], item);
      }
    }
  }

  predicate GoesOn(items: seq<Item>, item: Item) {
    item.Match? && items != [] && items[|items| - 1].Match? && items[|items| - 1].file == item.file
  }

  function Longer(groups: seq<Group>, text: string): seq<Group> {
    if groups == [] then []
    else
      var last := groups[|groups| - 1];
      groups[..|groups| - 1] + [Group(last.file, last.texts + [text])]
  }

  /** One more item goes on with the last group, or begins a new one, or neither. */
  lemma {:induction false} GroupsGrow(items: seq<Item>, item: Item)
    ensures Groups(items + [item]) ==
            if !item.Match? then Groups(items)
            else if GoesOn(items, item) then Longer(Groups(items), item.text)
            else Groups(items) + [Group(item.file, [item.text])]
    ensures GoesOn(items, item) ==> Groups(items) != []
    decreases |items|
  {
    hide Groups;
    hide RunLength;
    hide Texts;
    var all := items + [item];
    if items == [] {
      OneItem(item);
      assert all == [item];
    } else if !items[0].Match? {
      assert all[1..] == items[1..] + [item];
      NoRun(items);
      NoRun(all);
      GroupsGrow(items[1..], item);
    } else {
      hide Longer;
      hide GoesOn;
      var n := RunLength(items);
      if RunLength(all) == n {
        SameRun(items, item);
        GroupsGrow(items[n..], item);
        LongerRest([Group(items[0].file, Texts(items[..n]))], Groups(items[n..]), TextOf(item));
      } else {
        LongerRun(items, item);
        LongerLast([], Group(items[0].file, Texts(items)), item.text);
      }
    }
  }

  lemma NoRun(items: seq<Item>)
    requires items != [] && !items[0].Match?
    ensures Groups(items) == Groups(items[1..])
  {
  }

  lemma LongerRest(first: seq<Group>, rest: seq<Group>, text: string)
    ensures rest != [] ==> Longer(first + rest, text) == first + Longer(rest, text)
  {
  }

  lemma OneItem(item: Item)
    ensures Groups([]) == [] && Groups([item]) == if item.Match? then [Group(item.file, [item.text])] else []
  {
    if item.Match? {
      assert [item][1..] == [] && [item][..1] == [item];
      assert Texts([item]) == [item.text];
    }
  }

  lemma SameRun(items: seq<Item>, item: Item)
    requires items != [] && items[0].Match? && RunLength(items + [item]) == RunLength(items)
    ensures var n, all := RunLength(items), items + [item];
            && Groups(items) == [Group(items[0].file, Texts(items[..n]))] + Groups(items[n..])
            && Groups(all) == [Group(items[0].file, Texts(items[..n]))] + Groups(items[n..] + [item])
            && (GoesOn(items, item) <==> GoesOn(items[n..], item))
  {
    hide Groups;
    hide RunLength;
    hide Texts;
    RunLengthGrows(items, item);
    var n, all := RunLength(items), items + [item];
    FirstRun(items);
    FirstRun(all);
    if n == |items| {
      RunEnds(items);
    }
    assert all[n..] == items[n..] + [item] && all[..n] == items[..n];
  }

  /** A run is of one file, and does not go on. */
  lemma {:induction false} RunIs(items: seq<Item>, i: nat)
    requires items != [] && items[0].Match?
    requires i < |items| && i <= RunLength(items)
    ensures (items[i].Match? && items[i].file == items[0].file) <==> i < RunLength(items)
  {
    if i > 0 && items[1].Match? && items[1].file == items[0].file {
      RunIs(items[1..], i - 1);
    }
  }

  lemma RunEnds(items: seq<Item>)
    requires items != [] && items[0].Match? && RunLength(items) == |items|
    ensures items[|items| - 1].Match? && items[|items| - 1].file == items[0].file
  {
    RunIs(items, |items| - 1);
  }

  lemma FirstRun(items: seq<Item>)
    requires items != [] && items[0].Match?
    ensures var n := RunLength(items); Groups(items) == [Group(items[0].file, Texts(items[..n]))] + Groups(items[n..])
  {
  }

  lemma LongerRun(items: seq<Item>, item: Item)
    requires items != [] && items[0].Match? && RunLength(items + [item]) != RunLength(items)
    ensures GoesOn(items, item) && RunLength(items) == |items|
    ensures Groups(items) == [Group(items[0].file, Texts(items))]
    ensures Groups(items + [item]) == [Group(items[0].file, Texts(items) + [item.text])]
  {
    hide Groups;
    hide RunLength;
    hide Texts;
    RunLengthGrows(items, item);
    RunEnds(items);
    WholeRun(items);
    WholeRun(items + [item]);
    MoreTexts(items, item);
  }

  lemma MoreTexts(items: seq<Item>, item: Item)
    requires item.Match?
    ensures Texts(items + [item]) == Texts(items) + [item.text]
  {
  }

  lemma WholeRun(items: seq<Item>)
    requires items != [] && items[0].Match? && RunLength(items) == |items|
    ensures Groups(items) == [Group(items[0].file, Texts(items))]
  {
    var n := |items|;
    assert items[..n] == items && items[n..] == [];
  }

  /** The groups ended so far and the one that may go on are the groups of what was read. */
  lemma {:induction false} GroupsInSteps(items: seq<Item>)
    ensures Groups(items) == ClosedGroups(items) + OpenGroup(items)
    decreases |items|
  {
    if items != [] {
      var before, item := items[..|items| - 1], items[|items| - 1];
      assert items == before + [item];
      GroupsInSteps(before);
      OneMoreStep(before, item);
    }
  }

  lemma OneMoreStep(items: seq<Item>, item: Item)
    requires Groups(items) == ClosedGroups(items) + OpenGroup(items)
    ensures Groups(items + [item]) == ClosedGroups(items + [item]) + OpenGroup(items + [item])
  {
    hide Groups;
    GroupsGrow(items, item);
    AfterItem(items, item);
    OpenTextsOfLast(items, item);
    if GoesOn(items, item) {
      var g := OpenGroup(items)[0];
      LongerLast(ClosedGroups(items), g, item.text);
      assert OpenGroup(items) == [g];
    } else if item.Match? {
      assert OpenTexts(items) == [] || Ends(items, item);
      assert OpenTexts(items + [item]) == [item.text];
      assert OpenGroup(items + [item]) == [Group(item.file, [item.text])];
    }
  }

  lemma LongerLast(groups: seq<Group>, g: Group, text: string)
    ensures Longer(groups + [g], text) == groups + [Group(g.file, g.texts + [text])]
  {
  }

  lemma OpenTextsOfLast(items: seq<Item>, item: Item)
    ensures OpenTexts(items) != [] <==> items != [] && items[|items| - 1].Match?
    ensures items != [] && items[|items| - 1].Match? ==> LastFile(items) == items[|items| - 1].file
    ensures item.Match? && OpenTexts(items) != [] ==> (Ends(items, item) <==> !GoesOn(items, item))
    ensures !item.Match? ==> Ends(items, item)
  {
  }
}
