/** The labelled header lines that both disk formats share. */
module DiskLines {
  import opened Wrappers
  import opened Text
  import opened CommentSection
  import opened CommentRoundTrip

  // ----- printing and scanning lines

  function PrintLines(lines: seq<string>): string {
    if lines == [] then "" else lines[0] + "\n" + PrintLines(lines[1..])
  }

  /** A line that the scanner delivers as it was printed. */
  predicate CleanEnd(line: string) {
    '\n' !in line && (line == "" || line[|line| - 1] != '\r')
  }

  /** The header loop of the reader: lines up to `---` update the record; without `---` the file is an error. */
  function ReadFields<I>(apply: (I, string) -> I, data: string, info: I): Result<(I, string), ReadError>
    decreases |data|
  {
    if data == "" then Err(NoSeparator)
    else
      var line := ScanLine(data);
      if line.text == "---" then Ok((info, line.rest))
      else ReadFields(apply, line.rest, apply(info, line.text))
  }

  function Fold<I>(apply: (I, string) -> I, info: I, lines: seq<string>): I {
    if lines == [] then info else Fold(apply, apply(info, lines[0]), lines[1..])
  }

  lemma {:induction false} LinesReadBack<I>(apply: (I, string) -> I, info: I, lines: seq<string>, rest: string)
    requires forall i :: 0 <= i < |lines| ==> CleanEnd(lines[i]) && lines[i] != "---"
    ensures ReadFields(apply, PrintLines(lines) + "---\n" + rest, info) == Ok((Fold(apply, info, lines), rest))
  {
    var data := PrintLines(lines) + "---\n" + rest;
    if lines == [] {
      assert data == "---" + "\n" + rest;
      LineSplit("---", rest);
    } else {
      var tail := PrintLines(lines[1..]) + "---\n" + rest;
      assert data == lines[0] + "\n" + tail;
      LineSplit(lines[0], tail);
      LinesReadBack(apply, apply(info, lines[0]), lines[1..], rest);
    }
  }

  /** A header that ends before a separator is an error, whatever its lines. */
  lemma {:induction false} NoSeparatorRead<I>(apply: (I, string) -> I, info: I, lines: seq<string>)
    requires forall i :: 0 <= i < |lines| ==> CleanEnd(lines[i]) && lines[i] != "---"
    ensures ReadFields(apply, PrintLines(lines), info) == Err(NoSeparator)
  {
    if lines != [] {
      LineSplit(lines[0], PrintLines(lines[1..]));
      NoSeparatorRead(apply, apply(info, lines[0]), lines[1..]);
    }
  }

  lemma {:induction false} LinesInjective(xs: seq<string>, a: string, ys: seq<string>, b: string)
    requires |xs| == |ys|
    requires forall i :: 0 <= i < |xs| ==> CleanEnd(xs[i]) && CleanEnd(ys[i])
    requires PrintLines(xs) + a == PrintLines(ys) + b
    ensures xs == ys && a == b
  {
    if xs == [] {
      assert PrintLines(xs) + a == a && PrintLines(ys) + b == b;
    } else {
      var p, q := PrintLines(xs[1..]) + a, PrintLines(ys[1..]) + b;
      assert PrintLines(xs) + a == xs[0] + "\n" + p;
      assert PrintLines(ys) + b == ys[0] + "\n" + q;
      LineSplit(xs[0], p);
      LineSplit(ys[0], q);
      LinesInjective(xs[1..], a, ys[1..], b);
      assert xs == [xs[0]] + xs[1..] && ys == [ys[0]] + ys[1..];
    }
  }

  lemma {:induction false} PrintLinesAppend(xs: seq<string>, ys: seq<string>)
    ensures PrintLines(xs + ys) == PrintLines(xs) + PrintLines(ys)
  {
    if xs == [] {
      assert xs + ys == ys;
    } else {
      assert (xs + ys)[1..] == xs[1..] + ys;
      PrintLinesAppend(xs[1..], ys);
    }
  }

  /** A header, around the text of its last field line. */
  lemma AroundLast(title: string, lines: seq<string>, name: string, text: string, section: string)
    ensures title + "\n" + PrintLines(lines + [name + text]) + "---\n" + section ==
            (title + "\n" + PrintLines(lines) + name) + text + ("\n---\n" + section)
  {
    PrintLinesAppend(lines, [name + text]);
    assert PrintLines([name + text]) == name + text + "\n";
    var start, rest := title + "\n" + PrintLines(lines), "---\n" + section;
    hide PrintLines;
    assert "\n" + rest == "\n---\n" + section;
    assert start + (name + text + "\n") + rest == (start + name) + text + ("\n" + rest);
  }

  lemma SameAfter(name: string, a: string, b: string)
    ensures name + a == name + b <==> a == b
  {
    assert (name + a)[|name|..] == a && (name + b)[|name|..] == b;
  }

  // ----- the title line

  /** `^PREFIX(\d+): (.*)$`. */
  function MatchTitle(prefix: string, line: string): (r: Option<(string, string)>)
    ensures r.Some? ==>
              && r.value.0 != "" && AllDigits(r.value.0) && '\n' !in r.value.1
              && |line| == |prefix| + |r.value.0| + 2 + |r.value.1|
  {
    if !HasPrefix(line, prefix) then None
    else
      var n := DigitRun(line[|prefix|..]);
      var k := |prefix| + n;
      if n == 0 || |line| < k + 2 || line[k..k + 2] != ": " || '\n' in line[k + 2..] then None
      else Some((line[|prefix|..][..n], line[k + 2..]))
  }

  lemma TitleReadBack(prefix: string, id: string, title: string)
    requires id != "" && AllDigits(id) && '\n' !in title
    ensures MatchTitle(prefix, prefix + id + ": " + title) == Some((id, title))
  {
    var line := prefix + id + ": " + title;
    assert line[|prefix|..] == id + (": " + title);
    DigitRunIs(id, ": " + title);
    assert line[|prefix|..][..|id|] == id;
    assert line[|prefix| + |id| + 2..] == title;
  }

  /** Exactly the lines that the title expression matches, and with which parts. */
  lemma TitleExactly(prefix: string, line: string, id: string, title: string)
    ensures MatchTitle(prefix, line) == Some((id, title)) <==>
            line == prefix + id + ": " + title && id != "" && AllDigits(id) && '\n' !in title
  {
    if line == prefix + id + ": " + title && id != "" && AllDigits(id) && '\n' !in title {
      TitleReadBack(prefix, id, title);
    }
    if MatchTitle(prefix, line) == Some((id, title)) {
      TitleParts(prefix, line);
    }
    hide MatchTitle;
  }

  lemma TitleParts(prefix: string, line: string)
    requires MatchTitle(prefix, line).Some?
    ensures var (id, title) := MatchTitle(prefix, line).value; line == prefix + id + ": " + title
  {
    var n := DigitRun(line[|prefix|..]);
    hide DigitRun;
    var k := |prefix| + n;
    assert line == prefix + line[|prefix|..][..n] + line[k..k + 2] + line[k + 2..];
  }

  // ----- labelled lines

  /** The `n`-th part of the line, or nothing: a missing or empty part leaves the field as it is. */
  function LastPart(text: string, n: nat): string
    requires n > 0
  {
    var parts := SplitN(text, " ", n);
    if |parts| < n then "" else parts[n - 1]
  }

  lemma LastOfTwo(name: string, v: string)
    requires ' ' !in name
    ensures LastPart(name + " " + v, 2) == v
  {
    IndexChar(name, ' ', v);
    var s := name + " " + v;
    assert s[|name| + 1..] == v;
    assert SplitN(v, " ", 1) == [v];
  }

  lemma LastOfThree(a: string, b: string, v: string)
    requires ' ' !in a && ' ' !in b
    ensures SplitN(a + " " + b + " " + v, " ", 3) == [a, b, v]
    ensures LastPart(a + " " + b + " " + v, 3) == v
  {
    var s := a + " " + b + " " + v;
    assert s == a + " " + (b + " " + v);
    IndexChar(a, ' ', b + " " + v);
    assert s[|a| + 1..] == b + " " + v && s[..|a|] == a;
    IndexChar(b, ' ', v);
    assert (b + " " + v)[|b| + 1..] == v && (b + " " + v)[..|b|] == b;
    assert SplitN(v, " ", 1) == [v];
  }

  // ----- lists

  /** The loop of `arrayLineSafe` and `ArrayLineSafeString`. */
  method ArrayLineSafe(arr: seq<string>, delim: string) returns (r: string)
    ensures r == Join(MapLineSafe(arr), delim)
  {
    var inputs: seq<string> := [];
    for i := 0 to |arr|
      invariant inputs == MapLineSafe(arr[..i])
    {
      inputs := inputs + [LineSafe(arr[i])];
    }
    assert arr[..|arr|] == arr;
    return Join(inputs, delim);
  }

  /** How a printed list is read: nothing when it is blank, otherwise its pieces. */
  function ReadList(printed: string, sep: string): seq<string>
    requires sep != ""
  {
    if printed == "" then [] else Split(printed, sep)
  }

  lemma {:induction false} JoinOfSplit(s: string, sep: string)
    requires sep != ""
    ensures Join(Split(s, sep), sep) == s
    decreases |s|
  {
    var i := Index(s, sep);
    if i >= 0 {
      var head, tail := s[..i], s[i + |sep|..];
      JoinOfSplit(tail, sep);
      assert s == head + sep + tail;
      JoinStep(head, Split(tail, sep), sep);
      hide Join;
      hide Index;
    }
  }

  lemma JoinStep(head: string, parts: seq<string>, sep: string)
    requires parts != []
    ensures Join([head] + parts, sep) == head + sep + Join(parts, sep)
  {
    assert ([head] + parts)[1..] == parts;
  }

  lemma AtStarts(s: string, sep: string)
    requires sep != ""
    ensures forall j :: At(s, sep, j) ==> s[j] == sep[0]
  {
    forall j | At(s, sep, j)
      ensures s[j] == sep[0]
    {
      assert s[j..j + |sep|][0] == s[j];
    }
  }

  lemma SplitFirst(a: string, sep: string, tail: string)
    requires sep != "" && sep[0] !in a
    ensures Split(a, sep) == [a]
    ensures Split(a + sep + tail, sep) == [a] + Split(tail, sep)
  {
    var s := a + sep + tail;
    assert s[|a|..|a| + |sep|] == sep && s[|a| + |sep|..] == tail && s[..|a|] == a;
    AtStarts(s, sep);
    AtStarts(a, sep);
    assert forall j :: 0 <= j < |a| ==> s[j] == a[j];
    assert At(s, sep, |a|);
    IndexIs(s, sep, |a|);
  }

  /** Pieces without the first character of the separator can be told apart again. */
  lemma {:induction false} SplitOfJoin(parts: seq<string>, sep: string)
    requires parts != [] && sep != ""
    requires forall i :: 0 <= i < |parts| ==> sep[0] !in parts[i]
    ensures Split(Join(parts, sep), sep) == parts
  {
    if |parts| == 1 {
      SplitFirst(parts[0], sep, "");
    } else {
      SplitFirst(parts[0], sep, Join(parts[1..], sep));
      SplitOfJoin(parts[1..], sep);
      assert parts == [parts[0]] + parts[1..];
    }
  }

  lemma {:induction false} SplitPiecesLack(s: string, c: char)
    ensures forall i :: 0 <= i < |Split(s, [c])| ==> c !in Split(s, [c])[i]
    decreases |s|
  {
    var i := Index(s, [c]);
    forall j | 0 <= j < |s| && (i < 0 || j < i)
      ensures s[j] != c
    {
      assert s[j..j + 1] == [s[j]];
      assert s[j] == c ==> At(s, [c], j);
    }
    if i >= 0 {
      SplitPiecesLack(s[i + 1..], c);
    }
  }

  lemma {:induction false} SplitKeepsOut(s: string, sep: string, x: char)
    requires sep != "" && x !in s
    ensures forall i :: 0 <= i < |Split(s, sep)| ==> x !in Split(s, sep)[i]
    decreases |s|
  {
    var i := Index(s, sep);
    if i >= 0 {
      SplitKeepsOut(s[i + |sep|..], sep, x);
    }
  }

  lemma {:induction false} JoinKeepsOut(parts: seq<string>, sep: string, x: char)
    requires x !in sep
    requires forall i :: 0 <= i < |parts| ==> x !in parts[i]
    ensures x !in Join(parts, sep)
  {
    if |parts| > 1 {
      JoinKeepsOut(parts[1..], sep, x);
    }
  }

  lemma {:induction false} JoinLast(parts: seq<string>)
    requires forall i :: 0 <= i < |parts| ==> Trimmed(parts[i])
    ensures var s := Join(parts, ", "); s == "" || s[|s| - 1] != '\r'
  {
    if |parts| > 1 {
      JoinLast(parts[1..]);
    }
  }

  // ----- reprinting a list that was read

  lemma {:induction false} JoinShrinks(parts: seq<string>, sep: string)
    requires forall i :: 0 <= i < |parts| ==> '\n' !in parts[i]
    ensures |Join(MapLineSafe(parts), sep)| <= |Join(parts, sep)|
    ensures |Join(MapLineSafe(parts), sep)| == |Join(parts, sep)| <==>
            forall i :: 0 <= i < |parts| ==> Trimmed(parts[i])
  {
    if parts != [] {
      JoinShrinks(parts[1..], sep);
      assert MapLineSafe(parts)[1..] == MapLineSafe(parts[1..]);
      assert ReplaceChar(parts[0], '\n', ' ') == parts[0];
      assert |LineSafe(parts[0])| == |parts[0]| <==> Trimmed(parts[0]) by {
        TrimShorter(parts[0]);
      }
      assert (forall i :: 0 <= i < |parts| ==> Trimmed(parts[i])) <==>
             Trimmed(parts[0]) && forall i :: 0 <= i < |parts[1..]| ==> Trimmed(parts[1..][i]);
    }
  }

  lemma {:induction false} TrimShorter(s: string)
    ensures |TrimSpace(s)| == |s| <==> Trimmed(s)
  {
  }

  /** A list read with the separator it was printed with is printed again as the same bytes exactly when
    no piece has blank ends. */
  lemma ListReprinted(printed: string, sep: string)
    requires sep != "" && '\n' !in printed
    ensures Join(MapLineSafe(ReadList(printed, sep)), sep) == printed <==>
            forall i :: 0 <= i < |ReadList(printed, sep)| ==> Trimmed(ReadList(printed, sep)[i])
  {
    var parts := ReadList(printed, sep);
    if printed != "" {
      JoinOfSplit(printed, sep);
      SplitKeepsOut(printed, sep, '\n');
      JoinShrinks(parts, sep);
      if forall i :: 0 <= i < |parts| ==> Trimmed(parts[i]) {
        assert MapLineSafe(parts) == parts;
      }
    }
  }

  /** A piece is printed again as it was read. */
  predicate PieceKept(p: string, i: nat) {
    if i == 0 then Trimmed(p) else p != "" && p[0] == ' ' && Trimmed(p[1..])
  }

  /** Each comma of the list is followed by one blank, and nothing else is blank at the ends of a piece. */
  predicate CommaBlank(printed: string) {
    var parts := ReadList(printed, ",");
    forall i :: 0 <= i < |parts| ==> PieceKept(parts[i], i)
  }

  function Indent(parts: seq<string>): (r: seq<string>)
    ensures |r| == |parts|
    ensures forall i :: 0 <= i < |parts| ==> r[i] == if i == 0 then parts[i] else " " + parts[i]
  {
    seq(|parts|, i requires 0 <= i < |parts| => if i == 0 then parts[i] else " " + parts[i])
  }

  lemma {:induction false} JoinIndent(parts: seq<string>)
    ensures Join(parts, ", ") == Join(Indent(parts), ",")
  {
    if |parts| > 1 {
      JoinIndentTail(parts[1..]);
      assert Indent(parts)[1..] == IndentAll(parts[1..]);
      assert Join(Indent(parts), ",") == parts[0] + "," + Join(IndentAll(parts[1..]), ",");
    }
  }

  function IndentAll(parts: seq<string>): (r: seq<string>)
    ensures |r| == |parts|
    ensures forall i :: 0 <= i < |parts| ==> r[i] == " " + parts[i]
  {
    seq(|parts|, i requires 0 <= i < |parts| => " " + parts[i])
  }

  lemma {:induction false} JoinIndentTail(parts: seq<string>)
    requires parts != []
    ensures Join(IndentAll(parts), ",") == " " + Join(parts, ", ")
  {
    if |parts| > 1 {
      JoinIndentTail(parts[1..]);
      assert IndentAll(parts)[1..] == IndentAll(parts[1..]);
    }
  }

  lemma PieceIndented(p: string, i: nat)
    requires '\n' !in p
    ensures PieceKept(p, i) <==> p == if i == 0 then LineSafe(p) else " " + LineSafe(p)
  {
    assert ReplaceChar(p, '\n', ' ') == p;
    if i > 0 && PieceKept(p, i) {
      assert TrimSpace(p) == TrimSpace(p[1..]);
    }
    if i > 0 && p == " " + LineSafe(p) {
      assert p[1..] == LineSafe(p);
    }
  }

  lemma PiecesIndented(parts: seq<string>)
    requires forall i :: 0 <= i < |parts| ==> '\n' !in parts[i]
    ensures parts == Indent(MapLineSafe(parts)) <==> forall i :: 0 <= i < |parts| ==> PieceKept(parts[i], i)
  {
    hide PieceKept;
    hide LineSafe;
    var indented := Indent(MapLineSafe(parts));
    forall i | 0 <= i < |parts|
      ensures PieceKept(parts[i], i) <==> parts[i] == indented[i]
    {
      PieceIndented(parts[i], i);
    }
  }

  lemma IndentLacks(parts: seq<string>)
    requires forall i :: 0 <= i < |parts| ==> ',' !in parts[i] && '\n' !in parts[i]
    ensures forall i :: 0 <= i < |parts| ==> ',' !in Indent(MapLineSafe(parts))[i]
  {
    forall i | 0 <= i < |parts|
      ensures ',' !in LineSafe(parts[i])
    {
      assert ReplaceChar(parts[i], '\n', ' ') == parts[i];
    }
  }

  /** A list printed with `, ` and read at `,` is printed again as the same bytes exactly when every
    comma in it is followed by one blank and no other blank stands at the end of a piece. */
  lemma VersionReprinted(printed: string)
    requires '\n' !in printed
    ensures Join(MapLineSafe(ReadList(printed, ",")), ", ") == printed <==> CommaBlank(printed)
  {
    if printed != "" {
      var parts := ReadList(printed, ",");
      var safe := MapLineSafe(parts);
      JoinOfSplit(printed, ",");
      SplitPiecesLack(printed, ',');
      SplitKeepsOut(printed, ",", '\n');
      hide Split;
      hide Join;
      hide PieceKept;
      JoinIndent(safe);
      PiecesIndented(parts);
      if Join(safe, ", ") == printed {
        IndentLacks(parts);
        SplitOfJoin(Indent(safe), ",");
      }
    }
  }

  /** Items without commas come back as they were, up to `lineSafe`. */
  lemma CommaFreeItems(items: seq<string>)
    requires forall i :: 0 <= i < |items| ==> ',' !in items[i]
    ensures var printed := Join(MapLineSafe(items), ", ");
            && ReadList(printed, ", ") == (if printed == "" then [] else MapLineSafe(items))
            && (forall i :: 0 <= i < |ReadList(printed, ", ")| ==> Trimmed(ReadList(printed, ", ")[i]))
            && CommaBlank(printed)
  {
    var safe := MapLineSafe(items);
    var printed := Join(safe, ", ");
    forall i | 0 <= i < |items|
      ensures ',' !in safe[i]
    {
      assert ReplaceChar(items[i], '\n', ' ') ==
          seq(|items[i]|, k requires 0 <= k < |items[i]| => if items[i][k] == '\n' then ' ' else items[i][k]);
    }
    if printed != "" {
      SplitOfJoin(safe, ", ");
      JoinIndent(safe);
      SplitOfJoin(Indent(safe), ",");
    }
  }

  // ----- header lines and lists, as both formats print them

  function ListText(items: seq<string>): string {
    Join(MapLineSafe(items), ", ")
  }

  predicate FieldLine(line: string) {
    CleanEnd(line) && line != "---"
  }

  lemma CleanLabel(name: string, v: string)
    requires name != "" && name[0] != '-' && CleanEnd(name) && CleanEnd(v)
    ensures FieldLine(name + v)
  {
    assert (name + v)[0] == name[0];
  }

  lemma FoldStep<I>(apply: (I, string) -> I, info: I, lines: seq<string>, i: nat)
    requires i < |lines|
    ensures Fold(apply, info, lines[i..]) == Fold(apply, apply(info, lines[i]), lines[i + 1..])
    ensures lines == lines[0..]
  {
    assert lines[i..][0] == lines[i] && lines[i..][1..] == lines[i + 1..];
  }

  lemma FoldNothing<I>(apply: (I, string) -> I, info: I, lines: seq<string>)
    requires lines == []
    ensures Fold(apply, info, lines) == info
  {
  }

  lemma ListEnd(items: seq<string>)
    ensures CleanEnd(ListText(items))
  {
    JoinKeepsOut(MapLineSafe(items), ", ", '\n');
    JoinLast(MapLineSafe(items));
  }
}
