/** Reading back a printed comment section, for both dialects: exactly when it works, for any text. */
module CommentRoundTrip {
  import opened Wrappers
  import opened Text
  import opened Calendar
  import opened CommentSection

  /** The header line of `c` is read back as it was printed. */
  predicate Readable(d: Dialect, c: RawComment) {
    && c.id != "" && AllDigits(c.id)
    && c.author != "" && '\n' !in c.author
    && IsStamp(d, c.time)
    && (d.Jira? ==> DELIMITER !in c.author)
    && (d.Bugzilla? ==> Value(c.id) <= MAX_INT && ParseStamp(c.time).Some?)
  }

  function Escaped(cs: seq<RawComment>): (r: seq<RawComment>)
    ensures |r| == |cs|
    ensures forall i :: 0 <= i < |cs| ==> r[i] == cs[i].(text := Escape(cs[i].text))
  {
    seq(|cs|, i requires 0 <= i < |cs| => cs[i].(text := Escape(cs[i].text)))
  }

  lemma LineSplit(line: string, rest: string)
    requires '\n' !in line
    requires line == "" || line[|line| - 1] != '\r'
    ensures line + "\n" + rest != ""
    ensures ScanLine(line + "\n" + rest) == Token(line, rest)
  {
    IndexChar(line, '\n', rest);
    var s := line + "\n" + rest;
    assert s[..|line|] == line && s[|line| + 1..] == rest;
  }

  lemma TextSplit(text: string, rest: string)
    requires DELIMITER !in text
    ensures text + [DELIMITER] + rest != ""
    ensures ScanText(text + [DELIMITER] + rest) == Token(text, rest)
  {
    IndexChar(text, DELIMITER, rest);
    var s := text + [DELIMITER] + rest;
    assert s[..|text|] == text && s[|text| + 1..] == rest;
  }

  lemma StampShape(d: Dialect, s: string)
    requires IsStamp(d, s)
    ensures |s| == StampLength(d)
    ensures s[|s| - 1] == 'Z' || IsDigit(s[|s| - 1])
    ensures '\n' !in s && DELIMITER !in s
  {
    match d
    case Bugzilla =>
      MatchLength(s, STAMP);
    case Jira =>
      MatchLength(s[..20], JIRA_CLOCK);
      assert s == s[..20] + s[20..23] + [s[23]] + s[24..];
      assert s[|s| - 1] == s[24..][3];
  }

  lemma HeaderLineParts(c: RawComment)
    ensures var line := HeaderLine(c);
            && |line| == 16 + |c.id| + |c.author| + |c.time|
            && line[..8] == "Comment "
            && line[8..] == c.id + (" by " + c.author + " at " + c.time)
            && line[8 + |c.id|..12 + |c.id|] == " by "
            && line[12 + |c.id|..12 + |c.id| + |c.author|] == c.author
            && line[12 + |c.id| + |c.author|..16 + |c.id| + |c.author|] == " at "
            && line[16 + |c.id| + |c.author|..] == c.time
  {
  }

  lemma NotInHeaderLine(c: RawComment, x: char)
    requires x == '\n' || x == DELIMITER
    ensures x in HeaderLine(c) <==> x in c.id || x in c.author || x in c.time
  {
    assert x !in "Comment " && x !in " by " && x !in " at ";
  }

  /** A line in three parts, of which the digits and the timestamp have a known extent. */
  lemma MatchExactly(d: Dialect, c: RawComment)
    requires c.id != "" && AllDigits(c.id)
    requires c.author != "" && '\n' !in c.author
    requires IsStamp(d, c.time) && |c.time| == StampLength(d)
    ensures MatchHeader(d, HeaderLine(c)) == Some(Header(c.id, c.author, c.time))
  {
    var line := HeaderLine(c);
    HeaderLineParts(c);
    hide HeaderLine;
    hide IsStamp;
    DigitRunIs(c.id, " by " + c.author + " at " + c.time);
    assert DigitRun(line[8..]) == |c.id|;
    assert line[8..][..|c.id|] == c.id;
    assert |line| - StampLength(d) - 4 == 12 + |c.id| + |c.author|;
    assert HasPrefix(line, "Comment ");
  }

  lemma HeaderMatches(d: Dialect, c: RawComment)
    requires Readable(d, c)
    ensures ReadHeader(d, HeaderLine(c)) == Ok(Header(c.id, c.author, c.time))
  {
    StampShape(d, c.time);
    NotInHeaderLine(c, DELIMITER);
    MatchExactly(d, c);
  }

  lemma PrintedLine(d: Dialect, c: RawComment, rest: string)
    requires '\n' !in HeaderLine(c)
    requires c.time == "" || c.time[|c.time| - 1] != '\r'
    ensures ScanLine(PrintComment(c) + rest) == Token(HeaderLine(c), Escape(c.text) + "\n" + [DELIMITER] + rest)
  {
    assert PrintComment(c) + rest == HeaderLine(c) + "\n" + (Escape(c.text) + "\n" + [DELIMITER] + rest);
    LineSplit(HeaderLine(c), Escape(c.text) + "\n" + [DELIMITER] + rest);
  }

  lemma TextReadBack(d: Dialect, line: string, h: Header, text: string, rest: string)
    requires ReadHeader(d, line) == Ok(h)
    requires DELIMITER !in text
    ensures ParseAfterLine(d, line, text + "\n" + [DELIMITER] + rest)
            == Append([RawComment(h.id, h.author, h.time, text)], ParseSection(d, rest))
  {
    TextSplit(text + "\n", rest);
    assert (text + "\n")[..|text + "\n"| - 1] == text;
  }

  /** One comment is read back, whatever its text looks like and whatever follows it. */
  lemma CommentReadBack(d: Dialect, c: RawComment, rest: string)
    requires Readable(d, c)
    ensures ParseSection(d, PrintComment(c) + rest) == Append([c.(text := Escape(c.text))], ParseSection(d, rest))
  {
    HeaderMatches(d, c);
    assert '\n' !in HeaderLine(c) && c.time[|c.time| - 1] != '\r' by {
      StampShape(d, c.time);
      NotInHeaderLine(c, '\n');
    }
    PrintedLine(d, c, rest);
    TextReadBack(d, HeaderLine(c), Header(c.id, c.author, c.time), Escape(c.text), rest);
  }

  lemma NothingToRead(d: Dialect)
    ensures ParseSection(d, "") == Ok([])
  {
  }

  lemma {:induction false} SectionReadBack(d: Dialect, cs: seq<RawComment>)
    requires forall i :: 0 <= i < |cs| ==> Readable(d, cs[i])
    ensures ParseSection(d, PrintSection(cs)) == Ok(Escaped(cs))
  {
    hide Readable;
    hide PrintComment;
    hide ParseSection;
    if cs == [] {
      NothingToRead(d);
    } else {
      CommentReadBack(d, cs[0], PrintSection(cs[1..]));
      SectionReadBack(d, cs[1..]);
      assert Escaped(cs) == [cs[0].(text := Escape(cs[0].text))] + Escaped(cs[1..]);
    }
  }

  // ----- the other direction

  lemma AppendTail(front: seq<RawComment>, r: Result<seq<RawComment>, ReadError>, all: seq<RawComment>)
    requires Append(front, r) == Ok(all)
    ensures |front| <= |all| && r == Ok(all[|front|..])
  {
  }

  lemma FirstLineEnds(c: RawComment, rest: string)
    ensures PrintComment(c) + rest != ""
    ensures ScanLine(PrintComment(c) + rest).rest != ""
  {
    var data := PrintComment(c) + rest;
    var k := |HeaderLine(c)|;
    assert data[k..k + 1] == "\n";
    assert At(data, "\n", k);
    assert k + 1 < |data|;
  }

  /** What a successful read says about the first comment. */
  lemma FirstComment(d: Dialect, c: RawComment, rest: string, cs: seq<RawComment>)
    requires ParseSection(d, PrintComment(c) + rest) == Ok(cs)
    ensures var line := ScanLine(PrintComment(c) + rest);
            && ReadHeader(d, line.text).Ok?
            && cs != []
            && var h := ReadHeader(d, line.text).value;
            cs[0].id == h.id && cs[0].author == h.author && cs[0].time == h.time
  {
    FirstLineEnds(c, rest);
    var line := ScanLine(PrintComment(c) + rest);
    assert ParseSection(d, PrintComment(c) + rest) == ParseAfterLine(d, line.text, line.rest);
  }

  /** If the parts of the header come back as printed, the comment was readable. */
  lemma ReadOnlyReadable(d: Dialect, c: RawComment, rest: string, cs: seq<RawComment>)
    requires ParseSection(d, PrintComment(c) + rest) == Ok(cs)
    requires cs != [] ==> cs[0].id == c.id && cs[0].author == c.author && cs[0].time == c.time
    ensures Readable(d, c)
  {
    FirstComment(d, c, rest, cs);
    StampShape(d, c.time);
    NotInHeaderLine(c, '\n');
    NotInHeaderLine(c, DELIMITER);
    PrintedLine(d, c, rest);
    HeaderLineParts(c);
  }

  lemma TailReadBack(d: Dialect, c: RawComment, rest: string, cs: seq<RawComment>)
    requires ParseSection(d, PrintComment(c) + rest) == Ok(cs)
    requires cs != [] ==> cs[0] == c.(text := Escape(c.text))
    ensures cs != [] && Readable(d, c)
    ensures ParseSection(d, rest) == Ok(cs[1..])
  {
    ReadOnlyReadable(d, c, rest, cs);
    CommentReadBack(d, c, rest);
    AppendTail([c.(text := Escape(c.text))], ParseSection(d, rest), cs);
  }

  lemma {:induction false} OnlyReadableReadBack(d: Dialect, cs: seq<RawComment>)
    requires ParseSection(d, PrintSection(cs)) == Ok(Escaped(cs))
    ensures forall i :: 0 <= i < |cs| ==> Readable(d, cs[i])
  {
    hide Readable;
    hide PrintComment;
    hide ParseSection;
    if cs != [] {
      TailReadBack(d, cs[0], PrintSection(cs[1..]), Escaped(cs));
      assert Escaped(cs)[1..] == Escaped(cs[1..]);
      OnlyReadableReadBack(d, cs[1..]);
      forall i | 1 <= i < |cs|
        ensures Readable(d, cs[i])
      {
        assert cs[i] == cs[1..][i - 1];
      }
    }
  }

  /** A printed section is read back as the same comments, texts escaped, if and only if every header is
    readable: the id is a number, the author is non-blank and on one line, and the time is a timestamp. */
  lemma SectionRoundTrip(d: Dialect, cs: seq<RawComment>)
    ensures ParseSection(d, PrintSection(cs)) == Ok(Escaped(cs)) <==> forall i :: 0 <= i < |cs| ==> Readable(d, cs[i])
  {
    if ParseSection(d, PrintSection(cs)) == Ok(Escaped(cs)) {
      OnlyReadableReadBack(d, cs);
    } else if forall i :: 0 <= i < |cs| ==> Readable(d, cs[i]) {
      SectionReadBack(d, cs);
    }
  }

  // ----- what is read of any input, printed or not

  /** A line ends at its line break or with the file, and loses one carriage return before that. */
  lemma LineEnds(line: string, rest: string)
    requires '\n' !in line
    ensures var text := if line != "" && line[|line| - 1] == '\r' then line[..|line| - 1] else line;
            && ScanLine(line + "\n" + rest) == Token(text, rest)
            && (line != "" ==> ScanLine(line) == Token(text, ""))
  {
    IndexChar(line, '\n', rest);
    var s := line + "\n" + rest;
    assert s[..|line|] == line && s[|line| + 1..] == rest;
  }

  /** A text ends at the delimiter or with the file. */
  lemma TextEnds(text: string, rest: string)
    requires DELIMITER !in text
    ensures ScanText(text + [DELIMITER] + rest) == Token(text, rest)
    ensures text != "" ==> ScanText(text) == Token(text, "")
  {
    TextSplit(text, rest);
    IndexChar(text, DELIMITER, rest);
  }

  /** Exactly the lines that the header expression of the readers matches, and with which parts. */
  lemma HeaderExactly(d: Dialect, line: string, h: Header)
    ensures MatchHeader(d, line) == Some(h) <==>
            && line == "Comment " + h.id + " by " + h.author + " at " + h.time
            && h.id != "" && AllDigits(h.id) && h.author != "" && '\n' !in h.author && IsStamp(d, h.time)
  {
    var c := RawComment(h.id, h.author, h.time, "");
    assert HeaderLine(c) == "Comment " + h.id + " by " + h.author + " at " + h.time;
    if h.id != "" && AllDigits(h.id) && h.author != "" && '\n' !in h.author && IsStamp(d, h.time) {
      StampShape(d, h.time);
      if line == HeaderLine(c) {
        MatchExactly(d, c);
      }
    }
    if MatchHeader(d, line) == Some(h) {
      MatchedLine(d, line);
    }
    hide MatchHeader;
    hide HeaderLine;
    hide IsStamp;
  }

  lemma MatchedLine(d: Dialect, line: string)
    requires MatchHeader(d, line).Some?
    ensures var h := MatchHeader(d, line).value; line == "Comment " + h.id + " by " + h.author + " at " + h.time
  {
    hide IsStamp;
    hide DigitRun;
    var k, e := 8 + DigitRun(line[8..]), |line| - StampLength(d) - 4;
    assert line[..8] == "Comment ";
    assert line[8..][..k - 8] == line[8..k];
    InParts(line, 8, k, k + 4, e, e + 4);
  }

  lemma InParts(s: string, a: nat, b: nat, c: nat, d: nat, e: nat)
    requires a <= b <= c <= d <= e <= |s|
    ensures s == s[..a] + s[a..b] + s[b..c] + s[c..d] + s[d..e] + s[e..]
  {
  }

  predicate DigitsAt(s: string, i: nat, n: nat) {
    i + n <= |s| && forall k :: i <= k < i + n ==> IsDigit(s[k])
  }

  /** The two timestamp patterns, character by character. */
  lemma StampsAre(s: string)
    ensures IsStamp(Bugzilla, s) <==>
            && |s| == 20 && DigitsAt(s, 0, 4) && s[4] == '-' && DigitsAt(s, 5, 2) && s[7] == '-' && DigitsAt(s, 8, 2)
            && s[10] == 'T' && DigitsAt(s, 11, 2) && s[13] == ':' && DigitsAt(s, 14, 2) && s[16] == ':'
            && DigitsAt(s, 17, 2) && s[19] == 'Z'
    ensures IsStamp(Jira, s) <==>
            && |s| == 28 && DigitsAt(s, 0, 4) && s[4] == '-' && DigitsAt(s, 5, 2) && s[7] == '-' && DigitsAt(s, 8, 2)
            && s[10] == 'T' && DigitsAt(s, 11, 2) && s[13] == ':' && DigitsAt(s, 14, 2) && s[16] == ':'
            && DigitsAt(s, 17, 2) && s[19] == '.' && DigitsAt(s, 20, 3) && (s[23] == '+' || s[23] == '-')
            && DigitsAt(s, 24, 4)
  {
    ClockIs(s, 'Z');
    if |s| >= 20 {
      ClockIs(s[..20], '.');
    }
  }

  lemma FieldAt(s: string, k: nat, f: Field, rest: seq<Field>)
    requires k <= |s|
    ensures Matches(s[k..], [f] + rest) <==>
            && k + f.width < |s| && DigitsAt(s, k, f.width) && s[k + f.width] == f.sep
            && Matches(s[k + f.width + 1..], rest)
  {
    var tail := s[k..];
    assert ([f] + rest)[1..] == rest;
    if f.width < |tail| {
      assert tail[f.width + 1..] == s[k + f.width + 1..];
      assert forall i :: 0 <= i < f.width ==> tail[..f.width][i] == s[k + i];
      assert AllDigits(tail[..f.width]) <==> DigitsAt(s, k, f.width) by {
        if AllDigits(tail[..f.width]) {
          forall i | k <= i < k + f.width
            ensures IsDigit(s[i])
          {
            assert tail[..f.width][i - k] == s[i];
          }
        }
      }
    }
  }

  lemma ClockIs(s: string, last: char)
    ensures Matches(s, [Field(4, '-'), Field(2, '-'), Field(2, 'T'), Field(2, ':'), Field(2, ':'), Field(2, last)]) <==>
            && |s| == 20 && DigitsAt(s, 0, 4) && s[4] == '-' && DigitsAt(s, 5, 2) && s[7] == '-' && DigitsAt(s, 8, 2)
            && s[10] == 'T' && DigitsAt(s, 11, 2) && s[13] == ':' && DigitsAt(s, 14, 2) && s[16] == ':'
            && DigitsAt(s, 17, 2) && s[19] == last
  {
    hide Matches;
    hide DigitsAt;
    var two, colon := [Field(2, last)], Field(2, ':');
    var three, four := [colon] + two, [colon] + ([colon] + two);
    var five, six := [Field(2, 'T')] + four, [Field(2, '-')] + ([Field(2, 'T')] + four);
    assert [Field(4, '-')] + six ==
           [Field(4, '-'), Field(2, '-'), Field(2, 'T'), Field(2, ':'), Field(2, ':'), Field(2, last)];
    assert s[0..] == s && [Field(2, last)] + [] == two;
    if Matches(s, [Field(4, '-')] + six) {
      ClockLength(s, [Field(4, '-')] + six);
    }
    FieldAt(s, 0, Field(4, '-'), six);
    if |s| >= 20 {
      FieldAt(s, 5, Field(2, '-'), five);
      FieldAt(s, 8, Field(2, 'T'), four);
      FieldAt(s, 11, colon, three);
      FieldAt(s, 14, colon, two);
      FieldAt(s, 17, Field(2, last), []);
      NoFields(s[20..]);
    }
  }

  lemma NoFields(s: string)
    ensures Matches(s, []) <==> s == ""
  {
  }

  lemma ClockLength(s: string, shape: seq<Field>)
    requires Matches(s, shape) && |shape| == 6 && shape[0].width == 4
    requires forall i :: 1 <= i < 6 ==> shape[i].width == 2
    ensures |s| == 20
  {
    MatchLength(s, shape);
    hide Matches;
    assert shape[5..][1..] == [] && ShapeLength(shape[5..]) == 3;
    assert shape[4..][1..] == shape[5..] && ShapeLength(shape[4..]) == 6;
    assert shape[3..][1..] == shape[4..] && ShapeLength(shape[3..]) == 9;
    assert shape[2..][1..] == shape[3..] && ShapeLength(shape[2..]) == 12;
    assert shape[1..][1..] == shape[2..] && ShapeLength(shape[1..]) == 15;
  }

  lemma {:induction false} DropFirstIs(before: string, c: char, after: string)
    requires c !in before
    ensures DropFirst(before + [c] + after, c) == before + after
  {
    var s := before + [c] + after;
    if before != "" {
      assert s[1..] == before[1..] + [c] + after;
      DropFirstIs(before[1..], c, after);
      assert [before[0]] + (before[1..] + after) == before + after;
    } else {
      assert s[1..] == after;
    }
  }

  lemma ReadableLine(d: Dialect, c: RawComment)
    requires Readable(d, c)
    ensures var line := HeaderLine(c);
            && '\n' !in line && line != "" && line[|line| - 1] != '\r'
            && ReadHeader(d, line) == Ok(Header(c.id, c.author, c.time))
  {
    HeaderMatches(d, c);
    StampShape(d, c.time);
    NotInHeaderLine(c, '\n');
    HeaderLineParts(c);
    hide ReadHeader;
    hide HeaderLine;
    hide IsStamp;
  }

  lemma SectionOfLine(d: Dialect, line: string, rest: string)
    requires '\n' !in line && line != "" && line[|line| - 1] != '\r'
    ensures ParseSection(d, line + "\n" + rest) == ParseAfterLine(d, line, rest)
  {
    LineSplit(line, rest);
    hide ScanLine;
    hide ParseAfterLine;
  }

  /** What stops the reader at a header line: one that does not match, and in a Bugzilla file a number that is too
    large or a date that does not exist. */
  lemma BadHeader(d: Dialect, line: string, rest: string)
    requires '\n' !in line && line != "" && line[|line| - 1] != '\r'
    ensures var m, r := MatchHeader(d, CleanLine(d, line)), ParseSection(d, line + "\n" + rest);
            && (m.None? ==> r == Err(CommentHeader))
            && (m.Some? && d.Bugzilla? ==>
                  if Value(m.value.id) > 9223372036854775807 then r == Err(CommentId)
                  else ParseStamp(m.value.time).None? ==> r == Err(CommentTime))
  {
    SectionOfLine(d, line, rest);
    hide ParseSection;
    hide MatchHeader;
    hide ParseStamp;
    hide CleanLine;
  }

  lemma NoText(d: Dialect, line: string, h: Header)
    requires ReadHeader(d, line) == Ok(h)
    ensures ParseAfterLine(d, line, "") == Ok([])
  {
    hide ReadHeader;
  }

  /** A header with nothing after it is dropped. */
  lemma HeaderAlone(d: Dialect, c: RawComment)
    requires Readable(d, c)
    ensures ParseSection(d, HeaderLine(c) + "\n") == Ok([])
  {
    hide *;
    ReadableLine(d, c);
    var line := HeaderLine(c);
    assert line + "\n" == line + "\n" + "";
    SectionOfLine(d, line, "");
    NoText(d, line, Header(c.id, c.author, c.time));
  }

  lemma LastText(d: Dialect, line: string, h: Header, text: string)
    requires ReadHeader(d, line) == Ok(h) && DELIMITER !in text
    ensures ParseAfterLine(d, line, text + "\n") == Ok([RawComment(h.id, h.author, h.time, text)])
  {
    TextEnds(text + "\n", "");
    NothingToRead(d);
    hide ReadHeader;
    hide ScanText;
    hide ParseSection;
    hide WellRead;
    assert (text + "\n")[..|text + "\n"| - 1] == text;
    assert [RawComment(h.id, h.author, h.time, text)] + [] == [RawComment(h.id, h.author, h.time, text)];
  }

  lemma LastComment(d: Dialect, c: RawComment)
    requires Readable(d, c)
    ensures ParseSection(d, HeaderLine(c) + "\n" + (Escape(c.text) + "\n")) == Ok([c.(text := Escape(c.text))])
  {
    hide *;
    ReadableLine(d, c);
    SectionOfLine(d, HeaderLine(c), Escape(c.text) + "\n");
    LastText(d, HeaderLine(c), Header(c.id, c.author, c.time), Escape(c.text));
  }

  lemma Unterminated(c: RawComment, rest: string)
    ensures var s := PrintComment(c); s != "" && s[..|s| - 1] == HeaderLine(c) + "\n" + (Escape(c.text) + "\n")
    ensures var all := PrintComment(c) + rest; rest != "" ==> PrintComment(c) + rest[..|rest| - 1] == all[..|all| - 1]
  {
    hide HeaderLine;
    hide Escape;
  }

  /** The last text may end with the file: without the last delimiter a section is read as the same comments. */
  lemma {:induction false} LastTextUnterminated(d: Dialect, cs: seq<RawComment>)
    requires cs != [] && forall i :: 0 <= i < |cs| ==> Readable(d, cs[i])
    ensures PrintSection(cs) != ""
    ensures ParseSection(d, PrintSection(cs)[..|PrintSection(cs)| - 1]) == Ok(Escaped(cs))
  {
    hide *;
    var c, rest := cs[0], PrintSection(cs[1..]);
    SectionParts(cs);
    Unterminated(c, rest);
    if |cs| == 1 {
      LastComment(d, c);
      assert cs[1..] == [];
      NothingPrinted();
      assert PrintSection(cs) == PrintComment(c) && Escaped(cs) == [c.(text := Escape(c.text))];
    } else {
      LastTextUnterminated(d, cs[1..]);
      CommentReadBack(d, c, rest[..|rest| - 1]);
      AppendOk([c.(text := Escape(c.text))], Escaped(cs[1..]));
    }
  }

  lemma SectionParts(cs: seq<RawComment>)
    requires cs != []
    ensures PrintSection(cs) == PrintComment(cs[0]) + PrintSection(cs[1..])
    ensures Escaped(cs) == [cs[0].(text := Escape(cs[0].text))] + Escaped(cs[1..])
  {
    hide PrintComment;
    hide Escape;
  }

  lemma NothingPrinted()
    ensures PrintSection([]) == "" && Escaped([]) == []
  {
  }

  lemma AppendOk(a: seq<RawComment>, b: seq<RawComment>)
    ensures Append(a, Ok(b)) == Ok(a + b)
  {
  }
}
