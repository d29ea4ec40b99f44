/**
 The last lines of a command's output, kept while the output arrives in chunks cut anywhere: also
 inside a line, inside a control sequence and between a carriage return and its line feed.
 */
module RecentOutputs {

  const LINE_LIMIT := 20

  // ----- Specification -----

  /** A text as its whole lines and the line not yet ended. */
  datatype Lines = Lines(whole: seq<string>, rest: string)

  predicate Break(c: char) {
    c == '\r' || c == '\n'
  }

  predicate EndsIn(text: string, c: char) {
    text != "" && text[|text| - 1] == c
  }

  /** The lines with one more character; a line feed right after a carriage return ends no further line. */
  function Advance(lines: Lines, afterReturn: bool, c: char): Lines {
    if c == '\n' && afterReturn then lines
    else if Break(c) then Lines(lines.whole + [lines.rest], "")
    else Lines(lines.whole, lines.rest + [c])
  }

  /** A line ends at a carriage return, a line feed, or the two in this order. */
  function Split(text: string): Lines {
    if text == "" then Lines([], "")
    else
      var front := text[..|text| - 1];
      Advance(Split(front), EndsIn(front, '\r'), text[|text| - 1])
  }

  /** White space and line terminators, as ECMAScript trims them. */
  predicate Space(c: char) {
    var n := c as int;
    9 <= n <= 13 || n == 0x20 || n == 0xA0 || n == 0x1680 || 0x2000 <= n <= 0x200A || n == 0x2028 || n == 0x2029
    || n == 0x202F || n == 0x205F || n == 0x3000 || n == 0xFEFF
  }

  predicate Blank(line: string) {
    forall c | c in line :: Space(c)
  }

  /** The lines without their control sequences, less those of which nothing visible remains. */
  function Visible(lines: seq<string>, strip: string -> string): seq<string> {
    if lines == [] then []
    else
      var last := strip(lines[|lines| - 1]);
      Visible(lines[..|lines| - 1], strip) + if Blank(last) then [] else [last]
  }

  function Last<T>(xs: seq<T>, n: nat): seq<T> {
    if |xs| <= n then xs else xs[|xs| - n..]
  }

  /** What is shown of a text. */
  function Shown(text: string, strip: string -> string): seq<string> {
    Last(Visible(Split(text).whole + [Split(text).rest], strip), LINE_LIMIT)
  }

  // ----- Cutting a text -----

  lemma SplitAdd(text: string, c: char)
    ensures Split(text + [c]) == Advance(Split(text), EndsIn(text, '\r'), c)
  {
    assert (text + [c])[..|text|] == text;
  }

  lemma {:induction false} RestIsUnbroken(text: string)
    ensures forall c | c in Split(text).rest :: !Break(c)
    ensures EndsIn(text, '\r') ==> Split(text).rest == ""
  {
    if text != "" {
      RestIsUnbroken(text[..|text| - 1]);
    }
  }

  lemma {:induction false} UnbrokenIsRest(line: string)
    requires forall c | c in line :: !Break(c)
    ensures Split(line) == Lines([], line)
  {
    if line != "" {
      var front, c := line[..|line| - 1], line[|line| - 1];
      UnbrokenIsRest(front);
      SplitAdd(front, c);
      assert line == front + [c] && !Break(c);
    }
  }

  lemma {:induction false} VisibleJoins(a: seq<string>, b: seq<string>, strip: string -> string)
    ensures Visible(a + b, strip) == Visible(a, strip) + Visible(b, strip)
  {
    if b == [] {
      assert a + b == a;
    } else {
      var n := |b| - 1;
      assert (a + b)[..|a| + n] == a + b[..n];
      VisibleJoins(a, b[..n], strip);
    }
  }

  lemma EmptyLine(strip: string -> string)
    requires strip("") == ""
    ensures Visible([""], strip) == []
  {
    assert Visible([""][..0], strip) == [];
  }

  /** The same lines but for an earlier part; only right after a cut may they differ in what came last. */
  predicate Alike(earlier: seq<string>, lines: Lines, cut: Lines, strip: string -> string) {
    && lines.rest == cut.rest
    && Visible(lines.whole, strip) == earlier + Visible(cut.whole, strip)
  }

  lemma AdvanceAlike(
      earlier: seq<string>, lines: Lines, cut: Lines, after: bool, afterCut: bool, c: char, strip: string -> string)
    requires strip("") == "" && Alike(earlier, lines, cut, strip)
    requires after == afterCut || lines.rest == ""
    ensures Alike(earlier, Advance(lines, after, c), Advance(cut, afterCut, c), strip)
  {
    if Break(c) {
      VisibleJoins(lines.whole, [lines.rest], strip);
      VisibleJoins(cut.whole, [cut.rest], strip);
      if after != afterCut {
        EmptyLine(strip);
      }
    }
  }

  /** A text that ends in a break leaves nothing unfinished. */
  lemma EndOfRest(text: string)
    ensures EndsIn(text, '\r') ==> Split(text).rest == ""
    ensures !EndsIn(Split(text).rest, '\r')
  {
    RestIsUnbroken(text);
  }

  lemma SameEnds(text: string, rest: string, front: string)
    requires rest == Split(text).rest
    ensures EndsIn(text + front, '\r') == EndsIn(rest + front, '\r') || Split(text + front).rest == ""
  {
    if front == "" {
      assert text + front == text && rest + front == rest;
      EndOfRest(text);
    } else {
      assert (text + front)[|text + front| - 1] == front[|front| - 1] == (rest + front)[|rest + front| - 1];
    }
  }

  /** Splitting the unfinished line with the next chunk shows the lines the whole text has. */
  predicate CutAlike(text: string, chunk: string, strip: string -> string) {
    Alike(Visible(Split(text).whole, strip), Split(text + chunk), Split(Split(text).rest + chunk), strip)
  }

  lemma NoChunk(text: string, strip: string -> string)
    ensures CutAlike(text, "", strip)
  {
    var rest := Split(text).rest;
    RestIsUnbroken(text);
    UnbrokenIsRest(rest);
    assert text + "" == text && rest + "" == rest;
  }

  lemma AddedLast(text: string, front: string, c: char)
    ensures text + (front + [c]) == text + front + [c]
  {
  }

  lemma ChunkGrows(text: string, front: string, c: char, strip: string -> string)
    requires strip("") == "" && CutAlike(text, front, strip)
    ensures CutAlike(text, front + [c], strip)
  {
    var rest := Split(text).rest;
    SplitAdd(text + front, c);
    SplitAdd(rest + front, c);
    SameEnds(text, rest, front);
    AdvanceAlike(Visible(Split(text).whole, strip), Split(text + front), Split(rest + front),
                 EndsIn(text + front, '\r'), EndsIn(rest + front, '\r'), c, strip);
    AddedLast(text, front, c);
    AddedLast(rest, front, c);
  }

  lemma {:induction false} ChunksMayBeCutAnywhere(text: string, chunk: string, strip: string -> string)
    requires strip("") == ""
    ensures CutAlike(text, chunk, strip)
  {
    if chunk == "" {
      NoChunk(text, strip);
    } else {
      var front, c := chunk[..|chunk| - 1], chunk[|chunk| - 1];
      ChunksMayBeCutAnywhere(text, front, strip);
      ChunkGrows(text, front, c, strip);
      assert chunk == front + [c];
    }
  }

  /** A line feed at the end finishes the last line and shows nothing new. */
  lemma FinishingShowsNothingNew(text: string, strip: string -> string)
    requires strip("") == ""
    ensures var lines, finished := Split(text), Split(text + "\n");
            && finished.rest == ""
            && Visible(finished.whole, strip) == Visible(lines.whole + [lines.rest], strip)
    ensures Shown(text + "\n", strip) == Shown(text, strip)
  {
    var lines, finished := Split(text), Split(text + "\n");
    assert (text + "\n")[..|text|] == text;
    RestIsUnbroken(text);
    EmptyLine(strip);
    VisibleJoins(lines.whole, [lines.rest], strip);
    VisibleJoins(finished.whole, [finished.rest], strip);
  }

  lemma LastOfLast<T>(a: seq<T>, b: seq<T>, n: nat)
    ensures Last(Last(a, n) + b, n) == Last(a + b, n)
  {
  }

  // ----- Which lines a text has, and which of them are shown -----

  /** Lines with what ends each of them. */
  function Woven(lines: seq<string>, ends: seq<string>): string
    requires |lines| == |ends|
  {
    if lines == [] then ""
    else
      var n := |lines| - 1;
      Woven(lines[..n], ends[..n]) + lines[n] + ends[n]
  }

  lemma WovenAdds(lines: seq<string>, ends: seq<string>, line: string, end: string)
    requires |lines| == |ends|
    ensures Woven(lines + [line], ends + [end]) == Woven(lines, ends) + line + end
  {
    assert (lines + [line])[..|lines|] == lines && (ends + [end])[..|ends|] == ends;
  }

  predicate Unbroken(line: string) {
    '\r' !in line && '\n' !in line
  }

  /** A text cut into unbroken lines, each with the whole of what ends it, and what is left. */
  predicate CutInto(text: string, lines: seq<string>, ends: seq<string>, rest: string) {
    && |lines| == |ends| && text == Woven(lines, ends) + rest && Unbroken(rest)
    && (forall i | 0 <= i < |lines| :: Unbroken(lines[i]))
    && (forall i | 0 <= i < |ends| :: ends[i] == "\r" || ends[i] == "\n" || ends[i] == "\r\n")
    && forall i | 0 <= i < |ends| - 1 && ends[i] == "\r" :: !(lines[i + 1] == "" && ends[i + 1] == "\n")
  }

  predicate EndsReturned(ends: seq<string>, rest: string) {
    ends != [] && ends[|ends| - 1] == "\r" && rest == ""
  }

  lemma CutAddsPlain(text: string, lines: seq<string>, ends: seq<string>, rest: string, c: char)
    requires CutInto(text, lines, ends, rest) && !Break(c)
    ensures CutInto(text + [c], lines, ends, rest + [c])
  {
    assert Woven(lines, ends) + (rest + [c]) == Woven(lines, ends) + rest + [c];
  }

  lemma CutAddsBreak(text: string, lines: seq<string>, ends: seq<string>, rest: string, c: char)
    requires CutInto(text, lines, ends, rest) && Break(c) && !(c == '\n' && EndsReturned(ends, rest))
    ensures CutInto(text + [c], lines + [rest], ends + [[c]], "")
  {
    WovenAdds(lines, ends, rest, [c]);
    assert Woven(lines, ends) + rest + [c] + "" == text + [c];
  }

  lemma CutAddsFeed(text: string, lines: seq<string>, ends: seq<string>)
    requires CutInto(text, lines, ends, "") && EndsReturned(ends, "")
    ensures CutInto(text + "\n", lines, ends[|ends| - 1 := "\r\n"], "")
  {
    var n := |ends| - 1;
    var ends' := ends[n := "\r\n"];
    assert ends'[..n] == ends[..n];
    assert Woven(lines, ends) == Woven(lines[..n], ends[..n]) + lines[n] + "\r";
    assert Woven(lines, ends') == Woven(lines[..n], ends[..n]) + lines[n] + "\r\n";
    assert Woven(lines, ends) + "" + "\n" == Woven(lines, ends') + "";
  }

  /** The lines of a text are what stands between its line ends, each of these taken as long as it is. */
  lemma {:induction false} SplitCuts(text: string) returns (ends: seq<string>)
    ensures CutInto(text, Split(text).whole, ends, Split(text).rest)
    ensures EndsIn(text, '\r') <==> EndsReturned(ends, Split(text).rest)
  {
    ends := [];
    if text != "" {
      var front, c := text[..|text| - 1], text[|text| - 1];
      var before := SplitCuts(front);
      var lines, rest := Split(front).whole, Split(front).rest;
      assert text == front + [c];
      if c == '\n' && EndsIn(front, '\r') {
        CutAddsFeed(front, lines, before);
        assert front + "\n" == text;
        ends := before[|before| - 1 := "\r\n"];
      } else if Break(c) {
        CutAddsBreak(front, lines, before, rest, c);
        ends := before + [[c]];
      } else {
        CutAddsPlain(front, lines, before, rest, c);
        ends := before;
      }
    }
  }

  /** A character that is neither white space nor a line terminator. */
  predicate Ink(c: char) {
    && c as int !in {0x09, 0x0A, 0x0B, 0x0C, 0x0D, 0x20, 0xA0, 0x1680, 0x2028, 0x2029, 0x202F, 0x205F, 0x3000, 0xFEFF}
    && !(0x2000 <= c as int <= 0x200A)
  }

  /** Something other than white space stands in the line. */
  predicate Prints(line: string) {
    exists c | c in line :: Ink(c)
  }

  lemma PrintsUnlessBlank(line: string)
    ensures Prints(line) <==> !Blank(line)
  {
    forall c ensures Ink(c) <==> !Space(c) {
    }
  }

  predicate Rising(picks: seq<nat>) {
    forall i, j | 0 <= i < j < |picks| :: picks[i] < picks[j]
  }

  /** Some lines picked in their order, stripped. */
  predicate Picked(lines: seq<string>, picks: seq<nat>, shown: seq<string>, strip: string -> string) {
    && |picks| == |shown| && Rising(picks)
    && forall i | 0 <= i < |picks| :: picks[i] < |lines| && Prints(shown[i]) && shown[i] == strip(lines[picks[i]])
  }

  /** The lines that print anything, by their places. */
  function Printing(lines: seq<string>, strip: string -> string): seq<nat> {
    if lines == [] then []
    else
      var n := |lines| - 1;
      Printing(lines[..n], strip) + if Prints(strip(lines[n])) then [n] else []
  }

  lemma {:induction false} PrintingIsVisible(lines: seq<string>, strip: string -> string)
    ensures Picked(lines, Printing(lines, strip), Visible(lines, strip), strip)
    ensures forall j: nat | j < |lines| && Prints(strip(lines[j])) :: j in Printing(lines, strip)
  {
    if lines != [] {
      var n := |lines| - 1;
      PrintingIsVisible(lines[..n], strip);
      PrintsUnlessBlank(strip(lines[n]));
      forall j: nat | j < |lines| && Prints(strip(lines[j])) ensures j in Printing(lines, strip) {
        if j < n {
          assert lines[..n][j] == lines[j] && j in Printing(lines[..n], strip);
        }
      }
    }
  }

  /**
   What is shown are at most 20 lines that print something, in their order and stripped; a line that
   prints something is left out only if 20 later ones are shown.
   */
  lemma ShowsTheLastThatPrint(text: string, strip: string -> string) returns (picks: seq<nat>)
    ensures var lines := Split(text).whole + [Split(text).rest];
            && |picks| <= 20 && Picked(lines, picks, Shown(text, strip), strip)
            && forall j: nat | j < |lines| && Prints(strip(lines[j])) :: j in picks || (|picks| == 20 && j < picks[0])
  {
    var lines := Split(text).whole + [Split(text).rest];
    PrintingIsVisible(lines, strip);
    var all := Printing(lines, strip);
    picks := Last(all, 20);
    LastArePicked(lines, all, Visible(lines, strip), strip);
    forall j: nat | j < |lines| && Prints(strip(lines[j])) ensures j in picks || (|picks| == 20 && j < picks[0]) {
      EarlierIsLeftOut(all, j);
    }
  }

  lemma LastArePicked(lines: seq<string>, picks: seq<nat>, shown: seq<string>, strip: string -> string)
    requires Picked(lines, picks, shown, strip)
    ensures |Last(picks, 20)| <= 20 && Picked(lines, Last(picks, 20), Last(shown, 20), strip)
  {
  }

  lemma EarlierIsLeftOut(picks: seq<nat>, j: nat)
    requires Rising(picks) && j in picks
    ensures var last := Last(picks, 20); j in last || (|last| == 20 && j < last[0])
  {
    var last := Last(picks, 20);
    var i :| 0 <= i < |picks| && picks[i] == j;
    if i >= |picks| - |last| {
      assert last[i - (|picks| - |last|)] == j;
    }
  }

  // ----- The ring of lines -----

  class RecentOutput {
    const strip: string -> string
    var lines: seq<string>
    var pending: string
    ghost var text: string

    constructor (strip: string -> string)
      requires strip("") == ""
      ensures Valid() && text == "" && this.strip == strip
    {
      this.strip := strip;
      lines, pending, text := [], "", "";
    }

    ghost predicate Valid()
      reads this
    {
      && strip("") == ""
      && lines == Last(Visible(Split(text).whole, strip), LINE_LIMIT)
      && pending == Split(text).rest
    }

    method Push(line: string)
      modifies this`lines
      requires |lines| <= LINE_LIMIT
      ensures lines == Last(old(lines) + Visible([line], strip), LINE_LIMIT)
    {
      var plain := strip(line);
      assert Visible([line], strip) == if Blank(plain) then [] else [plain];
      if Blank(plain) {
        return;
      }
      lines := lines + [plain];
      if |lines| > LINE_LIMIT {
        lines := lines[1..];
      }
    }

    method Append(chunk: string)
      requires Valid()
      modifies this
      ensures Valid() && text == old(text) + chunk
    {
      ChunksMayBeCutAnywhere(text, chunk, strip);
      var split := Split(pending + chunk);
      pending := split.rest;
      PushAll(split.whole);
      LastOfLast(Visible(Split(text).whole, strip), Visible(split.whole, strip), LINE_LIMIT);
      text := text + chunk;
    }

    method PushAll(whole: seq<string>)
      requires |lines| <= LINE_LIMIT
      modifies this`lines
      ensures lines == Last(old(lines) + Visible(whole, strip), LINE_LIMIT)
    {
      for i := 0 to |whole|
        invariant lines == Last(old(lines) + Visible(whole[..i], strip), LINE_LIMIT)
      {
        LastOfLast(old(lines) + Visible(whole[..i], strip), Visible([whole[i]], strip), LINE_LIMIT);
        VisibleJoins(whole[..i], [whole[i]], strip);
        assert whole[..i + 1] == whole[..i] + [whole[i]];
        assert old(lines) + Visible(whole[..i + 1], strip) ==
               old(lines) + Visible(whole[..i], strip) + Visible([whole[i]], strip);
        Push(whole[i]);
      }
      assert whole[..|whole|] == whole;
    }

    /** Ends the last line: what is shown stays as it was. */
    method Finish()
      requires Valid()
      modifies this
      ensures Valid() && text == old(text) + "\n"
      ensures Shown(text, strip) == Shown(old(text), strip)
    {
      FinishingShowsNothingNew(text, strip);
      VisibleJoins(Split(text).whole, [pending], strip);
      LastOfLast(Visible(Split(text).whole, strip), Visible([pending], strip), LINE_LIMIT);
      Push(pending);
      pending := "";
      text := text + "\n";
    }

    /** At any moment: the last visible lines of everything that arrived, however it was cut. */
    method Snapshot() returns (shown: seq<string>)
      requires Valid()
      ensures shown == Shown(text, strip)
    {
      var plain := strip(pending);
      assert Visible([pending], strip) == if Blank(plain) then [] else [plain];
      shown := Last(lines + if Blank(plain) then [] else [plain], LINE_LIMIT);
      VisibleJoins(Split(text).whole, [pending], strip);
      LastOfLast(Visible(Split(text).whole, strip), Visible([pending], strip), LINE_LIMIT);
    }
  }
}
