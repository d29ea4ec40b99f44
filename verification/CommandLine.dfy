/**
 Quoting arguments for a Windows command line, against the Microsoft C runtime's rules for reading
 one back: whitespace separates arguments outside quotation marks, a run of backslashes before a
 mark halves and escapes it when odd, and backslashes elsewhere are literal.
 */
module CommandLine {

  const MARK := '"'
  const SLASH := '\\'

  function Repeat(c: char, n: nat): (r: string)
    ensures |r| == n && forall i | 0 <= i < n :: r[i] == c
  {
    seq(n, _ => c)
  }

  // ----- Quoting -----

  /** The text that quotes what is left of an argument after a run of backslashes. */
  function Body(argument: string, backslashes: nat): string {
    if argument == "" then Repeat(SLASH, 2 * backslashes) + [MARK]
    else if argument[0] == SLASH then Body(argument[1..], backslashes + 1)
    else if argument[0] == MARK then Repeat(SLASH, 2 * backslashes + 1) + [MARK] + Body(argument[1..], 0)
    else Repeat(SLASH, backslashes) + [argument[0]] + Body(argument[1..], 0)
  }

  function Quoted(argument: string): string {
    [MARK] + Body(argument, 0)
  }

  function Joined(arguments: seq<string>): string {
    if arguments == [] then ""
    else if |arguments| == 1 then Quoted(arguments[0])
    else Quoted(arguments[0]) + " " + Joined(arguments[1..])
  }

  method QuoteArgument(argument: string) returns (quoted: string)
    ensures quoted == Quoted(argument)
  {
    quoted := [MARK];
    var backslashes: nat := 0;
    for i := 0 to |argument|
      invariant quoted + Body(argument[i..], backslashes) == Quoted(argument)
    {
      var character := argument[i];
      assert argument[i..][1..] == argument[i + 1..];
      if character == SLASH {
        backslashes := backslashes + 1;
        continue;
      }
      ghost var before := quoted;
      ghost var run := if character == MARK then Repeat(SLASH, 2 * backslashes + 1) else Repeat(SLASH, backslashes);
      quoted := quoted +
        if character == MARK then Repeat(SLASH, 2 * backslashes + 1) + [MARK]
        else Repeat(SLASH, backslashes) + [character];
      assert before + (run + [character] + Body(argument[i + 1..], 0)) == quoted + Body(argument[i + 1..], 0);
      backslashes := 0;
    }
    quoted := quoted + Repeat(SLASH, 2 * backslashes) + [MARK];
  }

  /** Quotes every argument and joins them with spaces. */
  method JoinArguments(arguments: seq<string>) returns (line: string)
    ensures line == Joined(arguments)
  {
    line := "";
    var i := |arguments|;
    while i > 0
      invariant 0 <= i <= |arguments| && line == Joined(arguments[i..])
    {
      i := i - 1;
      var quoted := QuoteArgument(arguments[i]);
      assert arguments[i..][1..] == arguments[i + 1..];
      line := if i + 1 == |arguments| then quoted else quoted + " " + line;
    }
  }

  // ----- Reading back -----

  /** What two adjacent marks inside a quotation mean, on which runtimes differ. */
  datatype Rule = Toggles | MarkAndStays | MarkAndEnds

  predicate Blank(c: char) {
    c == ' ' || c == '\t'
  }

  /** The length of the run of backslashes a text starts with. */
  function Run(s: string): (n: nat)
    ensures n <= |s| && (forall i | 0 <= i < n :: s[i] == SLASH) && (n < |s| ==> s[n] != SLASH)
  {
    if s == "" || s[0] != SLASH then 0 else 1 + Run(s[1..])
  }

  /** Reads one argument on from within it: the argument, and what is left of the line. */
  function ReadArgument(rule: Rule, s: string, quoted: bool, argument: string): (r: (string, string))
    ensures |r.1| <= |s|
    ensures s != "" && (quoted || !Blank(s[0])) ==> |r.1| < |s|
    decreases |s|
  {
    if s == "" || (Blank(s[0]) && !quoted) then (argument, s)
    else if s[0] == SLASH then
      var n := Run(s);
      if n < |s| && s[n] == MARK then
        if n % 2 == 1 then ReadArgument(rule, s[n + 1..], quoted, argument + Repeat(SLASH, n / 2) + [MARK])
        else ReadArgument(rule, s[n..], quoted, argument + Repeat(SLASH, n / 2))
      else ReadArgument(rule, s[n..], quoted, argument + Repeat(SLASH, n))
    else if s[0] == MARK then
      if quoted && rule != Toggles && |s| > 1 && s[1] == MARK
      then ReadArgument(rule, s[2..], rule == MarkAndStays, argument + [MARK])
      else ReadArgument(rule, s[1..], !quoted, argument)
    else ReadArgument(rule, s[1..], quoted, argument + [s[0]])
  }

  function ReadLine(rule: Rule, s: string): seq<string>
    decreases |s|
  {
    if s == "" then []
    else if Blank(s[0]) then ReadLine(rule, s[1..])
    else
      var (argument, rest) := ReadArgument(rule, s, false, "");
      [argument] + ReadLine(rule, rest)
  }

  // ----- The round trip -----

  lemma {:induction false} RunOfRepeat(n: nat, s: string)
    requires s == "" || s[0] != SLASH
    ensures Run(Repeat(SLASH, n) + s) == n
  {
    if n > 0 {
      assert (Repeat(SLASH, n) + s)[1..] == Repeat(SLASH, n - 1) + s;
      RunOfRepeat(n - 1, s);
    } else {
      assert Repeat(SLASH, 0) + s == s;
    }
  }

  /** A run of backslashes before a mark: halved, and escaping the mark when odd. */
  lemma ReadMarkedRun(rule: Rule, n: nat, s: string, argument: string)
    requires n > 0 && s != "" && s[0] == MARK
    ensures ReadArgument(rule, Repeat(SLASH, n) + s, true, argument) ==
      if n % 2 == 1 then ReadArgument(rule, s[1..], true, argument + Repeat(SLASH, n / 2) + [MARK])
      else ReadArgument(rule, s, true, argument + Repeat(SLASH, n / 2))
  {
    RunOfRepeat(n, s);
    var text := Repeat(SLASH, n) + s;
    assert text[n..] == s && text[n + 1..] == s[1..];
  }

  /** A run of backslashes elsewhere: literal. */
  lemma ReadPlainRun(rule: Rule, n: nat, s: string, argument: string)
    requires s != "" && s[0] != SLASH && s[0] != MARK
    ensures ReadArgument(rule, Repeat(SLASH, n) + s, true, argument)
         == ReadArgument(rule, s[1..], true, argument + Repeat(SLASH, n) + [s[0]])
  {
    RunOfRepeat(n, s);
    var text := Repeat(SLASH, n) + s;
    assert text[n..] == s;
    if n == 0 {
      assert argument + Repeat(SLASH, 0) == argument;
    }
  }

  /** What the quoted rest of an argument reads back as: that rest, and the end of the argument. */
  predicate ReadsBack(rule: Rule, argument: string, backslashes: nat, rest: string, read: string) {
    ReadArgument(rule, Body(argument, backslashes) + rest, true, read)
      == (read + Repeat(SLASH, backslashes) + argument, rest)
  }

  /** A closing mark with a blank or nothing behind it ends the argument. */
  lemma ReadsClosing(rule: Rule, rest: string, read: string)
    requires rest == "" || Blank(rest[0])
    ensures ReadArgument(rule, [MARK] + rest, true, read) == (read, rest)
  {
    var end := [MARK] + rest;
    assert end[1..] == rest && (rest != "" ==> end[1] == rest[0]);
    assert ReadArgument(rule, rest, false, read) == (read, rest);
  }

  lemma BodyOfEnd(backslashes: nat, rest: string)
    ensures Body("", backslashes) + rest == Repeat(SLASH, 2 * backslashes) + ([MARK] + rest)
  {
  }

  /** At the end of an argument its pending backslashes are doubled before the closing mark. */
  lemma ReadsEnd(rule: Rule, backslashes: nat, rest: string, read: string)
    requires rest == "" || Blank(rest[0])
    ensures ReadsBack(rule, "", backslashes, rest, read)
  {
    var end := [MARK] + rest;
    BodyOfEnd(backslashes, rest);
    var halved := read + Repeat(SLASH, backslashes);
    ReadsClosing(rule, rest, halved);
    if backslashes > 0 {
      ReadMarkedRun(rule, 2 * backslashes, end, read);
    } else {
      assert Repeat(SLASH, 0) + end == end && halved == read;
    }
    assert halved + "" == halved;
  }

  lemma ReadTogether(read: string, c: char, left: string)
    ensures read + [c] + Repeat(SLASH, 0) + left == read + ([c] + left)
  {
  }

  lemma BodyOfMark(left: string, backslashes: nat, rest: string)
    ensures Body([MARK] + left, backslashes) + rest
         == Repeat(SLASH, 2 * backslashes + 1) + ([MARK] + (Body(left, 0) + rest))
  {
    assert ([MARK] + left)[1..] == left;
  }

  lemma Odd(n: nat)
    ensures (2 * n + 1) % 2 == 1 && (2 * n + 1) / 2 == n
  {
  }

  lemma ReadEscapedMark(rule: Rule, backslashes: nat, tail: string, read: string)
    ensures ReadArgument(rule, Repeat(SLASH, 2 * backslashes + 1) + ([MARK] + tail), true, read)
         == ReadArgument(rule, tail, true, read + Repeat(SLASH, backslashes) + [MARK])
  {
    Odd(backslashes);
    ReadMarkedRun(rule, 2 * backslashes + 1, [MARK] + tail, read);
    assert ([MARK] + tail)[1..] == tail;
  }

  /** Before a mark the pending backslashes are doubled and the mark escaped. */
  lemma ReadsMark(rule: Rule, left: string, backslashes: nat, rest: string, read: string)
    requires ReadsBack(rule, left, 0, rest, read + Repeat(SLASH, backslashes) + [MARK])
    ensures ReadsBack(rule, [MARK] + left, backslashes, rest, read)
  {
    var tail := Body(left, 0) + rest;
    BodyOfMark(left, backslashes, rest);
    ReadEscapedMark(rule, backslashes, tail, read);
    ReadTogether(read + Repeat(SLASH, backslashes), MARK, left);
  }

  /** Before anything else they are literal. */
  lemma ReadsPlain(rule: Rule, c: char, left: string, backslashes: nat, rest: string, read: string)
    requires c != MARK && c != SLASH
    requires ReadsBack(rule, left, 0, rest, read + Repeat(SLASH, backslashes) + [c])
    ensures ReadsBack(rule, [c] + left, backslashes, rest, read)
  {
    var argument := [c] + left;
    var tail := Body(left, 0) + rest;
    assert argument[1..] == left;
    assert Body(argument, backslashes) + rest == Repeat(SLASH, backslashes) + ([c] + tail);
    ReadPlainRun(rule, backslashes, [c] + tail, read);
    assert ([c] + tail)[1..] == tail;
    ReadTogether(read + Repeat(SLASH, backslashes), c, left);
  }

  lemma {:induction false} ReadsBody(rule: Rule, argument: string, backslashes: nat, rest: string, read: string)
    requires rest == "" || Blank(rest[0])
    ensures ReadsBack(rule, argument, backslashes, rest, read)
    decreases |argument|
  {
    if argument == "" {
      ReadsEnd(rule, backslashes, rest, read);
    } else if argument[0] == SLASH {
      ReadsBody(rule, argument[1..], backslashes + 1, rest, read);
      assert read + Repeat(SLASH, backslashes + 1) + argument[1..] == read + Repeat(SLASH, backslashes) + argument;
    } else {
      var c, left := argument[0], argument[1..];
      ReadsBody(rule, left, 0, rest, read + Repeat(SLASH, backslashes) + [c]);
      if c == MARK {
        ReadsMark(rule, left, backslashes, rest, read);
      } else {
        ReadsPlain(rule, c, left, backslashes, rest, read);
      }
      assert [c] + left == argument;
    }
  }

  lemma ReadsQuoted(rule: Rule, argument: string, rest: string)
    requires rest == "" || Blank(rest[0])
    ensures ReadLine(rule, Quoted(argument) + rest) == [argument] + ReadLine(rule, rest)
  {
    ReadsBody(rule, argument, 0, rest, "");
    var line := Quoted(argument) + rest;
    assert line[1..] == Body(argument, 0) + rest;
    assert "" + Repeat(SLASH, 0) + argument == argument;
  }

  /** Whatever the runtime makes of doubled marks, the joined line reads back as exactly the arguments. */
  lemma {:induction false} JoinedReadsBack(rule: Rule, arguments: seq<string>)
    ensures ReadLine(rule, Joined(arguments)) == arguments
  {
    if |arguments| == 1 {
      ReadsQuoted(rule, arguments[0], "");
      assert Quoted(arguments[0]) + "" == Quoted(arguments[0]);
    } else if arguments != [] {
      var rest := " " + Joined(arguments[1..]);
      assert Joined(arguments) == Quoted(arguments[0]) + rest;
      ReadsQuoted(rule, arguments[0], rest);
      assert rest[1..] == Joined(arguments[1..]);
      JoinedReadsBack(rule, arguments[1..]);
    }
  }

  /** Different argument lists never share a command line. */
  lemma JoinedIsInjective(a: seq<string>, b: seq<string>)
    requires Joined(a) == Joined(b)
    ensures a == b
  {
    JoinedReadsBack(Toggles, a);
    JoinedReadsBack(Toggles, b);
  }

  // ----- What the quoting is, run by run -----

  /** A run of backslashes is carried along. */
  lemma {:induction false} BodyOfRun(n: nat, rest: string, backslashes: nat)
    ensures Body(Repeat(SLASH, n) + rest, backslashes) == Body(rest, n + backslashes)
    decreases n
  {
    var text := Repeat(SLASH, n) + rest;
    if n == 0 {
      assert text == rest;
    } else {
      assert text[1..] == Repeat(SLASH, n - 1) + rest;
      BodyOfRun(n - 1, rest, backslashes + 1);
    }
  }

  /** Text that ends in no backslash and holds no mark stays as it is. */
  lemma {:induction false} BodyOfPlain(plain: string, rest: string, backslashes: nat)
    requires MARK !in plain && plain != "" && plain[|plain| - 1] != SLASH
    ensures Body(plain + rest, backslashes) == Repeat(SLASH, backslashes) + plain + Body(rest, 0)
    decreases |plain|
  {
    var text, left := plain + rest, plain[1..];
    assert text[1..] == left + rest;
    if left == "" {
      assert left + rest == rest && plain == [plain[0]];
    } else if plain[0] == SLASH {
      BodyOfPlain(left, rest, backslashes + 1);
      assert Repeat(SLASH, backslashes + 1) + left == Repeat(SLASH, backslashes) + plain;
    } else {
      BodyOfPlain(left, rest, 0);
      assert Repeat(SLASH, 0) + left == left;
      assert [plain[0]] + left == plain;
    }
  }

  /** Text that holds no mark and ends in no backslash. */
  predicate Plain(text: string) {
    '"' !in text && (text == "" || text[|text| - 1] != '\\')
  }

  /**
   Every argument is plain text, then a run of backslashes, then its end or a mark and more. The plain text stays
   as it is. At the end the run is doubled before the closing mark; before a mark it is doubled and one backslash
   added, and what follows the mark is quoted like an argument of its own.
   */
  lemma QuotedByParts(plain: string, n: nat, more: string)
    requires Plain(plain)
    ensures var run := seq(n, _ => '\\');
      && Quoted(plain + run) == ['"'] + plain + run + run + ['"']
      && Quoted(plain + run + ['"'] + more) == ['"'] + plain + run + run + ['\\', '"'] + Quoted(more)[1..]
  {
    var run := seq(n, _ => '\\');
    assert run == Repeat(SLASH, n);
    QuotedAtTheEnd(plain, run);
    QuotedAtAMark(plain, run, more);
  }

  lemma QuotedAtTheEnd(plain: string, run: string)
    requires Plain(plain) && run == Repeat(SLASH, |run|)
    ensures Quoted(plain + run) == ['"'] + plain + run + run + ['"']
  {
    BodyOfParts(plain, |run|, "");
    assert plain + run == plain + (run + "");
    assert run + run == Repeat(SLASH, 2 * |run|);
    assert Quoted(plain + run) == [MARK] + (plain + (run + run + [MARK]));
  }

  lemma QuotedAtAMark(plain: string, run: string, more: string)
    requires Plain(plain) && run == Repeat(SLASH, |run|)
    ensures Quoted(plain + run + ['"'] + more) == ['"'] + plain + run + run + ['\\', '"'] + Quoted(more)[1..]
  {
    var tail := [MARK] + more;
    BodyOfParts(plain, |run|, tail);
    assert plain + run + ['"'] + more == plain + (run + tail);
    RunBeforeMark(run, more);
    Regrouped(plain, run, Body(more, 0));
    assert Quoted(more)[1..] == Body(more, 0);
  }

  lemma RunBeforeMark(run: string, more: string)
    requires run == Repeat(SLASH, |run|)
    ensures Body([MARK] + more, |run|) == run + run + [SLASH] + ([MARK] + Body(more, 0))
  {
    var tail, body := [MARK] + more, Body(more, 0);
    assert tail[1..] == more;
    MoreSlashes(run);
    assert run + run + [SLASH] + [MARK] + body == run + run + [SLASH] + ([MARK] + body);
  }

  lemma Regrouped(plain: string, run: string, body: string)
    ensures [MARK] + (plain + (run + run + [SLASH] + ([MARK] + body))) == ['"'] + plain + run + run + ['\\', '"'] + body
  {
  }

  lemma MoreSlashes(run: string)
    requires run == Repeat(SLASH, |run|)
    ensures Repeat(SLASH, 2 * |run| + 1) == run + run + [SLASH]
  {
  }

  lemma BodyOfParts(plain: string, n: nat, tail: string)
    requires Plain(plain)
    ensures Body(plain + (Repeat(SLASH, n) + tail), 0) == plain + Body(tail, n)
  {
    var rest := Repeat(SLASH, n) + tail;
    BodyOfRun(n, tail, 0);
    if plain == "" {
      assert plain + rest == rest;
    } else {
      BodyOfPlain(plain, rest, 0);
      assert Repeat(SLASH, 0) + plain == plain;
    }
  }

  /** The line has one space between each two quoted arguments and none elsewhere around them. */
  lemma {:induction false} JoinedByParts(first: seq<string>, last: string)
    ensures Joined(first + [last]) == (if first == [] then "" else Joined(first) + [' ']) + Quoted(last)
    ensures Joined([]) == ""
  {
    var all := first + [last];
    if first != [] {
      assert all[1..] == first[1..] + [last];
      JoinedByParts(first[1..], last);
      assert Joined(all) == Quoted(first[0]) + " " + Joined(all[1..]);
      if |first| > 1 {
        assert Joined(first) == Quoted(first[0]) + " " + Joined(first[1..]);
        assert Joined(all) == Quoted(first[0]) + " " + (Joined(first[1..]) + [' '] + Quoted(last));
      }
    }
  }
}
