/**
 The text under which the evaluation profile's partition entries are kept: the running phases' names,
 sorted and joined. Different sets of phases never share a text.
 */
module EvaluationKeys {
  import opened EvaluationSweep

  /** All phases in alphabetical order. */
  const ALPHABETIC: seq<Phase> := [
    "ballot-classification", "close-verification", "encrypted-evaluation", "evaluation-module", "retrieval",
    "target-persistence", "target-restoration", "target-signing", "working-storage"
  ]

  /** The chosen ones among some names, in their order. */
  function Pick(names: seq<Phase>, chosen: set<Phase>): seq<Phase> {
    if names == [] then []
    else (if names[0] in chosen then [names[0]] else []) + Pick(names[1..], chosen)
  }

  function Join(names: seq<string>, separator: string): string {
    if names == [] then ""
    else if |names| == 1 then names[0]
    else names[0] + separator + Join(names[1..], separator)
  }

  function PrimaryText(key: Label): string {
    var names := Join(Pick(ALPHABETIC, key.primary), " + ");
    if names == "" then "unscoped" else names
  }

  /** The entry's key as text. */
  function KeyText(key: Label): string {
    PrimaryText(key) +
    if key.detailed == {} then "" else " / " + Join(Pick(ALPHABETIC, key.detailed), " + ")
  }

  // ----- A text as words -----

  function Spaced(words: seq<string>): string {
    Join(words, " ")
  }

  /** Names with a plus sign between each two. */
  function Plus(names: seq<string>): seq<string> {
    if |names| <= 1 then names else [names[0], "+"] + Plus(names[1..])
  }

  predicate Word(word: string) {
    word != "" && ' ' !in word
  }

  predicate AreWords(words: seq<string>) {
    forall word | word in words :: Word(word)
  }

  lemma SpacedFirst(word: string, rest: seq<string>)
    requires rest != []
    ensures Spaced([word] + rest) == word + " " + Spaced(rest)
  {
    assert ([word] + rest)[1..] == rest;
  }

  lemma {:induction false} SpacedAppends(a: seq<string>, b: seq<string>)
    requires a != [] && b != []
    ensures Spaced(a + b) == Spaced(a) + " " + Spaced(b)
  {
    if |a| == 1 {
      SpacedFirst(a[0], b);
      assert a + b == [a[0]] + b;
    } else {
      SpacedAppends(a[1..], b);
      SpacedFirst(a[0], a[1..] + b);
      assert a + b == [a[0]] + (a[1..] + b);
      SpacedFirst(a[0], a[1..]);
      assert a == [a[0]] + a[1..];
    }
  }

  /** One name more, a plus sign after it. */
  lemma PlusFirst(name: string, rest: seq<string>)
    requires rest != []
    ensures Spaced([name, "+"] + rest) == name + " + " + Spaced(rest)
  {
    SpacedFirst("+", rest);
    SpacedFirst(name, ["+"] + rest);
    assert [name, "+"] + rest == [name] + (["+"] + rest);
    assert name + " " + ("+" + " " + Spaced(rest)) == name + " + " + Spaced(rest);
  }

  lemma {:induction false} JoinIsSpaced(names: seq<string>)
    ensures Join(names, " + ") == Spaced(Plus(names))
    ensures names != [] ==> Plus(names) != []
  {
    if |names| > 1 {
      JoinIsSpaced(names[1..]);
      PlusFirst(names[0], Plus(names[1..]));
    }
  }

  /** Words without spaces are told apart by the spaces between them. */
  lemma {:induction false} SpacedIsInjective(a: seq<string>, b: seq<string>)
    requires a != [] && b != [] && AreWords(a) && AreWords(b) && Spaced(a) == Spaced(b)
    ensures a == b
  {
    FirstWord(a);
    FirstWord(b);
    var x, y := a[0], b[0];
    assert Word(x) && Word(y);
    assert |a| > 1 ==> Spaced(a)[|x|] == ' ';
    assert |b| > 1 ==> Spaced(b)[|y|] == ' ';
    assert |x| == |y|;
    assert x == Spaced(a)[..|x|] == y;
    if |a| > 1 && |b| > 1 {
      assert Spaced(a[1..]) == Spaced(a)[|x| + 1..] == Spaced(b[1..]);
      assert forall word | word in a[1..] :: word in a;
      assert forall word | word in b[1..] :: word in b;
      SpacedIsInjective(a[1..], b[1..]);
      assert a == [x] + a[1..] && b == [y] + b[1..];
    }
  }

  lemma FirstWord(words: seq<string>)
    requires words != []
    ensures |words| == 1 ==> Spaced(words) == words[0]
    ensures |words| > 1 ==> Spaced(words) == words[0] + " " + Spaced(words[1..])
  {
  }

  // ----- A key's words -----

  function PrimaryWords(key: Label): seq<string> {
    if Pick(ALPHABETIC, key.primary) == [] then ["unscoped"] else Plus(Pick(ALPHABETIC, key.primary))
  }

  function Words(key: Label): seq<string> {
    PrimaryWords(key) + if key.detailed == {} then [] else ["/"] + Plus(Pick(ALPHABETIC, key.detailed))
  }

  lemma {:induction false} PickMembers(names: seq<Phase>, chosen: set<Phase>, name: Phase)
    ensures name in Pick(names, chosen) <==> name in names && name in chosen
  {
    if names != [] {
      PickMembers(names[1..], chosen, name);
    }
  }

  lemma {:induction false} PlusMembers(names: seq<string>, word: string)
    requires word != "+"
    ensures word in Plus(names) <==> word in names
  {
    if |names| > 1 {
      PlusMembers(names[1..], word);
      assert names == [names[0]] + names[1..];
    }
  }

  lemma PhasesAreWords(phase: Phase)
    requires phase in PHASES
    ensures phase in ALPHABETIC && Word(phase) && phase != "+" && phase != "/" && phase != "unscoped"
  {
  }

  lemma PickIsWords(chosen: set<Phase>)
    requires chosen <= PHASES
    ensures AreWords(Pick(ALPHABETIC, chosen)) && AreWords(Plus(Pick(ALPHABETIC, chosen)))
    ensures chosen != {} ==> Pick(ALPHABETIC, chosen) != []
    ensures chosen == {} ==> Pick(ALPHABETIC, chosen) == []
  {
    var names := Pick(ALPHABETIC, chosen);
    forall name | name in names ensures Word(name) && name in chosen {
      PickMembers(ALPHABETIC, chosen, name);
      PhasesAreWords(name);
    }
    forall word | word in Plus(names) ensures Word(word) {
      if word != "+" {
        PlusMembers(names, word);
      }
    }
    if phase :| phase in chosen {
      PhasesAreWords(phase);
      PickMembers(ALPHABETIC, chosen, phase);
    }
    if names != [] {
      assert names[0] in names;
    }
  }

  /** A key's text is its words, with spaces between. */
  lemma KeyIsWords(key: Label)
    requires Known(key)
    ensures KeyText(key) == Spaced(Words(key)) && AreWords(Words(key)) && Words(key) != []
  {
    var primary, detailed := Pick(ALPHABETIC, key.primary), Pick(ALPHABETIC, key.detailed);
    PickIsWords(key.primary);
    PickIsWords(key.detailed);
    JoinIsSpaced(primary);
    JoinIsSpaced(detailed);
    PrimaryIsWords(key);
    if key.detailed != {} {
      var words := ["/"] + Plus(detailed);
      SpacedFirst("/", Plus(detailed));
      SpacedAppends(PrimaryWords(key), words);
      assert " / " + Spaced(Plus(detailed)) == " " + Spaced(words);
    } else {
      assert Words(key) == PrimaryWords(key);
      assert KeyText(key) == PrimaryText(key);
    }
  }

  lemma PrimaryIsWords(key: Label)
    requires Known(key)
    ensures PrimaryText(key) == Spaced(PrimaryWords(key)) && PrimaryWords(key) != [] && AreWords(PrimaryWords(key))
  {
    var names := Pick(ALPHABETIC, key.primary);
    PickIsWords(key.primary);
    JoinIsSpaced(names);
    if names != [] {
      FirstWord(Plus(names));
      assert Plus(names)[0] in Plus(names);
    }
  }

  /** Which phases a key's words name. */
  lemma WordsNameThePhases(key: Label, phase: Phase)
    requires Known(key) && phase in PHASES
    ensures phase in Words(key) <==> phase in key.primary || phase in key.detailed
  {
    PhasesAreWords(phase);
    PickIsWords(key.primary);
    PickMembers(ALPHABETIC, key.primary, phase);
    PickMembers(ALPHABETIC, key.detailed, phase);
    PlusMembers(Pick(ALPHABETIC, key.primary), phase);
    PlusMembers(Pick(ALPHABETIC, key.detailed), phase);
  }

  /** Two partition entries share a text only if they are the same entry. */
  lemma KeysStayApart(a: Label, b: Label)
    requires Known(a) && Known(b)
    ensures KeyText(a) == KeyText(b) <==> a == b
  {
    if KeyText(a) == KeyText(b) {
      KeyIsWords(a);
      KeyIsWords(b);
      SpacedIsInjective(Words(a), Words(b));
      forall phase | phase in PHASES
        ensures phase in a.primary || phase in a.detailed <==> phase in b.primary || phase in b.detailed
      {
        WordsNameThePhases(a, phase);
        WordsNameThePhases(b, phase);
      }
      assert a.primary == b.primary && a.detailed == b.detailed;
    }
  }

  // ----- The names in a text -----

  /** Whether a text comes before another in the order of their characters. */
  ghost predicate Precedes(a: string, b: string) {
    exists k | 0 <= k < |a| && k < |b| :: a[..k] == b[..k] && a[k] < b[k]
  }

  /** The phases' names, each once, by the alphabet. */
  ghost predicate Lists(names: seq<Phase>, chosen: set<Phase>) {
    && (forall name :: name in names <==> name in chosen)
    && (forall i, j | 0 <= i < j < |names| :: Precedes(names[i], names[j]))
  }

  lemma DiffersAt(a: string, b: string, k: nat)
    requires k < |a| && k < |b| && a[..k] == b[..k] && a[k] < b[k]
    ensures Precedes(a, b)
  {
  }

  lemma NeighboursAreInOrder(i: nat)
    requires i + 1 < |ALPHABETIC|
    ensures Precedes(ALPHABETIC[i], ALPHABETIC[i + 1])
  {
    var k := if i == 2 then 1 else if i == 5 || i == 6 then 7 else 0;
    var a, b := ALPHABETIC[i], ALPHABETIC[i + 1];
    assert i == 2 ==> a[..1] == "e" && b[..1] == "e";
    assert k == 7 ==> a[..7] == "target-" && b[..7] == "target-";
    DiffersAt(a, b, k);
  }

  lemma PrecedesIsTransitive(a: string, b: string, c: string)
    requires Precedes(a, b) && Precedes(b, c)
    ensures Precedes(a, c)
  {
    var i :| 0 <= i < |a| && i < |b| && a[..i] == b[..i] && a[i] < b[i];
    var j :| 0 <= j < |b| && j < |c| && b[..j] == c[..j] && b[j] < c[j];
    var k := if i < j then i else j;
    assert a[..k] == a[..i][..k] == b[..i][..k] == b[..k] == b[..j][..k] == c[..j][..k] == c[..k];
    assert i < j ==> b[i] == b[..j][i] == c[..j][i] == c[i];
    assert j < i ==> a[j] == a[..i][j] == b[..i][j] == b[j];
    DiffersAt(a, c, k);
  }

  lemma {:induction false} AllAreInOrder(i: nat, j: nat)
    requires i < j < |ALPHABETIC|
    ensures Precedes(ALPHABETIC[i], ALPHABETIC[j])
    decreases j
  {
    NeighboursAreInOrder(j - 1);
    if i < j - 1 {
      AllAreInOrder(i, j - 1);
      PrecedesIsTransitive(ALPHABETIC[i], ALPHABETIC[j - 1], ALPHABETIC[j]);
    }
  }

  lemma {:induction false} PickKeepsOrder(names: seq<Phase>, chosen: set<Phase>)
    requires forall i, j | 0 <= i < j < |names| :: Precedes(names[i], names[j])
    ensures forall i, j | 0 <= i < j < |Pick(names, chosen)| ::
      Precedes(Pick(names, chosen)[i], Pick(names, chosen)[j])
  {
    if names != [] {
      var rest := Pick(names[1..], chosen);
      PickKeepsOrder(names[1..], chosen);
      forall k | 0 <= k < |rest| ensures Precedes(names[0], rest[k]) {
        PickMembers(names[1..], chosen, rest[k]);
        var at :| 0 <= at < |names[1..]| && names[1..][at] == rest[k];
        assert names[at + 1] == rest[k];
      }
    }
  }

  /** A key's text: its primary phases by the alphabet or a word for none, then its detailed ones if it has any. */
  lemma KeyReads(key: Label)
    requires Known(key)
    ensures exists primary, detailed ::
      Lists(primary, key.primary) && Lists(detailed, key.detailed) && IsText(KeyText(key), primary, detailed)
  {
    var primary, detailed := Pick(ALPHABETIC, key.primary), Pick(ALPHABETIC, key.detailed);
    PickLists(key.primary);
    PickLists(key.detailed);
    PickedText(key, primary, detailed);
  }

  predicate IsText(text: string, primary: seq<Phase>, detailed: seq<Phase>) {
    text == (if primary == [] then "unscoped" else Join(primary, " + "))
          + (if detailed == [] then "" else " / " + Join(detailed, " + "))
  }

  lemma PickedText(key: Label, primary: seq<Phase>, detailed: seq<Phase>)
    requires Known(key) && primary == Pick(ALPHABETIC, key.primary) && detailed == Pick(ALPHABETIC, key.detailed)
    ensures IsText(KeyText(key), primary, detailed)
  {
    PickIsWords(key.detailed);
    PrimaryReads(key);
  }

  lemma PrimaryReads(key: Label)
    requires Known(key)
    ensures var primary := Pick(ALPHABETIC, key.primary);
            PrimaryText(key) == if primary == [] then "unscoped" else Join(primary, " + ")
  {
    var primary := Pick(ALPHABETIC, key.primary);
    PickIsWords(key.primary);
    if primary != [] {
      JoinStarts(primary, " + ");
      assert primary[0] in primary;
    }
  }

  lemma JoinStarts(names: seq<string>, separator: string)
    requires names != []
    ensures |Join(names, separator)| >= |names[0]|
  {
  }

  lemma PickLists(chosen: set<Phase>)
    requires chosen <= PHASES
    ensures Lists(Pick(ALPHABETIC, chosen), chosen)
  {
    forall i, j | 0 <= i < j < |ALPHABETIC| ensures Precedes(ALPHABETIC[i], ALPHABETIC[j]) {
      AllAreInOrder(i, j);
    }
    PickKeepsOrder(ALPHABETIC, chosen);
    forall name ensures name in Pick(ALPHABETIC, chosen) <==> name in chosen {
      PickMembers(ALPHABETIC, chosen, name);
      if name in chosen {
        PhasesAreWords(name);
      }
    }
  }
}
