/** Label names: how every write normalises them, and the list a transaction shows of the ones linked to it. */
module Labels {
  import opened Sequences
  import opened Text
  import opened Fingerprints
  import opened BackupFormat

  const MAX_LENGTH: nat := 64

  function DropHash(s: string): string {
    if s != "" && s[0] == '#' then s[1..] else s
  }

  /** Stripped, one hash dropped, semicolons removed, blanks collapsed, lower-cased, cut; nothing left is no label. */
  function NormalizeLabel(raw: string): Option<string> {
    var s := NormalizeMerchant(Only(DropHash(Strip(raw)), NOT_SEMICOLON));
    if s == "" then None else Some(if |s| <= MAX_LENGTH then s else s[..MAX_LENGTH])
  }

  /** What a second normalisation leaves alone. */
  predicate IsKeptLabel(s: string) {
    s != "" && |s| <= MAX_LENGTH && NormalizeMerchant(s) == s && s[0] != '#' && ';' !in s
  }

  /** What any normalised name looks like: it may still start with a hash or, once cut, end in a blank. */
  predicate IsLabelText(s: string) {
    && s != "" && |s| <= MAX_LENGTH && !IsSpace(s[0]) && ';' !in s
    && forall c <- s :: LowerChar(c) == c && (IsSpace(c) ==> c == ' ')
  }

  // ----- one normalisation never lengthens a text -----

  lemma {:induction false} JoinedWords(s: string)
    ensures |Join(' ', Words(s))| <= |s|
    ensures |Join(' ', Words(s))| == |s| && (forall c <- s :: IsSpace(c) ==> c == ' ') ==> Join(' ', Words(s)) == s
    decreases |s|
  {
    if s != "" {
      if IsSpace(s[0]) {
        JoinedWords(s[1..]);
      } else {
        var n := RunLength(s, NOT_SPACE);
        var w, later := s[..n], s[if n < |s| then n + 1 else n..];
        FirstWord(s, n);
        hide Words, Join, RunLength;
        JoinFirst(w, Words(later));
        if n < |s| {
          assert s == w + [s[n]] + later && s[n] in s && forall c <- later :: c in s;
          JoinedWords(later);
        } else {
          assert w == s;
        }
      }
    }
  }

  lemma FirstWord(s: string, n: nat)
    requires s != "" && !IsSpace(s[0]) && n == RunLength(s, NOT_SPACE)
    ensures 0 < n <= |s| && (n < |s| ==> IsSpace(s[n]))
    ensures Words(s) == [s[..n]] + Words(s[if n < |s| then n + 1 else n..])
    ensures n == |s| ==> Words(s[n..]) == []
  {
    assert n > 0 && Words(s) == [s[..n]] + Words(s[n..]);
    hide RunLength;
    if n < |s| {
      assert s[n..][0] == s[n] && s[n..][1..] == s[n + 1..];
      SkipBlank(s[n..]);
    } else {
      assert s[n..] == "";
    }
  }

  lemma SkipBlank(s: string)
    requires s == "" || IsSpace(s[0])
    ensures Words(s) == if s == "" then [] else Words(s[1..])
  {
  }

  lemma JoinFirst(w: string, rest: seq<string>)
    ensures Join(' ', [w] + rest) == if rest == [] then w else w + [' '] + Join(' ', rest)
    ensures rest == [] ==> Join(' ', rest) == ""
  {
  }

  lemma {:induction false} OnlyShape(s: string, keep: char -> bool)
    ensures |Only(s, keep)| <= |s| && forall c <- Only(s, keep) :: c in s && keep(c)
    ensures (forall c <- s :: keep(c)) ==> Only(s, keep) == s
  {
    if s != "" {
      OnlyShape(s[1..], keep);
      assert s == [s[0]] + s[1..];
    }
  }

  lemma {:induction false} StripLength(s: string)
    ensures |Strip(s)| <= |s| && (|Strip(s)| == |s| ==> Strip(s) == s)
  {
    StripLeftLength(s);
    StripRightLength(StripLeft(s));
  }

  lemma {:induction false} StripLeftLength(s: string)
    ensures |StripLeft(s)| <= |s| && (|StripLeft(s)| == |s| ==> StripLeft(s) == s)
  {
    if s != "" && IsSpace(s[0]) {
      StripLeftLength(s[1..]);
    }
  }

  lemma {:induction false} StripRightLength(s: string)
    ensures |StripRight(s)| <= |s| && (|StripRight(s)| == |s| ==> StripRight(s) == s)
  {
    if s != "" && IsSpace(Last(s)) {
      StripRightLength(Init(s));
    }
  }

  lemma NormalizedIsLabelText(raw: string)
    ensures NormalizeLabel(raw).Some? ==> IsLabelText(NormalizeLabel(raw).value)
  {
    var cut := Only(DropHash(Strip(raw)), NOT_SEMICOLON);
    var s := NormalizeMerchant(cut);
    OnlyShape(DropHash(Strip(raw)), NOT_SEMICOLON);
    NormalizedChars(cut);
    NormalizedKeepsOut(cut);
    NormalizeIdempotent(cut);
    NormalMerchantIsClean(s);
  }

  lemma NormalizedKeepsOut(s: string)
    requires ';' !in s
    ensures ';' !in NormalizeMerchant(s)
  {
    RunCharsFromSource(Lower(s), NOT_SPACE);
    JoinChars(' ', Words(Lower(s)));
    assert forall i :: 0 <= i < |s| ==> s[i] in s && (LowerChar(s[i]) == ';' ==> s[i] == ';');
  }

  /** Normalising a normalised name gives it back or a shorter one. */
  lemma NormalizingAgain(s: string)
    requires IsLabelText(s)
    ensures var again := NormalizeLabel(s);
            again == Some(s) || again.None? || |again.value| < |s|
    ensures NormalizeLabel(s) == Some(s) ==> IsKeptLabel(s)
  {
    hide Strip, Only, NormalizeMerchant;
    var bare := DropHash(Strip(s));
    StripLength(s);
    StripKeepsChars(s);
    assert forall c <- bare :: c in s;
    OnlyShape(bare, NOT_SEMICOLON);
    NormalizedLength(bare);
  }

  lemma NormalizedLength(s: string)
    requires forall c <- s :: LowerChar(c) == c && (IsSpace(c) ==> c == ' ')
    ensures |NormalizeMerchant(s)| <= |s| && (|NormalizeMerchant(s)| == |s| ==> NormalizeMerchant(s) == s)
  {
    assert Lower(s) == s;
    JoinedWords(s);
  }

  lemma KeptIsClean(s: string)
    requires IsKeptLabel(s)
    ensures NormalizeLabel(s) == Some(s) && IsLabel(s) && IsLabelText(s)
  {
    NormalMerchantIsClean(s);
    StripShape(s);
    OnlyShape(s, NOT_SEMICOLON);
    NormalizedChars(s);
    hide Strip, Only, NormalizeMerchant;
  }

  /**
   * A name is its own normal form if and only if it is lower-case with single blanks inside, of 1 to 64
   * characters, with no semicolon and no leading hash.
   */
  lemma OwnNormalFormIff(s: string)
    ensures NormalizeLabel(s) == Some(s) <==> IsKeptLabel(s)
  {
    hide NormalizeLabel, IsKeptLabel;
    if IsKeptLabel(s) {
      KeptIsClean(s);
    }
    if NormalizeLabel(s) == Some(s) {
      NormalizedIsLabelText(s);
      NormalizingAgain(s);
    }
  }

  /** Normalising is not a projection: "##x" is stored as "#x", and that normalises to "x". */
  lemma HashIsDroppedAgain()
    ensures NormalizeLabel("##x") == Some("#x") && NormalizeLabel("#x") == Some("x")
  {
    hide NormalizeLabel;
    assert "#" + "x" == "#x" && "#" + "#x" == "##x";
    HashDropped("x");
    HashDropped("#x");
  }

  lemma HashDropped(s: string)
    requires IsRun(s, NOT_SPACE) && Lower(s) == s && ';' !in s && |s| <= MAX_LENGTH
    ensures NormalizeLabel("#" + s) == Some(s)
  {
    var hashed := "#" + s;
    assert hashed[0] == '#' && hashed[1..] == s;
    HashedWord(s);
    hide Strip, Only, NormalizeMerchant, IsRun, Lower;
    NormalWord(hashed);
    NormalWord(s);
  }

  lemma HashedWord(s: string)
    requires IsRun(s, NOT_SPACE) && Lower(s) == s && ';' !in s
    ensures IsRun("#" + s, NOT_SPACE) && Lower("#" + s) == "#" + s && ';' !in "#" + s
  {
    assert ("#" + s)[1..] == s;
  }

  lemma NormalWord(s: string)
    requires IsRun(s, NOT_SPACE) && Lower(s) == s && ';' !in s
    ensures Strip(s) == s && Only(s, NOT_SEMICOLON) == s && NormalizeMerchant(s) == s
  {
    assert s[0] in s && Last(s) in s;
    StripShape(s);
    OnlyShape(s, NOT_SEMICOLON);
    RunsOfJoin(' ', [s], NOT_SPACE);
  }

  /** But for one leading hash and the semicolons a name keeps its words, in lower case, up to 64 characters. */
  lemma NormalizedKeepsWords(raw: string)
    ensures var bare := Only(DropHash(Strip(raw)), NOT_SEMICOLON);
            var whole := NormalizeMerchant(bare);
            && Words(whole) == Words(Lower(bare))
            && (NormalizeLabel(raw).None? <==> whole == "")
            && (NormalizeLabel(raw).Some? ==>
                  NormalizeLabel(raw).value <= whole
                  && |NormalizeLabel(raw).value| == if |whole| <= 64 then |whole| else 64)
  {
    NormalizedWords(Only(DropHash(Strip(raw)), NOT_SEMICOLON));
    hide Strip, Only, NormalizeMerchant, Words;
  }

  /** A name typed with a hash or without, or between blanks, is one label. */
  lemma SpellingsAgree(s: string)
    requires IsClean(s) && s[0] != '#'
    ensures NormalizeLabel("#" + s) == NormalizeLabel(s) == NormalizeLabel(" " + s + " ")
  {
    StripShape(s);
    HashStays(s);
    BlanksGo(s);
    assert ("#" + s)[1..] == s;
    hide Strip, Only, NormalizeMerchant;
  }

  lemma HashStays(s: string)
    requires IsClean(s)
    ensures Strip("#" + s) == "#" + s
  {
    assert Last("#" + s) == Last(s);
    StripShape("#" + s);
  }

  lemma BlanksGo(s: string)
    requires IsClean(s)
    ensures Strip(" " + s + " ") == s
  {
    var padded := " " + s + " ";
    assert padded[0] == ' ' && padded[1..] == s + " " && StripLeft(padded) == StripLeft(s + " ");
    assert (s + " ")[0] == s[0] && StripLeft(s + " ") == s + " ";
    assert Last(s + " ") == ' ' && Init(s + " ") == s && StripRight(s + " ") == StripRight(s) == s;
  }

  // ----- the names linked to a transaction, listed by name -----

  ghost predicate Ascending(names: seq<string>) {
    forall i, j :: 0 <= i < j < |names| ==> LexLess(names[i], names[j])
  }

  function InsertName(name: string, names: seq<string>): seq<string> {
    if names == [] then [name]
    else if name == names[0] then names
    else if LexLess(name, names[0]) then [name] + names
    else [names[0]] + InsertName(name, names[1..])
  }

  /** The distinct normal forms of these names, in name order. */
  function LinkedLabels(names: seq<string>): seq<string> {
    if names == [] then []
    else
      var before, name := LinkedLabels(Init(names)), NormalizeLabel(Last(names));
      if name.Some? then InsertName(name.value, before) else before
  }

  lemma {:induction false} InsertNameAscends(name: string, names: seq<string>)
    requires Ascending(names)
    ensures Ascending(InsertName(name, names))
    ensures forall n :: n in InsertName(name, names) <==> n == name || n in names
  {
    hide Ascending, LexLess;
    if names == [] {
      ConsAscends(name, []);
      assert [name] + [] == [name];
    } else {
      var first, rest := names[0], names[1..];
      assert names == [first] + rest;
      TailAscends(names);
      LexLessTotal(name, first);
      if LexLess(name, first) {
        forall n | n in names
          ensures LexLess(name, n)
        {
          LexLessTransitive(name, first, n);
        }
        ConsAscends(name, names);
      } else if name != first {
        InsertNameAscends(name, rest);
        ConsAscends(first, InsertName(name, rest));
      }
    }
  }

  lemma ConsAscends(first: string, rest: seq<string>)
    requires Ascending(rest) && forall n <- rest :: LexLess(first, n)
    ensures Ascending([first] + rest)
  {
  }

  lemma TailAscends(names: seq<string>)
    requires names != [] && Ascending(names)
    ensures Ascending(names[1..]) && forall n <- names[1..] :: LexLess(names[0], n)
  {
    var rest := names[1..];
    assert forall i :: 0 <= i < |rest| ==> rest[i] == names[i + 1];
  }

  ghost predicate NamedBy(names: seq<string>, n: string) {
    exists raw <- names :: NormalizeLabel(raw) == Some(n)
  }

  lemma NamedBySnoc(names: seq<string>)
    requires names != []
    ensures forall n :: NamedBy(names, n) <==> NamedBy(Init(names), n) || NormalizeLabel(Last(names)) == Some(n)
  {
    InitLast(names);
    assert Last(names) in names;
  }

  /** Each distinct normal form is listed once, in name order, and nothing else. */
  lemma {:induction false} LinkedLabelsAre(names: seq<string>)
    ensures Ascending(LinkedLabels(names))
    ensures forall n :: n in LinkedLabels(names) <==> NamedBy(names, n)
  {
    hide NormalizeLabel, InsertName;
    if names != [] {
      LinkedLabelsAre(Init(names));
      NamedBySnoc(names);
      hide NamedBy, Ascending;
      var name := NormalizeLabel(Last(names));
      if name.Some? {
        InsertNameAscends(name.value, LinkedLabels(Init(names)));
      }
    }
  }

  lemma {:induction false} AscendingUnique(a: seq<string>, b: seq<string>)
    requires Ascending(a) && Ascending(b) && forall n :: n in a <==> n in b
    ensures a == b
  {
    assert (a != [] ==> a[0] in a) && (b != [] ==> b[0] in b);
    if a != [] && b != [] {
      SmallestFirst(a, b[0]);
      SmallestFirst(b, a[0]);
      LexLessTransitive(a[0], b[0], a[0]);
      TailAscends(a);
      TailAscends(b);
      hide Ascending, LexLess;
      var x, y := a[1..], b[1..];
      forall n
        ensures n in x <==> n in a && n != a[0]
        ensures n in y <==> n in b && n != b[0]
      {
        InTail(a, n);
        InTail(b, n);
      }
      AscendingUnique(x, y);
      assert a == [a[0]] + x && b == [b[0]] + y;
    }
  }

  lemma SmallestFirst(names: seq<string>, n: string)
    requires Ascending(names) && n in names
    ensures n == names[0] || LexLess(names[0], n)
  {
  }

  lemma InTail(names: seq<string>, n: string)
    requires names != [] && Ascending(names)
    ensures n in names[1..] <==> n in names && n != names[0]
  {
    TailAscends(names);
    LexLessTransitive(names[0], names[0], names[0]);
    assert names == [names[0]] + names[1..];
  }

  // ----- the list across a cell of the backup -----

  /** What a restore lists for the labels a cell was written from. */
  function RestoredLabels(labels: seq<string>): seq<string> {
    LinkedLabels(SplitLabels(Get(LabelCell(labels))))
  }

  lemma KeptLabelsStay(labels: seq<string>)
    requires Ascending(labels) && forall s <- labels :: IsKeptLabel(s)
    ensures RestoredLabels(labels) == labels
  {
    forall s | s in labels
      ensures IsLabel(s) && NormalizeLabel(s) == Some(s)
    {
      KeptIsClean(s);
    }
    hide NormalizeLabel, IsKeptLabel, Ascending, IsLabel, SplitLabels, Get, LabelCell, LinkedLabels;
    LabelsJoined(labels);
    LinkedLabelsAre(labels);
    AscendingUnique(LinkedLabels(labels), labels);
  }

  lemma {:induction false} StripRightAppend(a: string, b: string)
    requires StripRight(b) != ""
    ensures StripRight(a + b) == a + StripRight(b)
  {
    if IsSpace(Last(b)) {
      assert Init(a + b) == a + Init(b);
      StripRightAppend(a, Init(b));
    }
  }

  /** Stripped at its right end only: no label text starts with a blank. */
  lemma TextIsStripped(s: string)
    requires IsLabelText(s)
    ensures StripLeft(s) == s && StripRight(s) != "" && Strip(s) == StripRight(s)
    ensures Strip(StripRight(s)) == Strip(s) && ';' !in StripRight(s)
  {
    StripRightShape(s);
    StripRightKeepsFirst(s);
    StripRightKeepsChars(s);
    StripShape(s);
    StripShape(StripRight(s));
  }

  lemma {:induction false} StripRightKeepsFirst(s: string)
    requires s != "" && !IsSpace(s[0])
    ensures StripRight(s) != "" && StripRight(s)[0] == s[0]
  {
    if IsSpace(Last(s)) {
      StripRightKeepsFirst(Init(s));
    }
  }

  function Trimmed(labels: seq<string>): seq<string>
    requires labels != []
  {
    Init(labels) + [StripRight(Last(labels))]
  }

  lemma {:induction false} JoinTrimmed(labels: seq<string>)
    requires labels != [] && forall s <- labels :: IsLabelText(s)
    ensures Strip(Join(';', labels)) == StripRight(Join(';', labels)) == Join(';', Trimmed(labels))
    ensures Join(';', Trimmed(labels)) != ""
  {
    var first, rest := labels[0], labels[1..];
    assert first in labels && Last(labels) in labels;
    TextIsStripped(Last(labels));
    if rest != [] {
      JoinTrimmed(rest);
      StripRightAppend(first + [';'], Join(';', rest));
      assert Trimmed(labels)[1..] == Trimmed(rest);
      assert first + [';'] + Join(';', Trimmed(rest)) == Join(';', Trimmed(labels));
    }
  }

  lemma {:induction false} StripAllTrimmed(labels: seq<string>)
    requires labels != [] && forall s <- labels :: IsLabelText(s)
    ensures StripAll(Trimmed(labels)) == StripAll(labels)
  {
    hide Strip;
    assert labels[0] in labels;
    if |labels| > 1 {
      StripAllTrimmed(labels[1..]);
      assert Trimmed(labels)[1..] == Trimmed(labels[1..]) && Trimmed(labels)[0] == labels[0];
    } else {
      TextIsStripped(labels[0]);
      assert Trimmed(labels)[1..] == labels[1..] == [];
    }
  }

  lemma TrimmedRuns(labels: seq<string>, w: string)
    requires labels != [] && (forall s <- labels :: IsLabelText(s)) && w in Trimmed(labels)
    ensures IsRun(w, NOT_SEMICOLON)
  {
    assert Last(labels) in labels;
    TextIsStripped(Last(labels));
    assert w != StripRight(Last(labels)) ==> w in Init(labels) && w in labels;
    assert forall c <- w :: c != ';';
  }

  /** A cell of label texts splits into each of them, stripped. */
  lemma TextsSplit(labels: seq<string>)
    requires forall s <- labels :: IsLabelText(s)
    ensures SplitLabels(Get(LabelCell(labels))) == StripAll(labels)
  {
    if labels == [] {
      assert LabelCell(labels) == "";
    } else {
      var parts := Trimmed(labels);
      assert Last(labels) in labels;
      TextIsStripped(Last(labels));
      JoinTrimmed(labels);
      StripAllTrimmed(labels);
      hide Strip, StripRight, StripAll, Join, IsLabelText;
      forall w | w in parts
        ensures IsRun(w, NOT_SEMICOLON)
      {
        TrimmedRuns(labels, w);
      }
      RunsOfJoin(';', parts, NOT_SEMICOLON);
    }
  }

  lemma {:induction false} StripAllNames(labels: seq<string>, n: string)
    requires forall s <- labels :: IsLabelText(s)
    ensures NamedBy(StripAll(labels), n) <==> NamedBy(labels, n)
  {
    if labels != [] {
      var first, rest := labels[0], labels[1..];
      assert first in labels && labels == [first] + rest;
      TextIsStripped(first);
      StripShape(first);
      StripAllNames(rest, n);
      assert NormalizeLabel(Strip(first)) == NormalizeLabel(first);
      hide NormalizeLabel, Strip, IsLabelText;
      assert StripAll(labels) == [Strip(first)] + StripAll(rest);
      NamedByCons(Strip(first), StripAll(rest), n);
      NamedByCons(first, rest, n);
    }
  }

  lemma NamedByCons(first: string, rest: seq<string>, n: string)
    ensures NamedBy([first] + rest, n) <==> NormalizeLabel(first) == Some(n) || NamedBy(rest, n)
  {
    assert first in [first] + rest && forall r <- rest :: r in [first] + rest;
  }

  lemma TextLength(s: string)
    requires IsLabelText(s)
    ensures 0 < |s| <= MAX_LENGTH
  {
  }

  /** A name that is not its own normal form would have to come from a longer such name, without end. */
  lemma {:induction false} AllKept(labels: seq<string>, s: string)
    requires s in labels && forall n <- labels :: IsLabelText(n) && NamedBy(labels, n)
    ensures IsKeptLabel(s)
    decreases MAX_LENGTH - |s|
  {
    hide NormalizeLabel, IsKeptLabel, IsLabelText;
    var raw :| raw in labels && NormalizeLabel(raw) == Some(s);
    TextLength(raw);
    TextLength(s);
    OwnNormalFormIff(raw);
    if raw != s {
      NormalizingAgain(raw);
      AllKept(labels, raw);
    }
  }

  /** The labels of a transaction come back as they were exactly when each is its own normal form. */
  lemma LabelsComeBackIff(labels: seq<string>)
    ensures RestoredLabels(labels) == labels <==> Ascending(labels) && forall s <- labels :: IsKeptLabel(s)
  {
    var parts := SplitLabels(Get(LabelCell(labels)));
    LinkedLabelsAre(parts);
    hide NormalizeLabel, IsKeptLabel, Ascending, SplitLabels, Get, LabelCell, LinkedLabels;
    if Ascending(labels) && forall s <- labels :: IsKeptLabel(s) {
      KeptLabelsStay(labels);
    }
    if RestoredLabels(labels) == labels {
      forall n | n in labels
        ensures IsLabelText(n)
      {
        var raw :| raw in parts && NormalizeLabel(raw) == Some(n);
        NormalizedIsLabelText(raw);
      }
      TextsSplit(labels);
      hide NamedBy, IsLabelText;
      forall s | s in labels
        ensures IsKeptLabel(s)
      {
        forall n | n in labels
          ensures NamedBy(labels, n)
        {
          StripAllNames(labels, n);
        }
        AllKept(labels, s);
      }
    }
  }

  lemma HashComesBackBare()
    ensures RestoredLabels(["#x"]) == ["x"]
  {
    hide SplitLabels, Get, LabelCell, NormalizeLabel, LinkedLabels;
    HashIsDroppedAgain();
    assert forall s <- ["#x"] :: s == "#x";
    LabelsJoined(["#x"]);
    OneLinked("#x", "x");
  }

  lemma OneLinked(raw: string, name: string)
    requires NormalizeLabel(raw) == Some(name)
    ensures LinkedLabels([raw]) == [name]
  {
    hide NormalizeLabel;
    assert Init([raw]) == [] && LinkedLabels([]) == [];
  }
}
