/** The merchant alias table: a resolver sorted by specificity, queried first match first. */
module MerchantAliases {
  import opened Sequences
  import opened Text
  import opened StableSorting

  // A stored alias row.
  datatype Alias = Alias(pattern: string, canonical: string)

  // An alias that can fire, with its tokens.
  datatype Rule = Rule(tokens: seq<string>, canonical: string, pattern: string)

  const ALPHANUMERIC: char -> bool := c => '0' <= c <= '9' || 'A' <= c <= 'Z' || 'a' <= c <= 'z'

  function Tokenize(merchant: string): seq<string> {
    Runs(merchant, ALPHANUMERIC)
  }

  /** The pattern is a contiguous run of the target. */
  predicate TokensMatch(pattern: seq<string>, target: seq<string>) {
    pattern == [] || exists i :: 0 <= i <= |target| - |pattern| && MatchesAt(pattern, target, i)
  }

  predicate MatchesAt(pattern: seq<string>, target: seq<string>, i: int)
    requires 0 <= i <= |target| - |pattern|
  {
    target[i..i + |pattern|] == pattern
  }

  // ----- specificity -----

  predicate MoreSpecific(a: Rule, b: Rule) {
    || |a.tokens| > |b.tokens|
    || (|a.tokens| == |b.tokens| && |a.pattern| > |b.pattern|)
    || (|a.tokens| == |b.tokens| && |a.pattern| == |b.pattern| && LexLess(a.pattern, b.pattern))
  }

  const MORE_SPECIFIC: (Rule, Rule) -> bool := (a: Rule, b: Rule) => MoreSpecific(a, b)

  lemma SpecificityIsAnOrder()
    ensures IsWeakOrder(MORE_SPECIFIC)
  {
    forall x: Rule, y: Rule, z: Rule
      ensures !MoreSpecific(x, x)
      ensures MoreSpecific(x, y) && MoreSpecific(y, z) ==> MoreSpecific(x, z)
      ensures MoreSpecific(x, z) ==> MoreSpecific(x, y) || MoreSpecific(y, z)
    {
      LexLessTransitive(x.pattern, y.pattern, z.pattern);
      LexLessTransitive(y.pattern, x.pattern, z.pattern);
      LexLessTotal(x.pattern, y.pattern);
    }
    assert forall x: Rule, y: Rule :: MORE_SPECIFIC(x, y) == MoreSpecific(x, y);
  }

  // ----- building -----

  function Scored(rows: seq<Alias>): seq<Rule> {
    if rows == [] then []
    else if Tokenize(Last(rows).pattern) == [] then Scored(Init(rows))
    else Scored(Init(rows)) + [RuleOf(Last(rows))]
  }

  function RuleOf(a: Alias): Rule {
    Rule(Tokenize(a.pattern), a.canonical, a.pattern)
  }

  function BuildRules(rows: seq<Alias>): seq<Rule> {
    StableSort(Scored(rows), MORE_SPECIFIC)
  }

  ghost predicate DistinctPatterns(rows: seq<Alias>) {
    forall i, j :: 0 <= i < j < |rows| ==> rows[i].pattern != rows[j].pattern
  }

  lemma {:induction false} ScoredMembers(rows: seq<Alias>, rule: Rule)
    ensures rule in Scored(rows) <==> rule.tokens != [] && exists a <- rows :: RuleOf(a) == rule
  {
    if rows != [] {
      InitLast(rows);
      ScoredMembers(Init(rows), rule);
    }
  }

  lemma {:induction false} ScoredSplit(a: seq<Alias>, b: seq<Alias>)
    ensures Scored(a + b) == Scored(a) + Scored(b)
  {
    if b == [] {
      assert a + b == a;
    } else {
      assert Init(a + b) == a + Init(b);
      ScoredSplit(a, Init(b));
    }
  }

  lemma {:induction false} ScoredKeepsElements(a: seq<Alias>, b: seq<Alias>)
    requires multiset(a) == multiset(b)
    ensures multiset(Scored(a)) == multiset(Scored(b))
  {
    if a == [] {
      assert |multiset(b)| == 0;
    } else {
      InitLast(a);
      assert Last(a) in multiset(b);
      var k :| 0 <= k < |b| && b[k] == Last(a);
      var left, one, right := b[..k], [b[k]], b[k + 1..];
      assert b == left + one + right;
      ScoredKeepsElements(Init(a), left + right);
      ScoredSplit(left + one, right);
      ScoredSplit(left, one);
      ScoredSplit(left, right);
      ScoredSplit(Init(a), one);
      assert multiset(Scored(b)) == multiset(Scored(left)) + multiset(Scored(one)) + multiset(Scored(right));
    }
  }

  lemma RulesSeparated(rows: seq<Alias>)
    requires DistinctPatterns(rows)
    ensures forall x <- Scored(rows), y <- Scored(rows) :: x != y ==> MORE_SPECIFIC(x, y) || MORE_SPECIFIC(y, x)
  {
    forall x, y | x in Scored(rows) && y in Scored(rows) && x != y
      ensures MoreSpecific(x, y) || MoreSpecific(y, x)
    {
      ScoredMembers(rows, x);
      ScoredMembers(rows, y);
      var i :| 0 <= i < |rows| && RuleOf(rows[i]) == x;
      var j :| 0 <= j < |rows| && RuleOf(rows[j]) == y;
      LexLessTotal(x.pattern, y.pattern);
    }
  }

  /** The order the database returns the rows in does not matter: the resolver is the same. */
  lemma BuildForgetsArrival(a: seq<Alias>, b: seq<Alias>)
    requires DistinctPatterns(a) && multiset(a) == multiset(b)
    ensures BuildRules(a) == BuildRules(b)
  {
    SpecificityIsAnOrder();
    ScoredKeepsElements(a, b);
    RulesSeparated(a);
    SortForgetsArrival(Scored(a), Scored(b), MORE_SPECIFIC);
  }

  // ----- resolving -----

  /** First match in the prepared order, else the merchant itself. */
  function Resolve(rules: seq<Rule>, merchant: string): string {
    if rules == [] then merchant
    else if TokensMatch(rules[0].tokens, Tokenize(merchant)) then rules[0].canonical
    else Resolve(rules[1..], merchant)
  }

  predicate Fires(a: Alias, merchant: string) {
    Tokenize(a.pattern) != [] && TokensMatch(Tokenize(a.pattern), Tokenize(merchant))
  }

  /** `a` is the most specific of the aliases that fire on the merchant. */
  ghost predicate Wins(rows: seq<Alias>, a: Alias, merchant: string) {
    && a in rows && Fires(a, merchant)
    && forall b <- rows :: Fires(b, merchant) && b != a ==> MoreSpecific(RuleOf(a), RuleOf(b))
  }

  lemma {:induction false} ResolveTakesFirst(rules: seq<Rule>, merchant: string) returns (k: nat)
    ensures k <= |rules|
    ensures forall i :: 0 <= i < k ==> !TokensMatch(rules[i].tokens, Tokenize(merchant))
    ensures k == |rules| ==> Resolve(rules, merchant) == merchant
    ensures k < |rules| ==>
              TokensMatch(rules[k].tokens, Tokenize(merchant)) && Resolve(rules, merchant) == rules[k].canonical
  {
    if rules == [] || TokensMatch(rules[0].tokens, Tokenize(merchant)) {
      k := 0;
    } else {
      var rest := ResolveTakesFirst(rules[1..], merchant);
      k := rest + 1;
      assert forall i :: 1 <= i < k ==> rules[i] == rules[1..][i - 1];
    }
  }

  lemma BuiltMembers(rows: seq<Alias>, rule: Rule)
    ensures rule in BuildRules(rows) <==> rule.tokens != [] && exists a <- rows :: RuleOf(a) == rule
  {
    ScoredMembers(rows, rule);
    SortKeepsElements(Scored(rows), MORE_SPECIFIC);
    assert rule in BuildRules(rows) <==> rule in multiset(BuildRules(rows));
    assert rule in Scored(rows) <==> rule in multiset(Scored(rows));
  }

  /** The answer is the target of the most specific alias found in the merchant, or the merchant unchanged. */
  lemma ResolveFindsMostSpecific(rows: seq<Alias>, merchant: string)
    requires DistinctPatterns(rows)
    ensures (forall a <- rows :: !Fires(a, merchant)) ==> Resolve(BuildRules(rows), merchant) == merchant
    ensures (exists a <- rows :: Fires(a, merchant)) ==>
              exists a <- rows :: Wins(rows, a, merchant) && Resolve(BuildRules(rows), merchant) == a.canonical
  {
    var rules := BuildRules(rows);
    SpecificityIsAnOrder();
    SortIsInOrder(Scored(rows), MORE_SPECIFIC);
    var k := ResolveTakesFirst(rules, merchant);
    if k < |rules| {
      BuiltMembers(rows, rules[k]);
      var a :| a in rows && RuleOf(a) == rules[k];
      forall b | b in rows && Fires(b, merchant) && b != a
        ensures MoreSpecific(RuleOf(a), RuleOf(b))
      {
        FiringRuleBehind(rows, merchant, k, a, b);
      }
      assert Wins(rows, a, merchant);
    } else {
      forall a | a in rows
        ensures !Fires(a, merchant)
      {
        BuiltMembers(rows, RuleOf(a));
      }
    }
  }

  lemma FiringRuleBehind(rows: seq<Alias>, merchant: string, k: nat, a: Alias, b: Alias)
    requires DistinctPatterns(rows) && InOrder(BuildRules(rows), MORE_SPECIFIC)
    requires k < |BuildRules(rows)| && BuildRules(rows)[k] == RuleOf(a)
    requires forall i :: 0 <= i < k ==> !TokensMatch(BuildRules(rows)[i].tokens, Tokenize(merchant))
    requires a in rows && b in rows && b != a && Fires(b, merchant)
    ensures MoreSpecific(RuleOf(a), RuleOf(b))
  {
    BuiltMembers(rows, RuleOf(a));
    BuiltMembers(rows, RuleOf(b));
    ScoredMembers(rows, RuleOf(a));
    ScoredMembers(rows, RuleOf(b));
    RulesSeparated(rows);
    var j :| 0 <= j < |BuildRules(rows)| && BuildRules(rows)[j] == RuleOf(b);
    assert RuleOf(a) != RuleOf(b);
    assert !MORE_SPECIFIC(RuleOf(b), RuleOf(a));
  }

  // ----- who answers, in the patterns' own terms -----

  /** A pattern matches exactly where its tokens stand in a row among the merchant's. */
  lemma TokensMatchIff(pattern: seq<string>, target: seq<string>)
    ensures TokensMatch(pattern, target) <==> exists left, right :: target == left + pattern + right
  {
    if pattern == [] {
      assert target == target + pattern + [];
    } else {
      if i :| 0 <= i <= |target| - |pattern| && MatchesAt(pattern, target, i) {
        assert target == target[..i] + pattern + target[i + |pattern|..];
      }
      if left, right :| target == left + pattern + right {
        assert target[|left|..|left| + |pattern|] == pattern;
        assert MatchesAt(pattern, target, |left|);
      }
    }
  }

  /** Tokens are the runs of letters and digits: none of these is lost, and anything else separates. */
  lemma TokensOf(a: string, c: char, b: string)
    ensures !ALPHANUMERIC(c) ==> Tokenize(a + [c] + b) == Tokenize(a) + Tokenize(b)
    ensures Concat(Tokenize(a)) == Only(a, ALPHANUMERIC)
    ensures a != "" && (forall d <- a :: ALPHANUMERIC(d)) ==> Tokenize(a) == [a]
  {
    RunsKeepCharacters(a, ALPHANUMERIC);
    if !ALPHANUMERIC(c) {
      RunsSplit(a, c, b, ALPHANUMERIC);
    }
    if a != "" && forall d <- a :: ALPHANUMERIC(d) {
      OneToken(a);
    }
  }

  lemma OneToken(a: string)
    requires a != "" && forall d <- a :: ALPHANUMERIC(d)
    ensures Tokenize(a) == [a]
  {
    assert forall i :: 0 <= i < |a| ==> a[i] in a;
    FirstRun(a, ALPHANUMERIC);
    var n := RunLength(a, ALPHANUMERIC);
    assert a[..n] == a && a[n..] == "";
  }

  /** b has no more tokens than a; of as many, it is no longer; of the same length, it is a or comes later. */
  predicate NoLonger(b: Alias, a: Alias) {
    var m, n := |Tokenize(b.pattern)|, |Tokenize(a.pattern)|;
    && m <= n
    && (m == n ==> |b.pattern| <= |a.pattern|
                   && (|b.pattern| == |a.pattern| ==> b == a || LexLess(a.pattern, b.pattern)))
  }

  /**
   * Whenever some alias fires, a firing one answers whose pattern has the most tokens, of those the most characters,
   * and of those the least text.
   */
  lemma LongestPatternAnswers(rows: seq<Alias>, merchant: string)
    requires DistinctPatterns(rows) && exists a <- rows :: Fires(a, merchant)
    ensures exists a <- rows :: Fires(a, merchant) && Resolve(BuildRules(rows), merchant) == a.canonical
                                && forall b <- rows :: Fires(b, merchant) ==> NoLonger(b, a)
  {
    ResolveFindsMostSpecific(rows, merchant);
    var a :| a in rows && Wins(rows, a, merchant) && Resolve(BuildRules(rows), merchant) == a.canonical;
    forall b | b in rows && Fires(b, merchant)
      ensures NoLonger(b, a)
    {
      hide Tokenize, LexLess;
      assert b != a ==> MoreSpecific(RuleOf(a), RuleOf(b));
    }
  }

  /** An alias that does not win can be left out. */
  lemma LosingAliasIsIdle(rows: seq<Alias>, a: Alias, b: Alias, merchant: string)
    requires DistinctPatterns(rows + [a]) && b in rows && Fires(b, merchant) && !Wins(rows + [a], a, merchant)
    ensures Resolve(BuildRules(rows + [a]), merchant) == Resolve(BuildRules(rows), merchant)
  {
    hide BuildRules, Resolve, Tokenize;
    var more := rows + [a];
    assert DistinctPatterns(rows) by {
      assert forall i :: 0 <= i < |rows| ==> more[i] == rows[i];
    }
    assert b in more;
    ResolveFindsMostSpecific(rows, merchant);
    ResolveFindsMostSpecific(more, merchant);
    var x :| x in rows && Wins(rows, x, merchant) && Resolve(BuildRules(rows), merchant) == x.canonical;
    var y :| y in more && Wins(more, y, merchant) && Resolve(BuildRules(more), merchant) == y.canonical;
    assert Wins(rows, y, merchant);
    WinnerUnique(rows, x, y, merchant);
  }

  /** An alias never decides where one of more tokens fires too, as when its own stand inside the longer pattern's. */
  lemma ShorterPatternNeverDecides(rows: seq<Alias>, a: Alias, b: Alias, merchant: string)
    requires DistinctPatterns(rows + [a]) && b in rows && Fires(b, merchant)
    requires |Tokenize(a.pattern)| < |Tokenize(b.pattern)|
    ensures Resolve(BuildRules(rows + [a]), merchant) == Resolve(BuildRules(rows), merchant)
  {
    hide Tokenize, LexLess;
    assert b in rows + [a] && b != a;
    LosingAliasIsIdle(rows, a, b, merchant);
  }

  /** "amazon pay" answers for itself although "amazon" fires too, whichever row came first. */
  lemma TwoTokensBeatOne(short: Alias, long: Alias, merchant: string)
    requires Fires(short, merchant) && Fires(long, merchant)
    requires |Tokenize(short.pattern)| < |Tokenize(long.pattern)|
    ensures Resolve(BuildRules([short, long]), merchant) == long.canonical
    ensures Resolve(BuildRules([long, short]), merchant) == long.canonical
  {
    hide BuildRules, Resolve, Tokenize;
    LongestPatternAnswers([short, long], merchant);
    LongestPatternAnswers([long, short], merchant);
  }

  lemma WinnerUnique(rows: seq<Alias>, a: Alias, b: Alias, merchant: string)
    requires Wins(rows, a, merchant) && Wins(rows, b, merchant)
    ensures a == b
  {
    LexLessTransitive(a.pattern, b.pattern, a.pattern);
  }

  /** Adding one alias changes the answer only for merchants that contain its pattern. */
  lemma AddingAliasIsLocal(rows: seq<Alias>, a: Alias, merchant: string)
    requires DistinctPatterns(rows + [a]) && !Fires(a, merchant)
    ensures Resolve(BuildRules(rows + [a]), merchant) == Resolve(BuildRules(rows), merchant)
  {
    if b :| b in rows && Fires(b, merchant) {
      LosingAliasIsIdle(rows, a, b, merchant);
    } else {
      assert DistinctPatterns(rows) by {
        assert forall i :: 0 <= i < |rows| ==> (rows + [a])[i] == rows[i];
      }
      ResolveFindsMostSpecific(rows, merchant);
      ResolveFindsMostSpecific(rows + [a], merchant);
    }
  }

  /** An empty table, or one whose patterns all tokenise to nothing, leaves every merchant alone. */
  lemma NothingFiresIsIdentity(rows: seq<Alias>, merchant: string)
    requires forall a <- rows :: Tokenize(a.pattern) == []
    ensures Resolve(BuildRules(rows), merchant) == merchant
  {
    var rules := BuildRules(rows);
    if rules != [] {
      BuiltMembers(rows, rules[0]);
    }
  }

  // ----- the memoised resolver -----

  function CountCanonical(rules: seq<Rule>, canonical: string): nat {
    if rules == [] then 0
    else CountCanonical(Init(rules), canonical) + if Last(rules).canonical == canonical then 1 else 0
  }

  class AliasResolver {
    const rules: seq<Rule>
    var memo: map<string, string>

    ghost predicate Valid()
      reads this
    {
      forall m <- memo :: memo[m] == Resolve(rules, m)
    }

    constructor (rules: seq<Rule>)
      ensures Valid() && this.rules == rules && memo == map[]
    {
      this.rules, this.memo := rules, map[];
    }

    /** Whatever was asked before, the answer is the unmemoised one. */
    method Canonical(merchant: string) returns (canonical: string)
      requires Valid()
      modifies this`memo
      ensures Valid() && canonical == Resolve(rules, merchant)
      ensures rules == [] ==> memo == old(memo)
    {
      if rules == [] {
        return merchant;
      }
      if merchant in memo {
        return memo[merchant];
      }
      var tokens := Tokenize(merchant);
      canonical := merchant;
      var i := 0;
      while i < |rules| && !TokensMatch(rules[i].tokens, tokens)
        invariant 0 <= i <= |rules|
        invariant Resolve(rules[i..], merchant) == Resolve(rules, merchant)
      {
        assert rules[i..][1..] == rules[i + 1..];
        i := i + 1;
      }
      if i < |rules| {
        canonical := rules[i].canonical;
      }
      memo := memo[merchant := canonical];
    }

    /** How many patterns resolve to each canonical; a pattern that can never fire is not counted. */
    method PatternCounts() returns (counts: map<string, nat>)
      ensures forall c :: CountCanonical(rules, c) == if c in counts then counts[c] else 0
    {
      counts := map[];
      for i := 0 to |rules|
        invariant forall c :: CountCanonical(rules[..i], c) == if c in counts then counts[c] else 0
      {
        assert Init(rules[..i + 1]) == rules[..i];
        var c := rules[i].canonical;
        counts := counts[c := (if c in counts then counts[c] else 0) + 1];
      }
      assert rules[..|rules|] == rules;
    }
  }

  /** Scores the rows that have tokens, in arrival order, then sorts them. */
  method BuildResolver(rows: seq<Alias>) returns (resolver: AliasResolver)
    ensures resolver.Valid() && resolver.rules == BuildRules(rows)
  {
    var scored: seq<Rule> := [];
    for i := 0 to |rows|
      invariant scored == Scored(rows[..i])
    {
      assert Init(rows[..i + 1]) == rows[..i];
      var tokens := Tokenize(rows[i].pattern);
      if tokens != [] {
        scored := scored + [Rule(tokens, rows[i].canonical, rows[i].pattern)];
      }
    }
    assert rows[..|rows|] == rows;
    resolver := new AliasResolver(StableSort(scored, MORE_SPECIFIC));
  }
}
