/** Sequence idioms shared by the folds below. */
module Sequences {
  datatype Option<+T> = None | Some(value: T)

  function Last<T>(s: seq<T>): T
    requires s != []
  {
    s[|s| - 1]
  }

  function Init<T>(s: seq<T>): seq<T>
    requires s != []
  {
    s[..|s| - 1]
  }

  lemma InitLast<T>(s: seq<T>)
    requires s != []
    ensures s == Init(s) + [Last(s)]
    ensures multiset(Init(s)) == multiset(s) - multiset{Last(s)}
    ensures forall e <- Init(s) :: e in s
  {
    assert s == Init(s) + [Last(s)];
  }

  method AnyElement<T(==)>(s: set<T>) returns (e: T)
    requires s != {}
    ensures e in s
  {
    e :| e in s;
  }

  lemma SomeElement<T>(s: set<T>) returns (e: T)
    requires s != {}
    ensures e in s
  {
    e :| e in s;
  }

  /** No element twice. */
  ghost predicate Distinct<T>(s: seq<T>) {
    forall i, j :: 0 <= i < j < |s| ==> s[i] != s[j]
  }
}

/** Strings as the program handles them: runs, joins and decimal rendering. */
module Text {
  import opened Sequences

  // ----- maximal runs of kept characters -----

  function RunLength(s: string, keep: char -> bool): (n: nat)
    ensures n <= |s| && (forall i :: 0 <= i < n ==> keep(s[i])) && (n < |s| ==> !keep(s[n]))
  {
    if s == "" || !keep(s[0]) then 0 else 1 + RunLength(s[1..], keep)
  }

  function Runs(s: string, keep: char -> bool): seq<string>
    decreases |s|
  {
    if s == "" then []
    else if !keep(s[0]) then Runs(s[1..], keep)
    else [s[..RunLength(s, keep)]] + Runs(s[RunLength(s, keep)..], keep)
  }

  predicate IsRun(w: string, keep: char -> bool) {
    w != "" && forall c <- w :: keep(c)
  }

  lemma {:induction false} RunsAreRuns(s: string, keep: char -> bool)
    ensures forall w <- Runs(s, keep) :: IsRun(w, keep)
    decreases |s|
  {
    if s != "" {
      RunsAreRuns(s[if keep(s[0]) then RunLength(s, keep) else 1..], keep);
    }
  }

  /** The kept characters of a string, in order. */
  function Only(s: string, keep: char -> bool): string {
    if s == "" then "" else (if keep(s[0]) then [s[0]] else "") + Only(s[1..], keep)
  }

  lemma {:induction false} OnlySplit(a: string, b: string, keep: char -> bool)
    ensures Only(a + b, keep) == Only(a, keep) + Only(b, keep)
  {
    hide Only;
    if a == "" {
      OnlyNone(a, keep);
      assert a + b == b && Only(a, keep) + Only(b, keep) == Only(b, keep);
    } else {
      OnlyFirst(a, keep);
      OnlyFirst(a + b, keep);
      assert (a + b)[0] == a[0] && (a + b)[1..] == a[1..] + b;
      OnlySplit(a[1..], b, keep);
    }
  }

  lemma OnlyNone(s: string, keep: char -> bool)
    requires s == ""
    ensures Only(s, keep) == ""
  {
  }

  lemma OnlyFirst(s: string, keep: char -> bool)
    requires s != ""
    ensures Only(s, keep) == (if keep(s[0]) then [s[0]] else "") + Only(s[1..], keep)
  {
  }

  lemma {:induction false} OnlyWhole(s: string, keep: char -> bool)
    requires forall c <- s :: keep(c)
    ensures Only(s, keep) == s
  {
    if s != "" {
      assert s[0] in s && s == [s[0]] + s[1..];
      OnlyWhole(s[1..], keep);
    }
  }

  lemma FirstRun(s: string, keep: char -> bool)
    requires s != "" && keep(s[0])
    ensures var n := RunLength(s, keep);
            0 < n <= |s| && Runs(s, keep) == [s[..n]] + Runs(s[n..], keep) && Only(s[..n], keep) == s[..n]
  {
    var n := RunLength(s, keep);
    assert forall i :: 0 <= i < n ==> s[..n][i] == s[i];
    OnlyWhole(s[..n], keep);
  }

  /** The runs hold every kept character, once and in order. */
  lemma {:induction false} RunsKeepCharacters(s: string, keep: char -> bool)
    ensures Concat(Runs(s, keep)) == Only(s, keep)
    decreases |s|
  {
    if s != "" {
      if keep(s[0]) {
        var n := RunLength(s, keep);
        FirstRun(s, keep);
        hide RunLength, Runs;
        RunsKeepCharacters(s[n..], keep);
        OnlySplit(s[..n], s[n..], keep);
        assert s == s[..n] + s[n..];
        ConcatFirst(s[..n], Runs(s[n..], keep));
      } else {
        RunsKeepCharacters(s[1..], keep);
      }
    }
  }

  lemma ConcatFirst(w: string, rest: seq<string>)
    ensures Concat([w] + rest) == w + Concat(rest)
  {
    assert ([w] + rest)[1..] == rest;
  }

  /** A character that is not kept separates the runs before it from those behind it. */
  lemma {:induction false} RunsSplit(a: string, sep: char, b: string, keep: char -> bool)
    requires !keep(sep)
    ensures Runs(a + [sep] + b, keep) == Runs(a, keep) + Runs(b, keep)
    decreases |a|
  {
    hide Runs, RunLength;
    var s := a + [sep] + b;
    if a == "" {
      assert s[0] == sep && s[1..] == b;
      SkippedFirst(s, keep);
      NoRuns(a, keep);
    } else if !keep(a[0]) {
      assert s[0] == a[0] && s[1..] == a[1..] + [sep] + b;
      SkippedFirst(s, keep);
      SkippedFirst(a, keep);
      RunsSplit(a[1..], sep, b, keep);
    } else {
      var n := RunLength(a, keep);
      SameRun(a, [sep] + b, keep);
      assert s == a + ([sep] + b) && s[0] == a[0];
      FirstRun(a, keep);
      FirstRun(s, keep);
      assert s[..n] == a[..n] && s[n..] == a[n..] + [sep] + b;
      RunsSplit(a[n..], sep, b, keep);
    }
  }

  lemma SkippedFirst(s: string, keep: char -> bool)
    requires s != "" && !keep(s[0])
    ensures Runs(s, keep) == Runs(s[1..], keep)
  {
  }

  lemma NoRuns(s: string, keep: char -> bool)
    requires s == ""
    ensures Runs(s, keep) == []
  {
  }

  lemma {:induction false} SameRun(a: string, b: string, keep: char -> bool)
    requires b != "" && !keep(b[0])
    ensures RunLength(a + b, keep) == RunLength(a, keep)
  {
    if a != "" {
      assert (a + b)[0] == a[0] && (a + b)[1..] == a[1..] + b;
      SameRun(a[1..], b, keep);
    }
  }

  // ----- joining -----

  function Join(sep: char, parts: seq<string>): string {
    if parts == [] then ""
    else if |parts| == 1 then parts[0]
    else parts[0] + [sep] + Join(sep, parts[1..])
  }

  /** The runs of a separated list of runs are the list itself. */
  lemma {:induction false} RunsOfJoin(sep: char, parts: seq<string>, keep: char -> bool)
    requires !keep(sep) && forall w <- parts :: IsRun(w, keep)
    ensures Runs(Join(sep, parts), keep) == parts
  {
    if parts != [] {
      var w, rest := parts[0], parts[1..];
      var s := Join(sep, parts);
      assert w in parts;
      assert s[..|w|] == w;
      assert forall i :: 0 <= i < |w| ==> s[i] == w[i] && w[i] in w;
      assert |w| < |s| ==> s[|w|] == sep;
      assert RunLength(s, keep) == |w|;
      if rest == [] {
        assert s[|w|..] == "";
        assert parts == [w];
      } else {
        RunsOfJoin(sep, rest, keep);
        assert s[|w|..] == [sep] + Join(sep, rest);
        assert s[|w|..][1..] == Join(sep, rest);
      }
    }
  }

  /** A separator found in no field makes the join of equally many fields injective. */
  lemma {:induction false} JoinInjective(sep: char, a: seq<string>, b: seq<string>)
    requires |a| == |b| && Join(sep, a) == Join(sep, b)
    requires forall w <- a + b :: sep !in w
    ensures a == b
  {
    if |a| > 1 {
      var s := Join(sep, a);
      assert a[0] in a + b && b[0] in a + b;
      assert s[..|a[0]|] == a[0] && s[..|b[0]|] == b[0];
      assert s[|a[0]|] == sep && s[|b[0]|] == sep;
      assert s[|a[0]| + 1..] == Join(sep, a[1..]) == Join(sep, b[1..]);
      assert forall w <- a[1..] + b[1..] :: w in a + b;
      JoinInjective(sep, a[1..], b[1..]);
      assert a == [a[0]] + a[1..] && b == [b[0]] + b[1..];
    } else if |a| == 1 {
      assert a == [Join(sep, a)] && b == [Join(sep, b)];
    }
  }

  lemma {:induction false} JoinShowsSeparator(sep: char, parts: seq<string>)
    requires |parts| >= 2
    ensures sep in Join(sep, parts)
  {
    assert Join(sep, parts)[|parts[0]|] == sep;
  }

  function Concat(parts: seq<string>): string {
    if parts == [] then "" else parts[0] + Concat(parts[1..])
  }

  lemma {:induction false} ConcatFree(sep: char, parts: seq<string>)
    requires forall w <- parts :: sep !in w
    ensures sep !in Concat(parts)
  {
    if parts != [] {
      assert parts[0] in parts;
      ConcatFree(sep, parts[1..]);
    }
  }

  // ----- decimal rendering -----

  predicate IsDigit(c: char) {
    '0' <= c <= '9'
  }

  function Digit(d: nat): (c: char)
    requires d < 10
    ensures IsDigit(c)
  {
    '0' + d as char
  }

  lemma DigitInjective(a: nat, b: nat)
    requires a < 10 && b < 10 && Digit(a) == Digit(b)
    ensures a == b
  {
  }

  function NatToString(n: nat): (s: string)
    ensures |s| >= 1 && (|s| == 1 <==> n < 10) && forall c <- s :: IsDigit(c)
  {
    if n < 10 then [Digit(n)] else NatToString(n / 10) + [Digit(n % 10)]
  }

  lemma {:induction false} NatToStringInjective(a: nat, b: nat)
    requires NatToString(a) == NatToString(b)
    ensures a == b
  {
    var s := NatToString(a);
    if a < 10 {
      DigitInjective(a, b);
    } else {
      assert Init(s) == NatToString(a / 10) == NatToString(b / 10);
      assert Last(s) == Digit(a % 10) == Digit(b % 10);
      NatToStringInjective(a / 10, b / 10);
      DigitInjective(a % 10, b % 10);
    }
  }

  function IntToString(n: int): (s: string)
    ensures s != "" && (s[0] == '-' <==> n < 0)
    ensures forall c <- s :: IsDigit(c) || c == '-'
  {
    if n < 0 then "-" + NatToString(-n) else assert NatToString(n)[0] in NatToString(n); NatToString(n)
  }

  lemma IntToStringInjective(a: int, b: int)
    requires IntToString(a) == IntToString(b)
    ensures a == b
  {
    if a < 0 && b < 0 {
      assert IntToString(a)[1..] == NatToString(-a) && IntToString(b)[1..] == NatToString(-b);
      NatToStringInjective(-a, -b);
    } else if a >= 0 && b >= 0 {
      NatToStringInjective(a, b);
    }
  }

  /** n in exactly `width` digits. */
  function Pad(n: nat, width: nat): (s: string)
    ensures |s| == width && forall c <- s :: IsDigit(c)
  {
    if width == 0 then "" else Pad(n / 10, width - 1) + [Digit(n % 10)]
  }

  function Pow10(width: nat): nat {
    if width == 0 then 1 else 10 * Pow10(width - 1)
  }

  lemma {:induction false} PadInjective(a: nat, b: nat, width: nat)
    requires a < Pow10(width) && b < Pow10(width) && Pad(a, width) == Pad(b, width)
    ensures a == b
  {
    if width > 0 {
      var s := Pad(a, width);
      assert Init(s) == Pad(a / 10, width - 1) == Pad(b / 10, width - 1);
      assert Last(s) == Digit(a % 10) == Digit(b % 10);
      PadInjective(a / 10, b / 10, width - 1);
      DigitInjective(a % 10, b % 10);
    }
  }

  // ----- order -----

  /** String comparison by code point. */
  predicate LexLess(a: string, b: string) {
    if b == "" then false
    else if a == "" then true
    else a[0] < b[0] || (a[0] == b[0] && LexLess(a[1..], b[1..]))
  }

  /** One string is less where it ends first, or at the first place they differ has the smaller character. */
  lemma {:induction false} LexLessIff(a: string, b: string)
    ensures LexLess(a, b) <==> exists k :: 0 <= k <= |a| && k < |b| && a[..k] == b[..k] && (k == |a| || a[k] < b[k])
  {
    if a == "" || b == "" {
      assert a[..0] == b[..0];
    } else if a[0] != b[0] {
      assert a[..0] == b[..0];
      assert forall k :: 0 < k <= |a| && k < |b| ==> a[..k][0] == a[0] && b[..k][0] == b[0];
    } else {
      var x, y := a[1..], b[1..];
      LexLessIff(x, y);
      assert forall k :: 0 <= k <= |x| && k <= |y| ==> a[..k + 1] == [a[0]] + x[..k] && b[..k + 1] == [b[0]] + y[..k];
      if k :| 0 <= k <= |x| && k < |y| && x[..k] == y[..k] && (k == |x| || x[k] < y[k]) {
        assert a[..k + 1] == b[..k + 1];
      }
      if k :| 0 <= k <= |a| && k < |b| && a[..k] == b[..k] && (k == |a| || a[k] < b[k]) {
        assert k > 0 && x[..k - 1] == a[..k][1..] == b[..k][1..] == y[..k - 1];
      }
    }
  }

  lemma {:induction false} LexLessTransitive(a: string, b: string, c: string)
    ensures !LexLess(a, a)
    ensures LexLess(a, b) && LexLess(b, c) ==> LexLess(a, c)
  {
    if a != "" {
      LexLessTransitive(a[1..], if b == "" then "" else b[1..], if c == "" then "" else c[1..]);
    }
  }

  lemma {:induction false} LexLessTotal(a: string, b: string)
    ensures a == b || LexLess(a, b) || LexLess(b, a)
  {
    if a != "" && b != "" && a[0] == b[0] {
      LexLessTotal(a[1..], b[1..]);
      assert a == [a[0]] + a[1..] && b == [b[0]] + b[1..];
    }
  }
}
