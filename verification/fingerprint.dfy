/** The normalised merchant and the dedup payloads built from it. */
module Fingerprints {
  import opened Text

  // ----- merchant normalisation -----

  // Python's str.isspace, which is what str.split() cuts at. The unit separator is among them.
  predicate IsSpace(c: char) {
    || '\t' <= c <= '\r' || '\U{1c}' <= c <= ' '
    || c == '\U{85}' || c == '\U{a0}' || c == '\U{1680}' || '\U{2000}' <= c <= '\U{200a}'
    || c == '\U{2028}' || c == '\U{2029}' || c == '\U{202f}' || c == '\U{205f}' || c == '\U{3000}'
  }

  /** The 29 code points Python counts as whitespace. */
  lemma WhitespaceIs(c: char)
    ensures IsSpace(c) <==>
              c as int in {9, 10, 11, 12, 13, 28, 29, 30, 31, 32, 133, 160, 5760, 8192, 8193, 8194, 8195, 8196, 8197,
                           8198, 8199, 8200, 8201, 8202, 8232, 8233, 8239, 8287, 12288}
  {
  }

  function LowerChar(c: char): char {
    if 'A' <= c <= 'Z' then c - 'A' + 'a' else c
  }

  function Lower(s: string): (r: string)
    ensures |r| == |s| && forall i :: 0 <= i < |s| ==> r[i] == LowerChar(s[i])
  {
    if s == "" then "" else [LowerChar(s[0])] + Lower(s[1..])
  }

  const NOT_SPACE: char -> bool := c => !IsSpace(c)

  function Words(s: string): seq<string> {
    Runs(s, NOT_SPACE)
  }

  function NormalizeMerchant(raw: string): string {
    Join(' ', Words(Lower(raw)))
  }

  lemma {:induction false} RunCharsFromSource(s: string, keep: char -> bool)
    ensures forall w <- Runs(s, keep), c <- w :: c in s
    decreases |s|
  {
    if s != "" {
      RunCharsFromSource(s[if keep(s[0]) then RunLength(s, keep) else 1..], keep);
    }
  }

  lemma {:induction false} JoinChars(sep: char, parts: seq<string>)
    ensures forall c <- Join(sep, parts) :: c == sep || exists w <- parts :: c in w
  {
    if |parts| > 1 {
      JoinChars(sep, parts[1..]);
      assert forall w <- parts[1..] :: w in parts;
    }
  }

  lemma NormalizedChars(raw: string)
    ensures forall c <- NormalizeMerchant(raw) :: LowerChar(c) == c && (IsSpace(c) ==> c == ' ')
  {
    RunsAreRuns(Lower(raw), NOT_SPACE);
    RunCharsFromSource(Lower(raw), NOT_SPACE);
    JoinChars(' ', Words(Lower(raw)));
  }

  /** Normalising is a projection, so a stored merchant re-normalises to itself. */
  lemma NormalizeIdempotent(raw: string)
    ensures NormalizeMerchant(NormalizeMerchant(raw)) == NormalizeMerchant(raw)
  {
    var m := NormalizeMerchant(raw);
    NormalizedChars(raw);
    assert Lower(m) == m;
    RunsAreRuns(Lower(raw), NOT_SPACE);
    RunsOfJoin(' ', Words(Lower(raw)), NOT_SPACE);
  }

  /** Normalising neither loses, adds nor splits a word. */
  lemma NormalizedWords(raw: string)
    ensures Words(NormalizeMerchant(raw)) == Words(Lower(raw))
  {
    RunsAreRuns(Lower(raw), NOT_SPACE);
    RunsOfJoin(' ', Words(Lower(raw)), NOT_SPACE);
  }

  lemma {:induction false} JoinKeepsCharacters(sep: char, parts: seq<string>, keep: char -> bool)
    requires !keep(sep)
    ensures Only(Join(sep, parts), keep) == Only(Concat(parts), keep)
  {
    if |parts| > 1 {
      JoinKeepsCharacters(sep, parts[1..], keep);
      OnlySplit(parts[0] + [sep], Join(sep, parts[1..]), keep);
      OnlySplit(parts[0], [sep], keep);
      assert [sep][1..] == "" && Only([sep], keep) == "";
      assert Only(parts[0], keep) + "" == Only(parts[0], keep);
      OnlySplit(parts[0], Concat(parts[1..]), keep);
    } else if |parts| == 1 {
      assert parts[1..] == [] && Concat(parts) == parts[0] + "" == parts[0];
    }
  }

  /** The characters that are not whitespace stay, in order, in lower case. */
  lemma NormalizedKeepsCharacters(raw: string)
    ensures Only(NormalizeMerchant(raw), NOT_SPACE) == Only(Lower(raw), NOT_SPACE)
  {
    var words := Words(Lower(raw));
    JoinKeepsCharacters(' ', words, NOT_SPACE);
    RunsKeepCharacters(Lower(raw), NOT_SPACE);
    OnlyOnly(Lower(raw), NOT_SPACE);
  }

  lemma {:induction false} OnlyOnly(s: string, keep: char -> bool)
    ensures Only(Only(s, keep), keep) == Only(s, keep)
  {
    if s != "" {
      OnlyOnly(s[1..], keep);
      OnlySplit(if keep(s[0]) then [s[0]] else "", Only(s[1..], keep), keep);
    }
  }

  /** Two printed merchants are one merchant exactly when their lower-cased words agree. */
  lemma SameMerchantIff(a: string, b: string)
    ensures NormalizeMerchant(a) == NormalizeMerchant(b) <==> Words(Lower(a)) == Words(Lower(b))
  {
    NormalizedWords(a);
    NormalizedWords(b);
  }

  // ----- the dedup payload -----

  const SEP: char := '\U{1f}'

  lemma NormalizedMerchantHasNoSeparator(raw: string)
    ensures SEP !in NormalizeMerchant(raw)
  {
    NormalizedChars(raw);
  }

  datatype DateParts = DateParts(year: nat, month: nat, day: nat)
  type Date = d: DateParts | d.year < 10000 && d.month < 100 && d.day < 100 witness DateParts(1, 1, 1)

  function IsoDate(d: Date): string {
    Pad(d.year, 4) + "-" + Pad(d.month, 2) + "-" + Pad(d.day, 2)
  }

  lemma IsoDateInjective(a: Date, b: Date)
    requires IsoDate(a) == IsoDate(b)
    ensures a == b
  {
    var s := IsoDate(a);
    assert s[0..4] == Pad(a.year, 4) == Pad(b.year, 4);
    assert s[5..7] == Pad(a.month, 2) == Pad(b.month, 2);
    assert s[8..10] == Pad(a.day, 2) == Pad(b.day, 2);
    assert Pow10(2) == 100 && Pow10(4) == 10000;
    PadInjective(a.year, b.year, 4);
    PadInjective(a.month, b.month, 2);
    PadInjective(a.day, b.day, 2);
  }

  datatype Identity = Identity(date: Date, amountPaise: int, merchant: string, account: int)

  function Fields(id: Identity): seq<string> {
    [IsoDate(id.date), IntToString(id.amountPaise), id.merchant, IntToString(id.account)]
  }

  /** The payload that is hashed; the hash itself is taken to be injective and left out. */
  function TransactionFingerprint(id: Identity): string {
    Join(SEP, Fields(id))
  }

  lemma FieldsInjective(a: Identity, b: Identity)
    requires Fields(a) == Fields(b)
    ensures a == b
  {
    var f, g := Fields(a), Fields(b);
    assert f[0] == g[0] && f[1] == g[1] && f[2] == g[2] && f[3] == g[3];
    IsoDateInjective(a.date, b.date);
    IntToStringInjective(a.amountPaise, b.amountPaise);
    IntToStringInjective(a.account, b.account);
  }

  lemma FieldsFree(id: Identity)
    requires SEP !in id.merchant
    ensures forall w <- Fields(id) :: SEP !in w
  {
  }

  /** Two transactions share a fingerprint only when all four identity fields agree. */
  lemma FingerprintInjective(a: Identity, b: Identity)
    requires SEP !in a.merchant && SEP !in b.merchant
    requires TransactionFingerprint(a) == TransactionFingerprint(b)
    ensures a == b
  {
    FieldsFree(a);
    FieldsFree(b);
    JoinInjective(SEP, Fields(a), Fields(b));
    FieldsInjective(a, b);
  }

  /** Without a separator the payload is not injective: "amazon1" + 2 is "amazon" + 12. */
  lemma BareConcatenationCollides(date: Date, amountPaise: int)
    ensures exists a: Identity, b: Identity ::
              && a != b && a.date == b.date == date && a.amountPaise == b.amountPaise == amountPaise
              && SEP !in a.merchant + b.merchant
              && Concat(Fields(a)) == Concat(Fields(b))
  {
    var a, b := Identity(date, amountPaise, "amazon1", 2), Identity(date, amountPaise, "amazon", 12);
    assert IntToString(2) == "2" && IntToString(12) == "12" by {
      assert NatToString(12) == NatToString(1) + [Digit(2)];
    }
    var head := IsoDate(date) + IntToString(amountPaise);
    assert Concat(Fields(a)) == head + "amazon12" by { ConcatFour(Fields(a)); }
    assert Concat(Fields(b)) == head + "amazon12" by { ConcatFour(Fields(b)); }
    assert a != b;
  }

  lemma ConcatFour(f: seq<string>)
    requires |f| == 4
    ensures Concat(f) == f[0] + f[1] + f[2] + f[3]
  {
    assert f[1..][1..] == f[2..] && f[2..][1..] == f[3..] && f[3..][1..] == [];
    assert Concat(f[3..]) == f[3] + Concat(f[3..][1..]) == f[3];
    assert Concat(f[2..]) == f[2] + Concat(f[3..]);
    assert Concat(f[1..]) == f[1] + Concat(f[2..]);
  }

  // ----- the investment payload -----

  datatype InvestmentIdentity =
    InvestmentIdentity(instrument: int, date: Date, kind: string, amountPaise: nat, unitsScaled: nat)

  function InvestmentFields(id: InvestmentIdentity): seq<string> {
    [IntToString(id.instrument), IsoDate(id.date), id.kind, IntToString(id.amountPaise), IntToString(id.unitsScaled)]
  }

  function InvestmentFingerprint(id: InvestmentIdentity): string {
    Join(SEP, InvestmentFields(id))
  }

  lemma InvestmentFingerprintInjective(a: InvestmentIdentity, b: InvestmentIdentity)
    requires SEP !in a.kind && SEP !in b.kind
    requires InvestmentFingerprint(a) == InvestmentFingerprint(b)
    ensures a == b
  {
    var f, g := InvestmentFields(a), InvestmentFields(b);
    JoinInjective(SEP, f, g);
    assert f[0] == g[0] && f[1] == g[1] && f[2] == g[2] && f[3] == g[3] && f[4] == g[4];
    IsoDateInjective(a.date, b.date);
    IntToStringInjective(a.instrument, b.instrument);
    IntToStringInjective(a.amountPaise, b.amountPaise);
    IntToStringInjective(a.unitsScaled, b.unitsScaled);
  }
}
