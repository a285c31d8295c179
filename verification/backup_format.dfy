/** The backup's CSV records: how the exporter fills their cells and how the parser reads them back. */
module BackupFormat {
  import opened Sequences
  import opened Text
  import opened Fingerprints

  // Integers, dates and timestamps are kept typed: rendering them into cells is taken to round-trip.

  datatype AccountRecord = AccountRecord(
    name: string, kind: string, issuer: string, last4: string, openingBalance: int, currency: string,
        archivedAt: Option<int>)

  datatype CategoryRecord = CategoryRecord(
    name: string, kind: string, color: string, archivedAt: Option<int>, parentName: string)

  datatype TransactionRecord = TransactionRecord(
    date: Option<Date>, accountName: string, amountPaise: Option<int>, kind: string, merchantRaw: string,
    merchant: string, categoryName: string, categoryKind: string, labels: string, source: string,
    confirmedAt: Option<int>, transferGroup: string)

  datatype AccountKind = CreditCard | Bank | Cash | Investment
  datatype CategoryKind = SpendCategory | IncomeCategory
  datatype TransactionKind = Spend | Income | Transfer
  datatype Source = Import | Manual

  datatype AccountRow = AccountRow(
    name: string, kind: AccountKind, issuer: Option<string>, last4: Option<string>, openingBalance: int,
    currency: string, archivedAt: Option<int>)

  datatype CategoryRow = CategoryRow(
    name: string, kind: CategoryKind, color: Option<string>, archivedAt: Option<int>, parentName: Option<string>)

  datatype TransactionRow = TransactionRow(
    date: Date, accountName: string, amountPaise: int, kind: TransactionKind, merchantRaw: Option<string>,
    merchant: string, categoryName: Option<string>, categoryKind: Option<CategoryKind>, labels: seq<string>,
    source: Source, confirmedAt: Option<int>, transferGroup: Option<string>)

  datatype Reason =
    | MissingName | UnknownType | NotInr | UnknownKind
    | InvalidDate | MissingAccountName | InvalidAmount | UnknownTransactionType | UnknownSource

  datatype Result<+T> = Ok(value: T) | Rejected(reason: Reason)

  // ----- cells -----

  function StripLeft(s: string): string {
    if s != "" && IsSpace(s[0]) then StripLeft(s[1..]) else s
  }

  function StripRight(s: string): string {
    if s != "" && IsSpace(Last(s)) then StripRight(Init(s)) else s
  }

  function Strip(s: string): string {
    StripRight(StripLeft(s))
  }

  /** A missing value is written as an empty cell. */
  function Cell(value: Option<string>): string {
    if value.Some? then value.value else ""
  }

  /** A cell is read stripped, and a blank one is missing. */
  function Get(cell: string): Option<string> {
    if Strip(cell) == "" then None else Some(Strip(cell))
  }

  /** Text that survives a cell: not empty, no whitespace at either end. */
  predicate IsClean(s: string) {
    s != "" && !IsSpace(s[0]) && !IsSpace(Last(s))
  }

  lemma {:induction false} StripShape(s: string)
    ensures Strip(s) == "" || IsClean(Strip(s))
    ensures s == "" || IsClean(s) ==> Strip(s) == s
  {
    StripLeftShape(s);
    StripRightShape(StripLeft(s));
  }

  lemma {:induction false} StripLeftShape(s: string)
    ensures StripLeft(s) == "" || !IsSpace(StripLeft(s)[0])
  {
    if s != "" && IsSpace(s[0]) {
      StripLeftShape(s[1..]);
    }
  }

  lemma {:induction false} StripRightShape(s: string)
    ensures StripRight(s) == "" || (!IsSpace(Last(StripRight(s))) && StripRight(s)[0] == s[0])
  {
    if s != "" && IsSpace(Last(s)) {
      StripRightShape(Init(s));
    }
  }

  /** Exactly clean values, and the missing one, come back from a cell as they went in. */
  lemma CellRoundTrip(value: Option<string>)
    ensures Get(Cell(value)) == value <==> value.None? || IsClean(value.value)
  {
    StripShape(Cell(value));
  }

  // ----- closed vocabularies -----

  predicate IsWord(s: string) {
    s != "" && forall c <- s :: 'a' <= c <= 'z' || c == '_'
  }

  /** `(_get(cell) or "").lower()` */
  function Word(cell: string): string {
    Lower(if Get(cell).Some? then Get(cell).value else "")
  }

  lemma WordOfWord(s: string)
    requires IsWord(s)
    ensures Word(s) == s
  {
    assert s[0] in s && Last(s) in s;
    CellRoundTrip(Some(s));
    assert forall i :: 0 <= i < |s| ==> s[i] in s;
  }

  function AccountKindName(k: AccountKind): (s: string)
    ensures IsWord(s)
  {
    match k
    case CreditCard => "credit_card"
    case Bank => "bank"
    case Cash => "cash"
    case Investment => "investment"
  }

  function ReadAccountKind(s: string): Option<AccountKind> {
    if s == "credit_card" then Some(CreditCard)
    else if s == "bank" then Some(Bank)
    else if s == "cash" then Some(Cash)
    else if s == "investment" then Some(Investment)
    else None
  }

  function CategoryKindName(k: CategoryKind): (s: string)
    ensures IsWord(s)
  {
    match k
    case SpendCategory => "spend"
    case IncomeCategory => "income"
  }

  function ReadCategoryKind(s: string): Option<CategoryKind> {
    if s == "spend" then Some(SpendCategory) else if s == "income" then Some(IncomeCategory) else None
  }

  function TransactionKindName(k: TransactionKind): (s: string)
    ensures IsWord(s)
  {
    match k
    case Spend => "spend"
    case Income => "income"
    case Transfer => "transfer"
  }

  /** "refund" is read as a spend: older backups still carry it. */
  function ReadTransactionKind(s: string): Option<TransactionKind> {
    if s == "spend" || s == "refund" then Some(Spend)
    else if s == "income" then Some(Income)
    else if s == "transfer" then Some(Transfer)
    else None
  }

  function SourceName(k: Source): (s: string)
    ensures IsWord(s)
  {
    match k
    case Import => "import"
    case Manual => "manual"
  }

  function ReadSource(s: string): Option<Source> {
    if s == "import" then Some(Import) else if s == "manual" then Some(Manual) else None
  }

  // ----- labels -----

  const NOT_SEMICOLON: char -> bool := c => c != ';'

  function StripAll(parts: seq<string>): seq<string> {
    if parts == [] then []
    else
      var rest := StripAll(parts[1..]);
      if Strip(parts[0]) == "" then rest else [Strip(parts[0])] + rest
  }

  /** The parts between semicolons, stripped, blanks dropped. */
  function SplitLabels(cell: Option<string>): seq<string> {
    if cell.None? then [] else StripAll(Runs(cell.value, NOT_SEMICOLON))
  }

  function LabelCell(labels: seq<string>): string {
    Join(';', labels)
  }

  predicate IsLabel(s: string) {
    IsClean(s) && ';' !in s
  }

  lemma {:induction false} StripAllClean(parts: seq<string>)
    requires forall s <- parts :: IsClean(s)
    ensures StripAll(parts) == parts
  {
    if parts != [] {
      assert parts[0] in parts;
      StripShape(parts[0]);
      StripAllClean(parts[1..]);
      assert parts == [parts[0]] + parts[1..];
    }
  }

  lemma {:induction false} JoinEnds(sep: char, parts: seq<string>)
    requires parts != [] && forall s <- parts :: IsClean(s)
    ensures IsClean(Join(sep, parts))
  {
    assert parts[0] in parts;
    if |parts| > 1 {
      JoinEnds(sep, parts[1..]);
      assert Last(Join(sep, parts)) == Last(Join(sep, parts[1..]));
      assert Join(sep, parts)[0] == parts[0][0];
    }
  }

  /** A normalised merchant survives a cell: it is empty or starts and ends in a word. */
  lemma NormalMerchantIsClean(merchant: string)
    requires NormalizeMerchant(merchant) == merchant
    ensures merchant == "" || IsClean(merchant)
  {
    var words := Words(Lower(merchant));
    RunsAreRuns(Lower(merchant), NOT_SPACE);
    forall w | w in words
      ensures IsClean(w)
    {
      assert w[0] in w && Last(w) in w;
    }
    if words != [] {
      JoinEnds(' ', words);
    }
  }

  lemma {:induction false} StripKeepsChars(s: string)
    ensures forall c <- Strip(s) :: c in s
  {
    StripLeftKeepsChars(s);
    StripRightKeepsChars(StripLeft(s));
  }

  lemma {:induction false} StripLeftKeepsChars(s: string)
    ensures forall c <- StripLeft(s) :: c in s
  {
    if s != "" && IsSpace(s[0]) {
      StripLeftKeepsChars(s[1..]);
    }
  }

  lemma {:induction false} StripRightKeepsChars(s: string)
    ensures forall c <- StripRight(s) :: c in s
  {
    if s != "" && IsSpace(Last(s)) {
      StripRightKeepsChars(Init(s));
    }
  }

  lemma {:induction false} StripAllGivesLabels(parts: seq<string>)
    requires forall s <- parts :: ';' !in s
    ensures forall s <- StripAll(parts) :: IsLabel(s)
  {
    if parts != [] {
      assert parts[0] in parts;
      StripShape(parts[0]);
      StripKeepsChars(parts[0]);
      StripAllGivesLabels(parts[1..]);
    }
  }

  lemma SplitGivesLabels(cell: Option<string>)
    ensures forall s <- SplitLabels(cell) :: IsLabel(s)
  {
    if cell.Some? {
      RunsAreRuns(cell.value, NOT_SEMICOLON);
      forall w | w in Runs(cell.value, NOT_SEMICOLON)
        ensures ';' !in w
      {
        assert forall c <- w :: NOT_SEMICOLON(c);
      }
      StripAllGivesLabels(Runs(cell.value, NOT_SEMICOLON));
    }
  }

  lemma LabelsJoined(labels: seq<string>)
    requires forall s <- labels :: IsLabel(s)
    ensures SplitLabels(Get(LabelCell(labels))) == labels
  {
    if labels == [] {
      assert LabelCell(labels) == "";
    } else {
      JoinEnds(';', labels);
      CellRoundTrip(Some(LabelCell(labels)));
      forall w | w in labels
        ensures IsRun(w, NOT_SEMICOLON)
      {
        assert forall c <- w :: c != ';';
      }
      RunsOfJoin(';', labels, NOT_SEMICOLON);
      StripAllClean(labels);
    }
  }

  /** Exactly lists of clean, semicolon-free names come back as written. */
  lemma LabelsRoundTrip(labels: seq<string>)
    ensures SplitLabels(Get(LabelCell(labels))) == labels <==> forall s <- labels :: IsLabel(s)
  {
    hide SplitLabels, Get, LabelCell, IsLabel;
    SplitGivesLabels(Get(LabelCell(labels)));
    if forall s <- labels :: IsLabel(s) {
      LabelsJoined(labels);
    }
  }

  // ----- the row parsers -----

  predicate IsLast4(s: string) {
    |s| == 4 && forall c <- s :: IsDigit(c)
  }

  predicate IsHexColor(s: string) {
    |s| == 7 && s[0] == '#' && forall c <- s[1..] :: IsDigit(c) || 'a' <= c <= 'f'
  }

  function Upper(s: string): (r: string)
    ensures |r| == |s| && forall i :: 0 <= i < |s| ==> r[i] == if 'a' <= s[i] <= 'z' then s[i] - 'a' + 'A' else s[i]
  {
    if s == "" then "" else [if 'a' <= s[0] <= 'z' then s[0] - 'a' + 'A' else s[0]] + Upper(s[1..])
  }

  function LowerOption(value: Option<string>): Option<string> {
    if value.Some? then Some(Lower(value.value)) else None
  }

  function ParseAccount(r: AccountRecord): Result<AccountRow> {
    var name, kind, currency := Get(r.name), ReadAccountKind(Word(r.kind)), Get(r.currency);
    if name.None? then Rejected(MissingName)
    else if kind.None? then Rejected(UnknownType)
    else if currency.Some? && Upper(currency.value) != "INR" then Rejected(NotInr)
    else
      var last4 := Get(r.last4);
      Ok(AccountRow(name.value, kind.value, LowerOption(Get(r.issuer)),
                    if last4.Some? && IsLast4(last4.value) then last4 else None, r.openingBalance, "INR", r.archivedAt))
  }

  function ParseCategory(r: CategoryRecord): Result<CategoryRow> {
    var name, kind, color := Get(r.name), ReadCategoryKind(Word(r.kind)), LowerOption(Get(r.color));
    if name.None? then Rejected(MissingName)
    else if kind.None? then Rejected(UnknownKind)
    else
      Ok(CategoryRow(name.value, kind.value, if color.Some? && IsHexColor(color.value) then color else None,
                     r.archivedAt, Get(r.parentName)))
  }

  function ParseTransaction(r: TransactionRecord): Result<TransactionRow> {
    var accountName, kind, source := Get(r.accountName), ReadTransactionKind(Word(r.kind)), ReadSource(Word(r.source));
    if r.date.None? then Rejected(InvalidDate)
    else if accountName.None? then Rejected(MissingAccountName)
    else if r.amountPaise.None? then Rejected(InvalidAmount)
    else if kind.None? then Rejected(UnknownTransactionType)
    else if source.None? then Rejected(UnknownSource)
    else
      Ok(TransactionRow(
           r.date.value, accountName.value, r.amountPaise.value, kind.value, Get(r.merchantRaw),
           Cell(Get(r.merchant)), Get(r.categoryName), ReadCategoryKind(Word(r.categoryKind)),
           SplitLabels(Get(r.labels)), source.value, r.confirmedAt, Get(r.transferGroup)))
  }

  // ----- the printer, row by row, and its inverse -----

  function PrintAccount(a: AccountRow): AccountRecord {
    AccountRecord(a.name, AccountKindName(a.kind), Cell(a.issuer), Cell(a.last4), a.openingBalance, a.currency,
        a.archivedAt)
  }

  function PrintCategory(c: CategoryRow): CategoryRecord {
    CategoryRecord(c.name, CategoryKindName(c.kind), Cell(c.color), c.archivedAt, Cell(c.parentName))
  }

  function PrintTransaction(t: TransactionRow): TransactionRecord {
    TransactionRecord(
      Some(t.date), t.accountName, Some(t.amountPaise), TransactionKindName(t.kind), Cell(t.merchantRaw),
      t.merchant, Cell(t.categoryName), if t.categoryKind.Some? then CategoryKindName(t.categoryKind.value) else "",
      LabelCell(t.labels), SourceName(t.source), t.confirmedAt, Cell(t.transferGroup))
  }

  predicate OptionClean(value: Option<string>) {
    value.None? || IsClean(value.value)
  }

  predicate Printable(t: TransactionRow) {
    && IsClean(t.accountName) && OptionClean(t.merchantRaw) && (t.merchant == "" || IsClean(t.merchant))
    && OptionClean(t.categoryName) && OptionClean(t.transferGroup) && forall s <- t.labels :: IsLabel(s)
  }

  lemma VocabularyRoundTrip(a: AccountKind, c: CategoryKind, t: TransactionKind, s: Source)
    ensures ReadAccountKind(Word(AccountKindName(a))) == Some(a)
    ensures ReadCategoryKind(Word(CategoryKindName(c))) == Some(c)
    ensures ReadTransactionKind(Word(TransactionKindName(t))) == Some(t)
    ensures ReadSource(Word(SourceName(s))) == Some(s)
  {
    hide Word;
    WordOfWord(AccountKindName(a));
    WordOfWord(CategoryKindName(c));
    WordOfWord(TransactionKindName(t));
    WordOfWord(SourceName(s));
  }

  lemma BlankVocabulary()
    ensures ReadCategoryKind(Word("")) == None
  {
    assert Word("") == "";
  }

  lemma MerchantRoundTrip(merchant: string)
    ensures Cell(Get(merchant)) == merchant <==> merchant == "" || IsClean(merchant)
  {
    StripShape(merchant);
  }

  /** What a parser makes of the printed row: every text stripped, blanks missing. */
  function KeptTransaction(t: TransactionRow): TransactionRow {
    t.(accountName := Strip(t.accountName), merchantRaw := Get(Cell(t.merchantRaw)), merchant := Cell(Get(t.merchant)),
       categoryName := Get(Cell(t.categoryName)), labels := SplitLabels(Get(LabelCell(t.labels))),
       transferGroup := Get(Cell(t.transferGroup)))
  }

  /**
   * A printed transaction is rejected if and only if its account's name is blank; otherwise only its texts
   * are stripped, and nothing at all changes exactly when they were printable.
   */
  lemma TransactionRoundTrip(t: TransactionRow)
    ensures ParseTransaction(PrintTransaction(t))
            == if Strip(t.accountName) == "" then Rejected(MissingAccountName) else Ok(KeptTransaction(t))
    ensures ParseTransaction(PrintTransaction(t)) == Ok(t) <==> Printable(t)
  {
    CellRoundTrip(Some(t.accountName));
    hide Strip, Word, SplitLabels, LabelCell, IsClean, IsLabel, ReadCategoryKind, ReadTransactionKind, ReadSource,
         CategoryKindName, TransactionKindName, SourceName;
    CellRoundTrip(t.merchantRaw);
    MerchantRoundTrip(t.merchant);
    CellRoundTrip(t.categoryName);
    CellRoundTrip(t.transferGroup);
    LabelsRoundTrip(t.labels);
    BlankVocabulary();
    VocabularyRoundTrip(Cash, if t.categoryKind.Some? then t.categoryKind.value else SpendCategory, t.kind, t.source);
  }

  lemma ColorCell(color: string)
    requires IsHexColor(color)
    ensures Get(color) == Some(color) && Lower(color) == color
  {
    assert Last(color) in color[1..];
    CellRoundTrip(Some(color));
    forall i | 0 <= i < |color|
      ensures LowerChar(color[i]) == color[i]
    {
      assert i > 0 ==> color[i] in color[1..];
    }
  }

  predicate CategoryRowPrintable(c: CategoryRow) {
    IsClean(c.name) && OptionClean(c.parentName) && (c.color.Some? ==> IsHexColor(c.color.value))
  }

  /** A printed category is unchanged exactly when its names are clean and its colour, if any, is lower-case hex. */
  lemma CategoryRoundTrip(c: CategoryRow)
    ensures ParseCategory(PrintCategory(c)) == Ok(c) <==> CategoryRowPrintable(c)
  {
    CellRoundTrip(Some(c.name));
    hide Strip, Word, IsClean, Lower, ReadCategoryKind, CategoryKindName, IsHexColor;
    CellRoundTrip(c.parentName);
    VocabularyRoundTrip(Cash, c.kind, Spend, Manual);
    CellRoundTrip(None);
    if c.color.Some? && IsHexColor(c.color.value) {
      ColorCell(c.color.value);
    }
  }

  lemma Last4Cell(last4: string)
    requires IsLast4(last4)
    ensures Get(last4) == Some(last4)
  {
    assert last4[0] in last4 && Last(last4) in last4;
    CellRoundTrip(Some(last4));
  }

  lemma InrCell()
    ensures Get("INR") == Some("INR") && Upper("INR") == "INR"
  {
    CellRoundTrip(Some("INR"));
  }

  lemma LowerKeepsEnds(s: string)
    ensures Lower(Lower(s)) == Lower(s) && (IsClean(Lower(s)) <==> IsClean(s))
  {
  }

  /** The issuer survives exactly when it is clean and already lower-case. */
  lemma IssuerCell(issuer: Option<string>)
    ensures LowerOption(Get(Cell(issuer))) == issuer
            <==> OptionClean(issuer) && (issuer.Some? ==> Lower(issuer.value) == issuer.value)
  {
    CellRoundTrip(issuer);
    if issuer.Some? {
      StripShape(issuer.value);
      LowerKeepsEnds(Strip(issuer.value));
    }
    hide Strip, Lower, IsClean;
  }

  predicate AccountRowPrintable(a: AccountRow) {
    && IsClean(a.name) && OptionClean(a.issuer) && (a.issuer.Some? ==> Lower(a.issuer.value) == a.issuer.value)
    && (a.last4.Some? ==> IsLast4(a.last4.value))
  }

  /** What a restore keeps of an account row. */
  function KeptAccount(a: AccountRow): AccountRow {
    var last4 := Get(Cell(a.last4));
    a.(name := Strip(a.name), issuer := LowerOption(Get(Cell(a.issuer))),
       last4 := if last4.Some? && IsLast4(last4.value) then last4 else None)
  }

  /** A printed INR account is rejected if and only if its name is blank, and unchanged exactly when it is printable. */
  lemma AccountRoundTrip(a: AccountRow)
    requires a.currency == "INR"
    ensures ParseAccount(PrintAccount(a)) == if Strip(a.name) == "" then Rejected(MissingName) else Ok(KeptAccount(a))
    ensures ParseAccount(PrintAccount(a)) == Ok(a) <==> AccountRowPrintable(a)
  {
    CellRoundTrip(Some(a.name));
    hide Strip, Word, IsClean, Lower, Upper, ReadAccountKind, AccountKindName, IsLast4;
    IssuerCell(a.issuer);
    CellRoundTrip(None);
    VocabularyRoundTrip(a.kind, SpendCategory, Spend, Manual);
    InrCell();
    if a.last4.Some? && IsLast4(a.last4.value) {
      Last4Cell(a.last4.value);
    }
  }
}
