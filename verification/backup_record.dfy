/** What the parsers make of any record at all, printed by this exporter, by an older one or by hand. */
module BackupRecords {
  import opened Sequences
  import opened Text
  import opened StableSorting
  import opened Fingerprints
  import opened BackupFormat
  import opened BackupExports
  import opened BackupRestores

  // ----- cells -----

  /** Only whitespace is stripped, and all of it at both ends. */
  lemma {:induction false} StripTakesBlanks(s: string) returns (left: string, right: string)
    ensures s == left + Strip(s) + right
    ensures (forall c <- left :: IsSpace(c)) && forall c <- right :: IsSpace(c)
    ensures Strip(s) == "" || IsClean(Strip(s))
  {
    left := StripLeftTakes(s);
    right := StripRightTakes(StripLeft(s));
    StripShape(s);
  }

  lemma {:induction false} StripLeftTakes(s: string) returns (left: string)
    ensures s == left + StripLeft(s) && forall c <- left :: IsSpace(c)
  {
    if s != "" && IsSpace(s[0]) {
      var rest := StripLeftTakes(s[1..]);
      left := [s[0]] + rest;
    } else {
      left := "";
    }
  }

  lemma {:induction false} StripRightTakes(s: string) returns (right: string)
    ensures s == StripRight(s) + right && forall c <- right :: IsSpace(c)
  {
    if s != "" && IsSpace(Last(s)) {
      var rest := StripRightTakes(Init(s));
      right := rest + [Last(s)];
    } else {
      right := "";
    }
  }

  lemma {:induction false} StripAllSplit(a: seq<string>, b: seq<string>)
    ensures StripAll(a + b) == StripAll(a) + StripAll(b)
  {
    if a == [] {
      assert a + b == b;
    } else {
      assert (a + b)[0] == a[0] && (a + b)[1..] == a[1..] + b;
      StripAllSplit(a[1..], b);
    }
  }

  /** Any label cell splits at every semicolon, and a part without one is one stripped name, or none when blank. */
  lemma LabelCellsSplit(a: string, b: string)
    ensures SplitLabels(Some(a + ";" + b)) == SplitLabels(Some(a)) + SplitLabels(Some(b))
    ensures ';' !in a ==> SplitLabels(Some(a)) == if Strip(a) == "" then [] else [Strip(a)]
  {
    hide Strip;
    RunsSplit(a, ';', b, NOT_SEMICOLON);
    StripAllSplit(Runs(a, NOT_SEMICOLON), Runs(b, NOT_SEMICOLON));
    if ';' !in a && a != "" {
      assert forall c <- a :: NOT_SEMICOLON(c);
      assert Join(';', [a]) == a && forall w <- [a] :: IsRun(w, NOT_SEMICOLON);
      RunsOfJoin(';', [a], NOT_SEMICOLON);
      assert [a][1..] == [];
    }
    if a == "" {
      BlankIsBlank();
    }
  }

  lemma BlankIsBlank()
    ensures Strip("") == ""
  {
  }

  // ----- transactions -----

  /** A backup from before refunds became positive spends reads as if it had been written after. */
  lemma RefundIsSpend(r: TransactionRecord)
    requires Lower(Strip(r.kind)) == "refund"
    ensures ParseTransaction(r) == ParseTransaction(r.(kind := "spend"))
    ensures ParseTransaction(r).Ok? ==> ParseTransaction(r).value.kind == Spend
  {
    WordIs(r.kind);
    VocabularyRoundTrip(Cash, SpendCategory, Spend, Manual);
    hide Word, Strip, SplitLabels;
  }

  lemma WordIs(cell: string)
    ensures Word(cell) == Lower(Strip(cell))
  {
  }

  /** What a record asks for. */
  predicate TransactionReadable(r: TransactionRecord) {
    var kind, source := Lower(Strip(r.kind)), Lower(Strip(r.source));
    && r.date.Some? && Strip(r.accountName) != "" && r.amountPaise.Some?
    && (kind == "spend" || kind == "refund" || kind == "income" || kind == "transfer")
    && (source == "import" || source == "manual")
  }

  /** The reason given for a rejection is true of the record. */
  predicate TransactionFails(r: TransactionRecord, reason: Reason) {
    match reason
    case InvalidDate => r.date.None?
    case MissingAccountName => Strip(r.accountName) == ""
    case InvalidAmount => r.amountPaise.None?
    case UnknownTransactionType =>
      var kind := Lower(Strip(r.kind));
      kind != "spend" && kind != "refund" && kind != "income" && kind != "transfer"
    case UnknownSource => var source := Lower(Strip(r.source)); source != "import" && source != "manual"
    case _ => false
  }

  /** Any record is read exactly when it has a date, an account, an amount, a known type and a known source. */
  lemma TransactionReadIff(r: TransactionRecord)
    ensures ParseTransaction(r).Ok? <==> TransactionReadable(r)
    ensures ParseTransaction(r).Rejected? ==> TransactionFails(r, ParseTransaction(r).reason)
    ensures ParseTransaction(r).Ok? ==>
              var row, kind, word := ParseTransaction(r).value, Lower(Strip(r.kind)), Lower(Strip(r.categoryKind));
              && Some(row.date) == r.date && row.accountName == Strip(r.accountName)
              && Some(row.amountPaise) == r.amountPaise
              && (row.kind == Spend <==> kind == "spend" || kind == "refund")
              && (row.kind == Income <==> kind == "income") && (row.kind == Transfer <==> kind == "transfer")
              && (row.source == Import <==> Lower(Strip(r.source)) == "import")
              && row.merchant == Strip(r.merchant) && row.confirmedAt == r.confirmedAt
              && (row.categoryKind == Some(SpendCategory) <==> word == "spend")
              && (row.categoryKind == Some(IncomeCategory) <==> word == "income")
    ensures ParseTransaction(r).Ok? ==>
              var row := ParseTransaction(r).value;
              && (row.merchantRaw == if Strip(r.merchantRaw) == "" then None else Some(Strip(r.merchantRaw)))
              && (row.categoryName == if Strip(r.categoryName) == "" then None else Some(Strip(r.categoryName)))
              && (row.transferGroup == if Strip(r.transferGroup) == "" then None else Some(Strip(r.transferGroup)))
              && row.labels == SplitLabels(if Strip(r.labels) == "" then None else Some(Strip(r.labels)))
  {
    WordIs(r.kind);
    WordIs(r.source);
    WordIs(r.categoryKind);
    hide Word, Strip, SplitLabels;
  }

  // ----- accounts and categories -----

  predicate IsAccountWord(s: string) {
    s == "credit_card" || s == "bank" || s == "cash" || s == "investment"
  }

  /** An account row is read exactly when it has a name, a known type and no currency but INR. */
  lemma AccountReadIff(r: AccountRecord)
    ensures var word, currency := Lower(Strip(r.kind)), Upper(Strip(r.currency));
            ParseAccount(r).Ok? <==> Strip(r.name) != "" && IsAccountWord(word)
                                     && (Strip(r.currency) == "" || currency == "INR")
    ensures ParseAccount(r).Ok? ==>
              var row, word, issuer, last4 := ParseAccount(r).value, Lower(Strip(r.kind)), Strip(r.issuer),
                                              Strip(r.last4);
              && row.name == Strip(r.name) && row.currency == "INR"
              && (row.kind == CreditCard <==> word == "credit_card") && (row.kind == Bank <==> word == "bank")
              && (row.kind == Cash <==> word == "cash") && (row.kind == Investment <==> word == "investment")
              && row.openingBalance == r.openingBalance && row.archivedAt == r.archivedAt
              && (row.issuer == if issuer == "" then None else Some(Lower(issuer)))
              && (row.last4 == if |last4| == 4 && forall c <- last4 :: '0' <= c <= '9' then Some(last4) else None)
  {
    WordIs(r.kind);
    hide Word, Strip, Upper, Lower;
  }

  /** A category row is read exactly when it has a name and a known kind; a colour that is no hex code is dropped. */
  lemma CategoryReadIff(r: CategoryRecord)
    ensures ParseCategory(r).Ok?
            <==> Strip(r.name) != "" && (Lower(Strip(r.kind)) == "spend" || Lower(Strip(r.kind)) == "income")
    ensures ParseCategory(r).Ok? ==>
              var row, color, parent := ParseCategory(r).value, Lower(Strip(r.color)), Strip(r.parentName);
              && row.name == Strip(r.name) && (row.kind == SpendCategory <==> Lower(Strip(r.kind)) == "spend")
              && row.archivedAt == r.archivedAt && (row.parentName == if parent == "" then None else Some(parent))
              && (row.color == if IsHexColor(color) then Some(color) else None)
  {
    WordIs(r.kind);
    hide Word, Strip, IsHexColor;
    assert Strip(r.color) == "" ==> !IsHexColor(Lower(Strip(r.color))) by {
      NoColor(Lower(Strip(r.color)));
    }
  }

  lemma NoColor(s: string)
    ensures s == "" ==> !IsHexColor(s)
  {
  }

  // ----- whole backups -----

  function WithoutRefund(r: TransactionRecord): TransactionRecord {
    if Lower(Strip(r.kind)) == "refund" then r.(kind := "spend") else r
  }

  lemma {:induction false} AcceptedAlike<R, T>(a: seq<R>, b: seq<R>, parse: R -> Result<T>)
    requires |a| == |b| && forall i :: 0 <= i < |a| ==> parse(a[i]) == parse(b[i])
    ensures Accepted(a, parse) == Accepted(b, parse)
  {
    if a != [] {
      AcceptedAlike(Init(a), Init(b), parse);
    }
  }

  /** A backup that still says "refund" restores, over any tenant, as the same backup saying "spend". */
  lemma RefundsRestoreAsSpends(tenant: Tenant, ids: NextIds, backup: Backup)
    ensures var rewritten := backup.(transactions := Mapped(backup.transactions, WithoutRefund));
            Restore(tenant, ids, backup) == Restore(tenant, ids, rewritten)
  {
    hide ParseTransaction, Persisted, Strip, Lower, Accepted;
    var records := backup.transactions;
    var rewritten := Mapped(records, WithoutRefund);
    forall i | 0 <= i < |records|
      ensures ParseTransaction(records[i]) == ParseTransaction(rewritten[i])
    {
      if Lower(Strip(records[i].kind)) == "refund" {
        RefundIsSpend(records[i]);
      }
    }
    AcceptedAlike(records, rewritten, ParseTransaction);
  }
}
