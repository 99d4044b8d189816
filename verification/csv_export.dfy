/**
 * Transaction export (`TransactionExportView`): one CSV record or one JSON
 * object per transaction of the filtered queryset, and how an exported
 * record reads back through the importer when the import form keeps its
 * initial column names.
 *
 * Records are sequences of fields; the `csv` module's quoting, which writes
 * and reads any field unchanged, is not part of this model.
 */
module CsvExport {
  import opened Wrappers
  import opened Text
  import opened Decimals
  import opened Dates
  import opened Ledger
  import opened CsvImport

  const DateColumn: string := "date"
  const AccountColumn: string := "account"
  const CategoryColumn: string := "category"
  const AmountColumn: string := "amount"
  const CurrencyColumn: string := "currency"
  const DescriptionColumn: string := "description"
  const NotesColumn: string := "notes"
  const TagsColumn: string := "tags"

  /** The header record of an export. */
  const ExportHeader: seq<string> :=
    [DateColumn, AccountColumn, CategoryColumn, AmountColumn, CurrencyColumn, DescriptionColumn, NotesColumn, TagsColumn]

  /** The import form's initial column names, the same names the export writes. */
  const DefaultColumns: Columns :=
    Columns(DateColumn, AmountColumn, DescriptionColumn, AccountColumn, CategoryColumn, CurrencyColumn, TagsColumn, NotesColumn)

  /** What holds of every stored transaction the export reads: its account
      and category rows exist, its date is a real date, and its amount is not
      negative (saving refuses anything below 0.01). */
  predicate Exportable(l: Ledger, t: Transaction) {
    && t.account in l.accounts
    && (t.category.Some? ==> t.category.value in l.categories)
    && Valid(t.date)
    && t.amount >= 0
  }

  /** The category column of a record: the name, or empty when there is none. */
  function CategoryText(l: Ledger, c: Option<CategoryId>): (s: string)
    requires c.Some? ==> c.value in l.categories
    ensures c.None? ==> s == []
    ensures c.Some? ==> s == l.categories[c.value].name
  {
    match c
    case None => []
    case Some(k) => l.categories[k].name
  }

  /** One CSV record, in header order. */
  function ExportRow(l: Ledger, t: Transaction): (row: seq<string>)
    requires Exportable(l, t)
    ensures |row| == |ExportHeader|
  {
    [IsoFormat(t.date), l.accounts[t.account].name, CategoryText(l, t.category), FormatCents(t.amount),
     t.currency, t.description, t.notes, t.tags]
  }

  /** The CSV body: the header, then one record per transaction of the
      queryset, in queryset order. */
  function ExportCsv(l: Ledger, qs: seq<TxnId>): (rows: seq<seq<string>>)
    requires forall i :: 0 <= i < |qs| ==> qs[i] in l.txns && Exportable(l, l.txns[qs[i]])
    ensures |rows| == |qs| + 1 && rows[0] == ExportHeader
    ensures forall i :: 0 <= i < |qs| ==> rows[i + 1] == ExportRow(l, l.txns[qs[i]])
  {
    [ExportHeader] + seq(|qs|, i requires 0 <= i < |qs| => ExportRow(l, l.txns[qs[i]]))
  }

  /** One object of the JSON export; `float(txn.amount)` is taken exactly. */
  datatype JsonRow = JsonRow(
    date: string, account: string, category: Option<string>, amount: real,
    currency: string, description: string, notes: string, tags: string)

  function ExportJson(l: Ledger, t: Transaction): (j: JsonRow)
    requires Exportable(l, t)
  {
    JsonRow(IsoFormat(t.date), l.accounts[t.account].name,
      match t.category case None => None case Some(k) => Some(l.categories[k].name),
      t.amount as real / 100.0, t.currency, t.description, t.notes, t.tags)
  }

  /** The two formats carry the same facts: equal text fields, the missing
      category as `null` against an empty field, and the same amount. */
  lemma JsonAgreesWithCsv(l: Ledger, t: Transaction)
    requires Exportable(l, t)
    ensures var j := ExportJson(l, t); var row := ExportRow(l, t);
      && j.date == row[0] && j.account == row[1]
      && (j.category.None? <==> t.category.None?)
      && (j.category.Some? ==> j.category.value == row[2])
      && (j.category.None? ==> row[2] == [])
      && j.currency == row[4] && j.description == row[5] && j.notes == row[6] && j.tags == row[7]
    ensures ParseDecimal(ExportRow(l, t)[3]) == Some(Dec(t.amount, 2))
    ensures ExportJson(l, t).amount * 100.0 == t.amount as real
  {
    TextFields(l, t);
    AmountFields(l, t);
  }

  lemma TextFields(l: Ledger, t: Transaction)
    requires Exportable(l, t)
    ensures var j := ExportJson(l, t); var row := ExportRow(l, t);
      && j.date == row[0] && j.account == row[1]
      && (j.category.None? <==> t.category.None?)
      && (j.category.Some? ==> j.category.value == row[2])
      && (j.category.None? ==> row[2] == [])
      && j.currency == row[4] && j.description == row[5] && j.notes == row[6] && j.tags == row[7]
  {
  }

  lemma AmountFields(l: Ledger, t: Transaction)
    requires Exportable(l, t)
    ensures ParseDecimal(ExportRow(l, t)[3]) == Some(Dec(t.amount, 2))
    ensures ExportJson(l, t).amount * 100.0 == t.amount as real
  {
    assert ExportRow(l, t)[3] == FormatCents(t.amount);
    FormatCentsRoundTrip(t.amount);
    assert ExportJson(l, t).amount == t.amount as real / 100.0;
  }

  // ---------------------------------------------------------------------
  // Reading an export back
  // ---------------------------------------------------------------------

  /** `a` is in the lookup order, and no other account there has the same
      name ignoring case (the importer keys its lookup by the lower-cased name). */
  predicate OnlyAccountNamed(l: Ledger, order: seq<AccountId>, a: AccountId)
    requires a in l.accounts
  {
    && (exists i :: 0 <= i < |order| && order[i] == a)
    && forall i :: 0 <= i < |order| && order[i] in l.accounts && EqualsIgnoreCase(l.accounts[order[i]].name, l.accounts[a].name) ==>
         order[i] == a
  }

  predicate OnlyCategoryNamed(l: Ledger, order: seq<CategoryId>, c: CategoryId)
    requires c in l.categories
  {
    && (exists i :: 0 <= i < |order| && order[i] == c)
    && forall i :: 0 <= i < |order| && order[i] in l.categories && EqualsIgnoreCase(l.categories[order[i]].name, l.categories[c].name) ==>
         order[i] == c
  }

  lemma AccountResolvesBack(l: Ledger, cfg: ImportConfig, a: AccountId)
    requires ConfigValid(l, cfg) && a in l.accounts
    requires OnlyAccountNamed(l, cfg.accountOrder, a)
    requires l.accounts[a].name != []
    ensures ResolveAccount(l, cfg, l.accounts[a].name) == Ok(a)
  {
    var name := l.accounts[a].name;
    var k :| 0 <= k < |cfg.accountOrder| && cfg.accountOrder[k] == a;
    assert EqualsIgnoreCase(l.accounts[cfg.accountOrder[k]].name, name);
    var found := AccountNamed(l, cfg.accountOrder, name);
    assert found.Some?;
  }

  lemma CategoryResolvesBack(l: Ledger, cfg: ImportConfig, c: CategoryId)
    requires ConfigValid(l, cfg) && c in l.categories
    requires OnlyCategoryNamed(l, cfg.categoryOrder, c)
    requires l.categories[c].name != []
    ensures l.categories[c].kind == Expense ==> ResolveCategory(l, cfg, l.categories[c].name) == Ok(Some(c))
    ensures l.categories[c].kind == Income ==> ResolveCategory(l, cfg, l.categories[c].name) == Err(NotAnExpense(l.categories[c].name))
  {
    var name := l.categories[c].name;
    var k :| 0 <= k < |cfg.categoryOrder| && cfg.categoryOrder[k] == c;
    assert EqualsIgnoreCase(l.categories[cfg.categoryOrder[k]].name, name);
    var found := CategoryNamed(l, cfg.categoryOrder, name);
    assert found.Some?;
  }

  /** A column whose name does not recur later in the header reads its own field. */
  lemma FieldAt(header: seq<string>, values: seq<string>, i: nat)
    requires i < |header| && i < |values|
    requires header[i] !in header[i + 1..]
    ensures Field(header, values, header[i]) == Some(values[i])
  {
    forall j | i < j < |header| ensures header[j] != header[i] {
      assert header[j] == header[i + 1..][j - i - 1];
    }
  }

  /** No name of the export header recurs later in it. */
  lemma HeaderNamesDistinct(k: nat)
    requires k < |ExportHeader|
    ensures ExportHeader[k] !in ExportHeader[k + 1..]
  {
    var h := ExportHeader;
    assert |DateColumn| == 4 && |AccountColumn| == 7 && |CategoryColumn| == 8 && |AmountColumn| == 6;
    assert |CurrencyColumn| == 8 && |DescriptionColumn| == 11 && |NotesColumn| == 5 && |TagsColumn| == 4;
    assert DateColumn[0] != TagsColumn[0] && CategoryColumn[1] != CurrencyColumn[1];
    if k == 0 {
      assert h[1..] == [AccountColumn, CategoryColumn, AmountColumn, CurrencyColumn, DescriptionColumn, NotesColumn, TagsColumn];
    } else if k == 1 {
      assert h[2..] == [CategoryColumn, AmountColumn, CurrencyColumn, DescriptionColumn, NotesColumn, TagsColumn];
    } else if k == 2 {
      assert h[3..] == [AmountColumn, CurrencyColumn, DescriptionColumn, NotesColumn, TagsColumn];
    } else if k == 3 {
      assert h[4..] == [CurrencyColumn, DescriptionColumn, NotesColumn, TagsColumn];
    } else if k == 4 {
      assert h[5..] == [DescriptionColumn, NotesColumn, TagsColumn];
    } else if k == 5 {
      assert h[6..] == [NotesColumn, TagsColumn];
    } else if k == 6 {
      assert h[7..] == [TagsColumn];
    } else {
      assert h[8..] == [];
    }
  }

  /** The fields of a record under the export header, read by column name. */
  lemma ExportedCell(row: seq<string>, k: nat)
    requires |row| == |ExportHeader| && k < |ExportHeader|
    ensures Field(ExportHeader, row, ExportHeader[k]) == Some(row[k])
    ensures Cell(ExportHeader, row, ExportHeader[k], true) == Ok(row[k])
  {
    HeaderNamesDistinct(k);
    FieldAt(ExportHeader, row, k);
  }

  /** The amount field of an export reads back as the amount. */
  lemma ReadFormattedAmount(c: nat)
    ensures ReadAmount(FormatCents(c)) == Ok(Dec(c, 2))
  {
    FormatCentsReads(c);
  }

  /** An ISO date has no surrounding space. */
  lemma IsoFormatStripped(d: Date)
    requires Valid(d)
    ensures Strip(IsoFormat(d)) == IsoFormat(d) != []
  {
    IsoFormatEdges(d);
    DigitEdges(IsoFormat(d));
  }

  /** Any amount the ledger accepts passes the importer's amount validation
      and is stored unchanged. */
  lemma LedgerCentsBack(a: int)
    requires 1 <= a < AmountBound
    ensures MoneyErrors(Dec(a, 2)) == [] && ToCents(Dec(a, 2)) == a
  {
    assert Pow10(12) == AmountBound;
    CentsBack(a);
  }

  /** A currency already in upper case and stripped is kept as it is. */
  lemma CurrencyBack(c: string, account: string, preferred: Option<string>)
    requires c != [] && IsStripped(c) && Upper(c) == c
    ensures ChooseCurrency(c, account, preferred) == c
  {
    StripOfStripped(c);
  }

  /** What a transaction needs for its exported record to read back as itself:
      names the lookups find unambiguously, text fields already in the form the
      importer leaves them, an amount the model accepts, and no recurrence
      (the importer creates one-off transactions). */
  predicate RoundTrips(l: Ledger, cfg: ImportConfig, t: Transaction)
    requires Exportable(l, t)
  {
    && t.user == cfg.user
    && cfg.parseDate(IsoFormat(t.date)) == Some(t.date)
    && 1 <= t.amount < AmountBound
    && l.accounts[t.account].name != [] && IsStripped(l.accounts[t.account].name)
    && OnlyAccountNamed(l, cfg.accountOrder, t.account)
    && (t.category.Some? ==>
          && l.categories[t.category.value].name != [] && IsStripped(l.categories[t.category.value].name)
          && OnlyCategoryNamed(l, cfg.categoryOrder, t.category.value)
          && l.categories[t.category.value].kind == Expense)
    && t.currency != [] && IsStripped(t.currency) && Upper(t.currency) == t.currency
    && IsStripped(t.description) && IsStripped(t.notes) && NormalizeTags(t.tags) == t.tags
    && !t.recurring && t.interval == NoRepeat && t.recurrenceEnd.None?
  }

  /** The fields of an exported record, one by one. */
  lemma ExportRowFields(l: Ledger, t: Transaction)
    requires Exportable(l, t)
    ensures var row := ExportRow(l, t);
      && row[0] == IsoFormat(t.date) && row[1] == l.accounts[t.account].name
      && row[2] == CategoryText(l, t.category) && row[3] == FormatCents(t.amount)
      && row[4] == t.currency && row[5] == t.description && row[6] == t.notes && row[7] == t.tags
  {
  }

  /** Every optional column of a record under the export header reads its
      own field. */
  lemma ExportedCells(row: seq<string>)
    requires |row| == |ExportHeader|
    ensures Cell(ExportHeader, row, AccountColumn, true) == Ok(row[1])
    ensures Cell(ExportHeader, row, CategoryColumn, true) == Ok(row[2])
    ensures Cell(ExportHeader, row, CurrencyColumn, true) == Ok(row[4])
    ensures Cell(ExportHeader, row, DescriptionColumn, true) == Ok(row[5])
    ensures Cell(ExportHeader, row, NotesColumn, true) == Ok(row[6])
    ensures Cell(ExportHeader, row, TagsColumn, true) == Ok(row[7])
  {
    ExportedCell(row, 1);
    ExportedCell(row, 2);
    ExportedCell(row, 4);
    ExportedCell(row, 5);
    ExportedCell(row, 6);
    ExportedCell(row, 7);
  }

  /** A record under the export header whose date and amount fields are an
      ISO date and a formatted amount gets past both, and is then whatever
      its other columns describe. */
  lemma ExportedDateAndAmount(l: Ledger, cfg: ImportConfig, row: seq<string>, d: Date, c: nat)
    requires ConfigValid(l, cfg) && cfg.columns == DefaultColumns
    requires |row| == |ExportHeader| && Valid(d) && row[0] == IsoFormat(d) && row[3] == FormatCents(c)
    requires cfg.parseDate(IsoFormat(d)) == Some(d)
    ensures ParseRow(l, cfg, ExportHeader, row) == Describe(l, cfg, ExportHeader, row, d, Dec(c, 2))
  {
    assert cfg.columns.date == ExportHeader[0] && cfg.columns.amount == ExportHeader[3];
    ExportedCell(row, 0);
    ExportedCell(row, 3);
    IsoFormatStripped(d);
    ReadDateOf(cfg, ExportHeader, row, row[0], d);
    ReadFormattedAmount(c);
    assert Field(ExportHeader, row, cfg.columns.amount) == Some(row[3]);
    assert ReadAmount(row[3]) == Ok(Dec(c, 2));
    ParseRowOf(l, cfg, ExportHeader, row, row[3], d, Dec(c, 2));
  }

  /** How each column of an exported record reads under the initial column
      names: the date and the amount as stored, every other column as its
      field, and the record as whatever those fields describe. */
  lemma ExportedRecordReads(l: Ledger, cfg: ImportConfig, t: Transaction)
    requires ConfigValid(l, cfg) && cfg.columns == DefaultColumns
    requires Exportable(l, t) && cfg.parseDate(IsoFormat(t.date)) == Some(t.date)
    ensures var row := ExportRow(l, t);
      && ParseRow(l, cfg, ExportHeader, row) == Describe(l, cfg, ExportHeader, row, t.date, Dec(t.amount, 2))
      && Cell(ExportHeader, row, cfg.columns.account, true) == Ok(row[1])
      && Cell(ExportHeader, row, cfg.columns.category, true) == Ok(row[2])
      && Cell(ExportHeader, row, cfg.columns.currency, true) == Ok(row[4])
      && Cell(ExportHeader, row, cfg.columns.description, true) == Ok(row[5])
      && Cell(ExportHeader, row, cfg.columns.notes, true) == Ok(row[6])
      && Cell(ExportHeader, row, cfg.columns.tags, true) == Ok(row[7])
  {
    var row := ExportRow(l, t);
    ExportedCells(row);
    ExportedDateAndAmount(l, cfg, row, t.date, t.amount);
  }

  /** Importing an exported record with the initial column names gives the
      transaction back, except that an uncategorised one takes the import's
      default category. */
  lemma ExportImportRoundTrip(l: Ledger, cfg: ImportConfig, t: Transaction)
    requires ConfigValid(l, cfg) && cfg.columns == DefaultColumns
    requires Exportable(l, t) && RoundTrips(l, cfg, t)
    ensures ParseRow(l, cfg, ExportHeader, ExportRow(l, t))
      == Ok(t.(category := if t.category.Some? then t.category else cfg.defaultCategory))
  {
    var row := ExportRow(l, t);
    var category := if t.category.Some? then t.category else cfg.defaultCategory;
    ExportRowFields(l, t);
    ExportedRecordReads(l, cfg, t);
    LedgerCentsBack(t.amount);
    CurrencyBack(t.currency, l.accounts[t.account].currency, cfg.preferredCurrency);
    StripOfStripped(row[1]);
    StripOfStripped(row[5]);
    StripOfStripped(row[6]);
    AccountResolvesBack(l, cfg, t.account);
    if t.category.Some? {
      StripOfStripped(row[2]);
      CategoryResolvesBack(l, cfg, t.category.value);
    } else {
      assert row[2] == [] && Strip(row[2]) == [];
    }
    DescribeOf(l, cfg, ExportHeader, row, t.date, Dec(t.amount, 2),
      row[1], row[2], row[4], row[5], row[6], row[7], t.account, category);
  }

  /** An uncategorised transaction, exported and imported again without a
      default category, parses back as itself; as written the save then
      refuses it for its blank category, while the corrected rules store it. */
  lemma UncategorisedReimport(l: Ledger, cfg: ImportConfig, t: Transaction, id: TxnId)
    requires ConfigValid(l, cfg) && cfg.columns == DefaultColumns && cfg.defaultCategory.None?
    requires Exportable(l, t) && RoundTrips(l, cfg, t) && t.category.None?
    requires id !in l.txns && TransactionValid(l, t)
    ensures ParseRow(l, cfg, ExportHeader, ExportRow(l, t)) == Ok(t)
    ensures var r := SaveRow(AsWritten, l, ParseRow(l, cfg, ExportHeader, ExportRow(l, t)), id);
      r.Err? && r.error.Refused? && CategoryBlank in r.error.fieldErrors
    ensures SaveRow(Corrected, l, ParseRow(l, cfg, ExportHeader, ExportRow(l, t)), id).Ok?
  {
    ExportImportRoundTrip(l, cfg, t);
    assert NormalizeCurrency(t.currency) == t.currency;
    assert Normalized(t) == t;
    assert SaveErrors(AsWritten, l, t) == FullCleanAsWritten(l, t);
  }

  /** An income transaction's record does not read back: the importer only
      files expenses, and names the category it refused. */
  lemma IncomeRecordRefused(l: Ledger, cfg: ImportConfig, t: Transaction)
    requires ConfigValid(l, cfg) && cfg.columns == DefaultColumns
    requires Exportable(l, t) && t.category.Some?
    requires cfg.parseDate(IsoFormat(t.date)) == Some(t.date)
    requires l.accounts[t.account].name != [] && IsStripped(l.accounts[t.account].name)
    requires OnlyAccountNamed(l, cfg.accountOrder, t.account)
    requires l.categories[t.category.value].name != [] && IsStripped(l.categories[t.category.value].name)
    requires OnlyCategoryNamed(l, cfg.categoryOrder, t.category.value)
    requires l.categories[t.category.value].kind == Income
    ensures ParseRow(l, cfg, ExportHeader, ExportRow(l, t)) == Err(NotAnExpense(l.categories[t.category.value].name))
  {
    var row := ExportRow(l, t);
    ExportRowFields(l, t);
    ExportedRecordReads(l, cfg, t);
    StripOfStripped(row[1]);
    StripOfStripped(row[2]);
    AccountResolvesBack(l, cfg, t.account);
    CategoryResolvesBack(l, cfg, t.category.value);
  }

  /** A whole export, header included, parses back record by record. */
  lemma ExportParsesBack(l: Ledger, cfg: ImportConfig, qs: seq<TxnId>)
    requires ConfigValid(l, cfg) && cfg.columns == DefaultColumns && cfg.defaultCategory.None?
    requires forall i :: 0 <= i < |qs| ==> qs[i] in l.txns && Exportable(l, l.txns[qs[i]])
    requires forall i :: 0 <= i < |qs| ==> RoundTrips(l, cfg, l.txns[qs[i]])
    ensures var rows := ExportCsv(l, qs);
      forall i :: 0 <= i < |qs| ==> ParseAll(l, cfg, rows[0], rows[1..])[i] == Ok(l.txns[qs[i]])
  {
    var rows := ExportCsv(l, qs);
    forall i | 0 <= i < |qs|
      ensures ParseAll(l, cfg, rows[0], rows[1..])[i] == Ok(l.txns[qs[i]])
    {
      assert rows[1..][i] == rows[i + 1];
      ExportImportRoundTrip(l, cfg, l.txns[qs[i]]);
    }
  }
}
