/**
 * The CSV import of `TransactionImportView.form_valid`: a header check, then
 * one pass over the records in which every record either becomes a saved
 * transaction or a "Row n: ..." error, never both and never neither.
 *
 * A record arrives as `csv.DictReader` delivers it: the header names paired
 * with the record's fields, `None` for a column the record is too short to
 * reach. Decoding and splitting the text into records, and `strptime` with
 * the user's format, are outside the model; the latter is the `parseDate`
 * parameter of the configuration.
 */
module CsvImport {
  import opened Wrappers
  import opened Text
  import opened Decimals
  import opened Dates
  import opened Ledger

  // ---------------------------------------------------------------------
  // Reading fields
  // ---------------------------------------------------------------------

  /** The position of the last element satisfying `p`. */
  function LastIndex<T>(xs: seq<T>, p: T -> bool): (r: Option<nat>)
    ensures r.None? <==> forall i :: 0 <= i < |xs| ==> !p(xs[i])
    ensures r.Some? ==> r.value < |xs| && p(xs[r.value])
    ensures r.Some? ==> forall j :: r.value < j < |xs| ==> !p(xs[j])
    decreases |xs|
  {
    if xs == [] then None
    else if p(xs[|xs| - 1]) then Some(|xs| - 1)
    else LastIndex(xs[..|xs| - 1], p)
  }

  /** `row.get(col, "")` on a `DictReader` row: `""` for a name the header
      lacks, `None` when the record is too short to reach the column, else
      the field. A name repeated in the header reads its last column. */
  function Field(header: seq<string>, values: seq<string>, col: string): (r: Option<string>)
    ensures (forall i :: 0 <= i < |header| ==> header[i] != col) ==> r == Some([])
    ensures forall i :: 0 <= i < |header| && header[i] == col && (forall j :: i < j < |header| ==> header[j] != col) ==>
      r == (if i < |values| then Some(values[i]) else None)
  {
    match LastIndex(header, (h: string) => h == col)
    case None => Some([])
    case Some(i) => if i < |values| then Some(values[i]) else None
  }

  /** An optional column: not read at all when its name is blank. */
  function OptionalField(header: seq<string>, values: seq<string>, col: string): (r: Option<string>)
    ensures col == [] ==> r == Some([])
    ensures col != [] ==> r == Field(header, values, col)
  {
    if col == [] then Some([]) else Field(header, values, col)
  }

  // ---------------------------------------------------------------------
  // The configuration the import form supplies
  // ---------------------------------------------------------------------

  datatype Columns = Columns(
    date: string, amount: string, description: string, account: string,
    category: string, currency: string, tags: string, notes: string)

  /** The cleaned import form plus what the view looks up before the loop:
      the user's accounts and categories in query order (by name), and the
      currency of the user's preferences, `None` when there are none. */
  datatype ImportConfig = ImportConfig(
    user: UserId,
    columns: Columns,
    parseDate: string -> Option<Date>,
    defaultAccount: Option<AccountId>,
    defaultCategory: Option<CategoryId>,
    preferredCurrency: Option<string>,
    accountOrder: seq<AccountId>,
    categoryOrder: seq<CategoryId>)

  /** What the form's querysets and the view's lookups guarantee: every
      account and category named is the user's own, and the default category
      is an expense category. */
  predicate ConfigValid(l: Ledger, cfg: ImportConfig) {
    && (forall i :: 0 <= i < |cfg.accountOrder| ==>
          cfg.accountOrder[i] in l.accounts && l.accounts[cfg.accountOrder[i]].user == cfg.user)
    && (forall i :: 0 <= i < |cfg.categoryOrder| ==>
          cfg.categoryOrder[i] in l.categories && l.categories[cfg.categoryOrder[i]].user == cfg.user)
    && (cfg.defaultAccount.Some? ==>
          cfg.defaultAccount.value in l.accounts && l.accounts[cfg.defaultAccount.value].user == cfg.user)
    && (cfg.defaultCategory.Some? ==>
          && cfg.defaultCategory.value in l.categories
          && l.categories[cfg.defaultCategory.value].user == cfg.user
          && l.categories[cfg.defaultCategory.value].kind == Expense)
  }

  // ---------------------------------------------------------------------
  // Row errors
  // ---------------------------------------------------------------------

  datatype RowError =
    | NotText                        // `.strip()` on the `None` of a short record
    | MissingDate
    | BadDate                        // `strptime` refused the text
    | MissingAmount
    | BadAmount                      // `Decimal` refused the text
    | UnknownAccountName(name: string) // `""` stands for "(empty)"
    | NotAnExpense(name: string)
    | UnknownCategoryName(name: string)
    | AmountRefused(amountErrors: seq<AmountError>)
    | Refused(fieldErrors: seq<TxnError>)

  // ---------------------------------------------------------------------
  // Amounts
  // ---------------------------------------------------------------------

  /** The separator rule: when the text has a comma and no point, points are
      dropped and the comma becomes the decimal point; otherwise every comma
      is dropped as a thousands separator. */
  function NormalizeAmount(s: string): (r: string)
    ensures Lacks(r, ',')
    ensures Lacks(s, ',') ==> r == s
    ensures |r| <= |s|
  {
    if !Lacks(s, ',') && Lacks(s, '.') then Replace(Text.Remove(s, '.'), ',', '.')
    else Text.Remove(s, ',')
  }

  /** A decimal comma is read as the decimal point: `12,5` is 12.5. */
  lemma DecimalCommaAmount(w: string, f: string)
    requires AllDigits(w) && AllDigits(f) && |w| > 0
    ensures NormalizeAmount(w + "," + f) == w + "." + f
    ensures ParseDecimal(NormalizeAmount(w + "," + f)) == Some(Dec(DigitsValue(w + f), |f|))
  {
    var s := w + [','] + f;
    assert w + "," + f == s;
    DigitsLack(w, '.');
    DigitsLack(f, '.');
    DigitsLack(w, ',');
    DigitsLack(f, ',');
    LacksAround(w, ',', f, '.');
    assert s[|w|] == ',';
    assert NormalizeAmount(s) == Replace(Text.Remove(s, '.'), ',', '.');
    assert Text.Remove(s, '.') == s;
    ReplaceAt(w, f, ',', '.');
    assert w + ['.'] + f == w + "." + f;
    ParsePointedDecimal(w, f);
  }

  /** Commas before a decimal point are thousands separators: `w,f.g` reads
      as `wf.g`. */
  lemma ThousandsSeparatorDropped(w: string, f: string, g: string)
    requires AllDigits(w) && AllDigits(f) && AllDigits(g) && |w| > 0
    ensures NormalizeAmount(w + "," + f + "." + g) == (w + f) + "." + g
    ensures ParseDecimal(NormalizeAmount(w + "," + f + "." + g)) == Some(Dec(DigitsValue((w + f) + g), |g|))
  {
    var b := f + ['.'] + g;
    var s := w + [','] + b;
    assert s == w + "," + f + "." + g;
    assert s[|w| + 1 + |f|] == '.';
    DigitsLack(w, ',');
    DigitsLack(f, ',');
    DigitsLack(g, ',');
    LacksAround(f, '.', g, ',');
    RemoveAt(w, b, ',');
    assert w + b == (w + f) + "." + g;
    assert AllDigits(w + f);
    ParsePointedDecimal(w + f, g);
  }

  /** The continental spelling with a thousands point, `w.f,g`, keeps its
      point and loses its comma, so it reads as `w.fg`; with more than two
      digits after the point it is then refused by the amount's field
      validation. */
  lemma ContinentalThousandsRefused(w: string, f: string, g: string)
    requires AllDigits(w) && AllDigits(f) && AllDigits(g) && |w| > 0
    requires |f| + |g| > 2
    ensures NormalizeAmount(w + "." + f + "," + g) == w + "." + (f + g)
    ensures ParseDecimal(NormalizeAmount(w + "." + f + "," + g)) == Some(Dec(DigitsValue(w + (f + g)), |f| + |g|))
    ensures MoneyErrors(Dec(DigitsValue(w + (f + g)), |f| + |g|)) != []
  {
    ContinentalNormalized(w, f, g);
    assert AllDigits(f + g);
    ParsePointedDecimal(w, f + g);
  }

  /** The comma of `w.f,g` is dropped and its point kept. */
  lemma ContinentalNormalized(w: string, f: string, g: string)
    requires AllDigits(w) && AllDigits(f) && AllDigits(g)
    ensures NormalizeAmount(w + "." + f + "," + g) == w + "." + (f + g)
  {
    var a := w + ['.'] + f;
    var s := a + [','] + g;
    assert s == w + "." + f + "," + g;
    assert s[|w|] == '.';
    DigitsLack(w, ',');
    DigitsLack(f, ',');
    DigitsLack(g, ',');
    LacksAround(w, '.', f, ',');
    RemoveAt(a, g, ',');
    Regroup(w, ".", f, g);
  }

  lemma Regroup<T>(a: seq<T>, b: seq<T>, c: seq<T>, d: seq<T>)
    ensures a + b + c + d == a + b + (c + d)
  {
  }

  /** `1.234,56` is one instance: it reads as 1.23456 and is refused. */
  lemma ContinentalExample()
    ensures NormalizeAmount("1.234,56") == "1.23456"
    ensures ParseDecimal(NormalizeAmount("1.234,56")).Some?
    ensures MoneyErrors(ParseDecimal(NormalizeAmount("1.234,56")).value) != []
  {
    assert "1.234,56" == "1" + "." + "234" + "," + "56";
    assert "1" + "." + ("234" + "56") == "1.23456";
    ContinentalThousandsRefused("1", "234", "56");
  }

  /** The amount column of a record: blank is an error, then the separator rule,
      then `Decimal(...)`. */
  function ReadAmount(text: string): (r: Result<Dec, RowError>)
    ensures Strip(text) == [] <==> r == Err(MissingAmount)
    ensures r.Ok? <==> Strip(text) != [] && ParseDecimal(NormalizeAmount(Strip(text))).Some?
    ensures r.Ok? ==> Some(r.value) == ParseDecimal(NormalizeAmount(Strip(text)))
  {
    var s := Strip(text);
    if s == [] then Err(MissingAmount)
    else match ParseDecimal(NormalizeAmount(s))
      case None => Err(BadAmount)
      case Some(d) => Ok(d)
  }

  // ---------------------------------------------------------------------
  // Tags
  // ---------------------------------------------------------------------

  /** A tag as the import keeps it: non-blank, with nothing to strip. */
  predicate IsTag(t: string) {
    t != [] && IsStripped(t)
  }

  /** `[tag.strip() for tag in parts if tag.strip()]`. */
  function CleanTags(parts: seq<string>): (r: seq<string>)
    ensures |r| <= |parts|
    ensures forall k :: 0 <= k < |r| ==> IsTag(r[k])
    decreases |parts|
  {
    if parts == [] then []
    else
      var t := Strip(parts[0]);
      StripIsStripped(parts[0]);
      (if t == [] then [] else [t]) + CleanTags(parts[1..])
  }

  /** Cleaning adds no commas. */
  lemma {:induction false} CleanTagsLack(parts: seq<string>)
    requires forall k :: 0 <= k < |parts| ==> Lacks(parts[k], ',')
    ensures forall k :: 0 <= k < |CleanTags(parts)| ==> Lacks(CleanTags(parts)[k], ',')
    decreases |parts|
  {
    if parts != [] {
      StripLacks(parts[0], ',');
      CleanTagsLack(parts[1..]);
    }
  }

  /** Stripping removes characters, so it adds none. */
  lemma StripLacks(s: string, x: char)
    ensures Lacks(s, x) ==> Lacks(Strip(s), x)
  {
    var r := Strip(s);
    var i := StripInfix(s);
    if Lacks(s, x) {
      forall k | 0 <= k < |r| ensures r[k] != x {
        assert r[k] == s[i + k];
      }
    }
  }

  /** `", ".join(...)` of the cleaned comma-separated parts. */
  function NormalizeTags(v: string): (r: string)
  {
    Join(CleanTags(Split(v, ',')), ", ")
  }

  /** Each tag preceded by the space that `", "` leaves after the comma. */
  function Spaced(ps: seq<string>): (r: seq<string>)
    ensures |r| == |ps|
    ensures forall k :: 0 <= k < |ps| ==> r[k] == " " + ps[k]
  {
    seq(|ps|, k requires 0 <= k < |ps| => " " + ps[k])
  }

  /** Splitting joined comma-free tags at the commas gives them back, every one
      after the first with its leading space. */
  lemma {:induction false} SplitJoined(ps: seq<string>)
    requires |ps| >= 1
    requires forall k :: 0 <= k < |ps| ==> Lacks(ps[k], ',')
    ensures Split(Join(ps, ", "), ',') == [ps[0]] + Spaced(ps[1..])
    decreases |ps|
  {
    if |ps| == 1 {
      SplitWithout(ps[0], ',');
      assert Spaced(ps[1..]) == [];
    } else {
      var rest := Join(ps[1..], ", ");
      assert Join(ps, ", ") == ps[0] + [','] + (" " + rest);
      SplitAtSeparator(ps[0], ',', " " + rest);
      SplitAfterSpace(rest);
      SplitJoined(ps[1..]);
      assert ps[1..][1..] == ps[2..];
      SpacedHead(ps[1..]);
    }
  }

  lemma SplitAfterSpace(rest: string)
    ensures Split(" " + rest, ',') == [" " + Split(rest, ',')[0]] + Split(rest, ',')[1..]
  {
    var s := " " + rest;
    assert s[0] == ' ' && s[1..] == rest;
  }

  lemma SpacedHead(ps: seq<string>)
    requires |ps| >= 1
    ensures Spaced(ps) == [" " + ps[0]] + Spaced(ps[1..])
  {
  }

  /** Cleaning tags that are already clean, some behind one space, removes the spaces. */
  lemma {:induction false} CleanSpaced(ps: seq<string>)
    requires forall k :: 0 <= k < |ps| ==> IsTag(ps[k])
    ensures CleanTags(Spaced(ps)) == ps
    decreases |ps|
  {
    if ps != [] {
      var sp := Spaced(ps);
      StripLeadingSpace(ps[0]);
      assert sp[0] == " " + ps[0] && sp[1..] == Spaced(ps[1..]);
      assert CleanTags(sp) == [ps[0]] + CleanTags(sp[1..]);
      CleanSpaced(ps[1..]);
      HeadTail(ps);
    }
  }

  /** Nothing but blanks cleans to nothing. */
  lemma CleanEmptyTags()
    ensures CleanTags(Split([], ',')) == []
  {
    var none: seq<string> := [[]];
    assert Split([], ',') == none;
    assert |Strip(none[0])| == 0;
    assert none[1..] == [];
    assert CleanTags(none) == [] + CleanTags([]);
  }

  /** A first part that is already a clean tag is kept as it is. */
  lemma CleanFirstKept(parts: seq<string>)
    requires parts != [] && IsTag(parts[0])
    ensures CleanTags(parts) == [parts[0]] + CleanTags(parts[1..])
  {
    StripOfStripped(parts[0]);
  }

  lemma HeadTail<T>(xs: seq<T>)
    requires xs != []
    ensures [xs[0]] + xs[1..] == xs
  {
  }

  /** The pieces of joined clean tags clean back to the tags. */
  lemma CleanRejoined(ps: seq<string>)
    requires ps != [] && forall k :: 0 <= k < |ps| ==> IsTag(ps[k])
    ensures CleanTags([ps[0]] + Spaced(ps[1..])) == ps
  {
    var parts := [ps[0]] + Spaced(ps[1..]);
    assert parts[0] == ps[0] && parts[1..] == Spaced(ps[1..]);
    CleanSpaced(ps[1..]);
    CleanFirstKept(parts);
    HeadTail(ps);
  }

  /** Clean tags joined with `", "` clean back to themselves. */
  lemma CleanJoined(ps: seq<string>)
    requires forall k :: 0 <= k < |ps| ==> IsTag(ps[k]) && Lacks(ps[k], ',')
    ensures CleanTags(Split(Join(ps, ", "), ',')) == ps
  {
    if ps == [] {
      CleanEmptyTags();
    } else {
      SplitJoined(ps);
      CleanRejoined(ps);
    }
  }

  /** Normalising tags twice is the same as once. */
  lemma NormalizeTagsIdempotent(v: string)
    ensures NormalizeTags(NormalizeTags(v)) == NormalizeTags(v)
  {
    var ps := CleanTags(Split(v, ','));
    CleanTagsLack(Split(v, ','));
    CleanJoined(ps);
  }

  /** A normalised tag list never has blank entries: every `,` separated piece
      of a non-empty result is a non-blank tag. */
  lemma NormalizedTagsHaveNoBlanks(v: string)
    ensures var ps := Split(NormalizeTags(v), ',');
      NormalizeTags(v) != [] ==> forall k :: 0 <= k < |ps| ==> Strip(ps[k]) != []
  {
    var cs := CleanTags(Split(v, ','));
    var ps := Split(NormalizeTags(v), ',');
    assert NormalizeTags(v) == Join(cs, ", ");
    if cs != [] {
      CleanTagsLack(Split(v, ','));
      JoinedPiecesNonBlank(cs);
      assert ps == Split(Join(cs, ", "), ',');
      assert forall k :: 0 <= k < |ps| ==> Strip(ps[k]) != [];
    } else {
      assert NormalizeTags(v) == [];
    }
  }

  lemma JoinedPiecesNonBlank(cs: seq<string>)
    requires cs != [] && forall k :: 0 <= k < |cs| ==> IsTag(cs[k]) && Lacks(cs[k], ',')
    ensures var ps := Split(Join(cs, ", "), ',');
      forall k :: 0 <= k < |ps| ==> Strip(ps[k]) != []
  {
    SplitJoined(cs);
    PiecesNonBlank(cs);
  }

  lemma PiecesNonBlank(cs: seq<string>)
    requires cs != [] && forall k :: 0 <= k < |cs| ==> IsTag(cs[k])
    ensures var ps := [cs[0]] + Spaced(cs[1..]);
      forall k :: 0 <= k < |ps| ==> Strip(ps[k]) != []
  {
    var ps := [cs[0]] + Spaced(cs[1..]);
    forall k | 0 <= k < |ps| ensures Strip(ps[k]) != [] {
      if k == 0 {
        StripOfStripped(cs[0]);
      } else {
        assert ps[k] == " " + cs[k];
        StripLeadingSpace(cs[k]);
      }
    }
  }

  // ---------------------------------------------------------------------
  // Accounts, categories and the currency
  // ---------------------------------------------------------------------

  /** The account a name selects in `{acc.name.lower(): acc ...}`: the last of
      the user's accounts whose lower-cased name is the lower-cased name. */
  function AccountNamed(l: Ledger, order: seq<AccountId>, name: string): Option<nat> {
    LastIndex(order, (a: AccountId) => a in l.accounts && EqualsIgnoreCase(l.accounts[a].name, name))
  }

  function CategoryNamed(l: Ledger, order: seq<CategoryId>, name: string): Option<nat> {
    LastIndex(order, (c: CategoryId) => c in l.categories && EqualsIgnoreCase(l.categories[c].name, name))
  }

  /** The account of a record: a blank name takes the default; a non-blank
      name must match one of the user's accounts, ignoring case, and never
      falls back to the default. */
  function ResolveAccount(l: Ledger, cfg: ImportConfig, name: string): (r: Result<AccountId, RowError>)
    requires ConfigValid(l, cfg)
    ensures r.Ok? ==> r.value in l.accounts && l.accounts[r.value].user == cfg.user
    ensures name == [] ==> (r.Ok? <==> cfg.defaultAccount.Some?) && (r.Ok? ==> r.value == cfg.defaultAccount.value)
    ensures name != [] ==>
      (r.Ok? <==> exists i :: 0 <= i < |cfg.accountOrder| && EqualsIgnoreCase(l.accounts[cfg.accountOrder[i]].name, name))
    ensures name != [] && r.Ok? ==> EqualsIgnoreCase(l.accounts[r.value].name, name)
    ensures r.Err? ==> r.error == UnknownAccountName(name)
  {
    if name == [] then
      match cfg.defaultAccount
      case None => Err(UnknownAccountName(name))
      case Some(a) => Ok(a)
    else
      match AccountNamed(l, cfg.accountOrder, name)
      case None => Err(UnknownAccountName(name))
      case Some(i) => Ok(cfg.accountOrder[i])
  }

  /** The category of a record: a blank name takes the default (which may be
      none); a non-blank name must match one of the user's categories,
      ignoring case, and that category must be an expense category. */
  function ResolveCategory(l: Ledger, cfg: ImportConfig, name: string): (r: Result<Option<CategoryId>, RowError>)
    requires ConfigValid(l, cfg)
    ensures name == [] ==> r == Ok(cfg.defaultCategory)
    ensures name != [] && r.Ok? ==>
      && r.value.Some? && r.value.value in l.categories
      && EqualsIgnoreCase(l.categories[r.value.value].name, name)
    ensures r.Ok? && r.value.Some? ==>
      && r.value.value in l.categories
      && l.categories[r.value.value].user == cfg.user
      && l.categories[r.value.value].kind == Expense
    ensures name != [] ==>
      ((forall i :: 0 <= i < |cfg.categoryOrder| ==> !EqualsIgnoreCase(l.categories[cfg.categoryOrder[i]].name, name))
       <==> r == Err(UnknownCategoryName(name)))
    ensures r.Err? ==> r.error == UnknownCategoryName(name) || r.error == NotAnExpense(name)
  {
    if name == [] then Ok(cfg.defaultCategory)
    else
      match CategoryNamed(l, cfg.categoryOrder, name)
      case None => Err(UnknownCategoryName(name))
      case Some(i) =>
        var c := cfg.categoryOrder[i];
        if l.categories[c].kind != Expense then Err(NotAnExpense(name)) else Ok(Some(c))
  }

  /** The currency of a record: the column's value upper-cased, else the
      account's currency, else the user's preferred currency, else USD. */
  function ChooseCurrency(column: string, account: string, preferred: Option<string>): (r: string)
    ensures Upper(Strip(column)) != [] ==> r == Upper(Strip(column))
    ensures Upper(Strip(column)) == [] && account != [] ==> r == account
    ensures Upper(Strip(column)) == [] && account == [] ==> r == preferred.GetOr("USD")
  {
    var c := Upper(Strip(column));
    if c != [] then c
    else if account != [] then account
    else preferred.GetOr("USD")
  }

  /** The column wins over everything else: the account and the preferences
      are only consulted for a blank column. */
  lemma ColumnCurrencyWins(column: string, a1: string, a2: string, p1: Option<string>, p2: Option<string>)
    requires Strip(column) != []
    ensures ChooseCurrency(column, a1, p1) == ChooseCurrency(column, a2, p2) == Upper(Strip(column))
  {
  }

  // ---------------------------------------------------------------------
  // One record
  // ---------------------------------------------------------------------

  /** A column read as text: a record too short to reach it has `None`
      there, and calling `.strip()` on that fails. */
  function Cell(header: seq<string>, values: seq<string>, col: string, optional: bool): (r: Result<string, RowError>)
    ensures var f := if optional then OptionalField(header, values, col) else Field(header, values, col);
      && (f.None? <==> r == Err(NotText))
      && (f.Some? ==> r == Ok(f.value))
  {
    match (if optional then OptionalField(header, values, col) else Field(header, values, col))
    case None => Err(NotText)
    case Some(v) => Ok(v)
  }

  /** The date column: present, non-blank, and accepted by `strptime`. */
  function ReadDate(cfg: ImportConfig, header: seq<string>, values: seq<string>): (r: Result<Date, RowError>)
    ensures Field(header, values, cfg.columns.date).None? ==> r == Err(NotText)
    ensures Field(header, values, cfg.columns.date).Some? && Strip(Field(header, values, cfg.columns.date).value) == [] ==>
      r == Err(MissingDate)
    ensures r.Ok? <==>
      && Field(header, values, cfg.columns.date).Some?
      && Strip(Field(header, values, cfg.columns.date).value) != []
      && cfg.parseDate(Strip(Field(header, values, cfg.columns.date).value)).Some?
    ensures r.Ok? ==> cfg.parseDate(Strip(Field(header, values, cfg.columns.date).value)) == Some(r.value)
  {
    match Cell(header, values, cfg.columns.date, false)
    case Err(e) => Err(e)
    case Ok(raw) =>
      var text := Strip(raw);
      if text == [] then Err(MissingDate)
      else match cfg.parseDate(text)
      case None => Err(BadDate)
      case Some(d) => Ok(d)
  }

  /** What a transaction read from a record takes from the record besides
      its account and category: the importing user, the date and amount
      read earlier, the currency (from the account or the preference when
      the cell is blank), the stripped description and notes, the
      normalised tags, and no recurrence. */
  predicate ReadsRest(cfg: ImportConfig, header: seq<string>, values: seq<string>, date: Date, amount: Dec,
                      accountCurrency: string, t: Transaction)
  {
    var c := cfg.columns;
    && t.user == cfg.user && t.date == date
    && MoneyErrors(amount) == [] && SameValue(amount, Dec(t.amount, 2)) && 1 <= t.amount < AmountBound
    && Cell(header, values, c.currency, true).Ok?
    && t.currency == ChooseCurrency(Cell(header, values, c.currency, true).value, accountCurrency, cfg.preferredCurrency)
    && Cell(header, values, c.description, true).Ok?
    && t.description == Strip(Cell(header, values, c.description, true).value)
    && Cell(header, values, c.notes, true).Ok?
    && t.notes == Strip(Cell(header, values, c.notes, true).value)
    && Cell(header, values, c.tags, true).Ok?
    && t.tags == NormalizeTags(Cell(header, values, c.tags, true).value)
    && !t.recurring && t.interval == NoRepeat && t.recurrenceEnd.None?
  }

  /** The rest of a record once its date and amount are read: account,
      category, currency, description, notes and tags, in the order the view
      reads them, then the amount's field validation. */
  function Describe(l: Ledger, cfg: ImportConfig, header: seq<string>, values: seq<string>, date: Date, amount: Dec)
    : (r: Result<Transaction, RowError>)
    requires ConfigValid(l, cfg)
    ensures r.Ok? ==>
      var c := cfg.columns;
      && Cell(header, values, c.account, true).Ok?
      && ResolveAccount(l, cfg, Strip(Cell(header, values, c.account, true).value)) == Ok(r.value.account)
      && Cell(header, values, c.category, true).Ok?
      && ResolveCategory(l, cfg, Strip(Cell(header, values, c.category, true).value)) == Ok(r.value.category)
      && ReadsRest(cfg, header, values, date, amount, l.accounts[r.value.account].currency, r.value)
    ensures r.Ok? && r.value.category.Some? ==> KindOf(l.categories, r.value.category) == Some(Expense)
  {
    match Cell(header, values, cfg.columns.account, true)
    case Err(e) => Err(e)
    case Ok(rawAccount) =>
      match ResolveAccount(l, cfg, Strip(rawAccount))
      case Err(e) => Err(e)
      case Ok(account) => Categorised(l, cfg, header, values, date, amount, account)
  }

  /** The cells after the account: the category, then the rest. */
  function Categorised(l: Ledger, cfg: ImportConfig, header: seq<string>, values: seq<string>, date: Date, amount: Dec,
                       account: AccountId)
    : (r: Result<Transaction, RowError>)
    requires ConfigValid(l, cfg) && account in l.accounts
    ensures r.Ok? ==>
      && r.value.account == account
      && Cell(header, values, cfg.columns.category, true).Ok?
      && ResolveCategory(l, cfg, Strip(Cell(header, values, cfg.columns.category, true).value)) == Ok(r.value.category)
      && r == DescribeRest(l, cfg, header, values, date, amount, account, r.value.category)
    ensures r.Ok? && r.value.category.Some? ==> KindOf(l.categories, r.value.category) == Some(Expense)
  {
    match Cell(header, values, cfg.columns.category, true)
    case Err(e) => Err(e)
    case Ok(rawCategory) =>
      match ResolveCategory(l, cfg, Strip(rawCategory))
      case Err(e) => Err(e)
      case Ok(category) =>
        assert category.Some? ==> KindOf(l.categories, category) == Some(Expense);
        DescribeRest(l, cfg, header, values, date, amount, account, category)
  }

  /** The cells after the account and the category: currency, description,
      notes and tags, then the amount's field validation. */
  function DescribeRest(l: Ledger, cfg: ImportConfig, header: seq<string>, values: seq<string>, date: Date, amount: Dec,
                        account: AccountId, category: Option<CategoryId>)
    : (r: Result<Transaction, RowError>)
    requires account in l.accounts
    ensures r.Ok? ==>
      && r.value.account == account && r.value.category == category
      && ReadsRest(cfg, header, values, date, amount, l.accounts[account].currency, r.value)
  {
    var c := cfg.columns;
    match Cell(header, values, c.currency, true)
    case Err(e) => Err(e)
    case Ok(rawCurrency) =>
      var currency := ChooseCurrency(rawCurrency, l.accounts[account].currency, cfg.preferredCurrency);
      match Cell(header, values, c.description, true)
      case Err(e) => Err(e)
      case Ok(rawDescription) =>
        match Cell(header, values, c.notes, true)
        case Err(e) => Err(e)
        case Ok(rawNotes) =>
          match Cell(header, values, c.tags, true)
          case Err(e) => Err(e)
          case Ok(rawTags) =>
            Record(cfg.user, account, category, date, amount, currency,
              Strip(rawDescription), Strip(rawNotes), NormalizeTags(rawTags))
  }

  /** The amount field's validation, then the one-off transaction the row
      records. */
  function Record(user: UserId, account: AccountId, category: Option<CategoryId>, date: Date, amount: Dec,
                  currency: string, description: string, notes: string, tags: string)
    : (r: Result<Transaction, RowError>)
    ensures r.Ok? <==> MoneyErrors(amount) == []
    ensures r.Err? ==> r.error == AmountRefused(MoneyErrors(amount))
    ensures r.Ok? ==>
      && SameValue(amount, Dec(r.value.amount, 2)) && 1 <= r.value.amount < AmountBound
      && r.value == Transaction(user, account, category, date, r.value.amount, currency,
                                description, notes, tags, false, NoRepeat, None)
  {
    var errs := MoneyErrors(amount);
    if errs != [] then Err(AmountRefused(errs))
    else
      ValidMoneyCents(amount);
      assert Pow10(12) == AmountBound;
      Ok(Transaction(user, account, category, date, ToCents(amount), currency,
        description, notes, tags, false, NoRepeat, None))
  }

  /** The transaction a record describes, reading its columns in the order the
      view does; the first problem met is the record's error. */
  function ParseRow(l: Ledger, cfg: ImportConfig, header: seq<string>, values: seq<string>): (r: Result<Transaction, RowError>)
    requires ConfigValid(l, cfg)
    ensures ReadDate(cfg, header, values).Err? ==> r == Err(ReadDate(cfg, header, values).error)
    ensures ReadDate(cfg, header, values).Ok? && Field(header, values, cfg.columns.amount).None? ==> r == Err(NotText)
    ensures r.Ok? ==>
      && ReadDate(cfg, header, values) == Ok(r.value.date)
      && Field(header, values, cfg.columns.amount).Some?
      && ReadAmount(Field(header, values, cfg.columns.amount).value).Ok?
      && r == Describe(l, cfg, header, values, r.value.date, ReadAmount(Field(header, values, cfg.columns.amount).value).value)
  {
    match ReadDate(cfg, header, values)
    case Err(e) => Err(e)
    case Ok(date) =>
      match Cell(header, values, cfg.columns.amount, false)
      case Err(e) => Err(e)
      case Ok(rawAmount) =>
        match ReadAmount(rawAmount)
        case Err(e) => Err(e)
        case Ok(amount) => Describe(l, cfg, header, values, date, amount)
  }

  /** The date a record's date field names, once that field is known. */
  lemma ReadDateOf(cfg: ImportConfig, header: seq<string>, values: seq<string>, raw: string, date: Date)
    requires Field(header, values, cfg.columns.date) == Some(raw)
    requires Strip(raw) == raw != [] && cfg.parseDate(raw) == Some(date)
    ensures ReadDate(cfg, header, values) == Ok(date)
  {
    assert Cell(header, values, cfg.columns.date, false) == Ok(raw);
  }

  /** A record whose date and amount read as `date` and `amount` is whatever
      the rest of its columns describe. */
  lemma ParseRowOf(l: Ledger, cfg: ImportConfig, header: seq<string>, values: seq<string>, rawAmount: string, date: Date, amount: Dec)
    requires ConfigValid(l, cfg)
    requires ReadDate(cfg, header, values) == Ok(date)
    requires Field(header, values, cfg.columns.amount) == Some(rawAmount)
    requires ReadAmount(rawAmount) == Ok(amount)
    ensures ParseRow(l, cfg, header, values) == Describe(l, cfg, header, values, date, amount)
  {
  }

  /** The transaction a record describes once each of its columns is known
      to read well. */
  lemma DescribeOf(l: Ledger, cfg: ImportConfig, header: seq<string>, values: seq<string>, date: Date, amount: Dec,
                   rawAccount: string, rawCategory: string, rawCurrency: string,
                   rawDescription: string, rawNotes: string, rawTags: string,
                   account: AccountId, category: Option<CategoryId>)
    requires ConfigValid(l, cfg)
    requires Cell(header, values, cfg.columns.account, true) == Ok(rawAccount)
    requires ResolveAccount(l, cfg, Strip(rawAccount)) == Ok(account)
    requires Cell(header, values, cfg.columns.category, true) == Ok(rawCategory)
    requires ResolveCategory(l, cfg, Strip(rawCategory)) == Ok(category)
    requires Cell(header, values, cfg.columns.currency, true) == Ok(rawCurrency)
    requires Cell(header, values, cfg.columns.description, true) == Ok(rawDescription)
    requires Cell(header, values, cfg.columns.notes, true) == Ok(rawNotes)
    requires Cell(header, values, cfg.columns.tags, true) == Ok(rawTags)
    requires MoneyErrors(amount) == []
    ensures account in l.accounts && amount.scale <= 2
    ensures Describe(l, cfg, header, values, date, amount)
      == Ok(Transaction(cfg.user, account, category, date, ToCents(amount),
              ChooseCurrency(rawCurrency, l.accounts[account].currency, cfg.preferredCurrency),
              Strip(rawDescription), Strip(rawNotes), NormalizeTags(rawTags), false, NoRepeat, None))
  {
  }

  /** A record turned into a saved transaction: `Transaction.objects.create`,
      that is, `Transaction.save` with its validation and balance update; a
      record that did not parse stays the error it is. As written, the
      declared `full_clean` also refuses a record without a category. */
  function SaveRow(rules: Rules, l: Ledger, parsed: Result<Transaction, RowError>, id: TxnId): (r: Result<Ledger, RowError>)
    requires id !in l.txns
    ensures parsed.Err? ==> r == Err(parsed.error)
    ensures r.Ok? <==> parsed.Ok? && Saveable(rules, l, Normalized(parsed.value))
    ensures r.Ok? ==> r.value.txns == l.txns[id := Normalized(parsed.value)]
    ensures r.Ok? ==> Extends(l, r.value, id)
    ensures r.Ok? && Inv(l) ==> Inv(r.value)
  {
    match parsed
    case Err(e) => Err(e)
    case Ok(t) =>
      match CreateTransaction(rules, l, id, t)
      case Err(errs) => Err(Refused(errs))
      case Ok(l1) =>
        assert Inv(l) ==> Inv(l1) by {
          if Inv(l) { CreatePreservesInv(rules, l, id, t); }
        }
        CreateExtends(rules, l, id, t);
        Ok(l1)
  }

  /** A created transaction extends the ledger under its own id. */
  lemma CreateExtends(rules: Rules, l: Ledger, id: TxnId, t: Transaction)
    requires id !in l.txns && CreateTransaction(rules, l, id, t).Ok?
    ensures Extends(l, CreateTransaction(rules, l, id, t).value, id)
  {
  }

  // ---------------------------------------------------------------------
  // The whole file
  // ---------------------------------------------------------------------

  datatype RowFailure = RowFailure(row: nat, error: RowError)

  datatype ImportReport = ImportReport(ledger: Ledger, created: nat, skipped: nat, errors: seq<RowFailure>)

  /** The changes `l` and `l1` differ by: the categories and budgets are the
      same, so are the accounts up to their current balance, and `l1` only adds
      transactions with ids from `id` up. */
  predicate Extends(l: Ledger, l1: Ledger, id: TxnId) {
    && l1.categories == l.categories && l1.budgets == l.budgets
    && l1.accounts.Keys == l.accounts.Keys
    && (forall a :: a in l.accounts ==> l1.accounts[a] == l.accounts[a].(current := l1.accounts[a].current))
    && (forall k :: k in l.txns ==> k in l1.txns && l1.txns[k] == l.txns[k])
    && (forall k :: k in l1.txns && k !in l.txns ==> k >= id)
  }

  /** Extending a ledger that extends another extends the first. */
  lemma ExtendsTransitive(l: Ledger, l1: Ledger, l2: Ledger, id: TxnId, id1: TxnId)
    requires Extends(l, l1, id) && Extends(l1, l2, id1) && id <= id1
    ensures Extends(l, l2, id)
  {
  }

  /** Every record parsed against the lookups built before the loop. The
      parse of a record reads only those lookups and the record itself, never
      the transactions saved for the records before it, so parsing them all
      first reads each record exactly as the loop does. */
  function ParseAll(l: Ledger, cfg: ImportConfig, header: seq<string>, records: seq<seq<string>>)
    : (parsed: seq<Result<Transaction, RowError>>)
    requires ConfigValid(l, cfg)
    ensures |parsed| == |records|
    ensures forall i :: 0 <= i < |records| ==> parsed[i] == ParseRow(l, cfg, header, records[i])
  {
    seq(|records|, i requires 0 <= i < |records| => ParseRow(l, cfg, header, records[i]))
  }

  /** The row loop from record `rowNumber` on: each record either adds one
      transaction, under the next id, or one error for its own row, and a
      failure never stops the records after it. */
  function ImportRows(rules: Rules, l: Ledger, parsed: seq<Result<Transaction, RowError>>, id: TxnId, rowNumber: nat)
    : (rep: ImportReport)
    requires forall k :: k in l.txns ==> k < id
    ensures rep.created + rep.skipped == |parsed|
    ensures |rep.errors| == rep.skipped
    ensures forall i :: 0 <= i < |rep.errors| ==> rowNumber <= rep.errors[i].row < rowNumber + |parsed|
    ensures forall i, j :: 0 <= i < j < |rep.errors| ==> rep.errors[i].row < rep.errors[j].row
    ensures forall k :: k in rep.ledger.txns ==> k < id + rep.created
    ensures Extends(l, rep.ledger, id)
    decreases |parsed|
  {
    if parsed == [] then ImportReport(l, 0, 0, [])
    else
      match SaveRow(rules, l, parsed[0], id)
      case Ok(l1) =>
        var rest := ImportRows(rules, l1, parsed[1..], id + 1, rowNumber + 1);
        ExtendsTransitive(l, l1, rest.ledger, id, id + 1);
        ImportReport(rest.ledger, rest.created + 1, rest.skipped, rest.errors)
      case Err(e) =>
        var rest := ImportRows(rules, l, parsed[1..], id, rowNumber + 1);
        ImportReport(rest.ledger, rest.created, rest.skipped + 1, [RowFailure(rowNumber, e)] + rest.errors)
  }

  /** One turn of the row loop that saves the first record: the loop goes
      on with the rest on the extended ledger, under the next id. */
  lemma ImportRowsSaved(rules: Rules, l: Ledger, parsed: seq<Result<Transaction, RowError>>, id: TxnId, rowNumber: nat)
    requires forall k :: k in l.txns ==> k < id
    requires parsed != [] && SaveRow(rules, l, parsed[0], id).Ok?
    ensures var l1 := SaveRow(rules, l, parsed[0], id).value;
      && (forall k :: k in l1.txns ==> k < id + 1)
      && (Inv(l) ==> Inv(l1))
      && ImportRows(rules, l, parsed, id, rowNumber).ledger == ImportRows(rules, l1, parsed[1..], id + 1, rowNumber + 1).ledger
      && ImportRows(rules, l, parsed, id, rowNumber).errors == ImportRows(rules, l1, parsed[1..], id + 1, rowNumber + 1).errors
  {
  }

  /** One turn of the row loop that refuses the first record: its error
      comes first, and the loop goes on with the rest on the same ledger. */
  lemma ImportRowsSkipped(rules: Rules, l: Ledger, parsed: seq<Result<Transaction, RowError>>, id: TxnId, rowNumber: nat)
    requires forall k :: k in l.txns ==> k < id
    requires parsed != [] && SaveRow(rules, l, parsed[0], id).Err?
    ensures ImportRows(rules, l, parsed, id, rowNumber).ledger == ImportRows(rules, l, parsed[1..], id, rowNumber + 1).ledger
    ensures ImportRows(rules, l, parsed, id, rowNumber).errors
      == [RowFailure(rowNumber, SaveRow(rules, l, parsed[0], id).error)] + ImportRows(rules, l, parsed[1..], id, rowNumber + 1).errors
  {
  }

  /** The row loop keeps the ledger's invariant: each saved row keeps it, and
      a refused row changes nothing. */
  lemma {:induction false} ImportKeepsInv(rules: Rules, l: Ledger, parsed: seq<Result<Transaction, RowError>>, id: TxnId, rowNumber: nat)
    requires forall k :: k in l.txns ==> k < id
    requires Inv(l)
    ensures Inv(ImportRows(rules, l, parsed, id, rowNumber).ledger)
    decreases |parsed|
  {
    if parsed != [] {
      var r := SaveRow(rules, l, parsed[0], id);
      if r.Ok? {
        ImportRowsSaved(rules, l, parsed, id, rowNumber);
        ImportKeepsInv(rules, r.value, parsed[1..], id + 1, rowNumber + 1);
      } else {
        ImportRowsSkipped(rules, l, parsed, id, rowNumber);
        ImportKeepsInv(rules, l, parsed[1..], id, rowNumber + 1);
      }
    }
  }

  /** Every refused row is reported, under its own row number. */
  lemma {:induction false} EveryFailureReported(rules: Rules, l: Ledger, parsed: seq<Result<Transaction, RowError>>, id: TxnId, rowNumber: nat,
                                                i: nat, row: nat, e: RowError)
    requires forall k :: k in l.txns ==> k < id
    requires i < |parsed| && parsed[i] == Err(e) && row == rowNumber + i
    ensures RowFailure(row, e) in ImportRows(rules, l, parsed, id, rowNumber).errors
    decreases |parsed|
  {
    if i == 0 {
      ImportRowsSkipped(rules, l, parsed, id, rowNumber);
    } else {
      assert parsed[1..][i - 1] == parsed[i];
      if SaveRow(rules, l, parsed[0], id).Ok? {
        var l1 := SaveRow(rules, l, parsed[0], id).value;
        ImportRowsSaved(rules, l, parsed, id, rowNumber);
        EveryFailureReported(rules, l1, parsed[1..], id + 1, rowNumber + 1, i - 1, row, e);
      } else {
        ImportRowsSkipped(rules, l, parsed, id, rowNumber);
        EveryFailureReported(rules, l, parsed[1..], id, rowNumber + 1, i - 1, row, e);
        InTail(RowFailure(rowNumber, SaveRow(rules, l, parsed[0], id).error), ImportRows(rules, l, parsed[1..], id, rowNumber + 1).errors, RowFailure(row, e));
      }
    }
  }

  /** Prepending an element keeps every element already present. */
  lemma InTail<T>(x: T, xs: seq<T>, y: T)
    requires y in xs
    ensures y in [x] + xs
  {
    var j :| 0 <= j < |xs| && xs[j] == y;
    assert ([x] + xs)[j + 1] == y;
  }


  /** The outcome of an import: no header row, required columns the header
      lacks (nothing is read), or the report of the row loop. */
  datatype ImportOutcome = NoHeader | MissingColumns(cols: seq<string>) | Imported(report: ImportReport)

  /** `[col for col in [date, amount] if col and col not in fieldnames]`. */
  function MissingRequired(header: seq<string>, c: Columns): (cols: seq<string>)
    ensures forall i :: 0 <= i < |cols| ==> cols[i] != [] && cols[i] !in header
    ensures cols == [] <==> (c.date == [] || c.date in header) && (c.amount == [] || c.amount in header)
  {
    (if c.date != [] && c.date !in header then [c.date] else [])
    + (if c.amount != [] && c.amount !in header then [c.amount] else [])
  }

  /** The import: header checks first, then the row loop with data rows
      numbered from 2 (the header is row 1). */
  function Import(rules: Rules, l: Ledger, cfg: ImportConfig, header: seq<string>, records: seq<seq<string>>, id: TxnId): (r: ImportOutcome)
    requires ConfigValid(l, cfg)
    requires forall k :: k in l.txns ==> k < id
    ensures header == [] <==> r == NoHeader
    ensures r.MissingColumns? ==> r.cols != [] && forall i :: 0 <= i < |r.cols| ==> r.cols[i] !in header
    ensures r.Imported? <==> header != [] && MissingRequired(header, cfg.columns) == []
    ensures r.Imported? ==>
      && r.report.created + r.report.skipped == |records|
      && |r.report.errors| == r.report.skipped
      && (forall i :: 0 <= i < |r.report.errors| ==> 2 <= r.report.errors[i].row <= |records| + 1)
      && Extends(l, r.report.ledger, id)
    ensures r.Imported? && Inv(l) ==> Inv(r.report.ledger)
  {
    if header == [] then NoHeader
    else
      var missing := MissingRequired(header, cfg.columns);
      if missing != [] then MissingColumns(missing)
      else
        var parsed := ParseAll(l, cfg, header, records);
        assert Inv(l) ==> Inv(ImportRows(rules, l, parsed, id, 2).ledger) by {
          if Inv(l) { ImportKeepsInv(rules, l, parsed, id, 2); }
        }
        Imported(ImportRows(rules, l, parsed, id, 2))
  }

  /** A record with a blank account cell and no default account is refused
      with the "(empty)" account error, whatever its other columns hold. */
  lemma BlankAccountWithoutDefault(l: Ledger, cfg: ImportConfig, header: seq<string>, values: seq<string>, date: Date, amount: Dec)
    requires ConfigValid(l, cfg) && cfg.defaultAccount.None?
    requires Cell(header, values, cfg.columns.account, true).Ok?
    requires Strip(Cell(header, values, cfg.columns.account, true).value) == []
    ensures Describe(l, cfg, header, values, date, amount) == Err(UnknownAccountName([]))
  {
  }

  /** One good record and one refused record: one transaction created, one
      row skipped, and the error reported for row 3 (the header is row 1). */
  lemma OneGoodOneBadRow(rules: Rules, l: Ledger, t: Transaction, e: RowError, id: TxnId)
    requires forall k :: k in l.txns ==> k < id
    requires Saveable(rules, l, Normalized(t))
    ensures var rep := ImportRows(rules, l, [Ok(t), Err(e)], id, 2);
      && rep.created == 1 && rep.skipped == 1
      && rep.errors == [RowFailure(3, e)]
      && rep.ledger.txns == l.txns[id := Normalized(t)]
  {
    var parsed: seq<Result<Transaction, RowError>> := [Ok(t), Err(e)];
    var l1 := SaveRow(rules, l, Ok(t), id).value;
    assert parsed[1..] == [Err(e)];
    assert ImportRows(rules, l1, parsed[1..], id + 1, 3) == ImportReport(l1, 0, 1, [RowFailure(3, e)]) by {
      var tail: seq<Result<Transaction, RowError>> := [Err(e)];
      assert tail[1..] == [];
    }
  }

  /** The messages shown: the first five errors. */
  function Surfaced(errors: seq<RowFailure>): (shown: seq<RowFailure>)
    ensures |shown| == if |errors| < 5 then |errors| else 5
    ensures shown <= errors
  {
    if |errors| <= 5 then errors else errors[..5]
  }

}
