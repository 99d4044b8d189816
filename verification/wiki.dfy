/**
 * The encyclopedia's title and search rules: looking an entry up, the
 * search redirect or result list, creating an entry under a title no other
 * entry has in any spelling of case, editing an existing entry's text, and
 * the random page.
 *
 * The entry store is a list of titles, in the order the listing returns
 * them, and each title's Markdown text.
 */
module Wiki {
  import opened Wrappers
  import opened Text
  import opened FormFields

  datatype Store = Store(titles: seq<string>, pages: map<string, string>)

  /** The listing and the pages agree, and no title is listed twice. */
  predicate Consistent(w: Store) {
    && (forall i :: 0 <= i < |w.titles| ==> w.titles[i] in w.pages)
    && (forall t :: t in w.pages ==> t in w.titles)
    && (forall i, j :: 0 <= i < j < |w.titles| ==> w.titles[i] != w.titles[j])
  }

  /** `util.get_entry`: the page's text, or nothing. */
  function GetEntry(w: Store, title: string): (r: Option<string>)
    ensures r.Some? <==> title in w.pages
    ensures r.Some? ==> r.value == w.pages[title]
  {
    if title in w.pages then Some(w.pages[title]) else None
  }

  /** `util.save_entry`: replace the text of an existing title, or add the
      title at the end of the listing. */
  function SaveEntry(w: Store, title: string, content: string): (r: Store)
    ensures r.pages == w.pages[title := content]
    ensures title in w.pages ==> r.titles == w.titles
    ensures title !in w.pages ==> r.titles == w.titles + [title]
  {
    if title in w.pages then w.(pages := w.pages[title := content])
    else Store(w.titles + [title], w.pages[title := content])
  }

  lemma SaveEntryKeepsConsistent(w: Store, title: string, content: string)
    requires Consistent(w)
    ensures Consistent(SaveEntry(w, title, content))
  {
    var r := SaveEntry(w, title, content);
    if title !in w.pages {
      forall i, j | 0 <= i < j < |r.titles|
        ensures r.titles[i] != r.titles[j]
      {
        if j == |w.titles| {
          assert r.titles[i] == w.titles[i] && w.titles[i] in w.pages;
        }
      }
    }
  }

  // ---------------------------------------------------------------------
  // Viewing
  // ---------------------------------------------------------------------

  datatype Page = Found(title: string, markdown: string) | Missing(title: string)

  /** `entry`: the page, or the 404 page naming the missing title. */
  function Entry(w: Store, title: string): (p: Page)
    ensures p.Found? <==> title in w.pages
    ensures p.Found? ==> p == Found(title, w.pages[title])
    ensures p.Missing? ==> p.title == title
  {
    match GetEntry(w, title)
    case None => Missing(title)
    case Some(m) => Found(title, m)
  }

  /** `random_entry`: `pick` stands for the choice `random.choice` makes. */
  function RandomEntry(titles: seq<string>, pick: nat): (r: Option<string>)
    ensures r.None? <==> titles == []
    ensures r.Some? ==> r.value in titles
  {
    if titles == [] then None else Some(titles[pick % |titles|])
  }

  /** Every entry can come up. */
  lemma EveryEntryCanComeUp(titles: seq<string>, i: nat)
    requires i < |titles|
    ensures RandomEntry(titles, i) == Some(titles[i])
  {
  }

  // ---------------------------------------------------------------------
  // Search
  // ---------------------------------------------------------------------

  datatype SearchOutcome = ToIndex | ToEntry(title: string) | Results(entries: seq<string>, query: string)

  /** `query.lower() in entry.lower()`. */
  predicate Contains(entry: string, query: string) {
    IsInfix(Lower(query), Lower(entry))
  }

  /** The titles containing the query ignoring case, in listing order. */
  function Matching(titles: seq<string>, query: string): (r: seq<string>)
    ensures |r| <= |titles|
    ensures forall t :: t in r <==> t in titles && Contains(t, query)
  {
    if titles == [] then []
    else (if Contains(titles[0], query) then [titles[0]] else []) + Matching(titles[1..], query)
  }

  /** `search`: the `q` parameter (missing reads as ""), stripped. */
  function Search(titles: seq<string>, q: string): (r: SearchOutcome)
    ensures Strip(q) == [] <==> r == ToIndex
    ensures r.ToEntry? ==> r.title in titles && EqualsIgnoreCase(r.title, Strip(q))
    ensures r.Results? ==> r.query == Strip(q) && forall t :: t in r.entries <==> t in titles && Contains(t, Strip(q))
  {
    var query := Strip(q);
    if query == [] then ToIndex
    else
      var i := FindIgnoringCase(titles, query);
      if i < |titles| then ToEntry(titles[i]) else Results(Matching(titles, query), query)
  }

  /** A title equal to the query ignoring case wins over the result list:
      the first such title in the listing is opened. */
  lemma ExactMatchFirst(titles: seq<string>, q: string, j: nat)
    requires Strip(q) != [] && j < |titles| && EqualsIgnoreCase(titles[j], Strip(q))
    ensures Search(titles, q).ToEntry?
    ensures Search(titles, q).title == titles[FindIgnoringCase(titles, Strip(q))]
    ensures FindIgnoringCase(titles, Strip(q)) <= j
  {
  }

  /** The result list is shown only when no title equals the query ignoring
      case; it then lists every title containing the query. */
  lemma ResultsOnlyWithoutExactMatch(titles: seq<string>, q: string)
    requires Search(titles, q).Results?
    ensures forall t :: t in titles ==> !EqualsIgnoreCase(t, Strip(q))
  {
    var query := Strip(q);
    forall t | t in titles
      ensures !EqualsIgnoreCase(t, query)
    {
      var k :| 0 <= k < |titles| && titles[k] == t;
      assert FindIgnoringCase(titles, query) == |titles|;
    }
  }

  /** Every title equal to the query ignoring case also contains it, so the
      precedence matters: without it the title would be one result among
      others. */
  lemma ExactMatchContains(t: string, query: string)
    requires EqualsIgnoreCase(t, query)
    ensures Contains(t, query)
  {
    InfixOfEqual(Lower(t));
  }

  // ---------------------------------------------------------------------
  // Creating and editing
  // ---------------------------------------------------------------------

  const MaxTitle: nat := 100

  datatype EntryError = TitleInvalid(e: TextError) | ContentInvalid(e: TextError) | TitleTaken

  /** `NewEntryForm`: the stripped title (1 to 100 characters) and the
      stripped, non-blank content, neither holding a NUL character. */
  function NewEntryForm(rawTitle: string, rawContent: string): (r: Result<(string, string), seq<EntryError>>)
    ensures r.Ok? <==>
      Strip(rawTitle) != [] && |Strip(rawTitle)| <= MaxTitle && Strip(rawContent) != []
      && '\0' !in rawTitle && '\0' !in rawContent
    ensures r.Ok? ==> r.value == (Strip(rawTitle), Strip(rawContent))
  {
    var title := CharField(rawTitle, true, Some(MaxTitle));
    var content := CharField(rawContent, true, None);
    if title.Ok? && content.Ok? then
      StripIdempotent(rawTitle);
      Ok((Strip(title.value), content.value))
    else
      Err((if title.Err? then [TitleInvalid(title.error)] else [])
        + (if content.Err? then [ContentInvalid(content.error)] else []))
  }

  /** `new_entry` for a POST: the store afterwards and the new title. */
  function NewEntry(w: Store, rawTitle: string, rawContent: string): (r: Result<(Store, string), seq<EntryError>>)
    ensures r.Ok? <==> NewEntryForm(rawTitle, rawContent).Ok? && FindIgnoringCase(w.titles, Strip(rawTitle)) == |w.titles|
    ensures r.Ok? ==> r.value.1 == Strip(rawTitle) && r.value.0 == SaveEntry(w, Strip(rawTitle), Strip(rawContent))
  {
    match NewEntryForm(rawTitle, rawContent)
    case Err(errs) => Err(errs)
    case Ok((title, content)) =>
      if FindIgnoringCase(w.titles, title) < |w.titles| then Err([TitleTaken])
      else Ok((SaveEntry(w, title, content), title))
  }

  /** A title that matches an existing one ignoring case is refused and
      nothing is saved. */
  lemma DuplicateTitleRefused(w: Store, rawTitle: string, rawContent: string, j: nat)
    requires j < |w.titles| && EqualsIgnoreCase(w.titles[j], Strip(rawTitle))
    ensures NewEntry(w, rawTitle, rawContent).Err?
  {
  }

  /** Creating entries keeps the store consistent, keeps titles free of
      case duplicates, and never overwrites an existing page. */
  lemma NewEntryKeepsStore(w: Store, rawTitle: string, rawContent: string)
    requires Consistent(w) && NoCaseDuplicates(w.titles)
    requires NewEntry(w, rawTitle, rawContent).Ok?
    ensures var w' := NewEntry(w, rawTitle, rawContent).value.0;
      && Consistent(w') && NoCaseDuplicates(w'.titles)
      && (forall t :: t in w.pages ==> t in w'.pages && w'.pages[t] == w.pages[t])
  {
    var title := Strip(rawTitle);
    SaveEntryKeepsConsistent(w, title, Strip(rawContent));
    AddUnmatched(w.titles, title);
  }

  datatype EditOutcome = EditMissing | EditShown(content: string) | EditSaved(title: string) | EditInvalid

  /** `edit_entry`: `submitted` is the posted content, or `None` for a GET.
      The form carries only the content, so the title stays. */
  function EditEntry(w: Store, title: string, submitted: Option<string>): (r: (Store, EditOutcome))
    ensures title !in w.pages ==> r == (w, EditMissing)
    ensures r.0.titles == w.titles
    ensures r.1.EditSaved? <==> title in w.pages && submitted.Some? && Strip(submitted.value) != [] && '\0' !in submitted.value
    ensures r.1.EditSaved? ==> r.1.title == title && r.0.pages == w.pages[title := Strip(submitted.value)]
    ensures !r.1.EditSaved? ==> r.0 == w
    ensures title in w.pages && submitted.None? ==> r.1 == EditShown(w.pages[title])
  {
    match GetEntry(w, title)
    case None => (w, EditMissing)
    case Some(markdown) =>
      match submitted
      case None => (w, EditShown(markdown))
      case Some(raw) =>
        match CharField(raw, true, None)
        case Err(_) => (w, EditInvalid)
        case Ok(content) => (SaveEntry(w, title, content), EditSaved(title))
  }

  /** Editing keeps the store consistent and its titles as they were. */
  lemma EditEntryKeepsStore(w: Store, title: string, submitted: Option<string>)
    requires Consistent(w)
    ensures Consistent(EditEntry(w, title, submitted).0)
    ensures EditEntry(w, title, submitted).0.pages.Keys == w.pages.Keys
  {
    if title in w.pages && submitted.Some? && Strip(submitted.value) != [] {
      SaveEntryKeepsConsistent(w, title, Strip(submitted.value));
    }
  }
}
