/**
 * `extract_fx_related_content_large_file`: one pass over the elements of an
 * HTML filing, carrying the company name and the current section, filing
 * every relevant paragraph under its risk category, then assembling one
 * text blob.
 *
 * lxml is not modelled: a file is the sequence of elements that
 * `iterparse(..., events=('end',), html=True)` reports, each with its tag,
 * its direct text (`element.text`, possibly None) and the pieces that
 * `element.itertext()` yields at that moment. `html.unescape` is a parameter.
 * The walk and its lemmas are stated over a `Helpers` value holding the four
 * text helpers the loop calls; the methods bind it to the script's own.
 */
module Walker {
  import opened Wrappers
  import opened Text
  import opened Extract

  /** One element, at its end tag. */
  datatype Event = Event(tag: string, text: Option<string>, itertext: seq<string>)

  /**
   * One `.html` file: the elements the parser reports, whether the parser
   * then stops by raising, and the file's text for the year scan (None when
   * reading it as UTF-8 raises).
   */
  datatype HtmlFile = HtmlFile(name: string, events: seq<Event>, parseFails: bool, raw: Option<string>)

  /**
   * The walk's variables: `company_name`, `current_section` and the dict
   * `fx_related_paragraphs`, whose key order (insertion order) is `order`.
   */
  datatype Walk = Walk(company: string, section: string, bins: map<Category, seq<string>>, order: seq<Category>)

  /** What the function returns: `(company_name, document_year, combined_paragraphs)`. */
  datatype FileResult = FileResult(company: Option<string>, year: Option<string>, blob: string)

  /**
   * The text helpers the loop calls: `html.unescape`,
   * `is_meaningful_and_contains_keywords`, `categorize_fx_risk` and
   * `clean_text`. The walk is stated for any helpers; `Script` binds the
   * script's own.
   */
  datatype Helpers = Helpers(
    unescape: string -> string,
    meaningful: string -> bool,
    categorize: string -> Category,
    clean: string -> string)

  function Script(unescape: string -> string): Helpers {
    Helpers(unescape, IsMeaningful, Categorize, CleanText)
  }

  /** The value of the `except` branch: `(None, None, "")`. */
  const Failed := FileResult(None, None, "")

  const UnknownCompany := "Unknown Company"
  const UnknownSection := "Unknown Section"
  const Start := Walk(UnknownCompany, UnknownSection, map[], [])

  predicate IsHeading(tag: string) {
    tag == "h1" || tag == "h2" || tag == "h3"
  }

  predicate IsTextBlock(tag: string) {
    tag == "p" || tag == "div" || tag == "span"
  }

  /** `unescape(' '.join(element.itertext()).strip())` */
  function ParagraphText(e: Event, h: Helpers): string {
    h.unescape(Strip(Join(" ", e.itertext)))
  }

  /** `f"Section: {current_section}\n\n{cleaned_paragraph}"` */
  function Fragment(section: string, raw: string, clean: string -> string): string {
    "Section: " + section + "\n\n" + clean(raw)
  }

  /** Appends `fragment` to the list of `c`, creating the list (and the key) on first use. */
  function File(w: Walk, c: Category, fragment: string): Walk {
    if c in w.bins then w.(bins := w.bins[c := w.bins[c] + [fragment]])
    else w.(bins := w.bins[c := [fragment]], order := w.order + [c])
  }

  /** One iteration of the loop; None when it raises (a heading whose direct text is None). */
  function Step(w: Walk, e: Event, h: Helpers): Option<Walk> {
    if e.tag == "title" then
      Some(w.(company := CompanyNameFromTitle(e.text)))
    else if IsHeading(e.tag) then
      match e.text
      case None => None
      case Some(t) =>
        var section := Strip(t);
        Some(w.(section := section, company := if w.company == UnknownCompany then section else w.company))
    else
      match Relevance(e, h)
      case None => Some(w)
      case Some(c) => Some(File(w, c, Fragment(w.section, ParagraphText(e, h), h.clean)))
  }

  /** The category a `p`, `div` or `span` element is filed under, None when it is not filed. */
  function Relevance(e: Event, h: Helpers): Option<Category> {
    if IsTextBlock(e.tag) && h.meaningful(ParagraphText(e, h))
    then Some(h.categorize(ParagraphText(e, h)))
    else None
  }

  /** The loop over all events, from the initial values; None once an iteration raises. */
  function Run(events: seq<Event>, h: Helpers): Option<Walk>
    decreases |events|
  {
    if events == [] then Some(Start)
    else
      match Run(events[..|events| - 1], h)
      case None => None
      case Some(w) => Step(w, events[|events| - 1], h)
  }

  /** `f"Category: {category}\n\n" + "\n\n".join(paragraphs)` */
  function Block(c: Category, fragments: seq<string>): string {
    "Category: " + c.Name() + "\n\n" + Join("\n\n", fragments)
  }

  /** The fragments filed under `c` so far (none when the key is absent). */
  function Bin(w: Walk, c: Category): seq<string> {
    if c in w.bins then w.bins[c] else []
  }

  function BlocksOf(w: Walk, order: seq<Category>): seq<string> {
    if order == [] then [] else [Block(order[0], Bin(w, order[0]))] + BlocksOf(w, order[1..])
  }

  /** `combined_paragraphs`: one block per key of the dict, in its key order. */
  function Blob(w: Walk): string {
    Join("\n\n", BlocksOf(w, w.order))
  }

  /** The function's value for one file, with the `except` branch for every way it can raise. */
  function Extracted(f: HtmlFile, h: Helpers): FileResult {
    match Run(f.events, h)
    case None => Failed
    case Some(w) =>
      if f.parseFails || f.raw.None? then Failed
      else FileResult(Some(w.company), Some(YearOf(f.raw.value)), Blob(w))
  }

  lemma {:induction false} RunStaysFailed(events: seq<Event>, n: nat, h: Helpers)
    requires n <= |events| && Run(events[..n], h).None?
    ensures Run(events, h).None?
    decreases |events| - n
  {
    if n < |events| {
      assert events[..n + 1][..n] == events[..n];
      RunStaysFailed(events, n + 1, h);
    } else {
      assert events[..n] == events;
    }
  }

  /** `fx_related_paragraphs.setdefault(category, []).append(fragment)`, as two statements. */
  method AppendFragment(w: Walk, category: Category, fragment: string) returns (next: Walk)
    ensures next == File(w, category, fragment)
  {
    var bins, order := w.bins, w.order;
    if category !in bins {
      bins := bins[category := []];
      order := order + [category];
      assert bins[category] + [fragment] == [fragment];
      assert bins[category := bins[category] + [fragment]] == w.bins[category := [fragment]];
    }
    bins := bins[category := bins[category] + [fragment]];
    next := w.(bins := bins, order := order);
  }

  /** Files one paragraph's text, when it is relevant, under its category. */
  method FileParagraph(w: Walk, paragraph: string) returns (next: Walk)
    ensures next == if IsMeaningful(paragraph) then File(w, Categorize(paragraph), Fragment(w.section, paragraph, CleanText)) else w
  {
    next := w;
    if IsMeaningful(paragraph) {
      var cleaned := CleanText(paragraph);
      var category := CategorizeFxRisk(paragraph);
      next := AppendFragment(w, category, "Section: " + w.section + "\n\n" + cleaned);
    }
  }

  /**
   * The body of the loop for one element: what it does to the walk's
   * variables, or None when it raises.
   */
  method VisitElement(w: Walk, element: Event, unescape: string -> string) returns (next: Option<Walk>)
    ensures next == Step(w, element, Script(unescape))
  {
    if element.tag == "title" {
      next := Some(w.(company := CompanyNameFromTitle(element.text)));
    } else if IsHeading(element.tag) {
      if element.text.None? {
        return None;
      }
      var section := Strip(element.text.value);
      var company := if w.company == UnknownCompany then section else w.company;
      next := Some(w.(section := section, company := company));
    } else if IsTextBlock(element.tag) {
      var paragraph := unescape(Strip(Join(" ", element.itertext)));
      var filed := FileParagraph(w, paragraph);
      next := Some(filed);
    } else {
      next := Some(w);
    }
  }

  /** The `for` loop over the parser's elements; None when an iteration raises. */
  method WalkElements(events: seq<Event>, unescape: string -> string) returns (walk: Option<Walk>)
    ensures walk == Run(events, Script(unescape))
  {
    var w := Start;
    var i := 0;
    while i < |events|
      invariant 0 <= i <= |events|
      invariant Run(events[..i], Script(unescape)) == Some(w)
    {
      RunThrough(events, i, Script(unescape));
      var next := VisitElement(w, events[i], unescape);
      if next.None? {
        RunStaysFailed(events, i + 1, Script(unescape));
        return None;
      }
      w := next.value;
      i := i + 1;
    }
    assert events[..i] == events;
    walk := Some(w);
  }

  /** `extract_fx_related_content_large_file`, proved to compute `Extracted`. */
  method ExtractFxRelatedContentLargeFile(file: HtmlFile, unescape: string -> string) returns (result: FileResult)
    ensures result == Extracted(file, Script(unescape))
  {
    var walk := WalkElements(file.events, unescape);
    if walk.None? || file.parseFails || file.raw.None? {
      return Failed;
    }
    var w := walk.value;
    var year := YearOf(file.raw.value);
    result := FileResult(Some(w.company), Some(year), Blob(w));
  }

  // ---------------------------------------------------------------------
  // What the walk computes, stated without the loop.

  /** The last `h1`/`h2`/`h3` element among `events`. */
  function LastHeading(events: seq<Event>): (r: Option<nat>)
    ensures r.Some? ==> r.value < |events| && IsHeading(events[r.value].tag)
    ensures r.Some? ==> forall k :: r.value < k < |events| ==> !IsHeading(events[k].tag)
    ensures r.None? ==> forall k :: 0 <= k < |events| ==> !IsHeading(events[k].tag)
  {
    if events == [] then None
    else if IsHeading(events[|events| - 1].tag) then Some(|events| - 1)
    else LastHeading(events[..|events| - 1])
  }

  /** The section a paragraph following `events` belongs to. */
  function SectionAfter(events: seq<Event>): string {
    match LastHeading(events)
    case None => UnknownSection
    case Some(k) => Strip(events[k].text.GetOr(""))
  }

  /** For each element, the category it is filed under, None when it is not a relevant paragraph. */
  function Filings(events: seq<Event>, h: Helpers): (r: seq<Option<Category>>)
    ensures |r| == |events| && forall k :: 0 <= k < |events| ==> r[k] == Relevance(events[k], h)
  {
    seq(|events|, k requires 0 <= k < |events| => Relevance(events[k], h))
  }

  /**
   * Reference for the fragments filed under `c`: one per relevant paragraph
   * of that category, in document order, each naming the last heading
   * before it.
   */
  function Filed(events: seq<Event>, c: Category, h: Helpers): seq<string>
    decreases |events|
  {
    if events == [] then []
    else
      var n := |events| - 1;
      Filed(events[..n], c, h)
      + (if Relevance(events[n], h) == Some(c)
         then [Fragment(SectionAfter(events[..n]), ParagraphText(events[n], h), h.clean)]
         else [])
  }

  /**
   * `order` lists, without repetition, exactly the categories that receive
   * a paragraph, by the position of their first paragraph.
   */
  ghost predicate IsFirstAppearanceOrder(events: seq<Event>, order: seq<Category>, h: Helpers) {
    IsFirstAppearance(Filings(events, h), order)
  }

  /** The position of the first `Some(c)` in `filed`, or `|filed|` when there is none. */
  function FirstIndex(filed: seq<Option<Category>>, c: Category): (r: nat)
    ensures r <= |filed|
    ensures r < |filed| ==> filed[r] == Some(c)
    ensures forall k :: 0 <= k < r ==> filed[k] != Some(c)
  {
    if filed == [] then 0
    else
      var n := |filed| - 1;
      var m := FirstIndex(filed[..n], c);
      if m < n then m else if filed[n] == Some(c) then n else |filed|
  }

  /**
   * `order` lists exactly the categories occurring in `filed`, sorted by
   * the position of their first occurrence (hence without repetition).
   */
  ghost predicate IsFirstAppearance(filed: seq<Option<Category>>, order: seq<Category>) {
    && (forall c :: c in order <==> FirstIndex(filed, c) < |filed|)
    && (forall i, j :: 0 <= i < j < |order| ==> FirstIndex(filed, order[i]) < FirstIndex(filed, order[j]))
  }

  /** The dict's keys are the listed order, each holding a non-empty list. */
  predicate WellFormed(w: Walk) {
    && (forall i, j :: 0 <= i < j < |w.order| ==> w.order[i] != w.order[j])
    && (forall c :: c in w.bins <==> c in w.order)
    && (forall c :: c in w.bins ==> w.bins[c] != [])
  }

  function ReferenceBlocks(events: seq<Event>, order: seq<Category>, h: Helpers): seq<string> {
    if order == [] then []
    else [Block(order[0], Filed(events, order[0], h))] + ReferenceBlocks(events, order[1..], h)
  }

  // ---------------------------------------------------------------------
  // Lemmas.

  lemma {:induction false} RunPrefixSucceeds(events: seq<Event>, n: nat, h: Helpers)
    requires n <= |events| && Run(events, h).Some?
    ensures Run(events[..n], h).Some?
    decreases |events|
  {
    if n < |events| {
      var p := events[..|events| - 1];
      assert p[..n] == events[..n];
      RunPrefixSucceeds(p, n, h);
    } else {
      assert events[..n] == events;
    }
  }

  /** The walk through element `j` is the walk before it followed by one step. */
  lemma {:induction false} RunThrough(events: seq<Event>, j: nat, h: Helpers)
    requires j < |events|
    ensures Run(events[..j + 1], h) ==
            match Run(events[..j], h)
            case None => None
            case Some(w) => Step(w, events[j], h)
  {
    assert events[..j + 1][..j] == events[..j];
  }

  /** One step raises exactly on a heading without direct text. */
  lemma {:induction false} StepFailsIff(w: Walk, e: Event, h: Helpers)
    ensures Step(w, e, h).None? <==> IsHeading(e.tag) && e.text.None?
  {
    if e.tag == "title" {
      assert !IsHeading(e.tag);
    }
  }

  /** Element `i` is a heading without direct text. */
  predicate TextlessHeadingAt(events: seq<Event>, i: int) {
    0 <= i < |events| && IsHeading(events[i].tag) && events[i].text.None?
  }

  lemma {:induction false} TextlessHeadingSplit(events: seq<Event>, p: seq<Event>)
    requires events != [] && p == events[..|events| - 1]
    ensures (exists i :: TextlessHeadingAt(events, i)) <==>
            (exists i :: TextlessHeadingAt(p, i)) || TextlessHeadingAt(events, |events| - 1)
  {
    assert forall i :: 0 <= i < |p| ==> p[i] == events[i];
    if exists i :: TextlessHeadingAt(events, i) {
      var i :| TextlessHeadingAt(events, i);
      if i < |p| {
        assert TextlessHeadingAt(p, i);
      }
    }
    if exists i :: TextlessHeadingAt(p, i) {
      var i :| TextlessHeadingAt(p, i);
      assert TextlessHeadingAt(events, i);
    }
  }

  /** The walk raises exactly when some heading has no direct text. */
  lemma {:induction false} WalkFailsIffTextlessHeading(events: seq<Event>, h: Helpers)
    ensures Run(events, h).None? <==> exists i :: TextlessHeadingAt(events, i)
    decreases |events|
  {
    if events != [] {
      var n := |events| - 1;
      var p := events[..n];
      WalkFailsIffTextlessHeading(p, h);
      TextlessHeadingSplit(events, p);
      if Run(p, h).Some? {
        StepFailsIff(Run(p, h).value, events[n], h);
      }
    }
  }

  /** `current_section` is the stripped text of the last heading, or "Unknown Section". */
  lemma {:induction false} SectionIsLastHeading(events: seq<Event>, h: Helpers)
    requires Run(events, h).Some?
    ensures Run(events, h).value.section == SectionAfter(events)
    decreases |events|
  {
    if events != [] {
      var n := |events| - 1;
      var p := events[..n];
      SectionIsLastHeading(p, h);
      var w := Run(p, h).value;
      var e := events[n];
      assert Run(events, h) == Step(w, e, h);
      if IsHeading(e.tag) {
        assert LastHeading(events) == Some(n);
      } else {
        assert LastHeading(events) == LastHeading(p);
        assert Step(w, e, h).value.section == w.section;
      }
    }
  }

  /** Once the company is known, only a `title` element changes it. */
  lemma {:induction false} CompanyStable(events: seq<Event>, n: nat, name: string, h: Helpers)
    requires n <= |events| && Run(events, h).Some? && name != UnknownCompany
    requires Run(events[..n], h).Some? && Run(events[..n], h).value.company == name
    requires forall k :: n <= k < |events| ==> events[k].tag != "title"
    ensures Run(events, h).value.company == name
    decreases |events|
  {
    if n == |events| {
      assert events[..n] == events;
    } else {
      var m := |events| - 1;
      var p := events[..m];
      assert p[..n] == events[..n];
      CompanyStable(p, n, name, h);
      var w := Run(p, h).value;
      var e := events[m];
      assert Run(events, h) == Step(w, e, h);
      assert e.tag != "title";
      assert Step(w, e, h).value.company == w.company;
    }
  }

  /** With neither a title nor a heading, the company stays "Unknown Company". */
  lemma {:induction false} CompanyUnknownWithoutNames(events: seq<Event>, h: Helpers)
    requires forall k :: 0 <= k < |events| ==> events[k].tag != "title" && !IsHeading(events[k].tag)
    ensures Run(events, h).Some? && Run(events, h).value.company == UnknownCompany
    decreases |events|
  {
    if events != [] {
      var m := |events| - 1;
      var p := events[..m];
      CompanyUnknownWithoutNames(p, h);
      var w := Run(p, h).value;
      var e := events[m];
      assert Run(events, h) == Step(w, e, h);
      assert e.tag != "title" && !IsHeading(e.tag);
      assert Step(w, e, h).Some? && Step(w, e, h).value.company == w.company;
    }
  }

  /**
   * The last `title` element names the company, when it yields a name:
   * a later heading only fills in an unknown company.
   */
  lemma {:induction false} TitleNamesCompany(events: seq<Event>, j: nat, h: Helpers)
    requires j < |events| && events[j].tag == "title"
    requires forall k :: j < k < |events| ==> events[k].tag != "title"
    requires CompanyNameFromTitle(events[j].text) != UnknownCompany
    requires Run(events, h).Some?
    ensures Run(events, h).value.company == CompanyNameFromTitle(events[j].text)
  {
    RunPrefixSucceeds(events, j + 1, h);
    RunThrough(events, j, h);
    CompanyStable(events, j + 1, CompanyNameFromTitle(events[j].text), h);
  }

  lemma {:induction false} CompanyUnknownBeforeHeadings(events: seq<Event>, j: nat, h: Helpers)
    requires j <= |events|
    requires forall k :: 0 <= k < |events| ==> events[k].tag != "title"
    requires forall k :: 0 <= k < j ==> !IsHeading(events[k].tag)
    ensures Run(events[..j], h).Some? && Run(events[..j], h).value.company == UnknownCompany
  {
    var p := events[..j];
    assert forall k :: 0 <= k < |p| ==> p[k] == events[k];
    CompanyUnknownWithoutNames(p, h);
  }

  lemma {:induction false} HeadingFillsCompany(events: seq<Event>, j: nat, heading: string, h: Helpers)
    requires j < |events| && IsHeading(events[j].tag) && events[j].text == Some(heading)
    requires Run(events[..j], h).Some? && Run(events[..j], h).value.company == UnknownCompany
    ensures Run(events[..j + 1], h).Some?
    ensures Run(events[..j + 1], h).value.company == Strip(heading)
  {
    RunThrough(events, j, h);
  }

  /** Without a `title`, the walk up to and including the first heading names the company after it. */
  lemma FirstHeadingNamesPrefix(events: seq<Event>, j: nat, heading: string, h: Helpers)
    requires forall k :: 0 <= k < |events| ==> events[k].tag != "title"
    requires j < |events| && IsHeading(events[j].tag) && forall k :: 0 <= k < j ==> !IsHeading(events[k].tag)
    requires events[j].text == Some(heading)
    ensures Run(events[..j + 1], h).Some?
    ensures Run(events[..j + 1], h).value.company == Strip(heading)
  {
    CompanyUnknownBeforeHeadings(events, j, h);
    HeadingFillsCompany(events, j, heading, h);
  }

  /**
   * Without any `title` element, the first heading names the company
   * (unless its text strips to "Unknown Company" itself).
   */
  lemma {:induction false} FirstHeadingNamesCompany(events: seq<Event>, j: nat, heading: string, h: Helpers)
    requires forall k :: 0 <= k < |events| ==> events[k].tag != "title"
    requires j < |events| && IsHeading(events[j].tag) && forall k :: 0 <= k < j ==> !IsHeading(events[k].tag)
    requires events[j].text == Some(heading) && Strip(heading) != UnknownCompany
    requires Run(events, h).Some?
    ensures Run(events, h).value.company == Strip(heading)
  {
    assert Run(events[..j + 1], h).Some? && Run(events[..j + 1], h).value.company == Strip(heading) by {
      FirstHeadingNamesPrefix(events, j, heading, h);
    }
    CompanyStable(events, j + 1, Strip(heading), h);
  }

  /**
   * What one element does to the dict: nothing unless it is a relevant
   * paragraph, which goes under its category.
   */
  lemma {:induction false} StepFiles(w: Walk, e: Event, h: Helpers)
    requires Step(w, e, h).Some?
    ensures
      var w' := Step(w, e, h).value;
      match Relevance(e, h)
      case None => w'.bins == w.bins && w'.order == w.order
      case Some(c) =>
        var filed := File(w, c, Fragment(w.section, ParagraphText(e, h), h.clean));
        w'.bins == filed.bins && w'.order == filed.order
  {
    match Relevance(e, h)
    case None =>
    case Some(c) =>
      assert IsTextBlock(e.tag);
      assert e.tag != "title" && !IsHeading(e.tag);
      assert Step(w, e, h) == Some(File(w, c, Fragment(w.section, ParagraphText(e, h), h.clean)));
  }

  /** Filing one fragment extends only its category's list. */
  lemma {:induction false} FileExtendsOneBin(w: Walk, c: Category, fragment: string)
    ensures forall c' :: Bin(File(w, c, fragment), c') == Bin(w, c') + (if c' == c then [fragment] else [])
  {
  }

  /** Filing one fragment keeps the dict well formed, adding a new category at the end of the key order. */
  lemma {:induction false} FileKeepsWellFormed(w: Walk, c: Category, fragment: string)
    requires WellFormed(w)
    ensures WellFormed(File(w, c, fragment))
    ensures File(w, c, fragment).order == if c in w.order then w.order else w.order + [c]
  {
    var w' := File(w, c, fragment);
    assert forall i :: 0 <= i < |w.order| ==> w.order[i] in w.bins;
    assert forall i :: 0 <= i < |w'.order| ==> w'.order[i] in w'.bins;
  }

  /** The walk's dict stays well formed. */
  lemma {:induction false} RunWellFormed(events: seq<Event>, h: Helpers)
    requires Run(events, h).Some?
    ensures WellFormed(Run(events, h).value)
    decreases |events|
  {
    if events != [] {
      var n := |events| - 1;
      var p := events[..n];
      RunPrefixSucceeds(events, n, h);
      RunWellFormed(p, h);
      var w := Run(p, h).value;
      assert Run(events, h) == Step(w, events[n], h);
      StepFiles(w, events[n], h);
      if Relevance(events[n], h).Some? {
        FileKeepsWellFormed(w, Relevance(events[n], h).value, Fragment(w.section, ParagraphText(events[n], h), h.clean));
      }
    }
  }

  /** The reference filing, one element further. */
  lemma {:induction false} FiledGrows(events: seq<Event>, c: Category, h: Helpers)
    requires events != []
    ensures
      var n := |events| - 1;
      Filed(events, c, h) ==
        Filed(events[..n], c, h)
        + (if Relevance(events[n], h) == Some(c)
           then [Fragment(SectionAfter(events[..n]), ParagraphText(events[n], h), h.clean)]
           else [])
  {
  }

  /** The last element appends its fragment, if any, to its category's list. */
  lemma {:induction false} LastStepBins(events: seq<Event>, h: Helpers)
    requires events != [] && Run(events, h).Some?
    ensures Run(events[..|events| - 1], h).Some?
    ensures
      var n := |events| - 1;
      var w := Run(events[..n], h).value;
      forall c :: Bin(Run(events, h).value, c) ==
                  Bin(w, c) + (if Relevance(events[n], h) == Some(c)
                               then [Fragment(w.section, ParagraphText(events[n], h), h.clean)] else [])
  {
    var n := |events| - 1;
    RunPrefixSucceeds(events, n, h);
    var w := Run(events[..n], h).value;
    assert Run(events, h) == Step(w, events[n], h);
    StepFiles(w, events[n], h);
    if Relevance(events[n], h).Some? {
      FileExtendsOneBin(w, Relevance(events[n], h).value, Fragment(w.section, ParagraphText(events[n], h), h.clean));
    }
  }

  /** The dict holds, under each category, exactly the reference fragments. */
  lemma {:induction false} FilingMatchesReference(events: seq<Event>, h: Helpers)
    requires Run(events, h).Some?
    ensures forall c :: Bin(Run(events, h).value, c) == Filed(events, c, h)
    decreases |events|
  {
    if events != [] {
      var n := |events| - 1;
      var p := events[..n];
      LastStepBins(events, h);
      FilingMatchesReference(p, h);
      SectionIsLastHeading(p, h);
      forall c ensures Bin(Run(events, h).value, c) == Filed(events, c, h) {
        FiledGrows(events, c, h);
      }
    }
  }

  /** The key order after filing under `filed`: a new category goes at the end. */
  function NextOrder(order: seq<Category>, filed: Option<Category>): seq<Category> {
    match filed
    case None => order
    case Some(c) => if c in order then order else order + [c]
  }

  /** A first-appearance order stays one when the next category, if new, goes at the end. */
  lemma {:induction false} FirstAppearanceExtends(filed: seq<Option<Category>>, order: seq<Category>)
    requires filed != [] && IsFirstAppearance(filed[..|filed| - 1], order)
    ensures IsFirstAppearance(filed, NextOrder(order, filed[|filed| - 1]))
  {
    var n := |filed| - 1;
    var order' := NextOrder(order, filed[n]);
    forall i, j | 0 <= i < j < |order'| ensures FirstIndex(filed, order'[i]) < FirstIndex(filed, order'[j]) {
      if j == |order| {
        assert FirstIndex(filed[..n], order[i]) < n;
      }
    }
  }

  /** The last element adds its category, if new, at the end of the key order. */
  lemma {:induction false} LastStepOrder(events: seq<Event>, h: Helpers)
    requires events != [] && Run(events, h).Some?
    ensures Run(events[..|events| - 1], h).Some?
    ensures Run(events, h).value.order ==
            NextOrder(Run(events[..|events| - 1], h).value.order, Relevance(events[|events| - 1], h))
  {
    var n := |events| - 1;
    var p := events[..n];
    RunPrefixSucceeds(events, n, h);
    RunWellFormed(p, h);
    var w := Run(p, h).value;
    assert Run(events, h) == Step(w, events[n], h);
    StepFiles(w, events[n], h);
    match Relevance(events[n], h)
    case None =>
    case Some(c) =>
      FileKeepsWellFormed(w, c, Fragment(w.section, ParagraphText(events[n], h), h.clean));
  }

  lemma FilingsPrefix(events: seq<Event>, h: Helpers)
    requires events != []
    ensures Filings(events, h)[..|events| - 1] == Filings(events[..|events| - 1], h)
  {
    var n := |events| - 1;
    assert forall k :: 0 <= k < n ==> events[..n][k] == events[k];
  }

  /** One more element keeps a first-appearance order one, with its category added if new. */
  lemma OrderStep(events: seq<Event>, h: Helpers, order: seq<Category>, order': seq<Category>)
    requires events != [] && IsFirstAppearance(Filings(events[..|events| - 1], h), order)
    requires order' == NextOrder(order, Relevance(events[|events| - 1], h))
    ensures IsFirstAppearance(Filings(events, h), order')
  {
    FilingsPrefix(events, h);
    FirstAppearanceExtends(Filings(events, h), order);
  }

  /** The dict's key order is the order in which categories first receive a paragraph. */
  lemma {:induction false} OrderIsFirstAppearance(events: seq<Event>, h: Helpers)
    requires Run(events, h).Some?
    ensures IsFirstAppearanceOrder(events, Run(events, h).value.order, h)
    decreases |events|
  {
    if events != [] {
      var n := |events| - 1;
      var p := events[..n];
      LastStepOrder(events, h);
      OrderIsFirstAppearance(p, h);
      OrderStep(events, h, Run(p, h).value.order, Run(events, h).value.order);
    }
  }

  lemma {:induction false} BlocksMatchReference(w: Walk, order: seq<Category>, events: seq<Event>, h: Helpers)
    requires forall c :: Bin(w, c) == Filed(events, c, h)
    ensures BlocksOf(w, order) == ReferenceBlocks(events, order, h)
    decreases |order|
  {
    if order != [] {
      BlocksMatchReference(w, order[1..], events, h);
    }
  }

  lemma {:induction false} JoinOfNonEmptyHead(sep: string, xs: seq<string>)
    requires xs != [] && xs[0] != ""
    ensures Join(sep, xs) != ""
  {
    if |xs| > 1 {
      assert Join(sep, xs)[0] == xs[0][0];
    }
  }

  /**
   * A file that does not raise yields its company, the year found in its
   * text, and a blob made of one block per category in order of first
   * appearance, each block listing that category's fragments.
   */
  lemma {:induction false} ExtractedLayout(f: HtmlFile, h: Helpers)
    requires Extracted(f, h).company.Some?
    ensures f.raw.Some? && Extracted(f, h).year == Some(YearOf(f.raw.value))
    ensures exists order :: && IsFirstAppearanceOrder(f.events, order, h)
                            && Extracted(f, h).blob == Join("\n\n", ReferenceBlocks(f.events, order, h))
  {
    var w := Run(f.events, h).value;
    FilingMatchesReference(f.events, h);
    OrderIsFirstAppearance(f.events, h);
    BlocksMatchReference(w, w.order, f.events, h);
  }

  /** A file yields `(None, None, "")` exactly when the parser raises, the file cannot be read, or a heading has no text. */
  lemma {:induction false} ExtractionFailsIff(f: HtmlFile, h: Helpers)
    ensures Extracted(f, h).company.None? <==>
            (f.parseFails || f.raw.None? || exists i :: TextlessHeadingAt(f.events, i))
    ensures Extracted(f, h).company.None? ==> Extracted(f, h) == Failed
  {
    WalkFailsIffTextlessHeading(f.events, h);
  }

  /** A readable file's blob is empty exactly when none of its paragraphs is relevant. */
  lemma {:induction false} BlobEmptyIffNothingRelevant(f: HtmlFile, h: Helpers)
    requires Extracted(f, h).company.Some?
    ensures Extracted(f, h).blob == "" <==> forall k :: 0 <= k < |f.events| ==> Relevance(f.events[k], h).None?
  {
    var w := Run(f.events, h).value;
    OrderIsFirstAppearance(f.events, h);
    var filed := Filings(f.events, h);
    if w.order != [] {
      JoinOfNonEmptyHead("\n\n", BlocksOf(w, w.order));
      var k := FirstIndex(filed, w.order[0]);
      assert Relevance(f.events[k], h).Some?;
    } else {
      forall k | 0 <= k < |f.events| ensures Relevance(f.events[k], h).None? {
        var c := filed[k].GetOr(GeneralFxRisk);
        assert FirstIndex(filed, c) == |filed|;
        assert filed[k] != Some(c);
      }
    }
  }
}
