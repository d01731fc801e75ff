/**
 * The pure helpers of the qualitative extraction script
 * (3_extract_qualitative_1.py): the keyword tables, the relevance filter,
 * the risk categoriser, the text cleaner, the title parser and the year
 * scanner.
 */
module Extract {
  import opened Wrappers
  import opened Text

  /** FX_KEYWORDS, lower-cased as the script builds it (a set in Python; only membership matters). */
  const FxKeywords: seq<string> := [
    "fx risk", "foreign exchange", "hedging", "currency risk", "exchange rate", "forex", "risk",
    "derivatives", "forward contract", "swap", "options", "currency exposure", "economic exposure",
    "transaction exposure", "translation exposure", "foreign currency", "monetary assets",
    "monetary liabilities", "natural hedge", "synthetic hedge", "risk management"
  ]

  /** The keys of FX_CATEGORIES. */
  datatype Category = TransactionExposure | TranslationExposure | EconomicExposure | GeneralFxRisk {

    /** The key as the script spells it: three with spaces, one with underscores. */
    function Name(): string {
      match this
      case TransactionExposure => "transaction exposure"
      case TranslationExposure => "translation exposure"
      case EconomicExposure => "economic exposure"
      case GeneralFxRisk => "general_fx_risk"
    }

    /** The keyword list the category owns; general_fx_risk owns none. */
    function Keywords(): seq<string> {
      match this
      case TransactionExposure => ["transaction exposure", "contractual exposure", "cash flow exposure"]
      case TranslationExposure => ["translation exposure", "balance sheet exposure"]
      case EconomicExposure => ["economic exposure", "competitive exposure"]
      case GeneralFxRisk => []
    }

    /** Position of the key in the declaration of FX_CATEGORIES. */
    function Rank(): nat {
      match this
      case TransactionExposure => 0
      case TranslationExposure => 1
      case EconomicExposure => 2
      case GeneralFxRisk => 3
    }
  }

  /** FX_CATEGORIES in declaration order (Python dicts iterate in insertion order). */
  const FxCategories: seq<Category> := [TransactionExposure, TranslationExposure, EconomicExposure, GeneralFxRisk]

  /** `any(keyword in text for keyword in keywords)` */
  predicate MentionsAny(text: string, keywords: seq<string>) {
    exists i | 0 <= i < |keywords| :: Contains(text, keywords[i])
  }

  /** The first of `cats` one of whose keywords occurs in `lower`; general_fx_risk when none does. */
  function FirstMatching(lower: string, cats: seq<Category>): Category {
    if cats == [] then GeneralFxRisk
    else if MentionsAny(lower, cats[0].Keywords()) then cats[0]
    else FirstMatching(lower, cats[1..])
  }

  /** The category `categorize_fx_risk` assigns to a paragraph. */
  function Categorize(text: string): Category {
    FirstMatching(Lower(text), FxCategories)
  }

  lemma {:induction false} FirstMatchingFrom(lower: string, k: nat)
    requires k <= |FxCategories|
    ensures var c := FirstMatching(lower, FxCategories[k..]);
      && (c != GeneralFxRisk ==> k <= c.Rank() && MentionsAny(lower, c.Keywords()))
      && (forall j :: k <= j < |FxCategories| && j < c.Rank() ==> !MentionsAny(lower, FxCategories[j].Keywords()))
    decreases |FxCategories| - k
  {
    if k < |FxCategories| {
      var cats := FxCategories[k..];
      assert cats[0] == FxCategories[k] && cats[1..] == FxCategories[k + 1..];
      assert FxCategories[k].Rank() == k;
      if !MentionsAny(lower, cats[0].Keywords()) {
        FirstMatchingFrom(lower, k + 1);
      }
    }
  }

  /**
   * The categoriser is an ordered first match: the category it returns has a
   * keyword in the lower-cased text (unless it is the catch-all), and no
   * category declared before it has one.
   */
  lemma CategorizeIsFirstMatch(text: string)
    ensures var c := Categorize(text);
      && (c != GeneralFxRisk ==> MentionsAny(Lower(text), c.Keywords()))
      && (forall d: Category :: d.Rank() < c.Rank() ==> !MentionsAny(Lower(text), d.Keywords()))
  {
    FirstMatchingFrom(Lower(text), 0);
    var c := Categorize(text);
    forall d: Category | d.Rank() < c.Rank() ensures !MentionsAny(Lower(text), d.Keywords()) {
      assert FxCategories[d.Rank()] == d;
    }
  }

  /** `categorize_fx_risk`: the loop over FX_CATEGORIES with its early return. */
  method CategorizeFxRisk(paragraphText: string) returns (category: Category)
    ensures category == Categorize(paragraphText)
  {
    var lower := Lower(paragraphText);
    var i := 0;
    while i < |FxCategories|
      invariant 0 <= i <= |FxCategories|
      invariant FirstMatching(lower, FxCategories[i..]) == Categorize(paragraphText)
    {
      assert FxCategories[i..][1..] == FxCategories[i + 1..];
      if MentionsAny(lower, FxCategories[i].Keywords()) {
        return FxCategories[i];
      }
      i := i + 1;
    }
    return GeneralFxRisk;
  }

  /** `is_meaningful_and_contains_keywords` */
  predicate IsMeaningful(text: string) {
    && !Contains(text, "http")
    && |Tokens(text)| >= 5
    && MentionsAny(Lower(text), FxKeywords)
  }

  /** The relevance keywords that no other relevance keyword occurs in. */
  const CoreFxKeywords: seq<string> := [
    "foreign exchange", "hedging", "exchange rate", "forex", "risk",
    "derivatives", "forward contract", "swap", "options", "currency exposure", "economic exposure",
    "transaction exposure", "translation exposure", "foreign currency", "monetary assets",
    "monetary liabilities", "natural hedge", "synthetic hedge"
  ]

  /** If `t` occurs in `s` and `u` occurs in `t`, then `u` occurs in `s`. */
  lemma ContainsTransitive(s: string, t: string, u: string)
    requires Contains(s, t) && Contains(t, u)
    ensures Contains(s, u)
  {
    var i :| 0 <= i <= |s| - |t| && OccursAt(s, t, i);
    var j :| 0 <= j <= |t| - |u| && OccursAt(t, u, j);
    forall k | 0 <= k < |u| ensures s[i + j + k] == u[k] {
      assert s[i..i + |t|][j + k] == s[i + j + k];
      assert t[j..j + |u|][k] == t[j + k];
    }
    assert s[i + j..i + j + |u|] == u;
    assert OccursAt(s, u, i + j);
  }

  lemma RiskOccursIn(t: string)
    requires t in ["fx risk", "currency risk", "risk management"]
    ensures Contains(t, "risk")
  {
    if t == "fx risk" {
      assert OccursAt(t, "risk", 3);
    } else if t == "currency risk" {
      assert OccursAt(t, "risk", 9);
    } else {
      assert OccursAt(t, "risk", 0);
    }
  }

  /**
   * Three of the 21 relevance keywords ("fx risk", "currency risk",
   * "risk management") contain the keyword "risk", so the filter accepts
   * exactly the same texts with the 18 others alone.
   */
  lemma RelevanceNeedsOnlyCoreKeywords(text: string)
    ensures IsMeaningful(text) <==>
      && !Contains(text, "http")
      && |Tokens(text)| >= 5
      && MentionsAny(Lower(text), CoreFxKeywords)
  {
    var lower := Lower(text);
    if MentionsAny(lower, FxKeywords) {
      FullKeywordsReduceToCore(lower);
    }
    if MentionsAny(lower, CoreFxKeywords) {
      CoreKeywordsAreFullKeywords(lower);
    }
  }

  lemma FullKeywordsReduceToCore(lower: string)
    requires MentionsAny(lower, FxKeywords)
    ensures MentionsAny(lower, CoreFxKeywords)
  {
    var i :| 0 <= i < |FxKeywords| && Contains(lower, FxKeywords[i]);
    if FxKeywords[i] in CoreFxKeywords {
      var j :| 0 <= j < |CoreFxKeywords| && CoreFxKeywords[j] == FxKeywords[i];
    } else {
      RiskOccursIn(FxKeywords[i]);
      ContainsTransitive(lower, FxKeywords[i], "risk");
      assert CoreFxKeywords[4] == "risk";
    }
  }

  lemma CoreKeywordsAreFullKeywords(lower: string)
    requires MentionsAny(lower, CoreFxKeywords)
    ensures MentionsAny(lower, FxKeywords)
  {
    var i :| 0 <= i < |CoreFxKeywords| && Contains(lower, CoreFxKeywords[i]);
    var j := if i < 2 then i + 1 else i + 2;
    assert FxKeywords[j] == CoreFxKeywords[i];
  }

  /** The labels of the first `re.sub` in `clean_text`, each with its colon. */
  const MetadataLabels: seq<string> := ["Name:", "Namespace Prefix:", "Data Type:", "Balance Type:", "Period Type:"]

  /** The words of the second `re.sub` in `clean_text`. */
  const TrailerWords: seq<string> := ["References", "Details"]

  /** Markers that a `\b` in front of them can match: non-empty and starting with a word character. */
  predicate WordMarkers(markers: seq<string>) {
    forall i :: 0 <= i < |markers| ==> markers[i] != [] && IsWordChar(markers[i][0])
  }

  /** Some marker is a prefix of `s`. */
  predicate StartsWithAny(s: string, markers: seq<string>) {
    exists i | 0 <= i < |markers| :: markers[i] <= s
  }

  /** Where `.*` stops: the index of the first newline, or the end of the string. */
  function LineEnd(s: string): (n: nat)
    ensures n <= |s| && (n < |s| ==> s[n] == '\n')
    ensures forall i :: 0 <= i < n ==> s[i] != '\n'
  {
    if s == [] || s[0] == '\n' then 0 else 1 + LineEnd(s[1..])
  }

  /** How many newlines `s` holds. */
  function Newlines(s: string): nat {
    multiset(s)['\n']
  }

  lemma NewlinesSplit(s: string, k: nat)
    requires k <= |s|
    ensures Newlines(s) == Newlines(s[..k]) + Newlines(s[k..])
  {
    assert s == s[..k] + s[k..];
  }

  lemma ConsNewlines(s: string, rest: string)
    requires s != [] && Newlines(rest) == Newlines(s[1..])
    ensures Newlines([s[0]] + rest) == Newlines(s)
  {
    assert s == [s[0]] + s[1..];
  }

  lemma NoNewlines(s: string)
    requires forall i :: 0 <= i < |s| ==> s[i] != '\n'
    ensures Newlines(s) == 0
  {
    if s != [] {
      NoNewlines(s[1..]);
      assert s == [s[0]] + s[1..];
    }
  }

  /**
   * One pass of `re.sub(r'\b(m1|m2|...).*', '', s)`, scanning left to right:
   * wherever a marker starts at a word boundary, everything from it up to
   * (not including) the next newline is deleted. `afterWord` says whether the
   * character just before `s` in the original text is a word character, which
   * is what `\b` looks at. Since `.` never matches a newline, no newline is
   * ever deleted and every line stays a line.
   */
  function CutMarkedLines(s: string, markers: seq<string>, afterWord: bool): (r: string)
    requires WordMarkers(markers)
    ensures |r| <= |s|
    ensures Newlines(r) == Newlines(s)
    decreases |s|
  {
    if s == [] then []
    else if !afterWord && StartsWithAny(s, markers) then
      var m :| 0 <= m < |markers| && markers[m] <= s;
      assert s[0] == markers[m][0];
      var k := LineEnd(s);
      var r := CutMarkedLines(s[k..], markers, IsWordChar(s[k - 1]));
      NewlinesSplit(s, k);
      NoNewlines(s[..k]);
      r
    else
      var r := [s[0]] + CutMarkedLines(s[1..], markers, IsWordChar(s[0]));
      NewlinesSplit(s, 1);
      NewlinesSplit(r, 1);
      assert r[1..] == CutMarkedLines(s[1..], markers, IsWordChar(s[0]));
      r
  }

  /** Length of the leading run of digits. */
  function DigitRun(s: string): (n: nat)
    ensures n <= |s| && (n < |s| ==> !IsDigit(s[n]))
    ensures forall i :: 0 <= i < n ==> IsDigit(s[i])
  {
    if s == [] || !IsDigit(s[0]) then 0 else 1 + DigitRun(s[1..])
  }

  /** `Page \d+` matches at the start of `s`. */
  predicate PageNumberAhead(s: string) {
    "Page " <= s && |s| > 5 && IsDigit(s[5])
  }

  lemma PageMarkerKeepsNewlines(s: string)
    requires PageNumberAhead(s)
    ensures 5 + DigitRun(s[5..]) <= |s|
    ensures Newlines(s) == Newlines(s[5 + DigitRun(s[5..])..])
  {
    var k := 5 + DigitRun(s[5..]);
    assert s[..5] == "Page ";
    NewlinesSplit(s, k);
    NoNewlines(s[..k]);
  }

  /** `re.sub(r'Page \d+', '', s)`: every page marker and its whole number are deleted. */
  function DropPageNumbers(s: string): (r: string)
    ensures |r| <= |s|
    ensures Newlines(r) == Newlines(s)
    decreases |s|
  {
    if s == [] then []
    else if PageNumberAhead(s) then
      var k := 5 + DigitRun(s[5..]);
      PageMarkerKeepsNewlines(s);
      DropPageNumbers(s[k..])
    else
      var rest := DropPageNumbers(s[1..]);
      ConsNewlines(s, rest);
      [s[0]] + rest
  }

  /**
   * `clean_text`: the metadata lines, the reference and detail trailers and
   * the page numbers are cut, then whitespace is normalised. The result never
   * starts or ends with whitespace, holds no two adjacent whitespace
   * characters and no newline, and is never longer than the input.
   */
  function CleanText(text: string): (r: string)
    ensures Trimmed(r) && SingleSpaced(r)
    ensures '\n' !in r
    ensures |r| <= |text|
  {
    var a := CutMarkedLines(text, MetadataLabels, false);
    var b := CutMarkedLines(a, TrailerWords, false);
    var c := DropPageNumbers(b);
    Normalize(c)
  }

  /** The prefix of `s` before its first `-`: `s.split("-")[0]`. */
  function BeforeFirstDash(s: string): (r: string)
    ensures r <= s && '-' !in r
    ensures |r| < |s| ==> s[|r|] == '-'
  {
    if s == [] || s[0] == '-' then [] else [s[0]] + BeforeFirstDash(s[1..])
  }

  /** `d` is the index of the first `-` in `s`, or `|s|` when there is none. */
  predicate FirstDash(s: string, d: int) {
    0 <= d <= |s| && (d < |s| ==> s[d] == '-') && forall j :: 0 <= j < d ==> s[j] != '-'
  }

  /** A strip of the part before the first dash is a strip of everything up to that dash, and has no dash. */
  lemma DashFreeStrip(t: string, p: string, r: string)
    requires p <= t && '-' !in p && (|p| < |t| ==> t[|p|] == '-')
    requires IsStripOf(r, p)
    ensures '-' !in r && forall d :: FirstDash(t, d) ==> IsStripOf(r, t[..d])
  {
    forall d | FirstDash(t, d) ensures t[..d] == p {
      assert d == |p|;
    }
    var k :| SpacesAround(p, r, k);
    forall i | 0 <= i < |r| ensures r[i] != '-' {
      assert r[i] == p[k + i];
    }
  }

  /**
   * `extract_company_name_from_title`: a missing or empty title gives
   * "Unknown Company"; otherwise the text before the first `-` (a bare dash,
   * not " - "), stripped.
   */
  function CompanyNameFromTitle(title: Option<string>): (r: string)
    ensures title.None? || title == Some("") ==> r == "Unknown Company"
    ensures title.Some? && title.value != "" ==>
      '-' !in r && forall d :: FirstDash(title.value, d) ==> IsStripOf(r, title.value[..d])
  {
    match title
    case None => "Unknown Company"
    case Some(t) =>
      if t == "" then "Unknown Company"
      else
        var p := BeforeFirstDash(t);
        var r := Strip(p);
        DashFreeStrip(t, p, r);
        r
  }

  /** `(\b19|\b20)\d{2}` matches at index `i` of `s`. */
  predicate YearAt(s: string, i: int) {
    && 0 <= i && i + 4 <= |s|
    && (i == 0 || !IsWordChar(s[i - 1]))
    && ((s[i] == '1' && s[i + 1] == '9') || (s[i] == '2' && s[i + 1] == '0'))
    && IsDigit(s[i + 2]) && IsDigit(s[i + 3])
  }

  /** `re.search` for the year pattern from index `from` on. */
  function FindYear(s: string, from: nat): (r: Option<nat>)
    ensures r.Some? ==> from <= r.value && YearAt(s, r.value)
    ensures r.Some? ==> forall j :: from <= j < r.value ==> !YearAt(s, j)
    ensures r.None? ==> forall j :: from <= j ==> !YearAt(s, j)
    decreases |s| - from
  {
    if from + 4 > |s| then None
    else if YearAt(s, from) then Some(from)
    else FindYear(s, from + 1)
  }

  /**
   * `extract_year_from_file` on the file's text: the leftmost match of
   * `(\b19|\b20)\d{2}` (a word boundary before the digits only), or
   * "Unknown Year" when there is none.
   */
  function YearOf(text: string): (r: string)
    ensures r == "Unknown Year" <==> forall i :: !YearAt(text, i)
    ensures r != "Unknown Year" ==>
      exists i :: YearAt(text, i) && r == text[i..i + 4] && forall j :: 0 <= j < i ==> !YearAt(text, j)
  {
    match FindYear(text, 0)
    case None => "Unknown Year"
    case Some(i) =>
      assert text[i..i + 4][0] != 'U';
      text[i..i + 4]
  }
}
