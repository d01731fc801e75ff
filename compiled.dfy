/**
 * `6_compiled_document.py`: pulling labelled values out of the text of an
 * analysis report and compiling one row per report.
 *
 * PDF text extraction is not modelled: a report is given with its text.
 */
module Compiled {
  import opened Wrappers
  import opened Text

  /** What `extract_value` returns when `str.index` raises. */
  const NotFound := "No Information/Not Found"

  /** No character of `s` is a newline. */
  predicate SingleLine(s: string) {
    forall i :: 0 <= i < |s| ==> s[i] != '\n'
  }

  lemma StripKeepsSingleLine(s: string)
    requires SingleLine(s)
    ensures SingleLine(Strip(s))
  {
    var r := Strip(s);
    var k :| SpacesAround(s, r, k);
    forall i | 0 <= i < |r|
      ensures r[i] != '\n'
    {
      assert r[i] == s[k + i];
    }
  }

  /**
   * The `text[start:end]` of `extract_value`: from the end of the first
   * occurrence of `caption` up to the first newline after it; `None` when
   * either `str.index` raises.
   */
  function ValueLine(text: string, caption: string): (r: Option<string>)
    ensures r.Some? ==> SingleLine(r.value)
  {
    match IndexFrom(text, caption, 0)
    case None => None
    case Some(p) =>
      match IndexFrom(text, "\n", p + |caption|)
      case None => None
      case Some(q) =>
        var line := text[p + |caption|..q];
        assert SingleLine(line) by {
          forall i | 0 <= i < |line|
            ensures line[i] != '\n'
          {
            assert !OccursAt(text, "\n", p + |caption| + i);
          }
        }
        Some(line)
  }

  /** `extract_value`: the line after `caption`, stripped; `NotFound` when there is none. */
  function ExtractValue(text: string, caption: string): (r: string)
    ensures r == NotFound || (Trimmed(r) && SingleLine(r))
  {
    match ValueLine(text, caption)
    case None => NotFound
    case Some(line) =>
      StripKeepsSingleLine(line);
      Strip(line)
  }

  /** `p` is the first occurrence of `caption` in `text`. */
  predicate FirstAt(text: string, caption: string, p: int) {
    OccursAt(text, caption, p) && forall j :: 0 <= j < p ==> !OccursAt(text, caption, j)
  }

  /** `str.index` finds the first occurrence. */
  lemma IndexFindsFirst(text: string, caption: string, start: nat, p: nat)
    requires start <= p && OccursAt(text, caption, p)
    requires forall j :: start <= j < p ==> !OccursAt(text, caption, j)
    ensures IndexFrom(text, caption, start) == Some(p)
  {
  }

  /** A newline occurs at `j` exactly when the character there is one. */
  lemma NewlineAt(text: string, j: int)
    ensures OccursAt(text, "\n", j) <==> 0 <= j < |text| && text[j] == '\n'
  {
    if 0 <= j < |text| {
      assert text[j..j + 1] == [text[j]];
    }
  }

  /** `str.index("\n", start)` finds the first newline at or after `start`. */
  lemma FirstNewline(text: string, start: nat, q: nat)
    requires start <= q < |text| && text[q] == '\n'
    requires forall j :: start <= j < q ==> text[j] != '\n'
    ensures IndexFrom(text, "\n", start) == Some(q)
  {
    NewlineAt(text, q);
    forall j | start <= j < q
      ensures !OccursAt(text, "\n", j)
    {
      NewlineAt(text, j);
    }
    IndexFindsFirst(text, "\n", start, q);
  }

  /** When `caption` first ends at `p + |caption|` and the next newline is at `q`, the value is what lies between, stripped. */
  lemma ExtractValueFound(text: string, caption: string, p: nat, q: nat)
    requires FirstAt(text, caption, p)
    requires p + |caption| <= q < |text| && text[q] == '\n'
    requires forall j :: p + |caption| <= j < q ==> text[j] != '\n'
    ensures ExtractValue(text, caption) == Strip(text[p + |caption|..q])
  {
    IndexFindsFirst(text, caption, 0, p);
    FirstNewline(text, p + |caption|, q);
    ExtractValueAt(text, caption, p, q);
  }

  lemma ExtractValueAt(text: string, caption: string, p: nat, q: nat)
    requires IndexFrom(text, caption, 0) == Some(p)
    requires IndexFrom(text, "\n", p + |caption|) == Some(q)
    ensures ExtractValue(text, caption) == Strip(text[p + |caption|..q])
  {
    assert ValueLine(text, caption) == Some(text[p + |caption|..q]);
  }

  /** A caption that does not occur gives `NotFound`. */
  lemma ExtractValueAbsent(text: string, caption: string)
    requires !Contains(text, caption)
    ensures ExtractValue(text, caption) == NotFound
  {
    assert IndexFrom(text, caption, 0).None?;
    assert ValueLine(text, caption).None?;
  }

  /** A caption with no newline after it gives `NotFound`. */
  lemma ExtractValueUnterminated(text: string, caption: string, p: nat)
    requires FirstAt(text, caption, p)
    requires forall j :: p + |caption| <= j < |text| ==> text[j] != '\n'
    ensures ExtractValue(text, caption) == NotFound
  {
    IndexFindsFirst(text, caption, 0, p);
    forall j | p + |caption| <= j
      ensures !OccursAt(text, "\n", j)
    {
      NewlineAt(text, j);
    }
    assert IndexFrom(text, "\n", p + |caption|).None?;
    assert ValueLine(text, caption).None?;
  }

  /** A value as `extract_value` leaves it: the sentinel, or one line without surrounding whitespace. */
  predicate IsCleanValue(v: string) {
    v == NotFound || (Trimmed(v) && SingleLine(v))
  }

  /** The dict built by `parse_fx_risk_analysis`: its 24 keys, in order. */
  datatype Report = Report(
    company: string,
    category: string,
    subCategory: string,
    overallRating: string,
    hedgingRatio: string,
    bestScenarioNumber: string,
    bestScenarioText: string,
    worstScenarioNumber: string,
    worstScenarioText: string,
    likelyScenarioNumber: string,
    likelyScenarioText: string,
    translationalRating: string,
    translationalReason: string,
    transactionalRating: string,
    transactionalReason: string,
    economicCategory: string,
    economicReason: string,
    distributionOfRevenueByCurrency: string,
    hedgingStrategyType: string,
    mitigationStrategies: string,
    fxSensitivityAnalysis: string,
    industryBenchmarking: string,
    historicalFxImpact: string,
    realTimeDataIntegration: string)
  {
    /** The values in key order, as they become the CSV columns. */
    function Values(): seq<string> {
      [company, category, subCategory, overallRating, hedgingRatio,
       bestScenarioNumber, bestScenarioText, worstScenarioNumber, worstScenarioText,
       likelyScenarioNumber, likelyScenarioText, translationalRating, translationalReason,
       transactionalRating, transactionalReason, economicCategory, economicReason,
       distributionOfRevenueByCurrency, hedgingStrategyType, mitigationStrategies,
       fxSensitivityAnalysis, industryBenchmarking, historicalFxImpact, realTimeDataIntegration]
    }

    /** Every value is as `extract_value` leaves it. */
    predicate AllClean() {
      && IsCleanValue(company) && IsCleanValue(category) && IsCleanValue(subCategory)
      && IsCleanValue(overallRating) && IsCleanValue(hedgingRatio)
      && IsCleanValue(bestScenarioNumber) && IsCleanValue(bestScenarioText)
      && IsCleanValue(worstScenarioNumber) && IsCleanValue(worstScenarioText)
      && IsCleanValue(likelyScenarioNumber) && IsCleanValue(likelyScenarioText)
      && IsCleanValue(translationalRating) && IsCleanValue(translationalReason)
      && IsCleanValue(transactionalRating) && IsCleanValue(transactionalReason)
      && IsCleanValue(economicCategory) && IsCleanValue(economicReason)
      && IsCleanValue(distributionOfRevenueByCurrency) && IsCleanValue(hedgingStrategyType)
      && IsCleanValue(mitigationStrategies) && IsCleanValue(fxSensitivityAnalysis)
      && IsCleanValue(industryBenchmarking) && IsCleanValue(historicalFxImpact)
      && IsCleanValue(realTimeDataIntegration)
    }
  }

  /** The captions that more than one key is read after. */
  const Assessment := "Assessment"
  const HedgingRatio := "Hedging Ratio"

  /** The captions of `Category` and `Sub-Category`; the first is a suffix of the second. */
  const CategoryCaption := "Category:"
  const SubCategoryCaption := "Sub-Category:"

  /** The label each key of the dict literal is read after, in key order. */
  const Captions: seq<string> := [
    "Company:", CategoryCaption, SubCategoryCaption, "Overall FX Risk Rating", HedgingRatio,
    "Best-Case Scenario", "Best-Case Scenario Impact", "Worst-Case Scenario", "Worst-Case Scenario Impact",
    "Most Likely Scenario", "Most Likely Scenario Impact", "Translational Risk", Assessment,
    "Transactional Risk", Assessment, "Economic Risk", Assessment,
    "Key Currencies Exposure", HedgingRatio, "Mitigation Strategies",
    "Sensitivity Analysis", "Industry Benchmarking", "Historical Data Analysis", "Real-Time Data Integration"
  ]

  /** Where the shared captions sit among the keys. */
  lemma SharedCaptionPositions()
    ensures Captions[12] == Captions[14] == Captions[16] == Assessment
    ensures Captions[4] == Captions[18] == HedgingRatio
    ensures Captions[1] == CategoryCaption && Captions[2] == SubCategoryCaption
  {
  }

  /** `extract_value(text, c)` for each caption `c`, in order. */
  function ReadValues(text: string, captions: seq<string>): (r: seq<string>)
    ensures |r| == |captions|
    ensures forall i :: 0 <= i < |r| ==> IsCleanValue(r[i])
  {
    if captions == [] then [] else [ExtractValue(text, captions[0])] + ReadValues(text, captions[1..])
  }

  lemma {:induction false} ReadValuesAt(text: string, captions: seq<string>, i: nat)
    requires i < |captions|
    ensures ReadValues(text, captions)[i] == ExtractValue(text, captions[i])
  {
    if i > 0 {
      ReadValuesAt(text, captions[1..], i - 1);
    }
  }

  /** `parse_fx_risk_analysis`: the 24 values, each read after its own caption. */
  function ParseFxRiskAnalysis(text: string): Report {
    var v := ReadValues(text, Captions);
    Report(v[0], v[1], v[2], v[3], v[4], v[5], v[6], v[7], v[8], v[9], v[10], v[11],
           v[12], v[13], v[14], v[15], v[16], v[17], v[18], v[19], v[20], v[21], v[22], v[23])
  }

  /** Every value of a parsed report is the sentinel or one stripped line. */
  lemma ParsedValuesAreClean(text: string)
    ensures ParseFxRiskAnalysis(text).AllClean()
  {
  }

  /**
   * The three `*_Reason` keys all read "Assessment", so they always agree;
   * `Hedging_Strategy_Type` reads "Hedging Ratio", so it always equals
   * `Hedging_Ratio`.
   */
  lemma SharedCaptionsAgree(text: string)
    ensures ParseFxRiskAnalysis(text).translationalReason == ParseFxRiskAnalysis(text).transactionalReason
    ensures ParseFxRiskAnalysis(text).transactionalReason == ParseFxRiskAnalysis(text).economicReason
    ensures ParseFxRiskAnalysis(text).hedgingStrategyType == ParseFxRiskAnalysis(text).hedgingRatio
  {
    SharedCaptionPositions();
    ReadValuesAt(text, Captions, 12);
    ReadValuesAt(text, Captions, 14);
    ReadValuesAt(text, Captions, 16);
    ReadValuesAt(text, Captions, 4);
    ReadValuesAt(text, Captions, 18);
  }

  /** A report built from 24 values lists them back in key order. */
  lemma ValuesInOrder(v: seq<string>)
    requires |v| == 24
    ensures Report(v[0], v[1], v[2], v[3], v[4], v[5], v[6], v[7], v[8], v[9], v[10], v[11],
                   v[12], v[13], v[14], v[15], v[16], v[17], v[18], v[19], v[20], v[21], v[22], v[23]).Values() == v
  {
  }

  /** Each value is read after its own caption, in key order. */
  lemma ParsedInKeyOrder(text: string)
    ensures |ParseFxRiskAnalysis(text).Values()| == |Captions|
    ensures forall i :: 0 <= i < |Captions| ==>
      ParseFxRiskAnalysis(text).Values()[i] == ExtractValue(text, Captions[i])
  {
    ValuesInOrder(ReadValues(text, Captions));
    forall i | 0 <= i < |Captions|
      ensures ParseFxRiskAnalysis(text).Values()[i] == ExtractValue(text, Captions[i])
    {
      ReadValuesAt(text, Captions, i);
    }
  }

  /**
   * "Category:" is a suffix of "Sub-Category:": when the first "Category:"
   * in the text is the one inside the first "Sub-Category:", the
   * `Category` value repeats the `Sub-Category` value.
   */
  lemma CategoryCanReadSubCategory(text: string, p: nat)
    requires FirstAt(text, SubCategoryCaption, p)
    requires FirstAt(text, CategoryCaption, p + 4)
    ensures ParseFxRiskAnalysis(text).category == ParseFxRiskAnalysis(text).subCategory
  {
    IndexFindsFirst(text, SubCategoryCaption, 0, p);
    IndexFindsFirst(text, CategoryCaption, 0, p + 4);
    SharedCaptionPositions();
    ReadValuesAt(text, Captions, 1);
    ReadValuesAt(text, Captions, 2);
    assert p + |SubCategoryCaption| == (p + 4) + |CategoryCaption|;
  }

  /** A file met by `os.walk`: the directory it lies in, its name and the text of the PDF. */
  datatype PdfFile = PdfFile(root: string, name: string, text: string)

  predicate IsPdf(f: PdfFile) {
    |".pdf"| <= |f.name| && f.name[|f.name| - |".pdf"|..] == ".pdf"
  }

  /** `os.path.basename`: what follows the last `/`. */
  function Basename(path: string): (r: string)
    ensures |r| <= |path| && r == path[|path| - |r|..]
    ensures '/' !in r
    ensures |r| < |path| ==> path[|path| - |r| - 1] == '/'
  {
    if path == [] || path[|path| - 1] == '/' then []
    else
      var r := Basename(path[..|path| - 1]) + [path[|path| - 1]];
      assert path[..|path| - 1] + [path[|path| - 1]] == path;
      r
  }

  /** The row of one report: the parsed values, with `Company` replaced by the folder's name. */
  function ReportRow(f: PdfFile): Report {
    ParseFxRiskAnalysis(f.text).(company := Basename(f.root))
  }

  /** The `.pdf` files among `files`, in traversal order. */
  function Pdfs(files: seq<PdfFile>): (r: seq<PdfFile>)
    ensures forall k :: 0 <= k < |r| ==> IsPdf(r[k]) && r[k] in files
    decreases |files|
  {
    if files == [] then []
    else
      var init := Pdfs(files[..|files| - 1]);
      if IsPdf(files[|files| - 1]) then init + [files[|files| - 1]] else init
  }

  /** The rows of `data` after the loop over `files`. */
  function CompiledRows(files: seq<PdfFile>): seq<Report>
    decreases |files|
  {
    if files == [] then []
    else
      var init := CompiledRows(files[..|files| - 1]);
      if IsPdf(files[|files| - 1]) then init + [ReportRow(files[|files| - 1])] else init
  }

  /** One more file adds its row when it is a `.pdf` and nothing otherwise. */
  lemma CompiledRowsStep(files: seq<PdfFile>, i: nat)
    requires i < |files|
    ensures IsPdf(files[i]) ==> CompiledRows(files[..i + 1]) == CompiledRows(files[..i]) + [ReportRow(files[i])]
    ensures !IsPdf(files[i]) ==> CompiledRows(files[..i + 1]) == CompiledRows(files[..i])
  {
    assert files[..i + 1][..i] == files[..i];
  }

  /** The loop of `process_all_pdfs` that builds `data`. */
  method ProcessAllPdfs(files: seq<PdfFile>) returns (data: seq<Report>)
    ensures data == CompiledRows(files)
  {
    data := [];
    for i := 0 to |files|
      invariant data == CompiledRows(files[..i])
    {
      CompiledRowsStep(files, i);
      var file := files[i];
      if IsPdf(file) {
        var companyInfo := ParseFxRiskAnalysis(file.text);
        companyInfo := companyInfo.(company := Basename(file.root));
        data := data + [companyInfo];
      }
    }
    assert files[..|files|] == files;
  }

  /**
   * One row per `.pdf` file, in traversal order; each row's `Company` is the
   * name of the report's folder and every other value is read from the
   * report's text.
   */
  lemma RowsFollowReports(files: seq<PdfFile>)
    ensures |CompiledRows(files)| == |Pdfs(files)|
    ensures forall k :: 0 <= k < |Pdfs(files)| ==>
      CompiledRows(files)[k] == ParseFxRiskAnalysis(Pdfs(files)[k].text).(company := Basename(Pdfs(files)[k].root))
  {
    RowsMatchPdfs(files);
    forall k | 0 <= k < |Pdfs(files)|
      ensures CompiledRows(files)[k] == ParseFxRiskAnalysis(Pdfs(files)[k].text).(company := Basename(Pdfs(files)[k].root))
    {
      assert CompiledRows(files)[k] == ReportRow(Pdfs(files)[k]);
    }
  }

  /** Row `k` is the row of the `k`th `.pdf` file. */
  lemma {:induction false} RowsMatchPdfs(files: seq<PdfFile>)
    ensures |CompiledRows(files)| == |Pdfs(files)|
    ensures forall k :: 0 <= k < |Pdfs(files)| ==> CompiledRows(files)[k] == ReportRow(Pdfs(files)[k])
    decreases |files|
  {
    if files != [] {
      var n := |files| - 1;
      var init := files[..n];
      RowsMatchPdfs(init);
      if IsPdf(files[n]) {
        assert CompiledRows(files) == CompiledRows(init) + [ReportRow(files[n])];
        assert Pdfs(files) == Pdfs(init) + [files[n]];
        ImageSnoc(CompiledRows(init), Pdfs(init), ReportRow, files[n]);
      } else {
        assert CompiledRows(files) == CompiledRows(init);
        assert Pdfs(files) == Pdfs(init);
      }
    }
  }

  /** Appending `y` and its image keeps a list the pointwise image of another. */
  lemma ImageSnoc<A, B>(xs: seq<A>, ys: seq<B>, g: B -> A, y: B)
    requires |xs| == |ys| && forall k :: 0 <= k < |ys| ==> xs[k] == g(ys[k])
    ensures |xs + [g(y)]| == |ys + [y]|
    ensures forall k :: 0 <= k < |ys + [y]| ==> (xs + [g(y)])[k] == g((ys + [y])[k])
  {
  }
}
