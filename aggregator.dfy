/**
 * `process_html_files`: for every company directory not yet processed, the
 * non-empty blobs of its `.html` files are collected in a set, and when the
 * set is non-empty they are joined into one text file named after the last
 * file processed.
 *
 * The file system is values: the input directory is a listing of entries
 * (each a company directory with the files `os.walk` yields under it, in
 * traversal order, or a plain file), the output side is the set of company
 * directories that exist and a map from (company directory, file name) to
 * the text written there. The method also returns the log of the files it
 * extracted, as (company, file name) pairs, in the order it extracted them.
 */
module Aggregator {
  import opened Wrappers
  import opened Text
  import opened Walker
  import opened Sets

  /** One entry of `os.listdir(directory)`; `tree` is None when the entry is not a directory. */
  datatype Entry = Entry(name: string, tree: Option<seq<HtmlFile>>)

  /** A file in the output side: (company directory, file name). */
  type OutputKey = (string, string)

  predicate EndsWith(s: string, suffix: string) {
    |suffix| <= |s| && s[|s| - |suffix|..] == suffix
  }

  predicate IsHtml(f: HtmlFile) {
    EndsWith(f.name, ".html")
  }

  /** How an f-string renders an optional value: `None` becomes `"None"`. */
  function Show(v: Option<string>): string {
    match v
    case None => "None"
    case Some(s) => s
  }

  /** `f"{company_name}_{document_year}_fx_risk_text.txt"` */
  function OutputName(r: FileResult): string {
    Show(r.company) + "_" + Show(r.year) + "_fx_risk_text.txt"
  }

  /** The result of the last `.html` file among `files`, None when there is none. */
  function LastHtmlResult(files: seq<HtmlFile>, extract: HtmlFile -> FileResult): Option<FileResult>
    decreases |files|
  {
    if files == [] then None
    else if IsHtml(files[|files| - 1]) then Some(extract(files[|files| - 1]))
    else LastHtmlResult(files[..|files| - 1], extract)
  }

  /** `all_fx_paragraphs` after the loop over `files`. */
  function BlobSet(files: seq<HtmlFile>, extract: HtmlFile -> FileResult): (r: set<string>)
    ensures r != {} ==> LastHtmlResult(files, extract).Some?
    decreases |files|
  {
    if files == [] then {}
    else
      var f := files[|files| - 1];
      var earlier := BlobSet(files[..|files| - 1], extract);
      var blob := extract(f).blob;
      if IsHtml(f) && blob != "" then earlier + {blob} else earlier
  }

  /** The files of one company that get extracted, in order. */
  function FilesLog(company: string, files: seq<HtmlFile>): seq<OutputKey>
    decreases |files|
  {
    if files == [] then []
    else
      var f := files[|files| - 1];
      FilesLog(company, files[..|files| - 1]) + (if IsHtml(f) then [(company, f.name)] else [])
  }

  /** The company was processed before: its output directory exists. */
  predicate Skipped(e: Entry, existing: set<string>) {
    e.name in existing
  }

  /** The blobs collected for an entry: none for a skipped entry or a plain file. */
  function Collected(e: Entry, existing: set<string>, extract: HtmlFile -> FileResult): set<string> {
    if Skipped(e, existing) || e.tree.None? then {} else BlobSet(e.tree.value, extract)
  }

  /** The entry gets an output file. */
  predicate Writes(e: Entry, existing: set<string>, extract: HtmlFile -> FileResult) {
    Collected(e, existing, extract) != {}
  }

  /** Where the entry's output goes. */
  function OutputOf(e: Entry, existing: set<string>, extract: HtmlFile -> FileResult): OutputKey
    requires Writes(e, existing, extract)
  {
    (e.name, OutputName(LastHtmlResult(e.tree.value, extract).value))
  }

  /** The files extracted for an entry. */
  function EntryLog(e: Entry, existing: set<string>): seq<OutputKey> {
    if Skipped(e, existing) || e.tree.None? then [] else FilesLog(e.name, e.tree.value)
  }

  /**
   * `extract` is the walker's extraction for this `unescape`. The run is
   * specified in terms of `extract`, a function value, so that stating an
   * entry's outcome does not unfold the walk of each of its files.
   */
  ghost predicate IsWalker(extract: HtmlFile -> FileResult, unescape: string -> string) {
    forall f {:trigger Extracted(f, Script(unescape))} :: extract(f) == Extracted(f, Script(unescape))
  }

  /** `"\n\n".join(blobs)`: the blobs joined in some order, each exactly once. */
  ghost predicate IsCombination(text: string, blobs: set<string>) {
    exists xs :: IsOrdering(xs, blobs) && text == Join("\n\n", xs)
  }

  /** What an entry writes: the file it creates and the blobs that file combines; None when it writes nothing. */
  function Outcome(e: Entry, existing: set<string>, extract: HtmlFile -> FileResult): (r: Option<(OutputKey, set<string>)>)
    ensures r.Some? <==> Writes(e, existing, extract)
    ensures r.Some? ==> r.value.0.0 == e.name && r.value.1 != {} && e.name !in existing
  {
    if Writes(e, existing, extract) then Some((OutputOf(e, existing, extract), Collected(e, existing, extract))) else None
  }

  /** The outcome of every entry, judged against the directories that existed before the run. */
  function Outcomes(listing: seq<Entry>, existing: set<string>, extract: HtmlFile -> FileResult): (r: seq<Option<(OutputKey, set<string>)>>)
    ensures |r| == |listing|
    decreases |listing|
  {
    if listing == [] then []
    else Outcomes(listing[..|listing| - 1], existing, extract) + [Outcome(listing[|listing| - 1], existing, extract)]
  }

  /** Each outcome that writes names its own entry's directory. */
  lemma {:induction false} OutcomesNamed(listing: seq<Entry>, existing: set<string>, extract: HtmlFile -> FileResult)
    ensures forall j :: 0 <= j < |listing| && Outcomes(listing, existing, extract)[j].Some? ==>
      Outcomes(listing, existing, extract)[j].value.0.0 == listing[j].name
    decreases |listing|
  {
    if listing != [] {
      var init := listing[..|listing| - 1];
      OutcomesNamed(init, existing, extract);
      var r := Outcomes(listing, existing, extract);
      var earlier := Outcomes(init, existing, extract);
      assert forall j :: 0 <= j < |init| ==> r[j] == earlier[j] && listing[j] == init[j];
    }
  }

  /** Entry `j`'s outcome is the `j`-th of the run. */
  lemma {:induction false} OutcomeAt(listing: seq<Entry>, existing: set<string>, extract: HtmlFile -> FileResult, j: nat)
    requires j < |listing|
    ensures Outcomes(listing, existing, extract)[j] == Outcome(listing[j], existing, extract)
    decreases |listing|
  {
    if j < |listing| - 1 {
      var init := listing[..|listing| - 1];
      OutcomeAt(init, existing, extract, j);
      assert init[j] == listing[j];
    }
  }

  /** Output directories created by a run with these outcomes. */
  function WrittenCompanies(outcomes: seq<Option<(OutputKey, set<string>)>>): set<string>
    decreases |outcomes|
  {
    if outcomes == [] then {}
    else
      var o := outcomes[|outcomes| - 1];
      WrittenCompanies(outcomes[..|outcomes| - 1]) + (if o.Some? then {o.value.0.0} else {})
  }

  /** Output files created by a run with these outcomes. */
  function WrittenFiles(outcomes: seq<Option<(OutputKey, set<string>)>>): set<OutputKey>
    decreases |outcomes|
  {
    if outcomes == [] then {}
    else
      var o := outcomes[|outcomes| - 1];
      WrittenFiles(outcomes[..|outcomes| - 1]) + (if o.Some? then {o.value.0} else {})
  }

  /** The files extracted by the run over `listing`, in order. */
  function RunLog(listing: seq<Entry>, existing: set<string>): seq<OutputKey>
    decreases |listing|
  {
    if listing == [] then []
    else RunLog(listing[..|listing| - 1], existing) + EntryLog(listing[|listing| - 1], existing)
  }

  /** `os.listdir` never lists a name twice. */
  predicate DistinctNames(listing: seq<Entry>) {
    forall i, j :: 0 <= i < j < |listing| ==> listing[i].name != listing[j].name
  }

  /** Every output file lies in an output directory that exists. */
  predicate FilesInDirectories(existing: set<string>, outputs: map<OutputKey, string>) {
    forall k :: k in outputs ==> k.0 in existing
  }

  /** The inner loop over the files of one company directory. */
  method CollectBlobs(company: string, files: seq<HtmlFile>, unescape: string -> string, ghost extract: HtmlFile -> FileResult)
    returns (blobs: set<string>, last: Option<FileResult>, log: seq<OutputKey>)
    requires IsWalker(extract, unescape)
    ensures blobs == BlobSet(files, extract)
    ensures last == LastHtmlResult(files, extract)
    ensures log == FilesLog(company, files)
  {
    blobs, last, log := {}, None, [];
    for i := 0 to |files|
      invariant blobs == BlobSet(files[..i], extract)
      invariant last == LastHtmlResult(files[..i], extract)
      invariant log == FilesLog(company, files[..i])
    {
      assert files[..i + 1][..i] == files[..i];
      var file := files[i];
      if EndsWith(file.name, ".html") {
        var result := ExtractFxRelatedContentLargeFile(file, unescape);
        log := log + [(company, file.name)];
        last := Some(result);
        if result.blob != "" {
          blobs := blobs + {result.blob};
        }
      }
    }
    assert files[..|files|] == files;
  }

  /** One iteration of the outer loop: skip, or collect and perhaps write. */
  /**
   * The outcome is stated against `judged`, any set of directories that
   * agrees with `existing` about this company (the run states it against
   * the directories that existed before the run).
   */
  method ProcessCompany(entry: Entry, existing: set<string>, outputs: map<OutputKey, string>, unescape: string -> string,
                        ghost extract: HtmlFile -> FileResult, ghost judged: set<string>)
    returns (existing': set<string>, outputs': map<OutputKey, string>, log: seq<OutputKey>)
    requires IsWalker(extract, unescape)
    requires (entry.name in judged) == (entry.name in existing)
    ensures log == EntryLog(entry, judged)
    ensures Outcome(entry, judged, extract).None? ==> existing' == existing && outputs' == outputs
    ensures Outcome(entry, judged, extract).Some? ==>
      && existing' == existing + {entry.name}
      && exists text :: IsCombination(text, Outcome(entry, judged, extract).value.1)
           && outputs' == outputs[Outcome(entry, judged, extract).value.0 := text]
  {
    existing', outputs', log := existing, outputs, [];
    if entry.name in existing {
      return;
    }
    if entry.tree.Some? {
      var blobs, last;
      blobs, last, log := CollectBlobs(entry.name, entry.tree.value, unescape, extract);
      if blobs != {} {
        var xs := ListOfSet(blobs);
        var combined := Join("\n\n", xs);
        existing' := existing + {entry.name};
        outputs' := outputs[(entry.name, OutputName(last.value)) := combined];
        assert IsCombination(combined, blobs);
      }
    }
  }

  /** The first `n` outcomes that write have their combined text in `outputs`. */
  ghost predicate Combined(outcomes: seq<Option<(OutputKey, set<string>)>>, n: nat, outputs: map<OutputKey, string>)
    requires n <= |outcomes|
  {
    forall j :: 0 <= j < n && outcomes[j].Some? ==>
      outcomes[j].value.0 in outputs && IsCombination(outputs[outcomes[j].value.0], outcomes[j].value.1)
  }

  /** A directory no outcome names is not among the directories the outcomes create. */
  lemma {:induction false} WrittenCompaniesNamed(outcomes: seq<Option<(OutputKey, set<string>)>>, name: string)
    requires forall j :: 0 <= j < |outcomes| && outcomes[j].Some? ==> outcomes[j].value.0.0 != name
    ensures name !in WrittenCompanies(outcomes)
    decreases |outcomes|
  {
    if outcomes != [] {
      var init := outcomes[..|outcomes| - 1];
      assert forall j :: 0 <= j < |init| ==> init[j] == outcomes[j];
      WrittenCompaniesNamed(init, name);
    }
  }

  /** Writing outcome `i`'s file, whose directory no earlier outcome used, keeps the earlier texts. */
  lemma {:induction false} CombinedKept(outcomes: seq<Option<(OutputKey, set<string>)>>, i: nat,
                                        before: map<OutputKey, string>, after: map<OutputKey, string>)
    requires i < |outcomes|
    requires Combined(outcomes, i, before)
    requires outcomes[i].Some? ==>
      forall j :: 0 <= j < i && outcomes[j].Some? ==> outcomes[j].value.0.0 != outcomes[i].value.0.0
    requires outcomes[i].None? ==> after == before
    requires outcomes[i].Some? ==>
      exists text :: IsCombination(text, outcomes[i].value.1) && after == before[outcomes[i].value.0 := text]
    ensures Combined(outcomes, i + 1, after)
  {
    if outcomes[i].Some? {
      var key := outcomes[i].value.0;
      var text :| IsCombination(text, outcomes[i].value.1) && after == before[key := text];
      forall j | 0 <= j < i && outcomes[j].Some?
        ensures after[outcomes[j].value.0] == before[outcomes[j].value.0]
      {
        assert outcomes[j].value.0 != key;
      }
    }
  }

  /** The state of the outer loop after the first `i` outcomes, starting from `existing0` and `outputs0`. */
  ghost predicate RunInvariant(outcomes: seq<Option<(OutputKey, set<string>)>>, i: nat,
                               existing0: set<string>, outputs0: map<OutputKey, string>,
                               existing: set<string>, outputs: map<OutputKey, string>)
    requires i <= |outcomes|
  {
    && existing == existing0 + WrittenCompanies(outcomes[..i])
    && outputs.Keys == outputs0.Keys + WrittenFiles(outcomes[..i])
    && FilesInDirectories(existing, outputs)
    && (forall k :: k in outputs0 ==> outputs[k] == outputs0[k])
    && Combined(outcomes, i, outputs)
  }

  /** One iteration of the outer loop keeps `RunInvariant`, for outcomes naming distinct directories. */
  lemma {:induction false} RunStep(outcomes: seq<Option<(OutputKey, set<string>)>>, names: seq<string>, i: nat,
                                   existing0: set<string>, outputs0: map<OutputKey, string>,
                                   existing: set<string>, outputs: map<OutputKey, string>,
                                   existing': set<string>, outputs': map<OutputKey, string>)
    requires i < |outcomes| == |names| && Distinct(names)
    requires forall j :: 0 <= j < |outcomes| && outcomes[j].Some? ==> outcomes[j].value.0.0 == names[j]
    requires outcomes[i].Some? ==> names[i] !in existing0
    requires RunInvariant(outcomes, i, existing0, outputs0, existing, outputs)
    requires outcomes[i].None? ==> existing' == existing && outputs' == outputs
    requires outcomes[i].Some? ==>
      && existing' == existing + {names[i]}
      && exists text :: IsCombination(text, outcomes[i].value.1) && outputs' == outputs[outcomes[i].value.0 := text]
    ensures RunInvariant(outcomes, i + 1, existing0, outputs0, existing', outputs')
  {
    assert outcomes[..i + 1][..i] == outcomes[..i];
    assert outcomes[..i + 1][i] == outcomes[i];
    if outcomes[i].Some? {
      forall j | 0 <= j < i && outcomes[j].Some?
        ensures outcomes[j].value.0.0 != names[i]
      {
        assert names[j] != names[i];
      }
      assert forall j :: 0 <= j < i ==> outcomes[..i][j] == outcomes[j];
      WrittenCompaniesNamed(outcomes[..i], names[i]);
      var key := outcomes[i].value.0;
      forall k | k in outputs
        ensures k != key
      {
        assert k.0 in existing;
      }
    }
    CombinedKept(outcomes, i, outputs, outputs');
  }

  /** The body of the outer loop, for entry `i`: keeps `RunInvariant`. */
  method ProcessNext(listing: seq<Entry>, i: nat, existing0: set<string>, outputs0: map<OutputKey, string>,
                     existing: set<string>, outputs: map<OutputKey, string>,
                     unescape: string -> string, ghost extract: HtmlFile -> FileResult)
    returns (existing': set<string>, outputs': map<OutputKey, string>, log: seq<OutputKey>)
    requires IsWalker(extract, unescape)
    requires DistinctNames(listing) && i < |listing|
    requires RunInvariant(Outcomes(listing, existing0, extract), i, existing0, outputs0, existing, outputs)
    ensures RunInvariant(Outcomes(listing, existing0, extract), i + 1, existing0, outputs0, existing', outputs')
    ensures log == EntryLog(listing[i], existing0)
  {
    ghost var outcomes := Outcomes(listing, existing0, extract);
    OutcomesNamed(listing, existing0, extract);
    OutcomeAt(listing, existing0, extract, i);
    ghost var names := seq(|listing|, j requires 0 <= j < |listing| => listing[j].name);
    var e := listing[i];
    assert (e.name in existing) == (e.name in existing0) by {
      if e.name in existing && e.name !in existing0 {
        assert forall j :: 0 <= j < i ==> outcomes[..i][j] == outcomes[j];
        WrittenCompaniesNamed(outcomes[..i], e.name);
      }
    }
    existing', outputs', log := ProcessCompany(e, existing, outputs, unescape, extract, existing0);
    RunStep(outcomes, names, i, existing0, outputs0, existing, outputs, existing', outputs');
  }

  /**
   * `process_html_files` over the whole listing. Skipped companies and plain
   * files produce nothing; every other company whose `.html` files yield a
   * non-empty blob gets its output directory and one file holding the
   * distinct blobs joined in some order.
   */
  method ProcessHtmlFiles(listing: seq<Entry>, existing: set<string>, outputs: map<OutputKey, string>, unescape: string -> string,
                          ghost extract: HtmlFile -> FileResult)
    returns (existing': set<string>, outputs': map<OutputKey, string>, log: seq<OutputKey>)
    requires IsWalker(extract, unescape)
    requires DistinctNames(listing)
    requires FilesInDirectories(existing, outputs)
    ensures existing' == existing + WrittenCompanies(Outcomes(listing, existing, extract))
    ensures outputs'.Keys == outputs.Keys + WrittenFiles(Outcomes(listing, existing, extract))
    ensures forall k :: k in outputs ==> outputs'[k] == outputs[k]
    ensures Combined(Outcomes(listing, existing, extract), |listing|, outputs')
    ensures log == RunLog(listing, existing)
  {
    ghost var outcomes := Outcomes(listing, existing, extract);
    existing', outputs', log := existing, outputs, [];
    for i := 0 to |listing|
      invariant RunInvariant(outcomes, i, existing, outputs, existing', outputs')
      invariant log == RunLog(listing[..i], existing)
    {
      assert listing[..i + 1][..i] == listing[..i];
      var entryLog;
      existing', outputs', entryLog := ProcessNext(listing, i, existing, outputs, existing', outputs', unescape, extract);
      log := log + entryLog;
    }
    assert listing[..|listing|] == listing;
    assert outcomes[..|listing|] == outcomes;
  }

  /** The set holds exactly the non-empty blobs of the `.html` files; identical blobs are one element. */
  lemma {:induction false} BlobSetMembers(files: seq<HtmlFile>, extract: HtmlFile -> FileResult)
    ensures forall b :: b in BlobSet(files, extract) <==>
      b != "" && exists i :: 0 <= i < |files| && IsHtml(files[i]) && extract(files[i]).blob == b
    decreases |files|
  {
    if files != [] {
      var n := |files| - 1;
      var init := files[..n];
      BlobSetMembers(init, extract);
      forall b
        ensures b in BlobSet(files, extract) <==>
          b != "" && exists i :: 0 <= i < |files| && IsHtml(files[i]) && extract(files[i]).blob == b
      {
        if b != "" && exists i :: 0 <= i < |files| && IsHtml(files[i]) && extract(files[i]).blob == b {
          var i :| 0 <= i < |files| && IsHtml(files[i]) && extract(files[i]).blob == b;
          if i < n {
            assert init[i] == files[i];
          }
        }
        if b in BlobSet(init, extract) {
          var i :| 0 <= i < |init| && IsHtml(init[i]) && extract(init[i]).blob == b;
          assert files[i] == init[i];
        }
      }
    }
  }

  /** The name of the output file comes from the last `.html` file, whatever its blob. */
  lemma {:induction false} LastHtmlIsLast(files: seq<HtmlFile>, extract: HtmlFile -> FileResult)
    ensures LastHtmlResult(files, extract).None? <==> forall i :: 0 <= i < |files| ==> !IsHtml(files[i])
    ensures LastHtmlResult(files, extract).Some? ==>
      exists k :: 0 <= k < |files| && IsHtml(files[k]) && LastHtmlResult(files, extract).value == extract(files[k])
        && forall j :: k < j < |files| ==> !IsHtml(files[j])
    decreases |files|
  {
    if files != [] {
      var n := |files| - 1;
      var init := files[..n];
      LastHtmlIsLast(init, extract);
      assert forall i :: 0 <= i < n ==> init[i] == files[i];
      if !IsHtml(files[n]) && LastHtmlResult(init, extract).Some? {
        var k :| 0 <= k < n && IsHtml(init[k]) && LastHtmlResult(init, extract).value == extract(init[k])
          && forall j :: k < j < n ==> !IsHtml(init[j]);
        assert forall j :: k < j < |files| ==> !IsHtml(files[j]);
      }
    }
  }

  /** A company is extracted only if it is a directory whose output directory did not exist. */
  lemma {:induction false} SkippedCompaniesNotExtracted(listing: seq<Entry>, existing: set<string>)
    ensures forall p :: p in RunLog(listing, existing) ==>
      p.0 !in existing && exists j :: 0 <= j < |listing| && listing[j].name == p.0 && listing[j].tree.Some?
    decreases |listing|
  {
    if listing != [] {
      var n := |listing| - 1;
      var init := listing[..n];
      SkippedCompaniesNotExtracted(init, existing);
      assert forall j :: 0 <= j < n ==> init[j] == listing[j];
      var e := listing[n];
      if !Skipped(e, existing) && e.tree.Some? {
        FilesLogNamesCompany(e.name, e.tree.value);
      }
    }
  }

  /** Every file logged for a company is one of its `.html` files. */
  lemma {:induction false} FilesLogNamesCompany(company: string, files: seq<HtmlFile>)
    ensures forall p :: p in FilesLog(company, files) ==>
      p.0 == company && exists i :: 0 <= i < |files| && IsHtml(files[i]) && files[i].name == p.1
    decreases |files|
  {
    if files != [] {
      var n := |files| - 1;
      FilesLogNamesCompany(company, files[..n]);
      assert forall i :: 0 <= i < n ==> files[..n][i] == files[i];
    }
  }

  /** An output directory is created exactly for the entries whose collected set is non-empty. */
  lemma {:induction false} CreatedIffCollected(listing: seq<Entry>, existing: set<string>, extract: HtmlFile -> FileResult)
    ensures forall c :: c in WrittenCompanies(Outcomes(listing, existing, extract)) <==>
      exists j :: 0 <= j < |listing| && listing[j].name == c && Collected(listing[j], existing, extract) != {}
    decreases |listing|
  {
    if listing != [] {
      var n := |listing| - 1;
      var init := listing[..n];
      CreatedIffCollected(init, existing, extract);
      var outcomes := Outcomes(listing, existing, extract);
      assert outcomes[..n] == Outcomes(init, existing, extract);
      assert forall j :: 0 <= j < n ==> init[j] == listing[j];
    }
  }
}
