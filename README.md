# FX-risk text pipeline, modelled in Dafny

This project models the deterministic core of a dissertation pipeline that reads
company filings and pulls out their foreign-exchange (FX) risk disclosures. It has
five parts.

- **Qualitative extraction** (`3_extract_qualitative_1.py`):
  - a relevance filter for paragraphs;
  - a first-match risk categoriser over four categories;
  - a text cleaner, a title parser and a year scanner;
  - a streaming walker over one HTML filing;
  - a per-company aggregator that skips companies already done, collects the distinct blobs of a company's `.html` files and writes one file.
- **Report compilation** (`6_compiled_document.py`): `extract_value`, the 24-key report parser, and the loop that builds one row per PDF report.
- **Chunking and merging** (`NLP.py`):
  - whitespace normalisation and fixed-size chunking;
  - the merge of per-chunk answers, key by key;
  - the model-name dispatch.
- **Currency handling** (`5_openAI_structured.py`, and identically `5_openAI.py`):
  - text preprocessing;
  - detection of three-letter currency codes;
  - removal of the base currency before rates are fetched.
- **Industry benchmarks**: the fixed tables of both scripts.

Modules, one per file:

| module | file | content |
|---|---|---|
| `Wrappers` | `wrappers.dfy` | `Option`, standing for Python's `None` beside a value |
| `Text` | `text.dfy` | Python's string primitives: `isspace`, `\s`, `\w`, `\d`, `lower`, `in`, `index`, `strip`, `re.sub(r'\s+', ' ', …)`, `split`, `join` |
| `Sets` | `sets.dfy` | iterating a Python `set`, as some enumeration of its elements |
| `Extract` | `extract.dfy` | the pure helpers of the extraction script |
| `Walker` | `walker.dfy` | `extract_fx_related_content_large_file` |
| `Aggregator` | `aggregator.dfy` | `process_html_files` |
| `Compiled` | `compiled.dfy` | `6_compiled_document.py` |
| `Nlp` | `nlp.dfy` | `NLP.py` |
| `Currency` | `currency.dfy` | the currency steps of both OpenAI scripts |
| `Benchmarks` | `benchmarks.dfy` | `retrieve_industry_benchmarks` of both OpenAI scripts |

How the model is built:

- **Loops as methods.** Each loop of the source is a method with loop invariants, proved equal to a function that states the whole computation without the loop. The lemmas then state what that function promises:
  - the walker's company, section, filing and key order;
  - the aggregator's skipping, deduplication and output;
  - the order of the compiled rows;
  - the key-by-key join of the merge;
  - the base-currency removal.
- **The file system as values.** A company directory is the list of files `os.walk` yields under it. The output side is a set of existing directories and a map from (directory, file name) to text.
- **HTML parsing.** lxml is not modelled. A filing is the sequence of elements that `iterparse` reports at their end tags, each with its tag, its direct text and its `itertext()` pieces.

Where the code differs from what one might expect, the model follows the code:

- **Title.** The title is split on a bare `-` (not on `" - "`), and every `title` element overwrites the company name, not only the first one (`3_extract_qualitative_1.py:45-46`, `80`).
- **Category keys.** Three keys are spelled with spaces (`"translation exposure"`); only `general_fx_risk` uses underscores.
- **Year.** The year pattern `(\b19|\b20)\d{2}` has a word boundary only before the digits, so `19999` yields `1999`.
- **Failures.** A file also yields `(None, None, "")` when a heading element has no direct text, because `None.strip()` raises. This is not only a parse or I/O error.

The scripts pass `'USD'` as the base currency (`5_openAI_structured.py:271`). Preprocessing turns every whole-word `USD` into `dollar`, so `USD` is never detected and the removal at lines 210-211 never fires (`Currency.CleanedTextHidesCodes`, `Currency.RateFxRiskTargets`).

## Model

| member | source | states |
|---|---|---|
| `Text.IndexFrom` | 6_compiled_document.py:44-45 | `str.index`: the first occurrence at or after `start`, and no occurrence at all when it raises |
| `Text.Strip` | 3_extract_qualitative_1.py:80 | `str.strip`: the result has no whitespace at either end, sits inside the input with only whitespace around it, and keeps every non-whitespace character |
| `Text.Collapse` | 5_openAI_structured.py:24 | `re.sub(r'\s+', ' ', s)`: no longer than the input, every whitespace a single space with no two adjacent, empty only for empty input, and the same non-whitespace characters in order; where each space stands is `Text.CollapseIsSpacedTokens` |
| `Text.Normalize` | NLP.py:15 | the collapsed and stripped text: trimmed, single-spaced, without newline, no longer than the input, and with the same non-whitespace characters |
| `Text.Tokens` | 3_extract_qualitative_1.py:85 | `str.split()`: every token is a non-empty run without whitespace; that the tokens are the maximal such runs is `Text.NormalizeIsJoinedTokens` |
| `Text.CollapseIsSpacedTokens` | 5_openAI_structured.py:24 | `re.sub(r'\s+', ' ', s)` is the `split()` tokens of `s` joined by single spaces, with one more space in front when `s` begins with whitespace and one at the end when whitespace follows its last token |
| `Text.NormalizeIsJoinedTokens` | 3_extract_qualitative_1.py:85 | the tokens `split()` counts are exactly the words of the normalised text: joined by single spaces they give `re.sub(r'\s+', ' ', s).strip()` |
| `Text.CollapseSingleSpaced` | 5_openAI_structured.py:24 | a text that is already single-spaced comes out of the collapse unchanged |
| `Extract.CategorizeFxRisk` | 3_extract_qualitative_1.py:27-32 | the loop with its early return computes the ordered first match `Categorize` |
| `Extract.CategorizeIsFirstMatch` | 3_extract_qualitative_1.py:19-32 | the category returned has one of its keywords in the lower-cased text (unless it is `general_fx_risk`), and no category declared before it has one |
| `Extract.RelevanceNeedsOnlyCoreKeywords` | 3_extract_qualitative_1.py:84-88 | the relevance filter accepts exactly the texts without `http`, with at least five tokens, and with one of the 18 keywords that contain no other keyword; "fx risk", "currency risk" and "risk management" all contain "risk" |
| `Extract.FullKeywordsReduceToCore` | 3_extract_qualitative_1.py:11-16 | a text that mentions one of the 21 relevance keywords mentions one of the 18 core ones |
| `Extract.CoreKeywordsAreFullKeywords` | 3_extract_qualitative_1.py:11-16 | a text that mentions one of the 18 core keywords mentions one of the 21 |
| `Extract.CutMarkedLines` | 3_extract_qualitative_1.py:92-93 | deleting from a marker at a word boundary to the end of its line never lengthens the text and never deletes a newline |
| `Extract.PageMarkerKeepsNewlines` | 3_extract_qualitative_1.py:94 | a `Page \d+` match lies inside the text and holds no newline |
| `Extract.DropPageNumbers` | 3_extract_qualitative_1.py:94 | deleting every `Page \d+` never lengthens the text and never deletes a newline |
| `Extract.CleanText` | 3_extract_qualitative_1.py:91-95 | the cleaned text has no leading or trailing whitespace, no two adjacent whitespace characters and no newline, and is never longer than the input |
| `Extract.BeforeFirstDash` | 3_extract_qualitative_1.py:80 | `split("-")[0]`: a dash-free prefix of the title that ends at the first dash or at the end |
| `Extract.CompanyNameFromTitle` | 3_extract_qualitative_1.py:78-81 | a missing or empty title gives "Unknown Company"; otherwise the result has no dash and is the strip of the title up to its first dash |
| `Extract.FindYear` | 3_extract_qualitative_1.py:101 | `re.search` of the year pattern: the leftmost match at or after `from`, or no match anywhere after it |
| `Extract.YearOf` | 3_extract_qualitative_1.py:98-104 | "Unknown Year" exactly when the pattern matches nowhere; otherwise the four characters of the leftmost match |
| `Walker.AppendFragment` | 3_extract_qualitative_1.py:57-59 | creating the list on first use, then appending, files the fragment under its category |
| `Walker.FileParagraph` | 3_extract_qualitative_1.py:53-59 | a relevant paragraph is filed, cleaned and with its section, under the category of its raw text; any other paragraph changes nothing |
| `Walker.VisitElement` | 3_extract_qualitative_1.py:45-59 | one iteration of the loop computes `Step`: a title sets the company, a heading sets the section (and fills an unknown company), a text block may be filed, and a heading without text raises |
| `Walker.WalkElements` | 3_extract_qualitative_1.py:44-63 | the loop over the parser's elements computes the fold `Run`, and is `None` once an iteration raises |
| `Walker.ExtractFxRelatedContentLargeFile` | 3_extract_qualitative_1.py:35-75 | the function computes `Extracted`: the company, the year of the raw text and the blob, or `(None, None, "")` when anything raises |
| `Walker.RunStaysFailed` | 3_extract_qualitative_1.py:73-75 | once an iteration has raised, later elements do not matter |
| `Walker.StepFailsIff` | 3_extract_qualitative_1.py:47-48 | one step raises exactly on a heading whose direct text is `None` |
| `Walker.WalkFailsIffTextlessHeading` | 3_extract_qualitative_1.py:44-50 | the walk raises exactly when some heading has no direct text |
| `Walker.SectionIsLastHeading` | 3_extract_qualitative_1.py:40-48 | `current_section` is the stripped text of the last heading, or "Unknown Section" before any |
| `Walker.CompanyStable` | 3_extract_qualitative_1.py:45-50 | once the company is known, only a `title` element changes it |
| `Walker.CompanyUnknownWithoutNames` | 3_extract_qualitative_1.py:38-50 | with neither a title nor a heading, the company stays "Unknown Company" |
| `Walker.TitleNamesCompany` | 3_extract_qualitative_1.py:45-46 | the last `title` element names the company whenever its parsed name is not "Unknown Company" |
| `Walker.HeadingFillsCompany` | 3_extract_qualitative_1.py:47-50 | a heading met while the company is unknown names the company after its stripped text |
| `Walker.FirstHeadingNamesCompany` | 3_extract_qualitative_1.py:47-50 | without any title, the first heading names the company for the rest of the walk |
| `Walker.StepFiles` | 3_extract_qualitative_1.py:51-59 | one element leaves the dict alone unless it is a relevant paragraph, which is filed under its category with its section |
| `Walker.FileExtendsOneBin` | 3_extract_qualitative_1.py:57-59 | filing a fragment appends it to its own category's list and leaves every other list alone |
| `Walker.FileKeepsWellFormed` | 3_extract_qualitative_1.py:57-59 | the dict's keys stay the key order with non-empty lists, and a new category joins at the end |
| `Walker.RunWellFormed` | 3_extract_qualitative_1.py:44-59 | throughout the walk every key of the dict holds a non-empty list, and the keys are listed once in insertion order |
| `Walker.FilingMatchesReference` | 3_extract_qualitative_1.py:44-59 | each category's list holds exactly one fragment per relevant paragraph of that category, in document order, each naming the last heading before it |
| `Walker.OrderIsFirstAppearance` | 3_extract_qualitative_1.py:57-70 | the dict's key order lists exactly the categories that receive a paragraph, by the position of their first paragraph |
| `Walker.ExtractedLayout` | 3_extract_qualitative_1.py:65-72 | a file that does not raise yields the year of its text and one block per category in first-appearance order, each block listing that category's fragments |
| `Walker.ExtractionFailsIff` | 3_extract_qualitative_1.py:36-75 | a file yields `(None, None, "")` exactly when the parser raises, the file cannot be read, or a heading has no text |
| `Walker.BlobEmptyIffNothingRelevant` | 3_extract_qualitative_1.py:51-70 | a file that does not raise has an empty blob exactly when none of its elements is a relevant paragraph |
| `Aggregator.CollectBlobs` | 3_extract_qualitative_1.py:124-135 | the loop over a company's files collects the set of non-empty blobs of its `.html` files, keeps the result of the last `.html` file, and extracts exactly those files |
| `Aggregator.ProcessCompany` | 3_extract_qualitative_1.py:113-142 | a skipped company or a plain file changes nothing; otherwise the company's directory and file are created exactly when some blob was collected, holding the blobs joined in some order |
| `Aggregator.ProcessNext` | 3_extract_qualitative_1.py:113-142 | one iteration of the outer loop keeps the run invariant: each company so far wrote its outcome, earlier files are untouched |
| `Aggregator.ProcessHtmlFiles` | 3_extract_qualitative_1.py:112-142 | the run creates exactly the directories and files of the written outcomes, keeps every earlier file, writes each file as its distinct blobs joined in some order, and extracts exactly the logged files |
| `Aggregator.BlobSetMembers` | 3_extract_qualitative_1.py:124-135 | the set holds exactly the non-empty blobs of the company's `.html` files, so identical blobs are one element |
| `Aggregator.LastHtmlIsLast` | 3_extract_qualitative_1.py:126-139 | the output file is named from the result of the last `.html` file processed, whatever its blob |
| `Aggregator.SkippedCompaniesNotExtracted` | 3_extract_qualitative_1.py:113-121 | a file is extracted only for a directory entry whose output directory did not exist before the run |
| `Aggregator.FilesLogNamesCompany` | 3_extract_qualitative_1.py:126-133 | every file extracted for a company is one of its `.html` files |
| `Aggregator.CreatedIffCollected` | 3_extract_qualitative_1.py:137-141 | an output directory is created exactly for the entries that were not skipped and whose collected set is non-empty |
| `Sets.ListOfSet` | 3_extract_qualitative_1.py:138 | iterating a set yields each of its elements exactly once, in some order |
| `Sets.OrderingSize` | 5_openAI_structured.py:36 | the list made from a set has as many entries as the set |
| `Compiled.ValueLine` | 6_compiled_document.py:44-46 | the slice between the label and the next newline holds no newline |
| `Compiled.ExtractValue` | 6_compiled_document.py:42-48 | the result is the sentinel or a single line without surrounding whitespace |
| `Compiled.ExtractValueFound` | 6_compiled_document.py:42-46 | when the label first occurs at `p` and the next newline after it is at `q`, the result is the text between them, stripped |
| `Compiled.ExtractValueAt` | 6_compiled_document.py:44-46 | the result is the strip of the text between the two indices `str.index` returns |
| `Compiled.ExtractValueAbsent` | 6_compiled_document.py:44-48 | a label that does not occur gives "No Information/Not Found" |
| `Compiled.ExtractValueUnterminated` | 6_compiled_document.py:45-48 | a label with no newline after its first occurrence gives "No Information/Not Found" |
| `Compiled.ParsedValuesAreClean` | 6_compiled_document.py:13-40 | every value of a parsed report is the sentinel or a single stripped line |
| `Compiled.ParsedInKeyOrder` | 6_compiled_document.py:14-39 | the report has the 24 keys, each value read by `extract_value` after its own label, in key order |
| `Compiled.SharedCaptionsAgree` | 6_compiled_document.py:19-33 | the three `*_Reason` values always agree (all read after "Assessment"), and `Hedging_Strategy_Type` always equals `Hedging_Ratio` |
| `Compiled.CategoryCanReadSubCategory` | 6_compiled_document.py:16-17 | when the first "Category:" is the one inside the first "Sub-Category:", the two values coincide |
| `Compiled.Basename` | 6_compiled_document.py:58 | `os.path.basename`: the suffix of the path after its last `/` |
| `Compiled.ProcessAllPdfs` | 6_compiled_document.py:50-59 | the loop builds `CompiledRows`: one row per `.pdf` file |
| `Compiled.RowsFollowReports` | 6_compiled_document.py:52-59 | one row per `.pdf` file in traversal order; each row's `Company` is the name of the report's folder, and every other value is parsed from the report's text |
| `Nlp.Slices` | NLP.py:16 | the slicing gives no slices exactly for the empty text |
| `Nlp.ChunkText` | NLP.py:14-18 | a `chunk_size` of zero raises; a negative one gives no chunks |
| `Nlp.SlicesConcat` | NLP.py:16 | the slices put back together are the text |
| `Nlp.SlicesSizes` | NLP.py:16 | every slice is non-empty and at most `size` long, all but the last are exactly `size` long, and there are ceil(len/size) of them |
| `Nlp.SliceAt` | NLP.py:16 | slice `k` is `t[k*size : k*size+size]`, as the comprehension reads it |
| `Nlp.ChunksRebuildText` | NLP.py:14-18 | the chunks put back together are exactly the normalised text |
| `Nlp.DefaultChunking` | NLP.py:14-18 | with the default `chunk_size` of 2000 chunking never raises, every chunk holds 1 to 2000 characters, and the chunks rebuild the normalised text |
| `Nlp.ChunkSizes` | NLP.py:14-18 | every chunk is non-empty and at most `chunk_size` long, all but the last are exactly that long, and there are ceil(len/chunk_size) of them |
| `Nlp.BlankTextHasNoChunks` | NLP.py:14-18 | the text gives no chunks exactly when it is empty or all whitespace |
| `Nlp.BlankIffNormalizedEmpty` | NLP.py:15 | normalising leaves nothing exactly when the text is all whitespace |
| `Nlp.MergeItem` | NLP.py:78-81 | merging one answer raises (`TypeError`) exactly when the key is already present and either its answer or the new one is `None` |
| `Nlp.MergeAllStaysFailed` | NLP.py:74-81 | once the merge has raised, later chunks do not matter |
| `Nlp.MergeChunkStaysFailed` | NLP.py:77-81 | once the merge of a chunk has raised, its later answers do not matter |
| `Nlp.MergeChunkAnswers` | NLP.py:74-81 | the nested loops compute `MergeAll`, the fold of the per-key merge over the chunks' answers |
| `Nlp.ItemStep` | NLP.py:77-81 | with string answers, one answer is appended to its own key after a newline, or starts a new key, and no other key changes |
| `Nlp.ChunkStep` | NLP.py:77-81 | with string answers and distinct keys, a chunk appends each of its answers to its own key |
| `Nlp.MergeJoinsAnswers` | NLP.py:74-81 | with string answers the merge never raises, and each key holds its answers from every chunk, joined by newlines in chunk order; no other key is present |
| `Nlp.InitializeModelAndTokenizer` | NLP.py:20-32 | exactly "GPT-2", "T5" and "LLaMA" are accepted, with tokenizer and model read from the same checkpoint; any other name raises `ValueError` |
| `Currency.RemoveSpecial` | 5_openAI_structured.py:25 | removing special characters leaves only word characters and whitespace, and never lengthens the text |
| `Currency.RemoveSpecialAppend` | 5_openAI_structured.py:25 | the removal works character by character: on a concatenation it is the concatenation of the two removals |
| `Currency.RemoveSpecialChar` | 5_openAI_structured.py:25 | a single character is kept exactly when it is a word character or whitespace, and dropped otherwise |
| `Currency.RemoveSpecialKeeps` | 5_openAI_structured.py:25 | a text of only word characters and whitespace is left unchanged |
| `Currency.ReplaceWordCopies` | 5_openAI_structured.py:26-28 | the substitution copies every position where `w` does not start as a whole word |
| `Currency.ReplaceWordAtMatch` | 5_openAI_structured.py:26-28 | at the next whole-word match the substitution writes the replacement and resumes after the match |
| `Currency.SubWordWithoutWord` | 5_openAI_structured.py:26-28 | a text in which `w` never occurs as a whole word is left unchanged |
| `Currency.SubWordOneMatch` | 5_openAI_structured.py:26-28 | a text with exactly one whole-word `w`, at `k`, becomes the text with that occurrence replaced and everything else unchanged |
| `Currency.SubWordRemovesWord` | 5_openAI_structured.py:26-28 | after `re.sub(r'\bw\b', rep, s)` with a replacement sharing no letter with `w`, `w` no longer occurs as a whole word |
| `Currency.SubWordKeepsAbsent` | 5_openAI_structured.py:26-28 | a later substitution does not bring back a whole word that the earlier ones removed |
| `Currency.PreprocessKeepsWordsAndSpaces` | 5_openAI_structured.py:20-29 | the preprocessed text holds only word characters and whitespace |
| `Currency.PreprocessRemovesCodes` | 5_openAI_structured.py:24-28 | no whole-word USD, EUR or JPY survives preprocessing |
| `Currency.PreprocessKeepsCleanText` | 5_openAI_structured.py:20-29 | a single-spaced text of word characters and spaces, without whole-word USD, EUR or JPY, comes out of preprocessing unchanged |
| `Currency.PreprocessSpellsOutDollars` | 5_openAI_structured.py:20-29 | for such a text without whole-word EUR or JPY, preprocessing is exactly the substitution of `dollar` for every whole-word USD |
| `Currency.FindCodesExactly` | 5_openAI_structured.py:35-36 | the `findall` scan returns exactly the three-capital-letter whole words of the text |
| `Currency.DetectedCodes` | 5_openAI_structured.py:31-36 | a code is detected exactly when it is three ASCII capitals that occur as a whole word |
| `Currency.DetectCurrencies` | 5_openAI_structured.py:31-36 | the list holds each detected code exactly once |
| `Currency.CleanedTextHidesCodes` | 5_openAI_structured.py:206-209 | USD, EUR and JPY are never detected in preprocessed text |
| `Currency.RemoveFirstAt` | 5_openAI_structured.py:211 | `list.remove` drops exactly the first occurrence |
| `Currency.RemoveFirstFromDistinct` | 5_openAI_structured.py:209-211 | removing a present element from a list without repeats leaves a list without repeats that holds every other element and not the removed one |
| `Currency.RateFxRiskTargets` | 5_openAI_structured.py:201-214 | the codes passed to the rate fetch are distinct, are exactly the codes detected in the preprocessed document other than the base currency, and never include USD, EUR or JPY |
| `Benchmarks.TableKeysDistinct` | 5_openAI_structured.py:64-95 | no key appears twice in either table, in insertion order, so neither dictionary literal loses an entry to a repeated key |
| `Benchmarks.StructuredShape` | 5_openAI_structured.py:64-95 | the structured table holds exactly `Benchmark_1` to `Benchmark_5`, in order, each with a non-empty description and non-empty details |
| `Benchmarks.PlainIsStructuredDescriptions` | 5_openAI.py:54-58 | the plain table holds exactly `Benchmark_1` and `Benchmark_2`, each mapped straight to the description of the structured table's entry |

## Left out

- lxml's `iterparse` and the tree eviction after each element (`3_extract_qualitative_1.py:42`, `61-63`): a filing is the sequence of elements the parser reports. The eviction changes what the `itertext()` of an enclosing element still holds; the model takes each element's text pieces as the parser reports them at that moment. A parser error is a flag on the file.
- `html.unescape` is a function parameter that the walker applies to each paragraph; its behaviour is not modelled.
- Walker: the walk and its lemmas are stated for any `Helpers` value (unescape, relevance filter, categoriser, cleaner). The methods bind it to the script's own helpers through `Script`.
- File reads: a read that raises (for example on invalid UTF-8) is a missing text, and the year scan reads the file's text as given.
- `os.listdir`, `os.walk`, `os.path.exists`, `os.path.isdir`, `os.makedirs` and file writes are values: a listing, a set of existing directories and a map of written texts. Directory-listing order is the order of the given sequences.
- Logging in every script, and `print`.
- Sets.ListOfSet: the order in which Python iterates a set is unspecified, so the model only states that every element appears exactly once. The aggregator's combined text is therefore stated as the distinct blobs joined in some order, not in CPython's hash order.
- `\w`, `\d` and `str.lower` are restricted to ASCII; Python's are Unicode-aware. `\s` and `str.isspace` follow Python's whitespace set.
- Extract.CutMarkedLines: states only the length bound and that newlines are kept, not which characters are deleted.
- Extract.DropPageNumbers: states only the length bound and that newlines are kept, not which characters are deleted.
- Extract.CleanText: states the shape of the cleaned text, not which metadata lines it cuts.
- Currency.PreprocessRemovesCodes: states what preprocessing removes. What it produces is stated per substitution (`SubWordWithoutWord`, `SubWordOneMatch`), and for the whole of `preprocess_text` only for clean single-spaced text (`PreprocessKeepsCleanText`, `PreprocessSpellsOutDollars`), not as one closed form for every input.
- The PDF text extraction of `6_compiled_document.py` (PyMuPDF): a report is given with its text. The DataFrame and CSV output are not modelled.
- The model calls of `NLP.py` (`analyze_text`, `analyze_document`): the merge takes each chunk's answers as given. Also left out: loading the weights, `save_results`, and the directory loop and error handling of `process_text_files`.
- `get_real_time_exchange_rates`, the OpenAI chat completion and the API-key check: network calls.
- `create_fx_risk_prompt`: prompt text formatting. The benchmark tables are modelled, but not how the prompt renders them.
- The module-level directory loops of the OpenAI scripts, which read files and write the analyses.
