/**
 * `NLP.py`: splitting a filing's text into fixed-size chunks, merging the
 * per-chunk answers key by key, and choosing the model to load.
 *
 * The model calls themselves (`analyze_text`, `analyze_document`) are not
 * modelled: the merge takes each chunk's answers as given.
 */
module Nlp {
  import opened Wrappers
  import opened Text

  /** The default `chunk_size` of `chunk_text`. */
  const DefaultChunkSize := 2000

  function Min(a: int, b: int): int {
    if a <= b then a else b
  }

  /**
   * `[t[i:i + size] for i in range(0, len(t), size)]` for a positive `size`:
   * the first `size` characters, then the slices of the rest.
   */
  function Slices(t: string, size: nat): (r: seq<string>)
    requires size > 0
    ensures r == [] <==> t == []
    decreases |t|
  {
    if t == [] then []
    else if |t| <= size then [t]
    else [t[..size]] + Slices(t[size..], size)
  }

  /**
   * `chunk_text(text, chunk_size)`: the whitespace-normalised text cut into
   * slices of `chunk_size` characters. A `chunk_size` of zero makes `range`
   * raise `ValueError` (`None`); a negative one gives an empty range.
   */
  function ChunkText(text: string, chunkSize: int): (r: Option<seq<string>>)
    ensures r.None? <==> chunkSize == 0
    ensures chunkSize < 0 ==> r == Some([])
  {
    if chunkSize == 0 then None
    else if chunkSize < 0 then Some([])
    else Some(Slices(Normalize(text), chunkSize))
  }

  /** The strings of `xs` one after another. */
  function Concat(xs: seq<string>): string
    decreases |xs|
  {
    if xs == [] then [] else xs[0] + Concat(xs[1..])
  }

  /** The slices, put back together, are the text. */
  lemma {:induction false} SlicesConcat(t: string, size: nat)
    requires size > 0
    ensures Concat(Slices(t, size)) == t
    decreases |t|
  {
    if |t| > size {
      SlicesConcat(t[size..], size);
      var s := Slices(t, size);
      assert s[1..] == Slices(t[size..], size);
      assert t[..size] + t[size..] == t;
    }
  }

  /**
   * Each slice is non-empty and at most `size` long, all but the last are
   * exactly `size` long, and there are `ceil(len(t) / size)` of them.
   */
  lemma {:induction false} SlicesSizes(t: string, size: nat)
    requires size > 0
    ensures var s := Slices(t, size);
      && |s| * size >= |t|
      && (s == [] || (|s| - 1) * size < |t|)
      && (forall k :: 0 <= k < |s| ==> 0 < |s[k]| <= size)
      && (forall k :: 0 <= k < |s| - 1 ==> |s[k]| == size)
    decreases |t|
  {
    if |t| > size {
      var rest := Slices(t[size..], size);
      SlicesSizes(t[size..], size);
      var s := Slices(t, size);
      assert s == [t[..size]] + rest;
      assert |s| * size == |rest| * size + size;
      assert forall k :: 1 <= k < |s| ==> s[k] == rest[k - 1];
    }
  }

  /** Slice `k` is `t[k * size : k * size + size]`, as the comprehension reads it. */
  lemma {:induction false} SliceAt(t: string, size: nat, k: nat)
    requires size > 0 && k < |Slices(t, size)|
    ensures k * size < |t|
    ensures Slices(t, size)[k] == t[k * size..Min(k * size + size, |t|)]
    decreases k
  {
    if k > 0 {
      SliceAt(t[size..], size, k - 1);
      var m := (k - 1) * size;
      assert k * size == m + size;
      DropSlice(t, size, m, Min(m + size, |t| - size));
    }
  }

  lemma DropSlice(t: string, d: nat, a: nat, b: nat)
    requires d <= |t| && a <= b <= |t| - d
    ensures t[d..][a..b] == t[d + a..d + b]
  {
  }

  /** Joining the chunks back gives exactly the normalised text. */
  lemma ChunksRebuildText(text: string, size: nat)
    requires size > 0
    ensures Concat(ChunkText(text, size).value) == Normalize(text)
  {
    SlicesConcat(Normalize(text), size);
  }

  /**
   * Every chunk is non-empty and at most `size` long, every chunk but the
   * last is exactly `size` long, and there are `ceil(len / size)` of them.
   */
  lemma ChunkSizes(text: string, size: nat)
    requires size > 0
    ensures var s := ChunkText(text, size).value;
      && |s| * size >= |Normalize(text)|
      && (s == [] || (|s| - 1) * size < |Normalize(text)|)
      && (forall k :: 0 <= k < |s| ==> 0 < |s[k]| <= size)
      && (forall k :: 0 <= k < |s| - 1 ==> |s[k]| == size)
  {
    assert ChunkText(text, size).value == Slices(Normalize(text), size);
    SlicesSizes(Normalize(text), size);
  }

  /**
   * With the default `chunk_size` of 2000 the chunking never fails: the
   * chunks are 1 to 2000 characters long and together spell the
   * normalised text.
   */
  lemma DefaultChunking(text: string)
    ensures ChunkText(text, DefaultChunkSize).Some?
    ensures var s := ChunkText(text, DefaultChunkSize).value;
      && Concat(s) == Normalize(text)
      && (forall k :: 0 <= k < |s| ==> 0 < |s[k]| <= 2000)
  {
    ChunksRebuildText(text, DefaultChunkSize);
    ChunkSizes(text, DefaultChunkSize);
  }

  /** Blank text (empty or only whitespace) gives no chunks at all. */
  lemma BlankTextHasNoChunks(text: string, size: nat)
    requires size > 0
    ensures ChunkText(text, size) == Some([]) <==> forall i :: 0 <= i < |text| ==> IsSpace(text[i])
  {
    BlankIffNormalizedEmpty(text);
  }

  /** Normalising leaves nothing exactly when the text is all whitespace. */
  lemma BlankIffNormalizedEmpty(text: string)
    ensures Normalize(text) == [] <==> forall i :: 0 <= i < |text| ==> IsSpace(text[i])
  {
    NonSpaceEmpty(text);
    NonSpaceEmpty(Normalize(text));
  }

  /**
   * A dict of answers, in insertion order: each key (such as "Company" or
   * "Hedging Strategies") with its answer, `None` where `analyze_text`
   * returned `None`.
   */
  type Answers = seq<(string, Option<string>)>

  /** No key occurs twice, as in any Python dict. */
  predicate DistinctKeys(d: Answers) {
    forall i, j :: 0 <= i < j < |d| ==> d[i].0 != d[j].0
  }

  /** Every key has a string answer. */
  predicate AllAnswered(d: Answers) {
    forall i :: 0 <= i < |d| ==> d[i].1.Some?
  }

  /** Where `key` sits in `d`, if it is there (the latest entry for it). */
  function KeyIndex(d: Answers, key: string): (r: Option<nat>)
    ensures r.Some? ==> r.value < |d| && d[r.value].0 == key
    ensures r.None? ==> forall j :: 0 <= j < |d| ==> d[j].0 != key
    decreases |d|
  {
    if d == [] then None
    else if d[|d| - 1].0 == key then Some(|d| - 1)
    else KeyIndex(d[..|d| - 1], key)
  }

  /** `d.get(key)` told apart from a missing key: `None` when `key not in d`. */
  function Lookup(d: Answers, key: string): Option<Option<string>> {
    match KeyIndex(d, key)
    case None => None
    case Some(j) => Some(d[j].1)
  }

  /**
   * One pass of the inner loop: a new key is added with its answer; a known
   * key gets `"\n" + value` appended. Python raises `TypeError` (`None`
   * here) when either side of that `+` is `None`.
   */
  function MergeItem(d: Answers, key: string, value: Option<string>): (r: Option<Answers>)
    ensures r.None? <==> Lookup(d, key).Some? && (Lookup(d, key).value.None? || value.None?)
  {
    match KeyIndex(d, key)
    case None => Some(d + [(key, value)])
    case Some(j) =>
      if d[j].1.Some? && value.Some? then Some(d[j := (key, Some(d[j].1.value + "\n" + value.value))])
      else None
  }

  /** Merging one chunk's answers, in their order, into `d`. */
  function MergeChunk(d: Answers, items: Answers): Option<Answers>
    decreases |items|
  {
    if items == [] then Some(d)
    else
      match MergeChunk(d, items[..|items| - 1])
      case None => None
      case Some(e) => MergeItem(e, items[|items| - 1].0, items[|items| - 1].1)
  }

  /** `all_results` after the loop over `chunks` (`None`: the loop raised). */
  function MergeAll(chunks: seq<Answers>): Option<Answers>
    decreases |chunks|
  {
    if chunks == [] then Some([])
    else
      match MergeAll(chunks[..|chunks| - 1])
      case None => None
      case Some(d) => MergeChunk(d, chunks[|chunks| - 1])
  }

  /** Once the loop has raised, later chunks do not matter. */
  lemma {:induction false} MergeAllStaysFailed(chunks: seq<Answers>, i: nat)
    requires i <= |chunks| && MergeAll(chunks[..i]).None?
    ensures MergeAll(chunks).None?
    decreases |chunks| - i
  {
    if i < |chunks| {
      assert chunks[..i + 1][..i] == chunks[..i];
      MergeAllStaysFailed(chunks, i + 1);
    } else {
      assert chunks[..i] == chunks;
    }
  }

  /** Likewise within one chunk. */
  lemma {:induction false} MergeChunkStaysFailed(d: Answers, items: Answers, j: nat)
    requires j <= |items| && MergeChunk(d, items[..j]).None?
    ensures MergeChunk(d, items).None?
    decreases |items| - j
  {
    if j < |items| {
      assert items[..j + 1][..j] == items[..j];
      MergeChunkStaysFailed(d, items, j + 1);
    } else {
      assert items[..j] == items;
    }
  }

  /** The merge through chunk `i` is the merge before it followed by chunk `i`. */
  lemma MergeAllStep(chunks: seq<Answers>, i: nat)
    requires i < |chunks|
    ensures MergeAll(chunks[..i + 1]) ==
      (match MergeAll(chunks[..i])
       case None => None
       case Some(d) => MergeChunk(d, chunks[i]))
  {
    assert chunks[..i + 1][..i] == chunks[..i];
  }

  /** The merge through item `j` is the merge before it followed by item `j`. */
  lemma MergeChunkStep(d: Answers, items: Answers, j: nat)
    requires j < |items|
    ensures MergeChunk(d, items[..j + 1]) ==
      (match MergeChunk(d, items[..j])
       case None => None
       case Some(e) => MergeItem(e, items[j].0, items[j].1))
  {
    assert items[..j + 1][..j] == items[..j];
  }

  /** The merge loop of `process_text_files` (lines 74-81): `all_results` over the chunks' answers. */
  method MergeChunkAnswers(chunks: seq<Answers>) returns (allResults: Option<Answers>)
    ensures allResults == MergeAll(chunks)
  {
    var all: Answers := [];
    for i := 0 to |chunks|
      invariant MergeAll(chunks[..i]) == Some(all)
    {
      MergeAllStep(chunks, i);
      var results := chunks[i];
      ghost var start := all;
      for j := 0 to |results|
        invariant MergeChunk(start, results[..j]) == Some(all)
      {
        MergeChunkStep(start, results, j);
        var (key, value) := results[j];
        var at := KeyIndex(all, key);
        if at.None? {
          all := all + [(key, value)];
        } else if all[at.value].1.Some? && value.Some? {
          all := all[at.value := (key, Some(all[at.value].1.value + "\n" + value.value))];
        } else {
          MergeChunkStaysFailed(start, results, j + 1);
          assert results[..|results|] == results;
          MergeAllStaysFailed(chunks, i + 1);
          return None;
        }
      }
      assert results[..|results|] == results;
    }
    assert chunks[..|chunks|] == chunks;
    allResults := Some(all);
  }

  /** The answers the chunks give for `key`, in chunk order. */
  function AnswersFor(chunks: seq<Answers>, key: string): seq<string>
    decreases |chunks|
  {
    if chunks == [] then []
    else
      AnswersFor(chunks[..|chunks| - 1], key) +
        match Lookup(chunks[|chunks| - 1], key)
        case Some(Some(v)) => [v]
        case _ => []
  }

  /** What `all_results` should hold for a key given `answers`: nothing when there are none, else them joined by newlines. */
  function Rendered(answers: seq<string>): Option<Option<string>> {
    if answers == [] then None else Some(Some(Join("\n", answers)))
  }

  /** A known key's answer followed by `"\n" + v`, or `v` for a new key. */
  function Appended(prev: Option<Option<string>>, v: string): Option<Option<string>> {
    match prev
    case Some(Some(a)) => Some(Some(a + "\n" + v))
    case _ => Some(Some(v))
  }

  /** A key's entry after a chunk whose own entry for it is `found`. */
  function AfterChunk(prev: Option<Option<string>>, found: Option<Option<string>>): Option<Option<string>> {
    match found
    case Some(Some(v)) => Appended(prev, v)
    case _ => prev
  }

  lemma LookupSnoc(d: Answers, key: string, v: Option<string>, k: string)
    ensures Lookup(d + [(key, v)], k) == if k == key then Some(v) else Lookup(d, k)
  {
    assert (d + [(key, v)])[..|d|] == d;
  }

  /** Changing only values leaves every key where it was. */
  lemma {:induction false} KeyIndexSameKeys(d: Answers, e: Answers, k: string)
    requires |d| == |e| && forall i :: 0 <= i < |d| ==> d[i].0 == e[i].0
    ensures KeyIndex(d, k) == KeyIndex(e, k)
    decreases |d|
  {
    if d != [] {
      KeyIndexSameKeys(d[..|d| - 1], e[..|e| - 1], k);
    }
  }

  /** With string answers, one item appends to its key and leaves every other key alone. */
  lemma ItemStep(d: Answers, key: string, v: string)
    requires DistinctKeys(d) && AllAnswered(d)
    ensures MergeItem(d, key, Some(v)).Some?
    ensures var r := MergeItem(d, key, Some(v)).value;
      && DistinctKeys(r) && AllAnswered(r)
      && forall k :: Lookup(r, k) == if k == key then Appended(Lookup(d, key), v) else Lookup(d, k)
  {
    var r := MergeItem(d, key, Some(v)).value;
    match KeyIndex(d, key)
    case None =>
      forall k ensures Lookup(r, k) == if k == key then Appended(Lookup(d, key), v) else Lookup(d, k) {
        LookupSnoc(d, key, Some(v), k);
      }
    case Some(j) =>
      forall k ensures Lookup(r, k) == if k == key then Appended(Lookup(d, key), v) else Lookup(d, k) {
        KeyIndexSameKeys(r, d, k);
      }
  }

  /** With string answers and distinct keys, a chunk appends each of its answers to its own key. */
  lemma {:induction false} ChunkStep(d: Answers, items: Answers)
    requires DistinctKeys(d) && AllAnswered(d)
    requires DistinctKeys(items) && AllAnswered(items)
    ensures MergeChunk(d, items).Some?
    ensures var r := MergeChunk(d, items).value;
      && DistinctKeys(r) && AllAnswered(r)
      && forall k :: Lookup(r, k) == AfterChunk(Lookup(d, k), Lookup(items, k))
    decreases |items|
  {
    if items != [] {
      var n := |items| - 1;
      var init := items[..n];
      var (key, value) := items[n];
      assert items == init + [(key, value)];
      ChunkStep(d, init);
      var e := MergeChunk(d, init).value;
      ItemStep(e, key, value.value);
      assert KeyIndex(init, key).None?;
      forall k ensures Lookup(MergeChunk(d, items).value, k) == AfterChunk(Lookup(d, k), Lookup(items, k)) {
        LookupSnoc(init, key, value, k);
      }
    }
  }

  /**
   * With string answers, the merge loop never raises, and each key that
   * some chunk answers ends up holding the first chunk's answer followed by
   * every later chunk's answer, each after a newline, in chunk order; no
   * other key is present.
   */
  lemma {:induction false} MergeJoinsAnswers(chunks: seq<Answers>)
    requires forall c :: c in chunks ==> DistinctKeys(c) && AllAnswered(c)
    ensures MergeAll(chunks).Some?
    ensures DistinctKeys(MergeAll(chunks).value) && AllAnswered(MergeAll(chunks).value)
    ensures forall k :: Lookup(MergeAll(chunks).value, k) == Rendered(AnswersFor(chunks, k))
    decreases |chunks|
  {
    if chunks != [] {
      var n := |chunks| - 1;
      var init := chunks[..n];
      assert forall c :: c in init ==> c in chunks;
      MergeJoinsAnswers(init);
      var prev := MergeAll(init).value;
      ChunkStep(prev, chunks[n]);
      assert MergeAll(chunks) == MergeChunk(prev, chunks[n]);
      forall k ensures Lookup(MergeAll(chunks).value, k) == Rendered(AnswersFor(chunks, k)) {
        var found := Lookup(chunks[n], k);
        assert AnswersFor(chunks, k) == AnswersFor(init, k) + match found case Some(Some(v)) => [v] case _ => [];
        JoinSnocAny(AnswersFor(init, k), found);
      }
    }
  }

  lemma JoinSnocAny(xs: seq<string>, found: Option<Option<string>>)
    ensures AfterChunk(Rendered(xs), found) == Rendered(xs + match found case Some(Some(v)) => [v] case _ => [])
  {
    match found
    case Some(Some(v)) =>
      JoinSnoc("\n", xs, v);
    case _ =>
      assert xs + [] == xs;
  }

  /** What `initialize_model_and_tokenizer` loads: the two transformers classes and the checkpoint each is read from. */
  datatype Loaded = Loaded(tokenizerClass: string, tokenizerCheckpoint: string,
                           modelClass: string, modelCheckpoint: string)

  /** The model names the dispatch accepts. */
  const SupportedModels: set<string> := {"GPT-2", "T5", "LLaMA"}

  /**
   * `initialize_model_and_tokenizer`: the tokenizer and model for a
   * supported name, read from the same checkpoint; any other name raises
   * `ValueError` (`None`). Loading the weights is not modelled.
   */
  function InitializeModelAndTokenizer(modelName: string): (r: Option<Loaded>)
    ensures r.Some? <==> modelName in SupportedModels
    ensures r.Some? ==> r.value.tokenizerCheckpoint == r.value.modelCheckpoint
  {
    if modelName == "GPT-2" then Some(Loaded("GPT2Tokenizer", "gpt2", "GPT2LMHeadModel", "gpt2"))
    else if modelName == "T5" then Some(Loaded("T5Tokenizer", "t5-small", "T5ForConditionalGeneration", "t5-small"))
    else if modelName == "LLaMA" then Some(Loaded("AutoTokenizer", "facebook/llama", "AutoModelForSeq2SeqLM", "facebook/llama"))
    else None
  }
}
