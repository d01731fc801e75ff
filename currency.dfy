/**
 * The currency handling shared by `5_openAI.py` and
 * `5_openAI_structured.py`: cleaning a document, finding the three-letter
 * currency codes it mentions, and dropping the base currency from the
 * codes whose rates are fetched. The two scripts hold the same code for
 * these steps; they differ only in their industry benchmarks.
 */
module Currency {
  import opened Wrappers
  import opened Text
  import opened Sets

  /** No word character comes right before index `i`. */
  predicate OpenBefore(s: string, i: int) {
    i == 0 || (0 < i <= |s| && !IsWordChar(s[i - 1]))
  }

  /** `\b` on both sides of `t` at `i`: `t` occurs there and no word character touches it. */
  predicate WholeWordAt(s: string, t: string, i: int) {
    && OccursAt(s, t, i)
    && OpenBefore(s, i)
    && (i + |t| == |s| || !IsWordChar(s[i + |t|]))
  }

  /** `t` never occurs in `s` as a whole word. */
  predicate NoWholeWord(s: string, t: string) {
    forall i :: 0 <= i <= |s| ==> !WholeWordAt(s, t, i)
  }

  /** A non-empty run of word characters. */
  predicate IsWordRun(t: string) {
    t != [] && forall k :: 0 <= k < |t| ==> IsWordChar(t[k])
  }

  /** Every character is a word character or whitespace. */
  predicate WordsAndSpaces(s: string) {
    forall k :: 0 <= k < |s| ==> IsWordChar(s[k]) || IsSpace(s[k])
  }

  /** No character of `a` occurs in `b`. */
  predicate Disjoint(a: string, b: string) {
    forall k, m :: 0 <= k < |a| && 0 <= m < |b| ==> a[k] != b[m]
  }

  /** `re.sub(r'[^\w\s]', '', s)`: drops every character that is neither a word character nor whitespace. */
  function RemoveSpecial(s: string): (r: string)
    ensures WordsAndSpaces(r)
    ensures |r| <= |s|
  {
    if s == [] then []
    else
      var rest := RemoveSpecial(s[1..]);
      if IsWordChar(s[0]) || IsSpace(s[0]) then [s[0]] + rest else rest
  }

  /** Dropping special characters works character by character, so it distributes over concatenation. */
  lemma {:induction false} RemoveSpecialAppend(a: string, b: string)
    ensures RemoveSpecial(a + b) == RemoveSpecial(a) + RemoveSpecial(b)
  {
    if a == [] {
      assert a + b == b;
    } else {
      assert (a + b)[1..] == a[1..] + b;
      RemoveSpecialAppend(a[1..], b);
    }
  }

  /** One character is kept exactly when it is a word character or whitespace, and dropped otherwise. */
  lemma RemoveSpecialChar(c: char)
    ensures RemoveSpecial([c]) == if IsWordChar(c) || IsSpace(c) then [c] else []
  {
    assert [c][1..] == [];
  }

  /** A text of word characters and whitespace is left as it is. */
  lemma {:induction false} RemoveSpecialKeeps(s: string)
    requires WordsAndSpaces(s)
    ensures RemoveSpecial(s) == s
  {
    if s != [] {
      RemoveSpecialKeeps(s[1..]);
    }
  }

  /**
   * `re.sub(r'\bw\b', rep, s)` from index `i` on: the scan replaces each
   * whole-word occurrence of `w` and resumes after it.
   */
  function ReplaceWord(s: string, w: string, rep: string, i: nat): string
    requires w != []
    decreases |s| - i
  {
    if i >= |s| then []
    else if WholeWordAt(s, w, i) then rep + ReplaceWord(s, w, rep, i + |w|)
    else [s[i]] + ReplaceWord(s, w, rep, i + 1)
  }

  /** Where no whole-word `w` starts in `[i, k)`, the scan copies `s[i..k]` unchanged. */
  lemma {:induction false} ReplaceWordCopies(s: string, w: string, rep: string, i: nat, k: nat)
    requires w != [] && i <= k <= |s|
    requires forall j :: i <= j < k ==> !WholeWordAt(s, w, j)
    ensures ReplaceWord(s, w, rep, i) == s[i..k] + ReplaceWord(s, w, rep, k)
    decreases k - i
  {
    if i < k {
      var t := ReplaceWord(s, w, rep, i + 1);
      assert ReplaceWord(s, w, rep, i) == [s[i]] + t by { assert !WholeWordAt(s, w, i); }
      assert t == s[i + 1..k] + ReplaceWord(s, w, rep, k) by { ReplaceWordCopies(s, w, rep, i + 1, k); }
      assert s[i..k] == [s[i]] + s[i + 1..k];
    }
  }

  /**
   * At the next whole-word `w`, found at `k`, the scan copies what lies
   * before it, writes `rep` in its place and resumes right after it.
   */
  lemma ReplaceWordAtMatch(s: string, w: string, rep: string, i: nat, k: nat)
    requires w != [] && i <= k && WholeWordAt(s, w, k)
    requires forall j :: i <= j < k ==> !WholeWordAt(s, w, j)
    ensures ReplaceWord(s, w, rep, i) == s[i..k] + rep + ReplaceWord(s, w, rep, k + |w|)
  {
    ReplaceWordCopies(s, w, rep, i, k);
  }

  /** The replacement is empty exactly at the end, and starts with a word character exactly where `s` does. */
  lemma {:induction false} ReplaceWordHead(s: string, w: string, rep: string, i: nat)
    requires IsWordRun(w) && IsWordRun(rep)
    ensures (ReplaceWord(s, w, rep, i) == []) <==> i >= |s|
    ensures i < |s| ==> (IsWordChar(ReplaceWord(s, w, rep, i)[0]) <==> IsWordChar(s[i]))
  {
  }

  /** The first character of the output from `i`. */
  lemma ReplaceWordFirst(s: string, w: string, rep: string, i: nat)
    requires w != [] && rep != [] && i < |s|
    ensures ReplaceWord(s, w, rep, i)[0] == if WholeWordAt(s, w, i) then rep[0] else s[i]
  {
  }

  /** Replacing word runs by word runs keeps a text of words and spaces. */
  lemma {:induction false} ReplaceWordKeepsWordsAndSpaces(s: string, w: string, rep: string, i: nat)
    requires w != [] && IsWordRun(rep) && WordsAndSpaces(s)
    ensures WordsAndSpaces(ReplaceWord(s, w, rep, i))
    decreases |s| - i
  {
    if i < |s| {
      if WholeWordAt(s, w, i) {
        ReplaceWordKeepsWordsAndSpaces(s, w, rep, i + |w|);
      } else {
        ReplaceWordKeepsWordsAndSpaces(s, w, rep, i + 1);
      }
    }
  }

  /**
   * When the output from `i` starts with the first `k` characters of `v`,
   * none of which the replacement uses, those characters were copied from
   * `s` unchanged.
   */
  lemma {:induction false} CopiedPrefix(s: string, w: string, rep: string, v: string, i: nat, k: nat)
    requires i <= |s| && w != [] && rep != [] && Disjoint(v, rep) && k <= |v|
    requires k <= |ReplaceWord(s, w, rep, i)|
    requires forall j :: 0 <= j < k ==> ReplaceWord(s, w, rep, i)[j] == v[j]
    ensures i + k <= |s|
    ensures ReplaceWord(s, w, rep, i) == s[i..i + k] + ReplaceWord(s, w, rep, i + k)
    decreases k
  {
    if k > 0 {
      var j := i + k - 1;
      CopiedPrefix(s, w, rep, v, i, k - 1);
      var rest := ReplaceWord(s, w, rep, j);
      assert rest[0] == ReplaceWord(s, w, rep, i)[k - 1] == v[k - 1];
      assert v[k - 1] != rep[0];
      CopiedOne(s, w, rep, j);
      ShiftOne(s, i, j, ReplaceWord(s, w, rep, i), ReplaceWord(s, w, rep, j + 1));
    }
  }

  lemma ShiftOne(s: string, i: nat, j: nat, o: string, tail: string)
    requires i <= j < |s| && o == s[i..j] + ([s[j]] + tail)
    ensures o == s[i..j + 1] + tail
  {
    assert s[i..j] + [s[j]] == s[i..j + 1];
  }

  /** An output that does not start like the replacement starts with a copied character. */
  lemma CopiedOne(s: string, w: string, rep: string, j: nat)
    requires w != [] && rep != [] && ReplaceWord(s, w, rep, j) != []
    requires ReplaceWord(s, w, rep, j)[0] != rep[0]
    ensures j < |s| && ReplaceWord(s, w, rep, j) == [s[j]] + ReplaceWord(s, w, rep, j + 1)
  {
    ReplaceWordFirst(s, w, rep, j);
  }

  /**
   * `v` occurs at `p` in `o` with no word character around it; before index 0
   * there is a word character unless `leftOpen`.
   */
  predicate BoundedAt(o: string, v: string, p: int, leftOpen: bool) {
    && OccursAt(o, v, p)
    && (if p == 0 then leftOpen else !IsWordChar(o[p - 1]))
    && (p + |v| == |o| || !IsWordChar(o[p + |v|]))
  }

  /** A word run that shares no character with `v`, put in front, creates no bounded `v`. */
  lemma AfterReplacement(rep: string, o: string, v: string, leftOpen: bool, openAfter: bool)
    requires IsWordRun(rep) && v != [] && Disjoint(v, rep)
    requires forall q :: 0 <= q <= |o| ==> !BoundedAt(o, v, q, openAfter)
    ensures forall p :: 0 <= p <= |rep + o| ==> !BoundedAt(rep + o, v, p, leftOpen)
  {
    var r := rep + o;
    forall p | 0 <= p <= |r|
      ensures !BoundedAt(r, v, p, leftOpen)
    {
      if p < |rep| {
        assert r[p] == rep[p] && v[0] != rep[p];
      } else if p == |rep| {
        assert r[p - 1] == rep[|rep| - 1];
      } else if OccursAt(r, v, p) {
        var q := p - |rep|;
        assert o[q..q + |v|] == r[p..p + |v|];
        assert o[q - 1] == r[p - 1];
        assert p + |v| < |r| ==> o[q + |v|] == r[p + |v|];
        assert !BoundedAt(o, v, q, openAfter);
      }
    }
  }

  /** A copied character in front moves every bounded `v` one place on. */
  lemma AfterCopy(c: char, o: string, v: string, leftOpen: bool, openAfter: bool)
    requires v != [] && openAfter == !IsWordChar(c)
    requires forall q :: 0 <= q <= |o| ==> !BoundedAt(o, v, q, openAfter)
    ensures forall p :: 1 <= p <= |[c] + o| ==> !BoundedAt([c] + o, v, p, leftOpen)
  {
    var r := [c] + o;
    forall p | 1 <= p <= |r|
      ensures !BoundedAt(r, v, p, leftOpen)
    {
      if OccursAt(r, v, p) {
        var q := p - 1;
        assert o[q..q + |v|] == r[p..p + |v|];
        assert r[p - 1] == if q == 0 then c else o[q - 1];
        assert p + |v| < |r| ==> o[q + |v|] == r[p + |v|];
        assert !BoundedAt(o, v, q, openAfter);
      }
    }
  }

  /**
   * Replacing whole-word `w` by `rep` creates no whole-word `v` when `rep`
   * shares no character with `v`: every whole-word `v` of the output was
   * one in `s`, which the hypothesis makes a replaced `w`.
   */
  lemma {:induction false} NoWholeWordFrom(s: string, w: string, rep: string, v: string, i: nat)
    requires i <= |s| && IsWordRun(w) && IsWordRun(rep) && v != [] && Disjoint(v, rep)
    requires forall j :: i <= j <= |s| && WholeWordAt(s, v, j) ==> WholeWordAt(s, w, j)
    ensures forall p :: 0 <= p <= |ReplaceWord(s, w, rep, i)| ==>
      !BoundedAt(ReplaceWord(s, w, rep, i), v, p, OpenBefore(s, i))
    decreases |s| - i
  {
    var o := ReplaceWord(s, w, rep, i);
    if i < |s| {
      if WholeWordAt(s, w, i) {
        var n := i + |w|;
        NoWholeWordFrom(s, w, rep, v, n);
        AfterReplacement(rep, ReplaceWord(s, w, rep, n), v, OpenBefore(s, i), OpenBefore(s, n));
      } else {
        NoWholeWordFrom(s, w, rep, v, i + 1);
        AfterCopy(s[i], ReplaceWord(s, w, rep, i + 1), v, OpenBefore(s, i), OpenBefore(s, i + 1));
        if BoundedAt(o, v, 0, OpenBefore(s, i)) {
          CopiedBoundedIsWhole(s, w, rep, v, i);
        }
      }
    }
  }

  /**
   * A bounded `v` at the start of the output from `i` on was copied from
   * `s`: it is a whole-word `v` of `s` at `i`.
   */
  lemma CopiedBoundedIsWhole(s: string, w: string, rep: string, v: string, i: nat)
    requires i <= |s| && IsWordRun(w) && IsWordRun(rep) && v != [] && Disjoint(v, rep)
    requires BoundedAt(ReplaceWord(s, w, rep, i), v, 0, OpenBefore(s, i))
    ensures WholeWordAt(s, v, i)
  {
    var o := ReplaceWord(s, w, rep, i);
    assert o[..|v|] == v;
    assert forall j :: 0 <= j < |v| ==> o[j] == v[j];
    CopiedPrefix(s, w, rep, v, i, |v|);
    var t := ReplaceWord(s, w, rep, i + |v|);
    assert s[i..i + |v|] == v;
    ReplaceWordHead(s, w, rep, i + |v|);
    if i + |v| < |s| {
      assert o[|v|] == t[0];
    }
  }

  /** `re.sub(r'\bw\b', rep, s)`. */
  function SubWord(s: string, w: string, rep: string): string
    requires w != []
  {
    ReplaceWord(s, w, rep, 0)
  }

  /** Every whole-word `v` left by the substitution was a whole-word `w` of `s`, so none survives. */
  lemma SubWordNoWholeWord(s: string, w: string, rep: string, v: string)
    requires IsWordRun(w) && IsWordRun(rep) && v != [] && Disjoint(v, rep)
    requires forall j :: 0 <= j <= |s| && WholeWordAt(s, v, j) ==> WholeWordAt(s, w, j)
    ensures NoWholeWord(SubWord(s, w, rep), v)
  {
    NoWholeWordFrom(s, w, rep, v, 0);
    var o := ReplaceWord(s, w, rep, 0);
    assert OpenBefore(s, 0);
    forall p | 0 <= p <= |o| ensures !WholeWordAt(o, v, p) {
      assert !BoundedAt(o, v, p, true);
    }
  }

  /** After the substitution, `w` no longer occurs as a whole word. */
  lemma SubWordRemovesWord(s: string, w: string, rep: string)
    requires IsWordRun(w) && IsWordRun(rep) && Disjoint(w, rep)
    ensures NoWholeWord(SubWord(s, w, rep), w)
  {
    SubWordNoWholeWord(s, w, rep, w);
  }

  /** The substitution creates no whole-word `v` from a replacement sharing no character with it. */
  lemma SubWordKeepsAbsent(s: string, w: string, rep: string, v: string)
    requires IsWordRun(w) && IsWordRun(rep) && v != [] && Disjoint(v, rep)
    requires NoWholeWord(s, v)
    ensures NoWholeWord(SubWord(s, w, rep), v)
  {
    SubWordNoWholeWord(s, w, rep, v);
  }

  /** Without a whole-word `w`, the substitution changes nothing. */
  lemma SubWordWithoutWord(s: string, w: string, rep: string)
    requires w != [] && NoWholeWord(s, w)
    ensures SubWord(s, w, rep) == s
  {
    ReplaceWordCopies(s, w, rep, 0, |s|);
  }

  /** A single whole-word `w`, at `k`, becomes `rep`, and the rest of the text is kept. */
  lemma SubWordOneMatch(s: string, w: string, rep: string, k: nat)
    requires w != [] && WholeWordAt(s, w, k)
    requires forall j :: 0 <= j <= |s| && j != k ==> !WholeWordAt(s, w, j)
    ensures SubWord(s, w, rep) == s[..k] + rep + s[k + |w|..]
  {
    var n := k + |w|;
    var tail := ReplaceWord(s, w, rep, n);
    assert SubWord(s, w, rep) == s[0..k] + rep + tail by {
      ReplaceWordAtMatch(s, w, rep, 0, k);
    }
    assert tail == s[n..] by {
      ReplaceWordCopies(s, w, rep, n, |s|);
      assert ReplaceWord(s, w, rep, |s|) == [];
      assert s[n..|s|] + [] == s[n..];
    }
    assert s[0..k] == s[..k];
  }

  const USD := "USD"
  const EUR := "EUR"
  const JPY := "JPY"

  /** The codes and their spelled-out names are word runs, and no code shares a character with any name. */
  lemma NamesAreSafe()
    ensures IsWordRun(USD) && IsWordRun(EUR) && IsWordRun(JPY)
    ensures IsWordRun("dollar") && IsWordRun("euro") && IsWordRun("yen")
    ensures Disjoint(USD, "dollar") && Disjoint(USD, "euro") && Disjoint(USD, "yen")
    ensures Disjoint(EUR, "dollar") && Disjoint(EUR, "euro") && Disjoint(EUR, "yen")
    ensures Disjoint(JPY, "dollar") && Disjoint(JPY, "euro") && Disjoint(JPY, "yen")
  {
  }

  /**
   * `preprocess_text`: whitespace runs become one space, characters that are
   * neither word characters nor whitespace are dropped, and the whole words
   * USD, EUR and JPY become dollar, euro and yen.
   */
  function PreprocessText(text: string): string {
    var t := RemoveSpecial(Collapse(text));
    SubWord(SubWord(SubWord(t, USD, "dollar"), EUR, "euro"), JPY, "yen")
  }

  /** The cleaned text holds only word characters and whitespace. */
  lemma PreprocessKeepsWordsAndSpaces(text: string)
    ensures WordsAndSpaces(PreprocessText(text))
  {
    var t := RemoveSpecial(Collapse(text));
    ReplaceWordKeepsWordsAndSpaces(t, USD, "dollar", 0);
    var t1 := SubWord(t, USD, "dollar");
    ReplaceWordKeepsWordsAndSpaces(t1, EUR, "euro", 0);
    var t2 := SubWord(t1, EUR, "euro");
    ReplaceWordKeepsWordsAndSpaces(t2, JPY, "yen", 0);
  }

  /** No whole-word USD, EUR or JPY survives the cleaning. */
  lemma PreprocessRemovesCodes(text: string)
    ensures NoWholeWord(PreprocessText(text), USD)
    ensures NoWholeWord(PreprocessText(text), EUR)
    ensures NoWholeWord(PreprocessText(text), JPY)
  {
    NamesAreSafe();
    var t := RemoveSpecial(Collapse(text));
    SubWordRemovesWord(t, USD, "dollar");
    var t1 := SubWord(t, USD, "dollar");
    SubWordRemovesWord(t1, EUR, "euro");
    SubWordKeepsAbsent(t1, EUR, "euro", USD);
    var t2 := SubWord(t1, EUR, "euro");
    SubWordRemovesWord(t2, JPY, "yen");
    SubWordKeepsAbsent(t2, JPY, "yen", USD);
    SubWordKeepsAbsent(t2, JPY, "yen", EUR);
  }

  /** A text already single-spaced, of words and spaces, and without whole-word USD, EUR or JPY comes out unchanged. */
  lemma PreprocessKeepsCleanText(text: string)
    requires SingleSpaced(text) && WordsAndSpaces(text)
    requires NoWholeWord(text, USD) && NoWholeWord(text, EUR) && NoWholeWord(text, JPY)
    ensures PreprocessText(text) == text
  {
    CollapseSingleSpaced(text);
    RemoveSpecialKeeps(text);
    SubWordWithoutWord(text, USD, "dollar");
    SubWordWithoutWord(text, EUR, "euro");
    SubWordWithoutWord(text, JPY, "yen");
  }

  /**
   * On a clean text that names neither EUR nor JPY, preprocessing is exactly
   * the USD-to-dollar substitution: each whole-word USD becomes dollar and
   * everything else is kept.
   */
  lemma PreprocessSpellsOutDollars(text: string)
    requires SingleSpaced(text) && WordsAndSpaces(text)
    requires NoWholeWord(text, EUR) && NoWholeWord(text, JPY)
    ensures PreprocessText(text) == SubWord(text, USD, "dollar")
  {
    NamesAreSafe();
    CollapseSingleSpaced(text);
    RemoveSpecialKeeps(text);
    var t := SubWord(text, USD, "dollar");
    SubWordKeepsAbsent(text, USD, "dollar", EUR);
    SubWordKeepsAbsent(text, USD, "dollar", JPY);
    SubWordWithoutWord(t, EUR, "euro");
    SubWordWithoutWord(t, JPY, "yen");
  }

  /** Three upper-case ASCII letters: what `[A-Z]{3}` matches. */
  predicate IsCode(c: string) {
    |c| == 3 && forall k :: 0 <= k < 3 ==> IsAsciiUpper(c[k])
  }

  /** `\b[A-Z]{3}\b` matches at `j`. */
  predicate CodeAt(s: string, j: int) {
    0 <= j && j + 3 <= |s| && IsCode(s[j..j + 3]) && WholeWordAt(s, s[j..j + 3], j)
  }

  /** `findall(r'\b[A-Z]{3}\b', s)` from index `i`: after a match the search resumes right after it. */
  function FindCodes(s: string, i: nat): seq<string>
    decreases |s| - i
  {
    if i + 3 > |s| then []
    else if CodeAt(s, i) then [s[i..i + 3]] + FindCodes(s, i + 3)
    else FindCodes(s, i + 1)
  }

  /** A match covers three word characters, so no other match starts inside it. */
  lemma NoCodeInside(s: string, i: int)
    requires CodeAt(s, i)
    ensures !CodeAt(s, i + 1) && !CodeAt(s, i + 2)
  {
    assert s[i] == s[i..i + 3][0] && s[i + 1] == s[i..i + 3][1];
  }

  /** The scan from `i` returns exactly the codes that match at `i` or later. */
  lemma {:induction false} FindCodesExactly(s: string, i: nat)
    ensures forall c :: c in FindCodes(s, i) ==> exists j :: i <= j && CodeAt(s, j) && c == s[j..j + 3]
    ensures forall j :: i <= j && CodeAt(s, j) ==> s[j..j + 3] in FindCodes(s, i)
    decreases |s| - i
  {
    if i + 3 <= |s| {
      if CodeAt(s, i) {
        FindCodesExactly(s, i + 3);
        NoCodeInside(s, i);
      } else {
        FindCodesExactly(s, i + 1);
      }
    }
  }

  /** `set(findall(...))`: the distinct codes the text mentions. */
  function CodeSet(s: string): set<string> {
    set c | c in FindCodes(s, 0)
  }

  /** A code is detected exactly when it occurs in the text as a whole word. */
  lemma DetectedCodes(s: string)
    ensures forall c :: c in CodeSet(s) <==> IsCode(c) && exists j :: WholeWordAt(s, c, j)
  {
    FindCodesExactly(s, 0);
    forall c | IsCode(c) && (exists j :: WholeWordAt(s, c, j))
      ensures c in CodeSet(s)
    {
      var j :| WholeWordAt(s, c, j);
      assert s[j..j + 3] == c;
      assert CodeAt(s, j);
    }
  }

  /** `detect_currencies`: the distinct codes, in the order the set yields them. */
  method DetectCurrencies(text: string) returns (codes: seq<string>)
    ensures IsOrdering(codes, CodeSet(text))
  {
    codes := ListOfSet(CodeSet(text));
  }

  /** The codes the cleaning spells out are never detected in a cleaned text. */
  lemma CleanedTextHidesCodes(text: string)
    ensures USD !in CodeSet(PreprocessText(text))
    ensures EUR !in CodeSet(PreprocessText(text))
    ensures JPY !in CodeSet(PreprocessText(text))
  {
    PreprocessRemovesCodes(text);
    DetectedCodes(PreprocessText(text));
  }

  /** `list.remove(x)`: drops the first occurrence of `x`; Python raises when there is none, which the caller's membership test rules out. */
  function RemoveFirst<T(==)>(xs: seq<T>, x: T): seq<T>
    requires x in xs
  {
    if xs[0] == x then xs[1..]
    else [xs[0]] + RemoveFirst(xs[1..], x)
  }

  /** When the first `x` sits at `k`, exactly that entry is dropped. */
  lemma {:induction false} RemoveFirstAt<T>(xs: seq<T>, x: T, k: nat)
    requires k < |xs| && xs[k] == x
    requires forall j :: 0 <= j < k ==> xs[j] != x
    ensures RemoveFirst(xs, x) == xs[..k] + xs[k + 1..]
  {
    if k > 0 {
      var t := xs[1..];
      assert forall j :: 0 <= j < k - 1 ==> t[j] == xs[j + 1];
      RemoveFirstAt(t, x, k - 1);
      assert xs[..k] == [xs[0]] + t[..k - 1];
      assert xs[k + 1..] == t[k..];
    }
  }

  /** Removing from a list without repeats leaves a list without repeats and without `x`. */
  lemma {:induction false} RemoveFirstFromDistinct<T>(xs: seq<T>, x: T)
    requires Distinct(xs) && x in xs
    ensures Distinct(RemoveFirst(xs, x))
    ensures forall y :: y in RemoveFirst(xs, x) <==> y in xs && y != x
  {
    assert Distinct(xs[1..]) by {
      forall i, j | 0 <= i < j < |xs[1..]| ensures xs[1..][i] != xs[1..][j] {
        assert xs[1..][i] == xs[i + 1] && xs[1..][j] == xs[j + 1];
      }
    }
    assert xs[0] !in xs[1..] by {
      forall j | 0 <= j < |xs[1..]| ensures xs[1..][j] != xs[0] {
        assert xs[1..][j] == xs[j + 1];
      }
    }
    assert xs == [xs[0]] + xs[1..];
    if xs[0] != x {
      RemoveFirstFromDistinct(xs[1..], x);
      var r := RemoveFirst(xs[1..], x);
      assert forall j :: 0 <= j < |r| ==> ([xs[0]] + r)[j + 1] == r[j];
    }
  }

  /**
   * The currency steps of `rate_fx_risk`: clean the document, detect its
   * codes and drop the base currency before the rates are fetched.
   */
  method RateFxRiskTargets(document: string, base: string) returns (targets: seq<string>)
    ensures Distinct(targets)
    ensures forall c :: c in targets <==> c in CodeSet(PreprocessText(document)) && c != base
    ensures USD !in targets && EUR !in targets && JPY !in targets
  {
    var cleaned := PreprocessText(document);
    var detected := DetectCurrencies(cleaned);
    targets := detected;
    if base in detected {
      targets := RemoveFirst(detected, base);
      RemoveFirstFromDistinct(detected, base);
    }
    CleanedTextHidesCodes(document);
  }
}
