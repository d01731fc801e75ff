/**
 * The string primitives of Python that the pipeline relies on: `str.isspace`,
 * the `\s`, `\w` and `\d` classes of `re`, `str.lower`, `in` on strings,
 * `str.index`, `str.strip`, `re.sub(r'\s+', ' ', s)`, `str.split()` and
 * `str.join`.
 */
module Text {
  import opened Wrappers

  /** Python's `str.isspace()`, which is also what `\s` matches in a str pattern. */
  predicate IsSpace(c: char) {
    || c == ' ' || ('\t' <= c <= '\r') || ('\U{1C}' <= c <= '\U{1F}')
    || c == '\U{85}' || c == '\U{A0}' || c == '\U{1680}' || ('\U{2000}' <= c <= '\U{200A}')
    || c == '\U{2028}' || c == '\U{2029}' || c == '\U{202F}' || c == '\U{205F}' || c == '\U{3000}'
  }

  /** `\d`, restricted to ASCII digits. */
  predicate IsDigit(c: char) {
    '0' <= c <= '9'
  }

  predicate IsAsciiUpper(c: char) {
    'A' <= c <= 'Z'
  }

  /** `\w`, restricted to ASCII letters, digits and the underscore. */
  predicate IsWordChar(c: char) {
    IsAsciiUpper(c) || ('a' <= c <= 'z') || IsDigit(c) || c == '_'
  }

  function LowerChar(c: char): char {
    if IsAsciiUpper(c) then (c as int + 32) as char else c
  }

  /** `str.lower()` on the ASCII letters. */
  function Lower(s: string): (r: string)
    ensures |r| == |s| && forall i :: 0 <= i < |s| ==> r[i] == LowerChar(s[i])
  {
    seq(|s|, i requires 0 <= i < |s| => LowerChar(s[i]))
  }

  /** `t` occurs in `s` starting at index `i`. */
  predicate OccursAt(s: string, t: string, i: int) {
    0 <= i && i + |t| <= |s| && s[i..i + |t|] == t
  }

  /** Python's `t in s` on strings. */
  predicate Contains(s: string, t: string) {
    exists i | 0 <= i <= |s| - |t| :: OccursAt(s, t, i)
  }

  /** Python's `s.index(t, start)`: the first occurrence at or after `start`, None for ValueError. */
  function IndexFrom(s: string, t: string, start: nat): (r: Option<nat>)
    ensures r.Some? ==> start <= r.value && OccursAt(s, t, r.value)
    ensures r.Some? ==> forall j :: start <= j < r.value ==> !OccursAt(s, t, j)
    ensures r.None? ==> forall j :: start <= j ==> !OccursAt(s, t, j)
    decreases |s| - start
  {
    if start + |t| > |s| then None
    else if OccursAt(s, t, start) then Some(start)
    else IndexFrom(s, t, start + 1)
  }

  /** The characters of `s` that are not whitespace, in order. */
  function NonSpace(s: string): string {
    if s == [] then []
    else (if IsSpace(s[0]) then [] else [s[0]]) + NonSpace(s[1..])
  }

  lemma {:induction false} NonSpaceAppend(a: string, b: string)
    ensures NonSpace(a + b) == NonSpace(a) + NonSpace(b)
  {
    if a == [] {
      assert a + b == b;
    } else {
      assert (a + b)[1..] == a[1..] + b;
      NonSpaceAppend(a[1..], b);
    }
  }

  /** A string has no non-whitespace characters exactly when it is all whitespace. */
  lemma {:induction false} NonSpaceEmpty(s: string)
    ensures NonSpace(s) == [] <==> forall i :: 0 <= i < |s| ==> IsSpace(s[i])
  {
    if s != [] {
      NonSpaceEmpty(s[1..]);
      assert forall i :: 1 <= i < |s| ==> s[i] == s[1..][i - 1];
    }
  }

  /** `s.lstrip()` */
  function TrimStart(s: string): (r: string)
    ensures |r| <= |s| && r == s[|s| - |r|..]
    ensures r == [] || !IsSpace(r[0])
    ensures forall i :: 0 <= i < |s| - |r| ==> IsSpace(s[i])
    ensures NonSpace(r) == NonSpace(s)
  {
    if s != [] && IsSpace(s[0]) then TrimStart(s[1..]) else s
  }

  /** `s.rstrip()` */
  function TrimEnd(s: string): (r: string)
    ensures |r| <= |s| && r == s[..|r|]
    ensures r == [] || !IsSpace(r[|r| - 1])
    ensures forall i :: |r| <= i < |s| ==> IsSpace(s[i])
    ensures NonSpace(r) == NonSpace(s)
  {
    if s != [] && IsSpace(s[|s| - 1]) then
      var p := s[..|s| - 1];
      var r := TrimEnd(p);
      assert s == p + [s[|s| - 1]];
      NonSpaceAppend(p, [s[|s| - 1]]);
      assert NonSpace([s[|s| - 1]]) == [];
      assert r == s[..|r|] by {
        assert p[..|r|] == s[..|r|];
      }
      r
    else s
  }

  /** No whitespace at either end. */
  predicate Trimmed(s: string) {
    s == [] || (!IsSpace(s[0]) && !IsSpace(s[|s| - 1]))
  }

  /**
   * `r` is `s` with its leading and trailing whitespace removed: it sits at
   * some index `k` of `s`, and everything of `s` outside it is whitespace.
   */
  ghost predicate IsStripOf(r: string, s: string) {
    Trimmed(r) && exists k :: SpacesAround(s, r, k)
  }

  /** `r` occurs in `s` at index `k` with only whitespace before and after it. */
  predicate SpacesAround(s: string, r: string, k: int) {
    && OccursAt(s, r, k)
    && (forall i :: 0 <= i < k ==> IsSpace(s[i]))
    && (forall i :: k + |r| <= i < |s| ==> IsSpace(s[i]))
  }

  /** A trimmed middle part with only whitespace before and after it is a strip of `s`. */
  lemma StripWitness(s: string, t: string, r: string)
    requires |t| <= |s| && t == s[|s| - |t|..] && forall i :: 0 <= i < |s| - |t| ==> IsSpace(s[i])
    requires |r| <= |t| && r == t[..|r|] && forall i :: |r| <= i < |t| ==> IsSpace(t[i])
    requires Trimmed(r)
    ensures IsStripOf(r, s)
  {
    var k := |s| - |t|;
    assert forall i :: k <= i < |s| ==> s[i] == t[i - k];
    assert s[k..k + |r|] == r;
    assert SpacesAround(s, r, k);
  }

  /** `s.strip()` */
  function Strip(s: string): (r: string)
    ensures IsStripOf(r, s)
    ensures |r| <= |s|
    ensures NonSpace(r) == NonSpace(s)
  {
    var t := TrimStart(s);
    var r := TrimEnd(t);
    StripWitness(s, t, r);
    r
  }

  /**
   * Every whitespace character is a plain space and no two whitespace
   * characters are adjacent: what `re.sub(r'\s+', ' ', s)` leaves behind.
   */
  predicate SingleSpaced(s: string) {
    && (forall i :: 0 <= i < |s| && IsSpace(s[i]) ==> s[i] == ' ')
    && (forall i :: 0 < i < |s| && IsSpace(s[i]) ==> !IsSpace(s[i - 1]))
  }

  /** `re.sub(r'\s+', ' ', s)`: every maximal run of whitespace becomes one space. */
  function Collapse(s: string): (r: string)
    ensures |r| <= |s|
    ensures SingleSpaced(r)
    ensures (r == []) == (s == [])
    ensures s != [] && IsSpace(s[0]) ==> r[0] == ' '
    ensures s != [] && !IsSpace(s[0]) ==> r[0] == s[0]
    ensures NonSpace(r) == NonSpace(s)
    decreases |s|
  {
    if s == [] then []
    else if IsSpace(s[0]) then
      var t := TrimStart(s);
      var r := [' '] + Collapse(t);
      assert r[1..] == Collapse(t);
      r
    else
      var r := [s[0]] + Collapse(s[1..]);
      assert r[1..] == Collapse(s[1..]);
      r
  }

  lemma {:induction false} SingleSpacedSlice(s: string, a: int, b: int)
    requires SingleSpaced(s) && 0 <= a <= b <= |s|
    ensures SingleSpaced(s[a..b])
  {
    var t := s[a..b];
    forall i | 0 < i < |t| && IsSpace(t[i]) ensures !IsSpace(t[i - 1]) {
      assert t[i] == s[a + i] && t[i - 1] == s[a + i - 1];
    }
  }

  /** A single-spaced text is its own collapse. */
  lemma {:induction false} CollapseSingleSpaced(s: string)
    requires SingleSpaced(s)
    ensures Collapse(s) == s
    decreases |s|
  {
    if s != [] {
      var rest := s[1..];
      SingleSpacedSlice(s, 1, |s|);
      CollapseSingleSpaced(rest);
      if IsSpace(s[0]) {
        assert rest == [] || !IsSpace(rest[0]) by {
          if rest != [] {
            assert rest[0] == s[1];
          }
        }
        assert TrimStart(rest) == rest;
        assert TrimStart(s) == rest;
        assert Collapse(s) == [' '] + rest;
      } else {
        assert Collapse(s) == [s[0]] + rest;
      }
      assert s == [s[0]] + rest;
    }
  }

  lemma SingleSpacedHasNoNewline(s: string)
    requires SingleSpaced(s)
    ensures '\n' !in s
  {
    if '\n' in s {
      var i :| 0 <= i < |s| && s[i] == '\n';
      assert IsSpace(s[i]);
    }
  }

  /** `re.sub(r'\s+', ' ', s).strip()`, the whitespace normalisation shared by several scripts. */
  function Normalize(s: string): (r: string)
    ensures Trimmed(r) && SingleSpaced(r)
    ensures '\n' !in r
    ensures |r| <= |s|
    ensures NonSpace(r) == NonSpace(s)
  {
    var c := Collapse(s);
    var t := TrimStart(c);
    SingleSpacedSlice(c, |c| - |t|, |c|);
    SingleSpacedSlice(t, 0, |TrimEnd(t)|);
    SingleSpacedHasNoNewline(Strip(c));
    Strip(c)
  }

  /** Python's `sep.join(xs)`. */
  function Join(sep: string, xs: seq<string>): string {
    if xs == [] then ""
    else if |xs| == 1 then xs[0]
    else xs[0] + sep + Join(sep, xs[1..])
  }

  /** Joining one more string adds the separator and that string (or just the string, after none). */
  lemma {:induction false} JoinSnoc(sep: string, xs: seq<string>, x: string)
    ensures Join(sep, xs + [x]) == if xs == [] then x else Join(sep, xs) + sep + x
    decreases |xs|
  {
    if |xs| == 1 {
      assert xs + [x] == [xs[0], x];
      assert [xs[0], x][1..] == [x];
    } else if |xs| > 1 {
      assert (xs + [x])[1..] == xs[1..] + [x];
      JoinSnoc(sep, xs[1..], x);
    }
  }

  /** Length of the leading run of non-whitespace characters. */
  function WordLength(s: string): (n: nat)
    ensures n <= |s|
    ensures forall i :: 0 <= i < n ==> !IsSpace(s[i])
    ensures n < |s| ==> IsSpace(s[n])
  {
    if s == [] || IsSpace(s[0]) then 0 else 1 + WordLength(s[1..])
  }

  lemma LeadingWord(t: string, n: nat)
    requires 0 < n <= |t| && forall i :: 0 <= i < n ==> !IsSpace(t[i])
    ensures IsWord(t[..n])
  {
    assert forall i :: 0 <= i < n ==> t[..n][i] == t[i];
  }

  lemma PrependWord(w: string, ws: seq<string>)
    requires IsWord(w) && forall i :: 0 <= i < |ws| ==> IsWord(ws[i])
    ensures forall i :: 0 <= i < |[w] + ws| ==> IsWord(([w] + ws)[i])
  {
    assert forall i :: 1 <= i < |[w] + ws| ==> ([w] + ws)[i] == ws[i - 1];
  }

  /** Python's `s.split()`: the maximal runs of non-whitespace characters, in order. */
  function Tokens(s: string): (r: seq<string>)
    ensures forall i :: 0 <= i < |r| ==> IsWord(r[i])
    decreases |s|
  {
    var t := TrimStart(s);
    if t == [] then []
    else
      var n := WordLength(t);
      LeadingWord(t, n);
      var rest := Tokens(t[n..]);
      PrependWord(t[..n], rest);
      [t[..n]] + rest
  }

  /** A non-empty string without whitespace. */
  predicate IsWord(w: string) {
    w != [] && forall i :: 0 <= i < |w| ==> !IsSpace(w[i])
  }

  /** One space where `s` begins with whitespace, nothing otherwise. */
  function Lead(s: string): string {
    if s != [] && IsSpace(s[0]) then " " else ""
  }

  /** One space where whitespace follows the last token of `s`, nothing otherwise. */
  function Trail(s: string): string {
    if s != [] && TrimStart(s) != [] && IsSpace(s[|s| - 1]) then " " else ""
  }

  /** Collapsing copies a leading run of non-whitespace characters unchanged. */
  lemma {:induction false} CollapseKeepsWord(w: string, rest: string)
    requires forall i :: 0 <= i < |w| ==> !IsSpace(w[i])
    ensures Collapse(w + rest) == w + Collapse(rest)
    decreases |w|
  {
    if w == [] {
      assert w + rest == rest;
    } else {
      var v := w[1..];
      assert (w + rest)[0] == w[0];
      assert (w + rest)[1..] == v + rest;
      assert Collapse(w + rest) == [w[0]] + Collapse(v + rest);
      CollapseKeepsWord(v, rest);
      assert w == [w[0]] + v;
      Assoc([w[0]], v, Collapse(rest));
    }
  }

  /** Concatenation is associative, stated for three plain variables. */
  lemma Assoc(a: string, b: string, c: string)
    ensures a + (b + c) == (a + b) + c
  {
  }

  /** A string has no tokens exactly when it is all whitespace. */
  lemma TokensEmpty(s: string)
    ensures Tokens(s) == [] <==> TrimStart(s) == []
  {
  }

  /**
   * `re.sub(r'\s+', ' ', s)` is the tokens of `s` joined by single spaces,
   * with one more space where `s` begins, or ends after a token, with whitespace.
   */
  lemma {:induction false} CollapseIsSpacedTokens(s: string)
    ensures Collapse(s) == Lead(s) + Join(" ", Tokens(s)) + Trail(s)
    decreases |s|
  {
    if s == [] {
    } else if IsSpace(s[0]) {
      var t := TrimStart(s);
      assert TrimStart(s) == TrimStart(s[1..]);
      if t != [] {
        CollapseIsSpacedTokens(t);
      }
      SpaceThenText(s);
    } else {
      assert TrimStart(s) == s;
      var n := WordLength(s);
      var w := s[..n];
      var r := s[n..];
      assert s == w + r;
      CollapseKeepsWord(w, r);
      assert Tokens(s) == [w] + Tokens(r);
      if r == [] {
        WordThenNothing(s, n);
      } else {
        assert n > 0;
        CollapseIsSpacedTokens(r);
        WordThenSpace(s, n);
      }
    }
  }

  /** The case of `CollapseIsSpacedTokens` where `s` begins with whitespace. */
  lemma SpaceThenText(s: string)
    requires s != [] && IsSpace(s[0])
    requires var t := TrimStart(s);
      t == [] || Collapse(t) == Lead(t) + Join(" ", Tokens(t)) + Trail(t)
    ensures Collapse(s) == Lead(s) + Join(" ", Tokens(s)) + Trail(s)
  {
    var t := TrimStart(s);
    LeadingSpace(s);
    assert Collapse(s) == " " + Collapse(t);
    if t == [] {
      assert Collapse(s) == " ";
    } else {
      SpaceThen(Join(" ", Tokens(t)), Trail(t));
    }
  }

  /** What leading whitespace contributes to the tokens, `Lead` and `Trail` of `s`. */
  lemma LeadingSpace(s: string)
    requires s != [] && IsSpace(s[0])
    ensures Lead(s) == " " && Tokens(s) == Tokens(TrimStart(s))
    ensures TrimStart(s) == [] ==> Tokens(s) == [] && Trail(s) == ""
    ensures TrimStart(s) != [] ==> Lead(TrimStart(s)) == "" && Trail(s) == Trail(TrimStart(s))
  {
    var t := TrimStart(s);
    assert TrimStart(s) == TrimStart(s[1..]);
    assert TrimStart(t) == t by {
      if t != [] {
        assert !IsSpace(t[0]);
      }
    }
    assert Tokens(s) == Tokens(t);
    if t == [] {
      assert Tokens(s) == [];
    } else {
      SuffixLast(s, t);
      assert Lead(t) == "";
      assert Trail(s) == Trail(t);
    }
  }

  /** A non-empty suffix ends where the whole string ends. */
  lemma SuffixLast(s: string, t: string)
    requires t != [] && |t| <= |s| && t == s[|s| - |t|..]
    ensures t[|t| - 1] == s[|s| - 1]
  {
  }

  /** The case of `CollapseIsSpacedTokens` where `s` is one word. */
  lemma WordThenNothing(s: string, n: nat)
    requires s != [] && n == |s| && forall i :: 0 <= i < n ==> !IsSpace(s[i])
    requires Collapse(s) == s[..n] + Collapse(s[n..])
    requires Tokens(s) == [s[..n]] + Tokens(s[n..])
    ensures Collapse(s) == Lead(s) + Join(" ", Tokens(s)) + Trail(s)
  {
    assert Collapse(s) == s by {
      assert s[..n] == s && s[n..] == [];
    }
    assert Tokens(s) == [s] by {
      assert s[..n] == s && s[n..] == [];
    }
    assert Lead(s) == "";
    assert Trail(s) == "" by {
      assert !IsSpace(s[|s| - 1]);
    }
    assert Join(" ", Tokens(s)) == s;
    Bare(s);
  }

  /** Nothing on either side of a text. */
  lemma Bare(s: string)
    ensures "" + s + "" == s && "" + s == s
  {
  }

  /** The case of `CollapseIsSpacedTokens` where `s` is a word followed by whitespace. */
  lemma WordThenSpace(s: string, n: nat)
    requires 0 < n < |s| && !IsSpace(s[0]) && IsSpace(s[n])
    requires Collapse(s) == s[..n] + Collapse(s[n..])
    requires Tokens(s) == [s[..n]] + Tokens(s[n..])
    requires Collapse(s[n..]) == Lead(s[n..]) + Join(" ", Tokens(s[n..])) + Trail(s[n..])
    ensures Collapse(s) == Lead(s) + Join(" ", Tokens(s)) + Trail(s)
  {
    var w := s[..n];
    var r := s[n..];
    var j := Join(" ", Tokens(r));
    var e := Trail(r);
    assert Lead(r) == " " by {
      assert r[0] == s[n];
    }
    assert Lead(s) == "";
    JoinCons(" ", w, Tokens(r));
    TrailAfterWord(s, n);
    TokensEmpty(r);
    WordThenSpaceJoin(w, j, e, Tokens(r) == []);
  }

  /** Joining a list that starts with `x`. */
  lemma JoinCons(sep: string, x: string, xs: seq<string>)
    ensures Join(sep, [x] + xs) == if xs == [] then x else x + sep + Join(sep, xs)
  {
    if xs != [] {
      assert ([x] + xs)[1..] == xs;
    }
  }

  /** After a leading word, the trailing space of `s` is that of the rest of `s`. */
  lemma TrailAfterWord(s: string, n: nat)
    requires 0 < n < |s| && !IsSpace(s[0])
    ensures Trail(s) == if TrimStart(s[n..]) == [] then " " else Trail(s[n..])
  {
    var r := s[n..];
    assert r[|r| - 1] == s[|s| - 1];
  }

  /** The concatenation step of `WordThenSpace`, for plain variables. */
  lemma WordThenSpaceJoin(w: string, j: string, e: string, none: bool)
    requires none ==> j == [] && e == []
    ensures w + (" " + j + e) == "" + (if none then w else w + " " + j) + (if none then " " else e)
  {
  }

  /** A space before a text that begins with nothing. */
  lemma SpaceThen(j: string, e: string)
    ensures " " + ("" + j + e) == " " + j + e
  {
  }

  /** Words joined by single spaces have no whitespace at either end. */
  lemma {:induction false} JoinWordsTrimmed(ws: seq<string>)
    requires forall i :: 0 <= i < |ws| ==> IsWord(ws[i])
    ensures Trimmed(Join(" ", ws))
    ensures ws != [] ==> Join(" ", ws) != []
    decreases |ws|
  {
    if |ws| > 1 {
      var rest := ws[1..];
      JoinWordsTrimmed(rest);
      var j := Join(" ", ws);
      assert j == ws[0] + " " + Join(" ", rest);
      assert j[0] == ws[0][0];
      assert j[|j| - 1] == Join(" ", rest)[|Join(" ", rest)| - 1];
    }
  }

  /** A string has one strip: two strips of the same string are equal. */
  lemma StripUnique(r1: string, r2: string, s: string)
    requires IsStripOf(r1, s) && IsStripOf(r2, s)
    ensures r1 == r2
  {
    var k1 :| SpacesAround(s, r1, k1);
    var k2 :| SpacesAround(s, r2, k2);
    SamePlacement(s, r1, k1, r2, k2);
  }

  /** Two trimmed parts of `s` with only whitespace around each are the same part. */
  lemma SamePlacement(s: string, r1: string, k1: int, r2: string, k2: int)
    requires Trimmed(r1) && SpacesAround(s, r1, k1)
    requires Trimmed(r2) && SpacesAround(s, r2, k2)
    ensures r1 == r2
  {
    if r1 != [] && r2 != [] {
      assert s[k1] == r1[0] && s[k2] == r2[0];
      assert k1 == k2;
      var e1 := k1 + |r1| - 1;
      var e2 := k2 + |r2| - 1;
      assert s[e1] == r1[|r1| - 1] && s[e2] == r2[|r2| - 1];
      assert e1 == e2;
    } else if r1 != [] {
      assert false;
    } else if r2 != [] {
      assert false;
    }
  }

  /** `' '.join(s.split())` is `re.sub(r'\s+', ' ', s).strip()`. */
  lemma NormalizeIsJoinedTokens(s: string)
    ensures Normalize(s) == Join(" ", Tokens(s))
  {
    var c := Collapse(s);
    var j := Join(" ", Tokens(s));
    CollapseIsSpacedTokens(s);
    JoinWordsTrimmed(Tokens(s));
    SpacedIsStrip(c, Lead(s), j, Trail(s));
    StripUnique(Strip(c), j, c);
  }

  /** A trimmed text between at most a space on each side is the strip of the whole. */
  lemma SpacedIsStrip(c: string, lead: string, j: string, trail: string)
    requires lead == "" || lead == " "
    requires trail == "" || trail == " "
    requires Trimmed(j) && c == lead + j + trail
    ensures IsStripOf(j, c)
  {
    var k := |lead|;
    assert c == lead + (j + trail);
    assert c[k..k + |j|] == j;
    assert OccursAt(c, j, k);
    forall i | 0 <= i < k
      ensures IsSpace(c[i])
    {
      assert c[i] == lead[i];
    }
    forall i | k + |j| <= i < |c|
      ensures IsSpace(c[i])
    {
      assert c[i] == trail[i - k - |j|];
    }
    assert SpacesAround(c, j, k);
  }

}
