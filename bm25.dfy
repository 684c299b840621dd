/** The lexical index (rag/VectorDB/BM25Index.py): documents are tokenized
    when added, per-term document frequencies are kept up to date, and the
    average length and inverse document frequencies are rebuilt lazily before
    a search. A search scores every document with BM25, keeps the positive
    scores, takes the best `k` and turns each raw score into a distance-like
    `exp(-alpha * raw)`. */
module Bm25 {
  import opened Values
  import opened Text
  import opened Sorting
  import opened RealMath

  // ---------------------------------------------------------------------
  // The default tokenizer: lower-case, split on runs of non-word characters,
  // drop empty strings.

  /** The regular-expression class `\w`: letters, digits and underscore
      (non-ASCII characters are all taken as word characters). */
  predicate IsWordChar(c: char) {
    ('a' <= c <= 'z') || ('A' <= c <= 'Z') || ('0' <= c <= '9') || c == '_' || c as int >= 128
  }

  /** `re.split(r"\W+", s)`: the pieces between maximal runs of non-word
      characters, with an empty first (last) piece when `s` starts (ends) with
      such a run. */
  function SplitNonWord(s: string): (pieces: seq<string>)
    ensures |pieces| >= 1
    ensures forall i :: 0 <= i < |pieces| ==> forall c :: c in pieces[i] ==> IsWordChar(c)
    decreases |s|
  {
    if s == [] then [""]
    else
      var rest := SplitNonWord(s[1..]);
      if IsWordChar(s[0]) then [[s[0]] + rest[0]] + rest[1..]
      else if |s| > 1 && !IsWordChar(s[1]) then rest
      else [""] + rest
  }

  /** `[token for token in tokens if token]`. */
  function NonEmpty(pieces: seq<string>): (r: seq<string>)
    ensures forall i :: 0 <= i < |r| ==> r[i] != [] && r[i] in pieces
  {
    if pieces == [] then []
    else (if pieces[0] != [] then [pieces[0]] else []) + NonEmpty(pieces[1..])
  }

  function Concat(parts: seq<string>): string {
    if parts == [] then [] else parts[0] + Concat(parts[1..])
  }

  /** The word characters of `s`, in order. */
  function WordChars(s: string): string {
    if s == [] then [] else (if IsWordChar(s[0]) then [s[0]] else []) + WordChars(s[1..])
  }

  /** `_default_tokenizer`. */
  function DefaultTokenize(text: string): seq<string> {
    NonEmpty(SplitNonWord(Lower(text)))
  }

  lemma {:induction false} SplitNonWordChars(s: string)
    ensures Concat(SplitNonWord(s)) == WordChars(s)
    decreases |s|
  {
    if s != [] {
      var rest := SplitNonWord(s[1..]);
      SplitNonWordChars(s[1..]);
      assert Concat(rest) == rest[0] + Concat(rest[1..]);
      if IsWordChar(s[0]) {
        assert ([[s[0]] + rest[0]] + rest[1..])[1..] == rest[1..];
      } else if |s| > 1 && !IsWordChar(s[1]) {
      } else {
        assert ([""] + rest)[1..] == rest;
      }
    }
  }

  lemma {:induction false} NonEmptyConcat(pieces: seq<string>)
    ensures Concat(NonEmpty(pieces)) == Concat(pieces)
  {
    if pieces != [] {
      NonEmptyConcat(pieces[1..]);
      if pieces[0] != [] {
        assert ([pieces[0]] + NonEmpty(pieces[1..]))[1..] == NonEmpty(pieces[1..]);
      } else {
        assert NonEmpty(pieces) == NonEmpty(pieces[1..]);
        assert Concat(pieces) == Concat(pieces[1..]);
      }
    }
  }

  lemma {:induction false} WordCharsLower(s: string)
    ensures |WordChars(Lower(s))| == |WordChars(s)|
    ensures forall c :: c in WordChars(Lower(s)) ==> !IsUpper(c)
  {
    if s != [] {
      WordCharsLower(s[1..]);
      assert Lower(s)[1..] == Lower(s[1..]);
      assert IsWordChar(LowerChar(s[0])) == IsWordChar(s[0]);
    }
  }

  /** What the default tokenizer promises: every token is a non-empty run of
      lower-case word characters, and together the tokens spell out exactly
      the word characters of the lower-cased text. */
  lemma DefaultTokenizeSpec(text: string)
    ensures forall i :: 0 <= i < |DefaultTokenize(text)| ==> DefaultTokenize(text)[i] != []
    ensures forall i, c :: 0 <= i < |DefaultTokenize(text)| && c in DefaultTokenize(text)[i] ==> IsWordChar(c) && !IsUpper(c)
    ensures Concat(DefaultTokenize(text)) == WordChars(Lower(text))
  {
    var pieces := SplitNonWord(Lower(text));
    SplitNonWordChars(Lower(text));
    NonEmptyConcat(pieces);
    var toks := DefaultTokenize(text);
    forall i, c | 0 <= i < |toks| && c in toks[i] ensures IsWordChar(c) && !IsUpper(c) {
      assert toks[i] in pieces;
      var j :| 0 <= j < |pieces| && pieces[j] == toks[i];
      ConcatContains(pieces, j, c);
      WordCharsLower(text);
    }
  }

  /** `[token for token in a + b if token]` is the filter of `a` followed by
      that of `b`. */
  lemma {:induction false} NonEmptyAppend(a: seq<string>, b: seq<string>)
    ensures NonEmpty(a + b) == NonEmpty(a) + NonEmpty(b)
  {
    if a == [] {
      assert a + b == b;
    } else {
      assert (a + b)[1..] == a[1..] + b;
      NonEmptyAppend(a[1..], b);
    }
  }

  /** A text that starts with a non-word character has an empty first piece. */
  lemma {:induction false} SplitNonWordLeadingEmpty(s: string)
    requires s != [] && !IsWordChar(s[0])
    ensures SplitNonWord(s)[0] == ""
    decreases |s|
  {
    if |s| > 1 && !IsWordChar(s[1]) {
      SplitNonWordLeadingEmpty(s[1..]);
    }
  }

  /** Splitting across a non-word character `c` keeps the first piece of `x`. */
  lemma {:induction false} SplitFirstAtSeparator(x: string, c: char, y: string)
    requires !IsWordChar(c)
    ensures SplitNonWord(x + [c] + y)[0] == SplitNonWord(x)[0]
    decreases |x|
  {
    var s := x + [c] + y;
    if x == [] {
      assert s == [c] + y;
      SplitNonWordLeadingEmpty(s);
    } else {
      assert s[1..] == x[1..] + [c] + y;
      SplitFirstAtSeparator(x[1..], c, y);
      if !IsWordChar(x[0]) {
        SplitNonWordLeadingEmpty(s);
        SplitNonWordLeadingEmpty(x);
      }
    }
  }

  /** Splitting across a non-word character `c`: the non-empty pieces after
      the first are those of `x`, followed by the non-empty pieces of `y`. */
  lemma {:induction false} SplitLaterAtSeparator(x: string, c: char, y: string)
    requires !IsWordChar(c)
    ensures NonEmpty(SplitNonWord(x + [c] + y)[1..]) == NonEmpty(SplitNonWord(x)[1..]) + NonEmpty(SplitNonWord(y))
    decreases |x|
  {
    var s := x + [c] + y;
    if x == [] {
      SplitLaterAtEmpty(c, y);
    } else {
      var tail := x[1..];
      assert s[1..] == tail + [c] + y;
      var rest := SplitNonWord(tail + [c] + y);
      var pt := SplitNonWord(tail);
      SplitLaterAtSeparator(tail, c, y);
      if IsWordChar(x[0]) {
        StepWord(s);
        StepWord(x);
      } else if tail == [] {
        StepRun(s);
        StepGap(x);
      } else if !IsWordChar(tail[0]) {
        StepRun(s);
        StepRun(x);
      } else {
        StepGap(s);
        StepGap(x);
        SplitFirstAtSeparator(tail, c, y);
        KeepFirst(rest);
        KeepFirst(pt);
      }
    }
  }

  lemma StepWord(s: string)
    requires s != [] && IsWordChar(s[0])
    ensures SplitNonWord(s)[1..] == SplitNonWord(s[1..])[1..]
  {
  }

  lemma StepRun(s: string)
    requires |s| > 1 && !IsWordChar(s[0]) && !IsWordChar(s[1])
    ensures SplitNonWord(s) == SplitNonWord(s[1..])
  {
  }

  lemma StepGap(s: string)
    requires s != [] && !IsWordChar(s[0]) && (|s| == 1 || IsWordChar(s[1]))
    ensures SplitNonWord(s)[1..] == SplitNonWord(s[1..])
  {
  }

  /** The base case of `SplitLaterAtSeparator`: `x` is empty. */
  lemma SplitLaterAtEmpty(c: char, y: string)
    requires !IsWordChar(c)
    ensures NonEmpty(SplitNonWord([c] + y)[1..]) == NonEmpty(SplitNonWord(y))
  {
    var s := [c] + y;
    var sy := SplitNonWord(y);
    assert s[1..] == y;
    if |s| > 1 && !IsWordChar(s[1]) {
      SplitNonWordLeadingEmpty(y);
      KeepFirst(sy);
    } else {
      assert SplitNonWord(s)[1..] == sy;
    }
  }

  /** Filtering a non-empty list: its first piece, then the rest. */
  lemma KeepFirst(ps: seq<string>)
    requires ps != []
    ensures NonEmpty(ps) == NonEmpty([ps[0]]) + NonEmpty(ps[1..])
  {
    assert ps == [ps[0]] + ps[1..];
    NonEmptyAppend([ps[0]], ps[1..]);
  }

  /** The pieces kept across a non-word character are those of either side. */
  lemma SplitNonWordSeparator(x: string, c: char, y: string)
    requires !IsWordChar(c)
    ensures NonEmpty(SplitNonWord(x + [c] + y)) == NonEmpty(SplitNonWord(x)) + NonEmpty(SplitNonWord(y))
  {
    var ps := SplitNonWord(x + [c] + y);
    var px := SplitNonWord(x);
    SplitFirstAtSeparator(x, c, y);
    SplitLaterAtSeparator(x, c, y);
    SameFirstPiece(ps, px, SplitNonWord(y));
  }

  lemma ConcatAssoc<T>(a: seq<T>, b: seq<T>, c: seq<T>)
    ensures a + (b + c) == (a + b) + c
  {
  }

  /** Two lists with the same first piece whose later kept pieces differ by
      the suffix `more` differ by `more` once filtered. */
  lemma SameFirstPiece(ps: seq<string>, px: seq<string>, more: seq<string>)
    requires ps != [] && px != [] && ps[0] == px[0]
    requires NonEmpty(ps[1..]) == NonEmpty(px[1..]) + NonEmpty(more)
    ensures NonEmpty(ps) == NonEmpty(px) + NonEmpty(more)
  {
    var head := if ps[0] != [] then [ps[0]] else [];
    ConcatAssoc(head, NonEmpty(px[1..]), NonEmpty(more));
  }

  /** The default tokenizer splits at every non-word character. */
  lemma DefaultTokenizeAtSeparator(x: string, c: char, y: string)
    requires !IsWordChar(c)
    ensures DefaultTokenize(x + [c] + y) == DefaultTokenize(x) + DefaultTokenize(y)
  {
    assert Lower(x + [c] + y) == Lower(x) + [LowerChar(c)] + Lower(y);
    SplitNonWordSeparator(Lower(x), LowerChar(c), Lower(y));
  }

  /** A text of word characters only is one piece. */
  lemma {:induction false} SplitNonWordWord(w: string)
    requires forall c :: c in w ==> IsWordChar(c)
    ensures SplitNonWord(w) == [w]
    decreases |w|
  {
    if w != [] {
      assert forall c :: c in w[1..] ==> c in w;
      SplitNonWordWord(w[1..]);
      assert [w[0]] + w[1..] == w;
    }
  }

  /** A non-empty run of word characters is one token, lower-cased. Together
      with `DefaultTokenizeAtSeparator` this fixes the tokenizer on every text. */
  lemma DefaultTokenizeWord(w: string)
    requires w != [] && forall c :: c in w ==> IsWordChar(c)
    ensures DefaultTokenize(w) == [Lower(w)]
  {
    var l := Lower(w);
    forall c | c in l ensures IsWordChar(c) {
      var i :| 0 <= i < |l| && l[i] == c;
      assert w[i] in w;
    }
    SplitNonWordWord(l);
    assert NonEmpty([l]) == [l] + NonEmpty([]);
  }

  lemma {:induction false} ConcatContains(parts: seq<string>, j: int, c: char)
    requires 0 <= j < |parts| && c in parts[j]
    ensures c in Concat(parts)
  {
    if j > 0 {
      ConcatContains(parts[1..], j - 1, c);
    }
  }

  lemma {:induction false} WordCharsEmpty(s: string)
    ensures WordChars(s) == [] <==> forall c :: c in s ==> !IsWordChar(c)
  {
    if s != [] {
      WordCharsEmpty(s[1..]);
      assert forall c :: c in s ==> c == s[0] || c in s[1..];
    }
  }

  /** The query tokenizes to nothing exactly when it has no word character. */
  lemma DefaultTokenizeEmpty(text: string)
    ensures DefaultTokenize(text) == [] <==> forall c :: c in text ==> !IsWordChar(c)
  {
    DefaultTokenizeSpec(text);
    WordCharsLower(text);
    WordCharsEmpty(Lower(text));
    WordCharsEmpty(text);
    var toks := DefaultTokenize(text);
    if toks != [] {
      assert Concat(toks) == toks[0] + Concat(toks[1..]);
      assert |Concat(toks)| > 0;
    }
  }

  // ---------------------------------------------------------------------
  // Corpus statistics.

  /** A token list paired with a document, as `raw_scores` holds it. */
  type Scored = (real, Document)

  /** A search result: the document and its normalised score. */
  type Hit = (Document, real)

  /** The `1e-9` used both as the denominator guard and the score threshold. */
  const Epsilon: real := 0.000000001

  function Sum(s: seq<nat>): nat {
    if s == [] then 0 else Sum(s[..|s| - 1]) + s[|s| - 1]
  }

  /** The number of token lists that contain `t` (repeats count once). */
  function DocCount(corpus: seq<seq<string>>, t: string): nat {
    if corpus == [] then 0
    else DocCount(corpus[..|corpus| - 1], t) + (if t in corpus[|corpus| - 1] then 1 else 0)
  }

  function TokenSet(tokens: seq<string>): set<string> {
    set t | t in tokens
  }

  /** Every token of every token list. */
  function Vocabulary(corpus: seq<seq<string>>): set<string> {
    if corpus == [] then {} else Vocabulary(corpus[..|corpus| - 1]) + TokenSet(corpus[|corpus| - 1])
  }

  /** The document-frequency table agrees with the corpus: one key per token
      that occurs anywhere, holding the number of documents containing it. */
  ghost predicate DocFreqsMatch(freqs: map<string, nat>, corpus: seq<seq<string>>) {
    && freqs.Keys == Vocabulary(corpus)
    && forall t :: t in freqs ==> freqs[t] == DocCount(corpus, t)
  }

  /** The document-frequency table after `_update_stats_add(tokens)`. */
  ghost predicate FreqsAdded(after: map<string, nat>, before: map<string, nat>, tokens: seq<string>) {
    && after.Keys == before.Keys + TokenSet(tokens)
    && forall t :: t in after ==>
         after[t] == (if t in before then before[t] else 0) + (if t in tokens then 1 else 0)
  }

  /** `log(((N - df + 0.5) / (df + 0.5)) + 1)`. */
  function IdfOf(n: nat, df: nat, ln: real -> real): real {
    ln((((n - df) as real + 0.5) / (df as real + 0.5)) + 1.0)
  }

  /** The IDF table that `_calculate_idf` builds: the keys of the frequency
      table, each with its IDF. */
  ghost predicate IdfMatches(idf: map<string, real>, freqs: map<string, nat>, n: nat, ln: real -> real) {
    && idf.Keys == freqs.Keys
    && forall t :: t in idf ==> idf[t] == IdfOf(n, freqs[t], ln)
  }

  /** The one idf table that matches the frequencies. */
  function IdfTable(freqs: map<string, nat>, n: nat, ln: real -> real): (r: map<string, real>)
    ensures IdfMatches(r, freqs, n, ln)
  {
    map t | t in freqs :: IdfOf(n, freqs[t], ln)
  }

  lemma IdfMatchesUnique(idf: map<string, real>, freqs: map<string, nat>, n: nat, ln: real -> real)
    requires IdfMatches(idf, freqs, n, ln)
    ensures idf == IdfTable(freqs, n, ln)
  {
  }

  /** `sum(doc_len) / N`, and `0.0` for an empty index. */
  function AvgLen(docLen: seq<nat>): real {
    if docLen == [] then 0.0 else Sum(docLen) as real / |docLen| as real
  }

  lemma {:induction false} DocCountAppend(corpus: seq<seq<string>>, tokens: seq<string>, t: string)
    ensures DocCount(corpus + [tokens], t) == DocCount(corpus, t) + (if t in tokens then 1 else 0)
    ensures Vocabulary(corpus + [tokens]) == Vocabulary(corpus) + TokenSet(tokens)
  {
    assert (corpus + [tokens])[..|corpus|] == corpus;
  }

  /** Adding one document's statistics keeps the frequency table in step
      with the corpus. */
  lemma FreqsAddedMatch(before: map<string, nat>, after: map<string, nat>, corpus: seq<seq<string>>, tokens: seq<string>)
    requires DocFreqsMatch(before, corpus) && FreqsAdded(after, before, tokens)
    ensures DocFreqsMatch(after, corpus + [tokens])
  {
    forall t | t in after ensures after[t] == DocCount(corpus + [tokens], t) {
      DocCountAppend(corpus, tokens, t);
      if t !in before {
        assert t !in Vocabulary(corpus);
        DocCountVocabulary(corpus, t);
      }
    }
    DocCountAppend(corpus, tokens, "");
  }

  /** A token occurs somewhere exactly when some document contains it; the
      count never exceeds the number of documents. */
  lemma {:induction false} DocCountVocabulary(corpus: seq<seq<string>>, t: string)
    ensures t in Vocabulary(corpus) <==> DocCount(corpus, t) > 0
    ensures DocCount(corpus, t) <= |corpus|
  {
    if corpus != [] {
      DocCountVocabulary(corpus[..|corpus| - 1], t);
    }
  }

  /** The document frequency of a token is the number of documents whose
      token list contains it. */
  lemma {:induction false} DocCountIsCount(corpus: seq<seq<string>>, t: string)
    ensures DocCount(corpus, t) == |set i | 0 <= i < |corpus| && t in corpus[i]|
  {
    if corpus != [] {
      var n := |corpus| - 1;
      DocCountIsCount(corpus[..n], t);
      var before := set i | 0 <= i < n && t in corpus[..n][i];
      var all := set i | 0 <= i < |corpus| && t in corpus[i];
      if t in corpus[n] {
        assert all == before + {n};
      } else {
        assert all == before;
      }
    }
  }

  /** `ln(x) > 0` for `x > 1` and `df <= N` make every IDF positive. */
  lemma IdfOfPositive(n: nat, df: nat, ln: real -> real)
    requires LnPositiveAbove1(ln) && df <= n
    ensures IdfOf(n, df, ln) > 0.0
  {
    var num := (n - df) as real + 0.5;
    var den := df as real + 0.5;
    assert num > 0.0 && den > 0.0;
    assert num / den > 0.0;
  }

  /** After a build, every IDF in the table is positive. */
  lemma IdfTablePositive(idf: map<string, real>, freqs: map<string, nat>, corpus: seq<seq<string>>, ln: real -> real)
    requires DocFreqsMatch(freqs, corpus) && IdfMatches(idf, freqs, |corpus|, ln)
    requires LnPositiveAbove1(ln)
    ensures forall t :: t in idf ==> idf[t] > 0.0
  {
    forall t | t in idf ensures idf[t] > 0.0 {
      DocCountVocabulary(corpus, t);
      IdfOfPositive(|corpus|, freqs[t], ln);
    }
  }

  // ---------------------------------------------------------------------
  // Scoring.

  /** `Counter(tokens).get(t, 0)`. */
  function TermFreq(tokens: seq<string>, t: string): nat {
    multiset(tokens)[t]
  }

  /** One term's contribution, `idf * tf * (k1 + 1) / (tf + k1 * (1 - b +
      b * len / avg) + 1e-9)`; a zero divisor raises ZeroDivisionError. */
  function TermScore(idf: real, tf: nat, docLength: nat, avg: real, k1: real, b: real): Result<real> {
    if avg == 0.0 then Err(ZeroDivisionError)
    else
      var den := Denominator(tf, docLength, avg, k1, b);
      if den + Epsilon == 0.0 then Err(ZeroDivisionError)
      else Ok(Numerator(idf, tf, k1) / (den + Epsilon))
  }

  function Numerator(idf: real, tf: nat, k1: real): real {
    idf * (tf as real) * (k1 + 1.0)
  }

  function Denominator(tf: nat, docLength: nat, avg: real, k1: real, b: real): real
    requires avg != 0.0
  {
    tf as real + k1 * (1.0 - b + b * (docLength as real / avg))
  }

  /** The contribution of each known token to one document's score. */
  function DocTerm(idf: map<string, real>, doc: seq<string>, avg: real, k1: real, b: real): string -> Result<real> {
    (t: string) => TermScore(if t in idf then idf[t] else 0.0, TermFreq(doc, t), |doc|, avg, k1, b)
  }

  /** A document's score for the query tokens: the contributions `term(t)`
      of the tokens in `known` (those with an IDF), summed in query order;
      the first failing contribution is the result. */
  function QueryScore(query: seq<string>, known: set<string>, term: string -> Result<real>): Result<real>
    decreases |query|
  {
    if query == [] then Ok(0.0)
    else
      var prev := QueryScore(query[..|query| - 1], known, term);
      var t := query[|query| - 1];
      if prev.Err? || t !in known then prev
      else match term(t)
        case Err(e) => Err(e)
        case Ok(v) => Ok(prev.value + v)
  }

  /** The query tokens that are in `known`, in order. */
  function Known(query: seq<string>, known: set<string>): (r: seq<string>)
    ensures forall i :: 0 <= i < |r| ==> r[i] in known
    ensures forall t {:trigger multiset(r)[t]} :: t in known ==> multiset(r)[t] == multiset(query)[t]
  {
    if query == [] then []
    else
      assert query == query[..|query| - 1] + [query[|query| - 1]];
      Known(query[..|query| - 1], known) + (if query[|query| - 1] in known then [query[|query| - 1]] else [])
  }

  /** Filtering distributes over concatenation, so the kept tokens stay in
      query order. */
  lemma {:induction false} KnownConcat(a: seq<string>, b: seq<string>, known: set<string>)
    ensures Known(a + b, known) == Known(a, known) + Known(b, known)
    decreases |b|
  {
    if b == [] {
      assert a + b == a;
    } else {
      var front := b[..|b| - 1];
      assert (a + b)[..|a + b| - 1] == a + front;
      assert (a + b)[|a + b| - 1] == b[|b| - 1];
      KnownConcat(a, front, known);
    }
  }

  /** A query token absent from the IDF table contributes nothing: the score
      is that of the known tokens alone. */
  lemma {:induction false} UnknownTokensIgnored(query: seq<string>, known: set<string>, term: string -> Result<real>)
    ensures QueryScore(query, known, term) == QueryScore(Known(query, known), known, term)
    decreases |query|
  {
    if query != [] {
      var front := query[..|query| - 1];
      var t := query[|query| - 1];
      UnknownTokensIgnored(front, known, term);
      assert query == front + [t];
      IgnoredStep(front, t, known, term);
    }
  }

  lemma IgnoredStep(front: seq<string>, t: string, known: set<string>, term: string -> Result<real>)
    requires QueryScore(front, known, term) == QueryScore(Known(front, known), known, term)
    ensures QueryScore(front + [t], known, term) == QueryScore(Known(front + [t], known), known, term)
  {
    var query := front + [t];
    assert query[..|query| - 1] == front && query[|query| - 1] == t;
    if t in known {
      var kn := Known(front, known) + [t];
      assert Known(query, known) == kn;
      assert kn[..|kn| - 1] == Known(front, known) && kn[|kn| - 1] == t;
    } else {
      assert Known(query, known) == Known(front, known);
    }
  }

  /** `n` copies of `t`. */
  function Repeat(t: string, n: nat): (r: seq<string>)
    ensures |r| == n && forall i :: 0 <= i < n ==> r[i] == t
  {
    if n == 0 then [] else Repeat(t, n - 1) + [t]
  }

  lemma ScaleStep(m: nat, v: real, s: real, w: real)
    requires s == m as real * v && w == (m + 1) as real * v
    ensures s + v == w
  {
    assert (m + 1) as real == m as real + 1.0;
  }

  /** A repeated query token contributes once per occurrence. */
  lemma {:induction false} RepeatedTokenScore(t: string, n: nat, known: set<string>, term: string -> Result<real>, v: real)
    requires t in known && term(t) == Ok(v)
    ensures QueryScore(Repeat(t, n), known, term) == Ok(n as real * v)
  {
    if n > 0 {
      var m: nat := n - 1;
      RepeatedTokenScore(t, m, known, term, v);
      assert Repeat(t, n)[..m] == Repeat(t, m);
      ScaleStep(m, v, m as real * v, n as real * v);
    }
  }

  /** A document without the token scores zero for it. */
  lemma AbsentTermScoresZero(idf: real, docLength: nat, avg: real, k1: real, b: real)
    requires TermScore(idf, 0, docLength, avg, k1, b).Ok?
    ensures TermScore(idf, 0, docLength, avg, k1, b).value == 0.0
  {
  }

  /** With the usual parameters (`k1 >= 0`, `0 <= b <= 1`) and a positive
      average length, a term present in the document with a positive IDF
      contributes a positive amount. */
  lemma PresentTermScoresPositive(idf: real, tf: nat, docLength: nat, avg: real, k1: real, b: real)
    requires idf > 0.0 && tf > 0 && avg > 0.0 && k1 >= 0.0 && 0.0 <= b <= 1.0
    ensures TermScore(idf, tf, docLength, avg, k1, b).Ok?
    ensures TermScore(idf, tf, docLength, avg, k1, b).value > 0.0
  {
    var ratio := docLength as real / avg;
    assert ratio >= 0.0;
    var inner := 1.0 - b + b * ratio;
    assert b * ratio >= 0.0;
    assert inner >= 0.0;
    assert k1 * inner >= 0.0;
    var den := tf as real + k1 * inner;
    assert den + Epsilon > 0.0;
    var num := idf * (tf as real) * (k1 + 1.0);
    assert idf * (tf as real) > 0.0;
    assert num > 0.0;
    assert num / (den + Epsilon) > 0.0;
  }

  /** With the usual parameters and a positive average length the divisor
      is positive, so a term's contribution never raises. */
  lemma TermScoreDefined(idf: real, tf: nat, docLength: nat, avg: real, k1: real, b: real)
    requires avg > 0.0 && k1 >= 0.0 && 0.0 <= b <= 1.0
    ensures Denominator(tf, docLength, avg, k1, b) + Epsilon > 0.0
    ensures TermScore(idf, tf, docLength, avg, k1, b).Ok?
  {
    var ratio := docLength as real / avg;
    assert ratio >= 0.0;
    var inner := 1.0 - b + b * ratio;
    assert b * ratio >= 0.0;
    assert inner >= 0.0;
    assert k1 * inner >= 0.0;
    assert Denominator(tf, docLength, avg, k1, b) == tf as real + k1 * inner;
  }

  /** `a / p <= c / q` from the cross products, for positive divisors. */
  lemma DivCrossLe(a: real, p: real, c: real, q: real)
    requires p > 0.0 && q > 0.0 && a * q <= c * p
    ensures a / p <= c / q
  {
    var x := a / p;
    var y := c / q;
    assert a == x * p && c == y * q;
    assert x * (p * q) <= y * (p * q);
  }

  lemma NumeratorScales(idf: real, tf: nat, k1: real)
    ensures Numerator(idf, tf, k1) == idf * (k1 + 1.0) * (tf as real)
  {
  }

  /** `c * x / (x + kk)` is non-decreasing in `x >= 0`. */
  lemma SaturationMonotone(c: real, kk: real, x: real, y: real)
    requires c >= 0.0 && kk > 0.0 && 0.0 <= x <= y
    ensures (c * x) / (x + kk) <= (c * y) / (y + kk)
  {
    var ck := c * kk;
    assert ck >= 0.0;
    assert ck * x <= ck * y;
    var a := c * x;
    var p := x + kk;
    var cc := c * y;
    var q := y + kk;
    assert a * q == c * x * y + ck * x;
    assert cc * p == c * x * y + ck * y;
    DivCrossLe(a, p, cc, q);
  }

  /** BM25 saturates but never decreases in the term frequency: for a fixed
      document length, a non-negative IDF and the usual parameters (the
      defaults `k1 = 1.5`, `b = 0.75` among them), a larger `tf`, a doubled
      one for instance, contributes at least as much. */
  lemma TermScoreMonotone(idf: real, tf1: nat, tf2: nat, docLength: nat, avg: real, k1: real, b: real)
    requires idf >= 0.0 && tf1 <= tf2 && avg > 0.0 && k1 >= 0.0 && 0.0 <= b <= 1.0
    ensures TermScore(idf, tf1, docLength, avg, k1, b).Ok? && TermScore(idf, tf2, docLength, avg, k1, b).Ok?
    ensures TermScore(idf, tf1, docLength, avg, k1, b).value <= TermScore(idf, tf2, docLength, avg, k1, b).value
  {
    TermScoreDefined(idf, tf1, docLength, avg, k1, b);
    TermScoreDefined(idf, 0, docLength, avg, k1, b);
    TermScoreDefined(idf, tf2, docLength, avg, k1, b);
    var x := tf1 as real;
    var y := tf2 as real;
    var kk := Denominator(0, docLength, avg, k1, b) + Epsilon;
    assert Denominator(tf1, docLength, avg, k1, b) + Epsilon == x + kk;
    assert Denominator(tf2, docLength, avg, k1, b) + Epsilon == y + kk;
    var c := idf * (k1 + 1.0);
    NumeratorScales(idf, tf1, k1);
    NumeratorScales(idf, tf2, k1);
    SaturationMonotone(c, kk, x, y);
  }

  /** The same at the level of a one-token query: of two documents of the
      same length, the one holding the token at least as often scores at
      least as much. */
  lemma QueryScoreTfMonotone(t: string, idf: map<string, real>, d1: seq<string>, d2: seq<string>, avg: real, k1: real, b: real)
    requires t in idf && idf[t] >= 0.0
    requires |d1| == |d2| && TermFreq(d1, t) <= TermFreq(d2, t)
    requires avg > 0.0 && k1 >= 0.0 && 0.0 <= b <= 1.0
    ensures QueryScore([t], idf.Keys, DocTerm(idf, d1, avg, k1, b)).Ok?
    ensures QueryScore([t], idf.Keys, DocTerm(idf, d2, avg, k1, b)).Ok?
    ensures QueryScore([t], idf.Keys, DocTerm(idf, d1, avg, k1, b)).value
         <= QueryScore([t], idf.Keys, DocTerm(idf, d2, avg, k1, b)).value
  {
    TermScoreMonotone(idf[t], TermFreq(d1, t), TermFreq(d2, t), |d1|, avg, k1, b);
    assert [t][..0] == [];
  }

  /** The score of every document, or the first error. */
  function AllScores(query: seq<string>, idf: map<string, real>, corpus: seq<seq<string>>, avg: real, k1: real, b: real): (r: Result<seq<real>>)
    ensures r.Ok? ==> |r.value| == |corpus|
  {
    if corpus == [] then Ok([])
    else
      var prev := AllScores(query, idf, corpus[..|corpus| - 1], avg, k1, b);
      if prev.Err? then prev
      else match QueryScore(query, idf.Keys, DocTerm(idf, corpus[|corpus| - 1], avg, k1, b))
        case Err(e) => Err(e)
        case Ok(s) => Ok(prev.value + [s])
  }

  lemma {:induction false} AllScoresErrExtends(query: seq<string>, idf: map<string, real>, corpus: seq<seq<string>>, avg: real, k1: real, b: real, i: nat, e: Error)
    requires i <= |corpus| && AllScores(query, idf, corpus[..i], avg, k1, b) == Err(e)
    ensures AllScores(query, idf, corpus, avg, k1, b) == Err(e)
    decreases |corpus| - i
  {
    if i < |corpus| {
      assert corpus[..i + 1][..i] == corpus[..i];
      AllScoresErrExtends(query, idf, corpus, avg, k1, b, i + 1, e);
    } else {
      assert corpus[..i] == corpus;
    }
  }

  lemma {:induction false} AllScoresAt(query: seq<string>, idf: map<string, real>, corpus: seq<seq<string>>, avg: real, k1: real, b: real)
    requires AllScores(query, idf, corpus, avg, k1, b).Ok?
    ensures forall i :: 0 <= i < |corpus| ==>
      QueryScore(query, idf.Keys, DocTerm(idf, corpus[i], avg, k1, b)) == Ok(AllScores(query, idf, corpus, avg, k1, b).value[i])
  {
    if corpus != [] {
      var front := corpus[..|corpus| - 1];
      AllScoresAt(query, idf, front, avg, k1, b);
      forall i | 0 <= i < |front| ensures front[i] == corpus[i] { }
    }
  }

  /** The `(score, document)` pairs whose score exceeds `1e-9`, in document
      order. */
  function Candidates(docs: seq<Document>, scores: seq<real>): (r: seq<Scored>)
    requires |docs| == |scores|
    ensures |r| <= |docs|
  {
    if docs == [] then []
    else
      var n := |docs| - 1;
      Candidates(docs[..n], scores[..n]) + (if scores[n] > Epsilon then [(scores[n], docs[n])] else [])
  }

  lemma AllScoresStep(query: seq<string>, idf: map<string, real>, corpus: seq<seq<string>>, avg: real, k1: real, b: real, i: nat, scores: seq<real>)
    requires i < |corpus| && AllScores(query, idf, corpus[..i], avg, k1, b) == Ok(scores)
    ensures AllScores(query, idf, corpus[..i + 1], avg, k1, b) ==
      match QueryScore(query, idf.Keys, DocTerm(idf, corpus[i], avg, k1, b))
      case Err(e) => Err(e)
      case Ok(s) => Ok(scores + [s])
  {
    assert corpus[..i + 1][..i] == corpus[..i];
  }

  lemma CandidatesStep(docs: seq<Document>, scores: seq<real>, i: nat, s: real)
    requires i < |docs| && |scores| == i
    ensures Candidates(docs[..i + 1], scores + [s]) == Candidates(docs[..i], scores) + (if s > Epsilon then [(s, docs[i])] else [])
  {
    assert docs[..i + 1][..i] == docs[..i];
    assert (scores + [s])[..i] == scores;
  }

  /** A candidate is exactly a document whose score exceeds the threshold. */
  lemma {:induction false} CandidatesSpec(docs: seq<Document>, scores: seq<real>)
    requires |docs| == |scores|
    ensures forall c :: c in Candidates(docs, scores) ==>
      c.0 > Epsilon && exists i :: 0 <= i < |docs| && c == (scores[i], docs[i])
    ensures forall i :: 0 <= i < |docs| && scores[i] > Epsilon ==> (scores[i], docs[i]) in Candidates(docs, scores)
  {
    if docs != [] {
      var n := |docs| - 1;
      CandidatesSpec(docs[..n], scores[..n]);
      forall c | c in Candidates(docs, scores)
        ensures c.0 > Epsilon && exists i :: 0 <= i < |docs| && c == (scores[i], docs[i])
      {
        if c in Candidates(docs[..n], scores[..n]) {
          var i :| 0 <= i < n && c == (scores[..n][i], docs[..n][i]);
          assert c == (scores[i], docs[i]);
        } else {
          assert c == (scores[n], docs[n]);
        }
      }
      forall i | 0 <= i < |docs| && scores[i] > Epsilon ensures (scores[i], docs[i]) in Candidates(docs, scores) {
        if i < n {
          assert (scores[..n][i], docs[..n][i]) == (scores[i], docs[i]);
        }
      }
    }
  }

  /** When every document's score is known to be `Ok`, the loop over the
      documents yields exactly those scores. */
  lemma {:induction false} AllScoresOk(query: seq<string>, idf: map<string, real>, corpus: seq<seq<string>>, avg: real, k1: real, b: real, scores: seq<real>)
    requires |scores| == |corpus|
    requires forall i :: 0 <= i < |corpus| ==> QueryScore(query, idf.Keys, DocTerm(idf, corpus[i], avg, k1, b)) == Ok(scores[i])
    ensures AllScores(query, idf, corpus, avg, k1, b) == Ok(scores)
  {
    if corpus != [] {
      var n := |corpus| - 1;
      forall i | 0 <= i < n
        ensures QueryScore(query, idf.Keys, DocTerm(idf, corpus[..n][i], avg, k1, b)) == Ok(scores[..n][i])
      {
        assert corpus[..n][i] == corpus[i];
      }
      AllScoresOk(query, idf, corpus[..n], avg, k1, b, scores[..n]);
      assert scores == scores[..n] + [scores[n]];
    }
  }

  /** A one-token query scores a document by that token's contribution alone. */
  lemma OneTokenScore(t: string, idf: map<string, real>, doc: seq<string>, avg: real, k1: real, b: real)
    requires t in idf && avg > 0.0 && k1 >= 0.0 && 0.0 <= b <= 1.0
    ensures TermScore(idf[t], TermFreq(doc, t), |doc|, avg, k1, b).Ok?
    ensures QueryScore([t], idf.Keys, DocTerm(idf, doc, avg, k1, b))
         == Ok(TermScore(idf[t], TermFreq(doc, t), |doc|, avg, k1, b).value)
  {
    TermScoreDefined(idf[t], TermFreq(doc, t), |doc|, avg, k1, b);
    assert [t][..0] == [];
  }

  /** A candidate list over scores that are zero everywhere but at `j` holds
      at most the pair at `j`, and holds it when that score passes the
      threshold. */
  lemma {:induction false} CandidatesOnly(docs: seq<Document>, scores: seq<real>, j: nat)
    requires |docs| == |scores| && j < |docs|
    requires forall i :: 0 <= i < |scores| && i != j ==> scores[i] == 0.0
    ensures Candidates(docs, scores) == if scores[j] > Epsilon then [(scores[j], docs[j])] else []
  {
    var n := |docs| - 1;
    if n == j {
      CandidatesNone(docs[..n], scores[..n]);
    } else {
      CandidatesOnly(docs[..n], scores[..n], j);
    }
  }

  lemma {:induction false} CandidatesNone(docs: seq<Document>, scores: seq<real>)
    requires |docs| == |scores|
    requires forall i :: 0 <= i < |scores| ==> scores[i] == 0.0
    ensures Candidates(docs, scores) == []
  {
    if docs != [] {
      var n := |docs| - 1;
      CandidatesNone(docs[..n], scores[..n]);
    }
  }

  /** A token some document holds has a positive IDF in a built table. */
  lemma HeldTokenKnown(t: string, idf: map<string, real>, freqs: map<string, nat>, corpus: seq<seq<string>>, ln: real -> real, j: nat)
    requires DocFreqsMatch(freqs, corpus) && IdfMatches(idf, freqs, |corpus|, ln) && LnPositiveAbove1(ln)
    requires j < |corpus| && t in corpus[j]
    ensures t in idf && idf[t] > 0.0
  {
    DocCountIsCount(corpus, t);
    var holders := set i | 0 <= i < |corpus| && t in corpus[i];
    assert {j} <= holders;
    assert |holders| > 0;
    DocCountVocabulary(corpus, t);
    IdfTablePositive(idf, freqs, corpus, ln);
  }

  /** Each document's contribution from the one token `t`. */
  function TokenScores(t: string, idf: map<string, real>, corpus: seq<seq<string>>, avg: real, k1: real, b: real): (r: seq<real>)
    requires t in idf
    ensures |r| == |corpus|
  {
    seq(|corpus|, i requires 0 <= i < |corpus| =>
      var s := TermScore(idf[t], TermFreq(corpus[i], t), |corpus[i]|, avg, k1, b);
      if s.Ok? then s.value else 0.0)
  }

  /** A one-token query scores the documents by that token alone. */
  lemma OneTokenAllScores(t: string, idf: map<string, real>, corpus: seq<seq<string>>, avg: real, k1: real, b: real)
    requires t in idf && avg > 0.0 && k1 >= 0.0 && 0.0 <= b <= 1.0
    ensures AllScores([t], idf, corpus, avg, k1, b) == Ok(TokenScores(t, idf, corpus, avg, k1, b))
    ensures forall i :: 0 <= i < |corpus| ==>
      Ok(TokenScores(t, idf, corpus, avg, k1, b)[i]) == TermScore(idf[t], TermFreq(corpus[i], t), |corpus[i]|, avg, k1, b)
  {
    var scores := TokenScores(t, idf, corpus, avg, k1, b);
    forall i | 0 <= i < |corpus|
      ensures QueryScore([t], idf.Keys, DocTerm(idf, corpus[i], avg, k1, b)) == Ok(scores[i])
      ensures Ok(scores[i]) == TermScore(idf[t], TermFreq(corpus[i], t), |corpus[i]|, avg, k1, b)
    {
      OneTokenScore(t, idf, corpus[i], avg, k1, b);
    }
    AllScoresOk([t], idf, corpus, avg, k1, b, scores);
  }

  /** A document without the token scores zero for it. */
  lemma AbsentTokenScore(t: string, idf: real, doc: seq<string>, avg: real, k1: real, b: real)
    requires t !in doc && avg > 0.0 && k1 >= 0.0 && 0.0 <= b <= 1.0
    ensures TermScore(idf, TermFreq(doc, t), |doc|, avg, k1, b) == Ok(0.0)
  {
    assert TermFreq(doc, t) == 0;
    TermScoreDefined(idf, 0, |doc|, avg, k1, b);
    AbsentTermScoresZero(idf, |doc|, avg, k1, b);
  }

  /** A document holding the token scores positively for it. */
  lemma HeldTokenScore(t: string, idf: real, doc: seq<string>, avg: real, k1: real, b: real)
    requires t in doc && idf > 0.0 && avg > 0.0 && k1 >= 0.0 && 0.0 <= b <= 1.0
    ensures TermScore(idf, TermFreq(doc, t), |doc|, avg, k1, b).Ok?
    ensures TermScore(idf, TermFreq(doc, t), |doc|, avg, k1, b).value > 0.0
  {
    assert TermFreq(doc, t) > 0;
    PresentTermScoresPositive(idf, TermFreq(doc, t), |doc|, avg, k1, b);
  }

  /** The scores of a one-token query whose token only document `j` holds. */
  lemma SoleScores(t: string, idf: map<string, real>, corpus: seq<seq<string>>, avg: real, k1: real, b: real, j: nat)
    requires t in idf && idf[t] > 0.0
    requires avg > 0.0 && k1 >= 0.0 && 0.0 <= b <= 1.0
    requires j < |corpus| && t in corpus[j]
    requires forall i :: 0 <= i < |corpus| && i != j ==> t !in corpus[i]
    ensures AllScores([t], idf, corpus, avg, k1, b).Ok?
    ensures var scores := AllScores([t], idf, corpus, avg, k1, b).value;
      scores[j] > 0.0 && forall i :: 0 <= i < |corpus| && i != j ==> scores[i] == 0.0
  {
    OneTokenAllScores(t, idf, corpus, avg, k1, b);
    HeldTokenScore(t, idf[t], corpus[j], avg, k1, b);
    forall i | 0 <= i < |corpus| && i != j
      ensures TermScore(idf[t], TermFreq(corpus[i], t), |corpus[i]|, avg, k1, b) == Ok(0.0)
    {
      AbsentTokenScore(t, idf[t], corpus[i], avg, k1, b);
    }
  }

  /** A one-token query whose token occurs in exactly one stored document:
      under a built IDF table and the usual parameters, that document is the
      only one with a non-zero score (a positive one), and the only
      candidate a search can keep. */
  lemma SoleMatchingDocument(t: string, idf: map<string, real>, freqs: map<string, nat>, corpus: seq<seq<string>>,
                             docs: seq<Document>, avg: real, k1: real, b: real, ln: real -> real, j: nat)
    requires DocFreqsMatch(freqs, corpus) && IdfMatches(idf, freqs, |corpus|, ln) && LnPositiveAbove1(ln)
    requires avg > 0.0 && k1 >= 0.0 && 0.0 <= b <= 1.0
    requires |docs| == |corpus| && j < |corpus| && t in corpus[j]
    requires forall i :: 0 <= i < |corpus| && i != j ==> t !in corpus[i]
    ensures AllScores([t], idf, corpus, avg, k1, b).Ok?
    ensures var scores := AllScores([t], idf, corpus, avg, k1, b).value;
      && scores[j] > 0.0
      && (forall i :: 0 <= i < |corpus| && i != j ==> scores[i] == 0.0)
      && Candidates(docs, scores) == if scores[j] > Epsilon then [(scores[j], docs[j])] else []
  {
    HeldTokenKnown(t, idf, freqs, corpus, ln, j);
    SoleScores(t, idf, corpus, avg, k1, b, j);
    CandidatesOnly(docs, AllScores([t], idf, corpus, avg, k1, b).value, j);
  }

  function NegScore(c: Scored): real { -c.0 }

  /** `raw_scores.sort(key=score, reverse=True)` then `[:k]`. */
  function TopByScore(cands: seq<Scored>, k: int): (r: seq<Scored>)
    ensures |r| == Min(Max(k, 0), |cands|)
  {
    var sorted := SortBy(cands, NegScore);
    sorted[..Min(Max(k, 0), |cands|)]
  }

  /** `-alpha * raw`, the exponent of the normalised score. */
  function Scale(alpha: real, raw: real): real { -alpha * raw }

  /** `(doc, exp(-alpha * raw))` for each kept pair. */
  function Normalize(top: seq<Scored>, alpha: real, exp: real -> real): (r: seq<Hit>)
    ensures |r| == |top|
    ensures forall i :: 0 <= i < |top| ==> r[i] == (top[i].1, exp(Scale(alpha, top[i].0)))
  {
    if top == [] then []
    else [(top[0].1, exp(Scale(alpha, top[0].0)))] + Normalize(top[1..], alpha, exp)
  }

  lemma NormalizeSnoc(top: seq<Scored>, c: Scored, alpha: real, exp: real -> real)
    ensures Normalize(top + [c], alpha, exp) == Normalize(top, alpha, exp) + [(c.1, exp(Scale(alpha, c.0)))]
  {
    var l := Normalize(top + [c], alpha, exp);
    var r := Normalize(top, alpha, exp) + [(c.1, exp(Scale(alpha, c.0)))];
    assert |l| == |r|;
    forall i | 0 <= i < |l| ensures l[i] == r[i] {
      assert (top + [c])[i] == if i < |top| then top[i] else c;
    }
  }

  function HitScore(h: Hit): real { h.1 }

  /** The result list of a search over these candidates. */
  function Ranking(cands: seq<Scored>, k: int, alpha: real, exp: real -> real): seq<Hit> {
    SortBy(Normalize(TopByScore(cands, k), alpha, exp), HitScore)
  }

  /** At most `k` results (exactly `min(k, #candidates)`), in ascending
      normalised score. */
  lemma RankingShape(cands: seq<Scored>, k: int, alpha: real, exp: real -> real)
    requires k > 0
    ensures |Ranking(cands, k, alpha, exp)| == Min(k, |cands|)
    ensures SortedBy(Ranking(cands, k, alpha, exp), HitScore)
  {
  }

  /** The candidates a search drops: the rest of the sorted list. */
  function Dropped(cands: seq<Scored>, k: int): seq<Scored> {
    var sorted := SortBy(cands, NegScore);
    sorted[Min(Max(k, 0), |cands|)..]
  }

  /** The kept candidates are the best `k` by raw score: none has a smaller
      raw score than any dropped one, and together they are all candidates. */
  lemma TopByScoreSelects(cands: seq<Scored>, k: int)
    ensures multiset(TopByScore(cands, k)) + multiset(Dropped(cands, k)) == multiset(cands)
    ensures forall x, y :: x in TopByScore(cands, k) && y in Dropped(cands, k) ==> x.0 >= y.0
  {
    var sorted := SortBy(cands, NegScore);
    var m := Min(Max(k, 0), |cands|);
    assert TopByScore(cands, k) == sorted[..m];
    assert Dropped(cands, k) == sorted[m..];
    TakeIsSmallest(sorted, NegScore, m);
    forall x, y | x in sorted[..m] && y in sorted[m..] ensures x.0 >= y.0 {
      assert NegScore(x) <= NegScore(y);
    }
  }

  lemma TopMember(cands: seq<Scored>, k: int, c: Scored)
    requires c in TopByScore(cands, k)
    ensures c in cands
  {
    var sorted := SortBy(cands, NegScore);
    SortByMembers(cands, NegScore);
    assert c in sorted;
  }

  lemma RankingMember(cands: seq<Scored>, k: int, alpha: real, exp: real -> real, h: Hit)
    requires h in Ranking(cands, k, alpha, exp)
    ensures exists c :: c in cands && h == (c.1, exp(Scale(alpha, c.0)))
  {
    var top := TopByScore(cands, k);
    var norm := Normalize(top, alpha, exp);
    SortByMembers(norm, HitScore);
    assert h in norm;
    var j :| 0 <= j < |norm| && norm[j] == h;
    TopMember(cands, k, top[j]);
    assert h == (top[j].1, exp(Scale(alpha, top[j].0)));
  }

  lemma CandidateMember(docs: seq<Document>, scores: seq<real>, c: Scored)
    requires |docs| == |scores| && c in Candidates(docs, scores)
    ensures c.0 > Epsilon && exists i :: 0 <= i < |docs| && c == (scores[i], docs[i])
  {
    CandidatesSpec(docs, scores);
  }

  /** Every result is a candidate document with its normalised raw score. */
  lemma RankingSound(docs: seq<Document>, scores: seq<real>, k: int, alpha: real, exp: real -> real, h: Hit)
    requires |docs| == |scores| && h in Ranking(Candidates(docs, scores), k, alpha, exp)
    ensures exists i :: 0 <= i < |docs| && h.0 == docs[i] && scores[i] > Epsilon && h.1 == exp(Scale(alpha, scores[i]))
  {
    var cands := Candidates(docs, scores);
    RankingMember(cands, k, alpha, exp, h);
    var c :| c in cands && h == (c.1, exp(Scale(alpha, c.0)));
    CandidateMember(docs, scores, c);
    var i :| 0 <= i < |docs| && c == (scores[i], docs[i]);
    assert h.0 == docs[i] && h.1 == exp(Scale(alpha, scores[i]));
  }

  /** A larger raw score gives a smaller (or equal) normalised score. */
  lemma ScaleMonotone(alpha: real, x: real, y: real, exp: real -> real)
    requires alpha >= 0.0 && x >= y && ExpIncreasing(exp)
    ensures exp(Scale(alpha, x)) <= exp(Scale(alpha, y))
  {
    assert alpha * x - alpha * y == alpha * (x - y);
    var u := Scale(alpha, x);
    var v := Scale(alpha, y);
    assert u <= v;
    if u < v {
      assert exp(u) < exp(v);
    }
  }

  /** The kept candidates are in descending raw score. */
  lemma TopDescending(cands: seq<Scored>, k: int)
    ensures var top := TopByScore(cands, k);
      forall i, j :: 0 <= i < j < |top| ==> top[i].0 >= top[j].0
  {
    var top := TopByScore(cands, k);
    var sorted := SortBy(cands, NegScore);
    forall i, j | 0 <= i < j < |top| ensures top[i].0 >= top[j].0 {
      assert top[i] == sorted[i] && top[j] == sorted[j];
      assert NegScore(sorted[i]) <= NegScore(sorted[j]);
    }
  }

  /** With `alpha >= 0` and an increasing `exp`, the final re-sort changes
      nothing: the results come out in descending raw score, which is
      ascending normalised score. */
  lemma RankingOrder(cands: seq<Scored>, k: int, alpha: real, exp: real -> real)
    requires alpha >= 0.0 && ExpIncreasing(exp)
    ensures Ranking(cands, k, alpha, exp) == Normalize(TopByScore(cands, k), alpha, exp)
    ensures var top := TopByScore(cands, k);
      forall i, j :: 0 <= i < j < |top| ==> top[i].0 >= top[j].0
  {
    var top := TopByScore(cands, k);
    var norm := Normalize(top, alpha, exp);
    TopDescending(cands, k);
    forall i, j | 0 <= i < j < |norm| ensures HitScore(norm[i]) <= HitScore(norm[j]) {
      ScaleMonotone(alpha, top[i].0, top[j].0, exp);
    }
    SortBySortedIdentity(norm, HitScore);
  }

  /** `sum / N` is zero exactly when every document has no tokens. */
  lemma {:induction false} SumZero(s: seq<nat>)
    ensures Sum(s) == 0 <==> forall i :: 0 <= i < |s| ==> s[i] == 0
  {
    if s != [] {
      SumZero(s[..|s| - 1]);
      assert forall i :: 0 <= i < |s| - 1 ==> s[..|s| - 1][i] == s[i];
    }
  }

  lemma AvgLenZero(docLen: seq<nat>)
    ensures AvgLen(docLen) == 0.0 <==> forall i :: 0 <= i < |docLen| ==> docLen[i] == 0
  {
    SumZero(docLen);
    if docLen != [] {
      var n := |docLen| as real;
      var q := Sum(docLen) as real / n;
      assert q * n == Sum(docLen) as real;
    }
  }

  lemma {:induction false} QueryScoreErrExtends(query: seq<string>, known: set<string>, term: string -> Result<real>, i: nat, e: Error)
    requires i <= |query| && QueryScore(query[..i], known, term) == Err(e)
    ensures QueryScore(query, known, term) == Err(e)
    decreases |query| - i
  {
    if i < |query| {
      assert query[..i + 1][..i] == query[..i];
      QueryScoreErrExtends(query, known, term, i + 1, e);
    } else {
      assert query[..i] == query;
    }
  }

  lemma QueryScoreStep(query: seq<string>, i: nat, known: set<string>, term: string -> Result<real>, s: real)
    requires i < |query| && QueryScore(query[..i], known, term) == Ok(s)
    ensures QueryScore(query[..i + 1], known, term)
         == if query[i] !in known then Ok(s)
            else match term(query[i]) case Err(e) => Err(e) case Ok(v) => Ok(s + v)
  {
    assert query[..i + 1][..i] == query[..i];
  }

  // ---------------------------------------------------------------------
  // The index.

  class BM25Index {
    var documents: seq<Document>
    var corpusTokens: seq<seq<string>>
    var docLen: seq<nat>
    var docFreqs: map<string, nat>
    var avgDocLen: real
    var idf: map<string, real>
    var indexBuilt: bool
    const k1: real
    const b: real
    const tokenizer: string -> seq<string>
    const math: MathLib

    /** The three lists stay parallel, each length is the length of its
        token list, the frequency table always agrees with the corpus, and a
        built index has the average length and IDF table of the corpus. */
    ghost predicate Valid()
      reads this
    {
      && |corpusTokens| == |documents|
      && |docLen| == |documents|
      && (forall i :: 0 <= i < |docLen| ==> docLen[i] == |corpusTokens[i]|)
      && DocFreqsMatch(docFreqs, corpusTokens)
      && (indexBuilt ==> avgDocLen == AvgLen(docLen) && IdfMatches(idf, docFreqs, |documents|, math.ln))
    }

    /** A custom tokenizer replaces the default one when given. */
    constructor (k1: real, b: real, tokenizer: Option<string -> seq<string>>, math: MathLib)
      ensures Valid()
      ensures documents == [] && corpusTokens == [] && docLen == [] && docFreqs == map[]
      ensures avgDocLen == 0.0 && idf == map[] && !indexBuilt
      ensures this.k1 == k1 && this.b == b && this.math == math
      ensures tokenizer.Some? ==> this.tokenizer == tokenizer.value
      ensures tokenizer.None? ==> forall s :: this.tokenizer(s) == DefaultTokenize(s)
    {
      documents := [];
      corpusTokens := [];
      docLen := [];
      docFreqs := map[];
      avgDocLen := 0.0;
      idf := map[];
      indexBuilt := false;
      this.k1 := k1;
      this.b := b;
      var default: string -> seq<string> := (s: string) => DefaultTokenize(s);
      if tokenizer.Some? {
        this.tokenizer := tokenizer.value;
      } else {
        this.tokenizer := default;
      }
      this.math := math;
    }

    /** `len(index)`. */
    function Len(): (n: nat)
      reads this
      requires Valid()
      ensures n == |documents| && n == |corpusTokens| && n == |docLen|
    {
      |documents|
    }

    /** Records one new token list: its length, and one more document for
        each distinct token in it. */
    method UpdateStatsAdd(tokens: seq<string>)
      modifies this`docLen, this`docFreqs, this`indexBuilt
      ensures docLen == old(docLen) + [|tokens|]
      ensures FreqsAdded(docFreqs, old(docFreqs), tokens)
      ensures !indexBuilt
    {
      docLen := docLen + [|tokens|];
      var seen: set<string> := {};
      var i := 0;
      while i < |tokens|
        invariant 0 <= i <= |tokens|
        invariant docLen == old(docLen) + [|tokens|]
        invariant seen == TokenSet(tokens[..i])
        invariant docFreqs.Keys == old(docFreqs).Keys + seen
        invariant forall t :: t in docFreqs ==>
          docFreqs[t] == (if t in old(docFreqs) then old(docFreqs)[t] else 0) + (if t in seen then 1 else 0)
      {
        var token := tokens[i];
        assert tokens[..i + 1] == tokens[..i] + [token];
        if token !in seen {
          docFreqs := docFreqs[token := (if token in docFreqs then docFreqs[token] else 0) + 1];
          seen := seen + {token};
        }
        i := i + 1;
      }
      assert tokens[..i] == tokens;
      indexBuilt := false;
    }

    /** The IDF of every term in the frequency table. */
    method CalculateIdf()
      modifies this`idf
      ensures IdfMatches(idf, docFreqs, |documents|, math.ln)
    {
      var n := |documents|;
      idf := map[];
      var remaining := docFreqs.Keys;
      while remaining != {}
        invariant remaining <= docFreqs.Keys
        invariant idf.Keys == docFreqs.Keys - remaining
        invariant forall t :: t in idf ==> idf[t] == IdfOf(n, docFreqs[t], math.ln)
        decreases |remaining|
      {
        var term :| term in remaining;
        var freq := docFreqs[term];
        idf := idf[term := IdfOf(n, freq, math.ln)];
        remaining := remaining - {term};
      }
    }

    /** Brings the average length and the IDF table up to date. */
    method BuildIndex()
      requires Valid()
      modifies this`avgDocLen, this`idf, this`indexBuilt
      ensures Valid() && indexBuilt
      ensures avgDocLen == AvgLen(docLen)
      ensures IdfMatches(idf, docFreqs, |documents|, math.ln)
    {
      if |documents| == 0 {
        avgDocLen := 0.0;
        idf := map[];
        indexBuilt := true;
        return;
      }
      avgDocLen := Sum(docLen) as real / |documents| as real;
      CalculateIdf();
      indexBuilt := true;
    }

    /** Adds a document: the argument checks come first and change nothing;
        then the document, its tokens and its statistics are appended and the
        index is marked stale. */
    method AddDocument(arg: DocArg) returns (o: Outcome)
      requires Valid()
      modifies this
      ensures Valid()
      ensures CheckDocument(arg).Err? ==> o == Fail(CheckDocument(arg).error) && unchanged(this)
      ensures CheckDocument(arg).Ok? ==>
        var tokens := tokenizer(CheckDocument(arg).value);
        && o == Pass
        && documents == old(documents) + [arg.doc]
        && corpusTokens == old(corpusTokens) + [tokens]
        && docLen == old(docLen) + [|tokens|]
        && FreqsAdded(docFreqs, old(docFreqs), tokens)
        && !indexBuilt && avgDocLen == old(avgDocLen) && idf == old(idf)
    {
      var content := CheckDocument(arg);
      if content.Err? {
        return Fail(content.error);
      }
      var tokens := tokenizer(content.value);
      documents := documents + [arg.doc];
      corpusTokens := corpusTokens + [tokens];
      UpdateStatsAdd(tokens);
      FreqsAddedMatch(old(docFreqs), docFreqs, old(corpusTokens), tokens);
      o := Pass;
    }

    /** The BM25 score of document `docIndex` for the query tokens. */
    method ComputeBm25Score(queryTokens: seq<string>, docIndex: nat) returns (r: Result<real>)
      requires Valid() && docIndex < |documents|
      ensures r == QueryScore(queryTokens, idf.Keys, DocTerm(idf, corpusTokens[docIndex], avgDocLen, k1, b))
    {
      ghost var term := DocTerm(idf, corpusTokens[docIndex], avgDocLen, k1, b);
      var score := 0.0;
      var counts := multiset(corpusTokens[docIndex]);
      var docLength := docLen[docIndex];
      assert docLength == |corpusTokens[docIndex]|;
      var i := 0;
      while i < |queryTokens|
        invariant 0 <= i <= |queryTokens|
        invariant QueryScore(queryTokens[..i], idf.Keys, term) == Ok(score)
      {
        var token := queryTokens[i];
        QueryScoreStep(queryTokens, i, idf.Keys, term, score);
        if token in idf {
          var termFreq := counts[token];
          assert term(token) == TermScore(idf[token], termFreq, docLength, avgDocLen, k1, b);
          if avgDocLen == 0.0 {
            QueryScoreErrExtends(queryTokens, idf.Keys, term, i + 1, ZeroDivisionError);
            return Err(ZeroDivisionError);
          }
          var numerator := Numerator(idf[token], termFreq, k1);
          var denominator := Denominator(termFreq, docLength, avgDocLen, k1, b);
          if denominator + Epsilon == 0.0 {
            QueryScoreErrExtends(queryTokens, idf.Keys, term, i + 1, ZeroDivisionError);
            return Err(ZeroDivisionError);
          }
          score := score + numerator / (denominator + Epsilon);
        }
        i := i + 1;
      }
      assert queryTokens[..i] == queryTokens;
      r := Ok(score);
    }

    /** Scores every document for the query and keeps the `(score, document)`
        pairs above the threshold, in document order. */
    method ScoreDocuments(queryTokens: seq<string>) returns (r: Result<seq<Scored>>)
      requires Valid()
      ensures match AllScores(queryTokens, idf, corpusTokens, avgDocLen, k1, b)
        case Err(e) => r == Err(e)
        case Ok(scores) => r == Ok(Candidates(documents, scores))
    {
      var rawScores: seq<Scored> := [];
      ghost var scores: seq<real> := [];
      var i := 0;
      while i < |documents|
        invariant 0 <= i <= |documents|
        invariant |scores| == i
        invariant AllScores(queryTokens, idf, corpusTokens[..i], avgDocLen, k1, b) == Ok(scores)
        invariant rawScores == Candidates(documents[..i], scores)
      {
        var rawScore := ComputeBm25Score(queryTokens, i);
        AllScoresStep(queryTokens, idf, corpusTokens, avgDocLen, k1, b, i, scores);
        if rawScore.Err? {
          AllScoresErrExtends(queryTokens, idf, corpusTokens, avgDocLen, k1, b, i + 1, rawScore.error);
          return Err(rawScore.error);
        }
        CandidatesStep(documents, scores, i, rawScore.value);
        if rawScore.value > Epsilon {
          rawScores := rawScores + [(rawScore.value, documents[i])];
        }
        scores := scores + [rawScore.value];
        i := i + 1;
      }
      assert corpusTokens[..i] == corpusTokens;
      assert documents[..i] == documents;
      r := Ok(rawScores);
    }

    /** Orders the candidates by descending raw score, keeps the first `k`,
        normalises each score and sorts by the normalised score. */
    method RankHits(rawScores: seq<Scored>, k: int, alpha: real) returns (hits: seq<Hit>)
      requires k > 0
      ensures hits == Ranking(rawScores, k, alpha, math.exp)
    {
      var sorted := SortBy(rawScores, NegScore);
      var top := sorted[..Min(k, |sorted|)];
      var normalized := NormalizeAll(top, alpha);
      hits := SortBy(normalized, HitScore);
    }

    /** The normalisation loop: `exp(-alpha * raw)` for each kept pair. */
    method NormalizeAll(top: seq<Scored>, alpha: real) returns (normalized: seq<Hit>)
      ensures normalized == Normalize(top, alpha, math.exp)
    {
      normalized := [];
      var j := 0;
      while j < |top|
        invariant 0 <= j <= |top|
        invariant normalized == Normalize(top[..j], alpha, math.exp)
      {
        var hit := (top[j].1, math.exp(Scale(alpha, top[j].0)));
        NormalizeSnoc(top[..j], top[j], alpha, math.exp);
        assert top[..j + 1] == top[..j] + [top[j]];
        normalized := normalized + [hit];
        j := j + 1;
      }
      assert top[..j] == top;
    }

    /** The answer to a string query, from the stored statistics: the idf
        table and the average length the index caches once it is built. */
    ghost function Answer(query: string, k: int, alpha: real): Result<seq<Hit>>
      reads this
      requires Valid()
    {
      var avg := AvgLen(docLen);
      if avg == 0.0 then Ok([])
      else
        var tokens := tokenizer(query);
        if tokens == [] then Ok([])
        else match AllScores(tokens, IdfTable(docFreqs, |documents|, math.ln), corpusTokens, avg, k1, b)
          case Err(e) => Err(e)
          case Ok(scores) => Ok(Ranking(Candidates(documents, scores), k, alpha, math.exp))
    }

    /** `search(query_text, k, score_normalization_factor)`: an empty index
        answers `[]` before any argument check; otherwise a non-string query
        is a TypeError and `k <= 0` a ValueError, and only then is a stale
        index rebuilt and the query answered. */
    method Search(query: PyValue, k: int, alpha: real) returns (r: Result<seq<Hit>>)
      requires Valid()
      modifies this`avgDocLen, this`idf, this`indexBuilt
      ensures Valid()
      ensures documents == old(documents) && corpusTokens == old(corpusTokens)
      ensures docLen == old(docLen) && docFreqs == old(docFreqs)
      ensures |documents| == 0 ==> r == Ok([]) && unchanged(this)
      ensures |documents| > 0 && !query.PyStr? ==> r == Err(TypeError) && unchanged(this)
      ensures |documents| > 0 && query.PyStr? && k <= 0 ==> r == Err(ValueError) && unchanged(this)
      ensures |documents| > 0 && query.PyStr? && k > 0 ==> indexBuilt && r == Answer(query.s, k, alpha)
    {
      if |documents| == 0 {
        return Ok([]);
      }
      if !query.PyStr? {
        return Err(TypeError);
      }
      if k <= 0 {
        return Err(ValueError);
      }
      if !indexBuilt {
        BuildIndex();
      }
      IdfMatchesUnique(idf, docFreqs, |documents|, math.ln);
      if avgDocLen == 0.0 {
        return Ok([]);
      }
      var queryTokens := tokenizer(query.s);
      if queryTokens == [] {
        return Ok([]);
      }

      var scored := ScoreDocuments(queryTokens);
      if scored.Err? {
        return Err(scored.error);
      }
      var rawScores := scored.value;
      var hits := RankHits(rawScores, k, alpha);
      r := Ok(hits);
    }
  }
}
