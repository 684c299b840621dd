/** The hybrid retriever: documents are added to every index it holds, and a
    query is put to every index, their ranked lists fused by Reciprocal Rank
    Fusion on document identity, and the fused top `k` optionally reordered
    by a reranker that answers with document ids. */
module Retrieval {
  import opened Values
  import opened Sorting
  import opened Fusion
  import Bm25
  import Dense

  // ---------------------------------------------------------------------
  // The index protocol.

  /** An index the retriever can hold. The protocol has two implementations,
      the lexical BM25 index and the dense vector index; neither of them has
      the protocol's `add_documents`. */
  datatype SearchIndex = Lexical(bm25: Bm25.BM25Index) | Vector(vec: Dense.VectorIndex)

  /** The `score_normalization_factor` the BM25 index is searched with: its
      default, as the retriever passes none. */
  const LexicalFactor: real := 0.1

  function IndexObject(ix: SearchIndex): object {
    match ix
    case Lexical(b) => b
    case Vector(v) => v
  }

  ghost predicate IndexValid(ix: SearchIndex)
    reads IndexObject(ix)
  {
    match ix
    case Lexical(b) => b.Valid()
    case Vector(v) => v.Valid()
  }

  /** The documents an index holds, in insertion order. */
  function IndexDocuments(ix: SearchIndex): seq<Document>
    reads IndexObject(ix)
  {
    match ix
    case Lexical(b) => b.documents
    case Vector(v) => v.documents
  }

  /** The `content` check both indexes make on a dictionary. */
  function ContentOf(fields: map<string, PyValue>): Result<string> {
    if "content" !in fields then Err(ValueError)
    else if !fields["content"].PyStr? then Err(TypeError)
    else Ok(fields["content"].s)
  }

  /** What an index's `add_document` does with a dictionary holding
      `fields`: accept it, or raise. */
  ghost function AddOutcome(ix: SearchIndex, fields: map<string, PyValue>): Outcome
    reads IndexObject(ix)
    requires IndexValid(ix)
  {
    match ix
    case Lexical(_) =>
      if ContentOf(fields).Err? then Fail(ContentOf(fields).error) else Pass
    case Vector(v) =>
      if v.embeddingFn.None? then Fail(ValueError)
      else if ContentOf(fields).Err? then Fail(ContentOf(fields).error)
      else match v.embeddingFn.value(ContentOf(fields).value)
        case Err(e) => Fail(e)
        case Ok(vector) => if |v.vectors| > 0 && |vector| != v.vectorDim.value then Fail(ValueError) else Pass
  }

  /** What an index holds that its answers depend on: its documents and, for
      each, its token list (BM25) or its vector (dense). The BM25 lengths and
      document frequencies follow from the token lists (`BM25Index.Valid`). */
  datatype IndexContent =
    | LexicalContent(documents: seq<Document>, corpusTokens: seq<seq<string>>)
    | VectorContent(documents: seq<Document>, vectors: seq<seq<real>>)

  function Content(ix: SearchIndex): (c: IndexContent)
    reads IndexObject(ix)
    ensures c.documents == IndexDocuments(ix)
    ensures ix.Lexical? <==> c.LexicalContent?
  {
    match ix
    case Lexical(b) => LexicalContent(b.documents, b.corpusTokens)
    case Vector(v) => VectorContent(v.documents, v.vectors)
  }

  /** The text of a dictionary's `content`, once the checks have passed. */
  function ContentText(fields: map<string, PyValue>): string {
    if ContentOf(fields).Ok? then ContentOf(fields).value else ""
  }

  /** The texts of documents, in order. */
  function Texts(docs: seq<Document>): (r: seq<string>)
    reads docs
    ensures |r| == |docs| && forall i :: 0 <= i < |docs| ==> r[i] == ContentText(docs[i].fields)
  {
    seq(|docs|, i requires 0 <= i < |docs| reads docs => ContentText(docs[i].fields))
  }

  /** The vector the index stores for a text: its embedding. */
  function EmbeddingOf(v: Dense.VectorIndex, text: string): seq<real> {
    match v.embeddingFn
    case None => []
    case Some(f) => if f(text).Ok? then f(text).value else []
  }

  /** What an index holds once it has taken `docs`, whose texts are `texts`:
      each document appended with its tokens or its embedding. */
  function Extended(ix: SearchIndex, c: IndexContent, docs: seq<Document>, texts: seq<string>): (r: IndexContent)
    requires |docs| == |texts| && (ix.Lexical? <==> c.LexicalContent?)
    ensures r.documents == c.documents + docs && (ix.Lexical? <==> r.LexicalContent?)
  {
    match ix
    case Lexical(b) =>
      LexicalContent(c.documents + docs, c.corpusTokens + seq(|texts|, i requires 0 <= i < |texts| => b.tokenizer(texts[i])))
    case Vector(v) =>
      VectorContent(c.documents + docs, c.vectors + seq(|texts|, i requires 0 <= i < |texts| => EmbeddingOf(v, texts[i])))
  }

  /** What `Extended` appends: the tokens of each new text, or its embedding,
      after what was held before. */
  lemma ExtendedAppends(ix: SearchIndex, c: IndexContent, docs: seq<Document>, texts: seq<string>)
    requires |docs| == |texts| && (ix.Lexical? <==> c.LexicalContent?)
    ensures ix.Lexical? ==>
      var r := Extended(ix, c, docs, texts);
      && |r.corpusTokens| == |c.corpusTokens| + |docs|
      && r.corpusTokens[..|c.corpusTokens|] == c.corpusTokens
      && forall i :: 0 <= i < |docs| ==> r.corpusTokens[|c.corpusTokens| + i] == ix.bm25.tokenizer(texts[i])
    ensures ix.Vector? ==>
      var r := Extended(ix, c, docs, texts);
      && |r.vectors| == |c.vectors| + |docs|
      && r.vectors[..|c.vectors|] == c.vectors
      && forall i :: 0 <= i < |docs| ==> r.vectors[|c.vectors| + i] == EmbeddingOf(ix.vec, texts[i])
  {
  }

  /** Taking no documents changes nothing. */
  lemma ExtendedNone(ix: SearchIndex, c: IndexContent)
    requires ix.Lexical? <==> c.LexicalContent?
    ensures Extended(ix, c, [], []) == c
  {
    if ix.Lexical? {
      assert Extended(ix, c, [], []).corpusTokens == c.corpusTokens;
    } else {
      assert Extended(ix, c, [], []).vectors == c.vectors;
    }
  }

  /** Taking documents one more at a time. */
  lemma ExtendedSnoc(ix: SearchIndex, c: IndexContent, docs: seq<Document>, texts: seq<string>, d: Document, t: string)
    requires |docs| == |texts| && (ix.Lexical? <==> c.LexicalContent?)
    ensures Extended(ix, Extended(ix, c, docs, texts), [d], [t]) == Extended(ix, c, docs + [d], texts + [t])
  {
    var a := Extended(ix, Extended(ix, c, docs, texts), [d], [t]);
    var b := Extended(ix, c, docs + [d], texts + [t]);
    assert a.documents == b.documents;
    if ix.Lexical? {
      assert a.corpusTokens == b.corpusTokens;
    } else {
      assert a.vectors == b.vectors;
    }
  }

  /** Taking the documents of a list one more at a time. */
  lemma ExtendedStep(ix: SearchIndex, c: IndexContent, documents: seq<Document>, texts: seq<string>, t: nat)
    requires t < |documents| == |texts| && (ix.Lexical? <==> c.LexicalContent?)
    ensures Extended(ix, Extended(ix, c, documents[..t], texts[..t]), [documents[t]], [texts[t]])
         == Extended(ix, c, documents[..t + 1], texts[..t + 1])
  {
    assert documents[..t + 1] == documents[..t] + [documents[t]];
    assert texts[..t + 1] == texts[..t] + [texts[t]];
    ExtendedSnoc(ix, c, documents[..t], texts[..t], documents[t], texts[t]);
  }

  /** `index.add_document(document)`. */
  method AddToIndex(ix: SearchIndex, doc: Document) returns (o: Outcome)
    requires IndexValid(ix)
    modifies IndexObject(ix)
    ensures IndexValid(ix)
    ensures o == old(AddOutcome(ix, doc.fields))
    ensures o.Fail? ==> unchanged(IndexObject(ix))
    ensures o.Pass? ==> IndexDocuments(ix) == old(IndexDocuments(ix)) + [doc]
    ensures o.Pass? ==> Content(ix) == Extended(ix, old(Content(ix)), [doc], [ContentText(doc.fields)])
  {
    match ix
    case Lexical(b) =>
      o := b.AddDocument(DictArg(doc));
    case Vector(v) =>
      o := v.AddDocument(DictArg(doc));
  }

  /** A document is never one of the index objects. */
  lemma NotIndexObject(ix: SearchIndex, doc: Document)
    ensures IndexObject(ix) != doc
  {
    match ix
    case Lexical(b) =>
    case Vector(v) =>
  }

  /** One index of `add_documents`: it takes the documents in order until
      one raises; `p` is how many it took. */
  method AddAllToIndex(ix: SearchIndex, documents: seq<Document>) returns (o: Outcome, ghost p: nat)
    requires IndexValid(ix)
    modifies IndexObject(ix)
    ensures IndexValid(ix)
    ensures p <= |documents| && (o.Pass? <==> p == |documents|)
    ensures IndexDocuments(ix) == old(IndexDocuments(ix)) + documents[..p]
    ensures Content(ix) == Extended(ix, old(Content(ix)), documents[..p], Texts(documents[..p]))
  {
    o := Pass;
    ghost var c := Content(ix);
    ghost var texts := Texts(documents);
    var t := 0;
    while t < |documents| && o.Pass?
      invariant 0 <= t <= |documents| && (o.Fail? ==> t < |documents|)
      invariant IndexValid(ix)
      invariant Content(ix) == Extended(ix, c, documents[..t], texts[..t])
      decreases |documents| - t + (if o.Pass? then 1 else 0)
    {
      NotIndexObject(ix, documents[t]);
      o := AddToIndex(ix, documents[t]);
      if o.Pass? {
        ExtendedStep(ix, c, documents, texts, t);
        t := t + 1;
      }
    }
    forall j | 0 <= j < |documents| ensures documents[j].fields == old(documents[j].fields) {
      NotIndexObject(ix, documents[j]);
    }
    assert Texts(documents[..t]) == texts[..t];
    p := t;
  }

  /** What `index.search(query, k)` answers for a string query, as a
      function of what the index holds. */
  ghost function IndexAnswer(ix: SearchIndex, query: string, k: int): Result<seq<Hit>>
    reads IndexObject(ix)
    requires IndexValid(ix)
  {
    match ix
    case Lexical(b) =>
      if |b.documents| == 0 then Ok([])
      else if k <= 0 then Err(ValueError)
      else b.Answer(query, k, LexicalFactor)
    case Vector(v) => v.Answer(PyStr(query), k)
  }

  /** What an index answers is determined by what it holds: the BM25
      lengths and frequencies, and the vector width, follow from it. */
  twostate lemma AnswersKept(ix: SearchIndex)
    requires old(IndexValid(ix)) && IndexValid(ix)
    requires Content(ix) == old(Content(ix))
    ensures forall q, n :: IndexAnswer(ix, q, n) == old(IndexAnswer(ix, q, n))
  {
    match ix
    case Lexical(b) =>
      assert b.docLen == old(b.docLen);
      assert b.docFreqs == old(b.docFreqs);
    case Vector(v) =>
      if |v.vectors| > 0 {
        assert |v.vectors[0]| == v.vectorDim.value && |old(v.vectors[0])| == old(v.vectorDim.value);
      }
  }

  /** Every hit a BM25 answer holds is one of its documents. */
  lemma LexicalHitStored(b: Bm25.BM25Index, query: string, k: int, h: Hit)
    requires b.Valid()
    requires b.Answer(query, k, LexicalFactor).Ok? && h in b.Answer(query, k, LexicalFactor).value
    ensures h.0 in b.documents
  {
    var avg := Bm25.AvgLen(b.docLen);
    var tokens := b.tokenizer(query);
    var scores := Bm25.AllScores(tokens, Bm25.IdfTable(b.docFreqs, |b.documents|, b.math.ln), b.corpusTokens, avg, b.k1, b.b);
    if avg != 0.0 && tokens != [] {
      Bm25.RankingSound(b.documents, scores.value, k, LexicalFactor, b.math.exp, h);
    }
  }

  /** Every hit a vector-index answer holds is one of its documents. */
  lemma VectorHitStored(v: Dense.VectorIndex, query: string, k: int, h: Hit)
    requires v.Valid()
    requires v.Answer(PyStr(query), k).Ok? && h in v.Answer(PyStr(query), k).value
    ensures h.0 in v.documents
  {
    if |v.vectors| > 0 {
      var q := v.QueryVector(PyStr(query)).value;
      Dense.NearestSound(v.metric, q, v.vectors, v.documents, v.math.sqrt, k, h);
    }
  }

  /** `index.search(query, k)`. The BM25 index may build its statistics on
      the way, which changes neither what it holds nor what it answers. */
  method SearchIndexOnce(ix: SearchIndex, query: string, k: int) returns (r: Result<seq<Hit>>)
    requires IndexValid(ix)
    modifies IndexObject(ix)
    ensures IndexValid(ix)
    ensures IndexDocuments(ix) == old(IndexDocuments(ix)) && Content(ix) == old(Content(ix))
    ensures r == old(IndexAnswer(ix, query, k))
    ensures forall q, n :: IndexAnswer(ix, q, n) == old(IndexAnswer(ix, q, n))
    ensures r.Ok? ==> forall h :: h in r.value ==> h.0 in IndexDocuments(ix)
  {
    match ix
    case Lexical(b) =>
      r := b.Search(PyStr(query), k, LexicalFactor);
      if r.Ok? {
        forall h | h in r.value ensures h.0 in b.documents {
          if |b.documents| > 0 && k > 0 {
            LexicalHitStored(b, query, k, h);
          }
        }
      }
    case Vector(v) =>
      r := v.Search(PyStr(query), k);
      if r.Ok? {
        forall h | h in r.value ensures h.0 in v.documents {
          VectorHitStored(v, query, k, h);
        }
      }
  }

  // ---------------------------------------------------------------------
  // Collecting the indexes' answers.

  /** `[index.search(...) for index in indexes]`: the first index that raises
      ends the collection with its exception. */
  function Gather(answers: seq<Result<seq<Hit>>>): (r: Result<seq<seq<Hit>>>)
    ensures r.Ok? ==> |r.value| == |answers|
  {
    if answers == [] then Ok([])
    else match Gather(answers[..|answers| - 1])
      case Err(e) => Err(e)
      case Ok(lists) =>
        match answers[|answers| - 1]
        case Err(e) => Err(e)
        case Ok(hits) => Ok(lists + [hits])
  }

  /** The collection succeeds exactly when every index answers, and then
      holds the answers in index order. */
  lemma {:induction false} GatherOk(answers: seq<Result<seq<Hit>>>)
    ensures Gather(answers).Ok? <==> forall m :: 0 <= m < |answers| ==> answers[m].Ok?
    ensures Gather(answers).Ok? ==> forall m :: 0 <= m < |answers| ==> Gather(answers).value[m] == answers[m].value
  {
    if answers != [] {
      var init := answers[..|answers| - 1];
      GatherOk(init);
      if Gather(init).Err? {
        var m :| 0 <= m < |init| && !init[m].Ok?;
        assert !answers[m].Ok?;
      }
    }
  }

  /** The exception is the first one raised. */
  lemma {:induction false} GatherFirstError(answers: seq<Result<seq<Hit>>>, j: nat)
    requires j < |answers| && answers[j].Err?
    requires forall m :: 0 <= m < j ==> answers[m].Ok?
    ensures Gather(answers) == Err(answers[j].error)
  {
    var init := answers[..|answers| - 1];
    if j == |answers| - 1 {
      GatherOk(init);
    } else {
      GatherFirstError(init, j);
    }
  }

  lemma GatherErrExtends(answers: seq<Result<seq<Hit>>>, i: nat)
    requires i < |answers| && Gather(answers[..i]).Ok? && answers[i].Err?
    ensures Gather(answers) == Err(answers[i].error)
  {
    GatherOk(answers[..i]);
    forall m | 0 <= m < i ensures answers[m].Ok? {
      assert answers[..i][m] == answers[m];
    }
    GatherFirstError(answers, i);
  }

  /** One more answer that is a hit list extends the collection by it. */
  lemma GatherOkExtends(answers: seq<Result<seq<Hit>>>, i: nat, all: seq<seq<Hit>>)
    requires i < |answers| && Gather(answers[..i]) == Ok(all) && answers[i].Ok?
    ensures Gather(answers[..i + 1]) == Ok(all + [answers[i].value])
  {
    assert answers[..i + 1][..i] == answers[..i];
  }

  /** Every hit of `hits` is one of `docs`. */
  ghost predicate HitsFrom(hits: seq<Hit>, docs: seq<Document>) {
    forall h :: h in hits ==> h.0 in docs
  }

  /** The documents of each hit list. */
  function HitDocs(lists: seq<seq<Hit>>): (r: seq<seq<Document>>)
    ensures |r| == |lists|
    ensures forall m :: 0 <= m < |lists| ==> |r[m]| == |lists[m]| && forall i :: 0 <= i < |lists[m]| ==> r[m][i] == lists[m][i].0
  {
    seq(|lists|, m requires 0 <= m < |lists| => seq(|lists[m]|, i requires 0 <= i < |lists[m]| => lists[m][i].0))
  }

  // ---------------------------------------------------------------------
  // The fusion table.

  /** The loop that fills `doc_ranks`: it visits each list in index order and
      each hit in rank order, adds a document the first time it meets it, and
      records `rank + 1` for it in that list's slot, over any earlier value. */
  method BuildDocRanks(lists: seq<seq<Document>>) returns (order: seq<Document>, ranks: map<Document, seq<nat>>)
    ensures order == Distinct(Flatten(lists))
    ensures forall d :: d in order ==> d in ranks && ranks[d] == RankVector(lists, d)
  {
    order := [];
    ranks := map[];
    var idx := 0;
    while idx < |lists|
      invariant 0 <= idx <= |lists|
      invariant order == Distinct(Flatten(lists[..idx]))
      invariant forall d :: d in ranks <==> d in order
      invariant forall d :: d in ranks ==> ranks[d] == RankVector(Progress(lists, idx, 0), d)
    {
      order, ranks := RankList(lists, idx, order, ranks);
      assert lists[..idx + 1][..idx] == lists[..idx];
      ProgressNext(lists, idx);
      idx := idx + 1;
    }
    assert lists[..idx] == lists;
    ProgressDone(lists);
  }

  /** The inner loop of the fusion table: one list, hit by hit. */
  method RankList(lists: seq<seq<Document>>, idx: nat, order0: seq<Document>, ranks0: map<Document, seq<nat>>)
    returns (order: seq<Document>, ranks: map<Document, seq<nat>>)
    requires idx < |lists|
    requires order0 == Distinct(Flatten(lists[..idx]))
    requires forall d :: d in ranks0 <==> d in order0
    requires forall d :: d in ranks0 ==> ranks0[d] == RankVector(Progress(lists, idx, 0), d)
    ensures order == Distinct(Flatten(lists[..idx]) + lists[idx])
    ensures forall d :: d in ranks <==> d in order
    ensures forall d :: d in ranks ==> ranks[d] == RankVector(Progress(lists, idx, |lists[idx]|), d)
  {
    order, ranks := order0, ranks0;
    assert Flatten(lists[..idx]) + lists[idx][..0] == Flatten(lists[..idx]);
    var rank := 0;
    while rank < |lists[idx]|
      invariant 0 <= rank <= |lists[idx]|
      invariant order == Distinct(Flatten(lists[..idx]) + lists[idx][..rank])
      invariant forall d :: d in ranks <==> d in order
      invariant forall d :: d in ranks ==> ranks[d] == RankVector(Progress(lists, idx, rank), d)
    {
      order, ranks := RankHit(lists, idx, rank, order, ranks);
      rank := rank + 1;
    }
    assert lists[idx][..rank] == lists[idx];
  }

  /** One hit of the fusion table: `doc_ranks[d][idx] = rank + 1`, with a
      fresh all-zero vector for a document met for the first time. */
  method RankHit(lists: seq<seq<Document>>, idx: nat, rank: nat, order0: seq<Document>, ranks0: map<Document, seq<nat>>)
    returns (order: seq<Document>, ranks: map<Document, seq<nat>>)
    requires idx < |lists| && rank < |lists[idx]|
    requires order0 == Distinct(Flatten(lists[..idx]) + lists[idx][..rank])
    requires forall d :: d in ranks0 <==> d in order0
    requires forall d :: d in ranks0 ==> ranks0[d] == RankVector(Progress(lists, idx, rank), d)
    ensures order == Distinct(Flatten(lists[..idx]) + lists[idx][..rank + 1])
    ensures forall d :: d in ranks <==> d in order
    ensures forall d :: d in ranks ==> ranks[d] == RankVector(Progress(lists, idx, rank + 1), d)
  {
    order := order0;
    var d := lists[idx][rank];
    RecordStep(lists, idx, rank, d);
    var current: seq<nat>;
    if d in ranks0 {
      current := ranks0[d];
    } else {
      Unranked(lists, idx, rank, d);
      current := seq(|lists|, _ => 0);
      order := order + [d];
    }
    RankStep(lists, idx, rank, d);
    ranks := ranks0[d := current[idx := rank + 1]];
    forall e | e in ranks ensures ranks[e] == RankVector(Progress(lists, idx, rank + 1), e) {
      if e != d {
        RankStep(lists, idx, rank, e);
      }
    }
  }

  /** The lists as far as the fusion loop has read them: the first `idx`
      whole, `rank` hits of the next, nothing of the rest. */
  function Progress(lists: seq<seq<Document>>, idx: nat, rank: nat): (r: seq<seq<Document>>)
    requires idx <= |lists| && (idx < |lists| ==> rank <= |lists[idx]|)
    ensures |r| == |lists|
  {
    seq(|lists|, m requires 0 <= m < |lists| => if m < idx then lists[m] else if m == idx then lists[idx][..rank] else [])
  }

  lemma ProgressNext(lists: seq<seq<Document>>, idx: nat)
    requires idx < |lists|
    ensures Progress(lists, idx, |lists[idx]|) == Progress(lists, idx + 1, 0)
  {
    assert lists[idx][..|lists[idx]|] == lists[idx];
  }

  lemma ProgressDone(lists: seq<seq<Document>>)
    ensures Progress(lists, |lists|, 0) == lists
  {
  }

  /** Reading one more hit changes only that document's rank in that list. */
  lemma RankStep(lists: seq<seq<Document>>, idx: nat, rank: nat, e: Document)
    requires idx < |lists| && rank < |lists[idx]|
    ensures e == lists[idx][rank] ==>
      RankVector(Progress(lists, idx, rank + 1), e) == RankVector(Progress(lists, idx, rank), e)[idx := rank + 1]
    ensures e != lists[idx][rank] ==>
      RankVector(Progress(lists, idx, rank + 1), e) == RankVector(Progress(lists, idx, rank), e)
  {
    var d := lists[idx][rank];
    var p := Progress(lists, idx, rank);
    var q := Progress(lists, idx, rank + 1);
    assert lists[idx][..rank + 1] == lists[idx][..rank] + [d];
    RankInSnoc(lists[idx][..rank], d, e);
    assert RankIn(q[idx], e) == if e == d then rank + 1 else RankIn(p[idx], e);
  }

  /** A document not read so far has no rank anywhere. */
  lemma Unranked(lists: seq<seq<Document>>, idx: nat, rank: nat, d: Document)
    requires idx < |lists| && rank <= |lists[idx]|
    requires d !in Flatten(lists[..idx]) + lists[idx][..rank]
    ensures RankVector(Progress(lists, idx, rank), d) == seq(|lists|, _ => 0)
  {
    FlattenMembers(lists[..idx], d);
    var p := Progress(lists, idx, rank);
    forall m | 0 <= m < |lists| ensures RankIn(p[m], d) == 0 {
      if m < idx {
        assert lists[..idx][m] == lists[m];
      }
    }
  }

  /** One step of the fusion loop on the first-seen order: meeting `d`
      extends it by `d` exactly when `d` is new. */
  lemma RecordStep(lists: seq<seq<Document>>, idx: nat, rank: nat, d: Document)
    requires idx < |lists| && rank < |lists[idx]| && d == lists[idx][rank]
    ensures var before := Flatten(lists[..idx]) + lists[idx][..rank];
      && Distinct(Flatten(lists[..idx]) + lists[idx][..rank + 1]) == (if d in before then Distinct(before) else Distinct(before) + [d])
      && (d in Distinct(before) <==> d in before)
  {
    var list := lists[idx];
    var before := Flatten(lists[..idx]) + list[..rank];
    assert list[..rank + 1] == list[..rank] + [d];
    assert Flatten(lists[..idx]) + list[..rank + 1] == before + [d];
    DistinctSnoc(before, d);
    DistinctMembers(before, d);
  }

  // ---------------------------------------------------------------------
  // Reranking.

  /** `if "id" not in doc: doc["id"] = "".join(random.choices(...))`: the id
      is any four characters from `ascii_letters + digits`. */
  method AssignId(doc: Document)
    modifies doc
    ensures IdAssigned(old(doc.fields), doc.fields)
  {
    if "id" !in doc.fields {
      assert IsGeneratedId("aaaa");
      var id: string :| IsGeneratedId(id);
      doc.fields := doc.fields["id" := PyStr(id)];
    }
  }

  function DocsOf(result: seq<Hit>): (r: seq<Document>)
    ensures |r| == |result| && forall i :: 0 <= i < |result| ==> r[i] == result[i].0
  {
    seq(|result|, i requires 0 <= i < |result| => result[i].0)
  }

  /** The candidates as the reranker receives them. */
  function FieldsOf(docs: seq<Document>): (r: seq<map<string, PyValue>>)
    reads docs
    ensures |r| == |docs| && forall i :: 0 <= i < |docs| ==> r[i] == docs[i].fields
  {
    seq(|docs|, i requires 0 <= i < |docs| reads docs => docs[i].fields)
  }

  /** `{id(doc): score for doc, score in result}`: a later entry for the
      same document overwrites an earlier one. */
  function ScoresOf(result: seq<Hit>): map<Document, real> {
    if result == [] then map[]
    else ScoresOf(result[..|result| - 1])[result[|result| - 1].0 := result[|result| - 1].1]
  }

  /** With each document once, every candidate's score is found under it. */
  lemma {:induction false} ScoresOfAt(result: seq<Hit>, i: nat)
    requires DistinctDocs(result) && i < |result|
    ensures result[i].0 in ScoresOf(result) && ScoresOf(result)[result[i].0] == result[i].1
  {
    var init := result[..|result| - 1];
    if i < |init| {
      assert DistinctDocs(init);
      ScoresOfAt(init, i);
      assert result[i].0 != result[|result| - 1].0;
    }
  }

  /** The fusion steps of `search`: rank vectors per document, the RRF
      score of each, the positive ones sorted best first, the top `k`. */
  method FuseLists(lists: seq<seq<Document>>, k: nat, kRrf: nat) returns (result: seq<Hit>)
    requires k > 0
    ensures result == Fuse(lists, k, kRrf)
    ensures DistinctDocs(result)
    ensures forall i :: 0 <= i < |result| ==> result[i].0 in Flatten(lists)
  {
    FuseShape(lists, k, kRrf);
    var order, ranks := BuildDocRanks(lists);
    var scored := seq(|order|, i requires 0 <= i < |order| && order[i] in ranks => (order[i], RrfSum(ranks[order[i]], kRrf)));
    ghost var expected := FusedScores(lists, kRrf);
    forall i | 0 <= i < |order| ensures scored[i] == expected[i] {
      assert order[i] in order;
    }
    assert scored == expected;
    var filtered := Positive(scored);
    var sorted := SortBy(filtered, FusedKey);
    result := sorted[..Min(k, |sorted|)];
    TopPrefix(sorted, k);
  }

  /** `for doc in docs_only: if "id" not in doc: ...`. */
  method AssignIds(docs: seq<Document>)
    requires forall i, j :: 0 <= i < j < |docs| ==> docs[i] != docs[j]
    modifies docs
    ensures forall i :: 0 <= i < |docs| ==> IdAssigned(old(docs[i].fields), docs[i].fields)
  {
    var i := 0;
    while i < |docs|
      invariant 0 <= i <= |docs|
      invariant forall j :: 0 <= j < i ==> IdAssigned(old(docs[j].fields), docs[j].fields)
      invariant forall j :: i <= j < |docs| ==> docs[j].fields == old(docs[j].fields)
    {
      AssignId(docs[i]);
      i := i + 1;
    }
  }

  /** `{doc["id"]: doc for doc in docs_only}`, as positions: a later id
      overwrites an earlier one, and an unhashable id raises. */
  method BuildLookup(ids: seq<PyValue>) returns (r: Result<map<PyValue, nat>>)
    ensures r.Err? <==> exists i :: 0 <= i < |ids| && Unhashable(ids[i])
    ensures r.Err? ==> r.error == TypeError
    ensures r.Ok? ==> forall v :: (v in r.value <==> LastIndex(ids, v).Some?)
    ensures r.Ok? ==> forall v :: v in r.value ==> r.value[v] == LastIndex(ids, v).value
  {
    var lookup: map<PyValue, nat> := map[];
    var j := 0;
    while j < |ids|
      invariant 0 <= j <= |ids|
      invariant forall m :: 0 <= m < j ==> !Unhashable(ids[m])
      invariant forall v :: v in lookup <==> LastIndex(ids[..j], v).Some?
      invariant forall v :: v in lookup ==> lookup[v] == LastIndex(ids[..j], v).value
    {
      if Unhashable(ids[j]) {
        return Err(TypeError);
      }
      forall v ensures LastIndex(ids[..j + 1], v) == if ids[j] == v then Some(j) else LastIndex(ids[..j], v) {
        assert ids[..j + 1] == ids[..j] + [ids[j]];
        LastIndexSnoc(ids[..j], ids[j], v);
      }
      lookup := lookup[ids[j] := j];
      j := j + 1;
    }
    assert ids[..j] == ids;
    return Ok(lookup);
  }

  /** The loop over the reranker's ids. */
  method RemapIds(result: seq<Hit>, ids: seq<PyValue>, lookup: map<PyValue, nat>, reranked: seq<string>) returns (newResult: seq<Hit>)
    requires |ids| == |result| && DistinctDocs(result)
    requires forall v :: v in lookup <==> LastIndex(ids, v).Some?
    requires forall v :: v in lookup ==> lookup[v] == LastIndex(ids, v).value
    ensures newResult == Remap(result, ids, reranked)
  {
    var docsOnly := DocsOf(result);
    var scores := ScoresOf(result);
    newResult := [];
    var t := 0;
    while t < |reranked|
      invariant 0 <= t <= |reranked|
      invariant newResult == Remap(result, ids, reranked[..t])
    {
      newResult := RemapNext(result, ids, lookup, reranked, t, docsOnly, scores, newResult);
      t := t + 1;
    }
    assert reranked[..t] == reranked;
  }

  /** The body of the id loop: `if doc_id in doc_lookup: new_result.append(...)`. */
  method RemapNext(result: seq<Hit>, ids: seq<PyValue>, lookup: map<PyValue, nat>, reranked: seq<string>, t: nat,
                   docsOnly: seq<Document>, scores: map<Document, real>, acc: seq<Hit>) returns (next: seq<Hit>)
    requires |ids| == |result| && DistinctDocs(result) && t < |reranked|
    requires docsOnly == DocsOf(result) && scores == ScoresOf(result)
    requires PyStr(reranked[t]) in lookup <==> LastIndex(ids, PyStr(reranked[t])).Some?
    requires PyStr(reranked[t]) in lookup ==> lookup[PyStr(reranked[t])] == LastIndex(ids, PyStr(reranked[t])).value
    requires acc == Remap(result, ids, reranked[..t])
    ensures next == Remap(result, ids, reranked[..t + 1])
  {
    var key := PyStr(reranked[t]);
    RemapStep(result, ids, lookup, reranked, t);
    next := acc;
    if key in lookup {
      var hit := CandidateAt(result, docsOnly, scores, lookup[key]);
      next := next + [hit];
    }
  }

  /** One more id of the reranker: the candidate the lookup gives for it, if any. */
  lemma RemapStep(result: seq<Hit>, ids: seq<PyValue>, lookup: map<PyValue, nat>, reranked: seq<string>, t: nat)
    requires |ids| == |result| && t < |reranked|
    requires PyStr(reranked[t]) in lookup <==> LastIndex(ids, PyStr(reranked[t])).Some?
    requires PyStr(reranked[t]) in lookup ==> lookup[PyStr(reranked[t])] == LastIndex(ids, PyStr(reranked[t])).value
    ensures PyStr(reranked[t]) in lookup ==> lookup[PyStr(reranked[t])] < |result|
    ensures Remap(result, ids, reranked[..t + 1]) == Remap(result, ids, reranked[..t])
      + (if PyStr(reranked[t]) in lookup then [result[lookup[PyStr(reranked[t])]]] else [])
  {
    assert reranked[..t + 1] == reranked[..t] + [reranked[t]];
    RemapSnoc(result, ids, reranked[..t], reranked[t]);
  }

  /** `(doc, doc_scores.get(id(doc), 0.0))` for the `j`th candidate. */
  method CandidateAt(result: seq<Hit>, docsOnly: seq<Document>, scores: map<Document, real>, j: nat) returns (hit: Hit)
    requires DistinctDocs(result) && j < |result|
    requires docsOnly == DocsOf(result) && scores == ScoresOf(result)
    ensures hit == result[j]
  {
    ScoresOfAt(result, j);
    var doc := docsOnly[j];
    var score := if doc in scores then scores[doc] else 0.0;
    hit := (doc, score);
  }

  /** The reranking branch of `search`: every candidate gets an id if it has
      none, the id lookup is built (an unhashable id raises), the reranker is
      asked (an exception it raises propagates, with the ids already
      written), and each id it returns that names a candidate gives that
      candidate with its fused score. */
  method Rerank(result: seq<Hit>, reranker: Reranker, query: string, k: int) returns (r: Result<seq<Hit>>)
    requires DistinctDocs(result)
    modifies DocsOf(result)
    ensures forall i :: 0 <= i < |result| ==> IdAssigned(old(result[i].0.fields), result[i].0.fields)
    ensures forall i :: 0 <= i < |result| ==> "id" in FieldsOf(DocsOf(result))[i]
    ensures r == Reranked(result, FieldsOf(DocsOf(result)), reranker, query, k)
  {
    var docsOnly := DocsOf(result);
    AssignIds(docsOnly);
    var fields := FieldsOf(docsOnly);
    var ids := IdsOf(fields);
    var lookup := BuildLookup(ids);
    if lookup.Err? {
      return Err(lookup.error);
    }
    var reranked := reranker(fields, query, k);
    if reranked.Err? {
      return Err(reranked.error);
    }
    var newResult := RemapIds(result, ids, lookup.value, reranked.value);
    r := Ok(newResult);
  }

  // ---------------------------------------------------------------------
  // The retriever.

  class Retriever {
    const indexes: seq<SearchIndex>
    const reranker: Option<Reranker>

    /** The index objects. */
    ghost function Repr(): set<object> {
      set m | 0 <= m < |indexes| :: IndexObject(indexes[m])
    }

    /** At least one index, each a distinct object in a valid state. */
    ghost predicate Valid()
      reads Repr()
    {
      && |indexes| > 0
      && (forall m, n :: 0 <= m < n < |indexes| ==> IndexObject(indexes[m]) != IndexObject(indexes[n]))
      && forall m :: 0 <= m < |indexes| ==> IndexValid(indexes[m])
    }

    constructor Init(indexes: seq<SearchIndex>, reranker: Option<Reranker>)
      requires |indexes| > 0
      requires forall m, n :: 0 <= m < n < |indexes| ==> IndexObject(indexes[m]) != IndexObject(indexes[n])
      requires forall m :: 0 <= m < |indexes| ==> IndexValid(indexes[m])
      ensures Valid() && this.indexes == indexes && this.reranker == reranker
    {
      this.indexes := indexes;
      this.reranker := reranker;
    }

    /** `Retriever(*indexes, reranker_fn=...)`: no index is a ValueError. */
    static method New(indexes: seq<SearchIndex>, reranker: Option<Reranker>) returns (r: Result<Retriever>)
      requires forall m, n :: 0 <= m < n < |indexes| ==> IndexObject(indexes[m]) != IndexObject(indexes[n])
      requires forall m :: 0 <= m < |indexes| ==> IndexValid(indexes[m])
      ensures r.Err? <==> |indexes| == 0
      ensures r.Err? ==> r.error == ValueError
      ensures r.Ok? ==> fresh(r.value) && r.value.Valid() && r.value.indexes == indexes && r.value.reranker == reranker
    {
      if |indexes| == 0 {
        return Err(ValueError);
      }
      var retriever := new Retriever.Init(indexes, reranker);
      return Ok(retriever);
    }

    /** One index takes one document; the others are left as they are. */
    method AddAt(i: nat, doc: Document) returns (o: Outcome)
      requires Valid() && i < |indexes|
      modifies IndexObject(indexes[i])
      ensures Valid()
      ensures o == old(AddOutcome(indexes[i], doc.fields))
      ensures forall m :: 0 <= m < |indexes| ==>
        IndexDocuments(indexes[m]) == old(IndexDocuments(indexes[m])) + (if m == i && o.Pass? then [doc] else [])
      ensures forall m :: 0 <= m < |indexes| ==>
        Content(indexes[m]) == if m == i && o.Pass? then Extended(indexes[m], old(Content(indexes[m])), [doc], [ContentText(doc.fields)])
                               else old(Content(indexes[m]))
      ensures forall m, f :: 0 <= m < |indexes| && m != i ==> AddOutcome(indexes[m], f) == old(AddOutcome(indexes[m], f))
      ensures forall m, q, n :: 0 <= m < |indexes| && m != i ==> IndexAnswer(indexes[m], q, n) == old(IndexAnswer(indexes[m], q, n))
    {
      o := AddToIndex(indexes[i], doc);
      forall m | 0 <= m < |indexes| && m != i ensures unchanged(IndexObject(indexes[m])) {
        assert IndexObject(indexes[m]) != IndexObject(indexes[i]);
      }
    }

    /** `add_document(document)`: the document gets an id if it has none (an
        existing id is kept), then goes to every index in order; the first
        index that raises stops the loop, so the indexes before it hold the
        document and the ones after it do not. `stop` is that index, or the
        number of indexes when none raises. */
    method AddDocument(doc: Document) returns (o: Outcome, ghost stop: nat)
      requires Valid()
      modifies Repr(), doc
      ensures Valid()
      ensures IdAssigned(old(doc.fields), doc.fields)
      ensures stop <= |indexes| && (o.Pass? <==> stop == |indexes|)
      ensures forall m :: 0 <= m < stop ==> old(AddOutcome(indexes[m], doc.fields)) == Pass
      ensures stop < |indexes| ==> o == old(AddOutcome(indexes[stop], doc.fields)) && o.Fail?
      ensures forall m :: 0 <= m < |indexes| ==>
        IndexDocuments(indexes[m]) == old(IndexDocuments(indexes[m])) + (if m < stop then [doc] else [])
      ensures ContentText(doc.fields) == ContentText(old(doc.fields))
      ensures forall m :: 0 <= m < |indexes| ==>
        Content(indexes[m]) == if m < stop then Extended(indexes[m], old(Content(indexes[m])), [doc], [ContentText(doc.fields)])
                               else old(Content(indexes[m]))
      ensures Stored() == old(Stored()) + (if stop > 0 then {doc} else {})
    {
      ghost var fields0 := doc.fields;
      DocumentApart(doc);
      AssignId(doc);
      IdKeepsIndexes(doc);
      label idSet:
      o, stop := AddToAll(doc);
      if stop < |indexes| {
        ghost var atCall := old@idSet(AddOutcome(indexes[stop], doc.fields));
        assert o == atCall;
      }
      StoredInAppend(old(Holdings()), Holdings(), doc, stop);
    }

    /** Giving a document an id changes nothing the indexes hold, nor what
        they make of its content. */
    twostate lemma IdKeepsIndexes(doc: Document)
      requires old(Valid()) && unchanged(Repr())
      requires ContentOf(doc.fields) == ContentOf(old(doc.fields))
      ensures Valid()
      ensures forall m :: 0 <= m < |indexes| ==> Content(indexes[m]) == old(Content(indexes[m]))
      ensures forall m :: 0 <= m < |indexes| ==> IndexDocuments(indexes[m]) == old(IndexDocuments(indexes[m]))
      ensures forall m :: 0 <= m < |indexes| ==> AddOutcome(indexes[m], doc.fields) == old(AddOutcome(indexes[m], doc.fields))
      ensures ContentText(doc.fields) == ContentText(old(doc.fields))
    {
    }

    /** A document is never one of the index objects. */
    lemma DocumentApart(doc: Document)
      ensures doc !in Repr()
    {
      forall m | 0 <= m < |indexes| ensures IndexObject(indexes[m]) != doc {
        match indexes[m]
        case Lexical(b) =>
        case Vector(v) =>
      }
    }

    /** The loop of `add_document`: every index in order, until one raises. */
    method AddToAll(doc: Document) returns (o: Outcome, ghost stop: nat)
      requires Valid()
      modifies Repr()
      ensures Valid()
      ensures stop <= |indexes| && (o.Pass? <==> stop == |indexes|)
      ensures forall m :: 0 <= m < stop ==> old(AddOutcome(indexes[m], doc.fields)) == Pass
      ensures stop < |indexes| ==> o == old(AddOutcome(indexes[stop], doc.fields)) && o.Fail?
      ensures forall m :: 0 <= m < |indexes| ==>
        IndexDocuments(indexes[m]) == old(IndexDocuments(indexes[m])) + (if m < stop then [doc] else [])
      ensures forall m :: 0 <= m < |indexes| ==>
        Content(indexes[m]) == if m < stop then Extended(indexes[m], old(Content(indexes[m])), [doc], [ContentText(doc.fields)])
                               else old(Content(indexes[m]))
    {
      DocumentApart(doc);
      ghost var fields := doc.fields;
      var i := 0;
      while i < |indexes|
        invariant 0 <= i <= |indexes|
        invariant Valid()
        invariant doc.fields == fields
        invariant forall m :: 0 <= m < i ==> old(AddOutcome(indexes[m], doc.fields)) == Pass
        invariant forall m :: i <= m < |indexes| ==> AddOutcome(indexes[m], doc.fields) == old(AddOutcome(indexes[m], doc.fields))
        invariant forall m :: 0 <= m < |indexes| ==>
          Content(indexes[m]) == if m < i then Extended(indexes[m], old(Content(indexes[m])), [doc], [ContentText(doc.fields)])
                                 else old(Content(indexes[m]))
      {
        o := AddAt(i, doc);
        if o.Fail? {
          return o, i;
        }
        i := i + 1;
      }
      o, stop := Pass, i;
    }

    /** `add_documents(documents)` as written: it calls `add_documents` on
        each index, and neither index kind defines it, so the first index
        raises AttributeError and nothing is stored. */
    method AddDocumentsAsWritten(documents: seq<Document>) returns (o: Outcome)
      requires Valid()
      ensures o == Fail(AttributeError)
    {
      o := Fail(AttributeError);
    }

    /** What every index holds, in index order. */
    ghost function Holdings(): (r: seq<seq<Document>>)
      reads Repr()
      ensures |r| == |indexes| && forall m :: 0 <= m < |indexes| ==> r[m] == IndexDocuments(indexes[m])
    {
      seq(|indexes|, m requires 0 <= m < |indexes| reads Repr() => IndexDocuments(indexes[m]))
    }

    /** The documents the indexes hold. */
    ghost function Stored(): set<Document>
      reads Repr()
    {
      StoredIn(Holdings())
    }

    static ghost function StoredIn(holdings: seq<seq<Document>>): set<Document> {
      set m, i | 0 <= m < |holdings| && 0 <= i < |holdings[m]| :: holdings[m][i]
    }

    /** The first `stop` lists taking one more document store just that one more. */
    static lemma StoredInAppend(before: seq<seq<Document>>, after: seq<seq<Document>>, d: Document, stop: nat)
      requires |after| == |before| && stop <= |before|
      requires forall m :: 0 <= m < |before| ==> after[m] == before[m] + (if m < stop then [d] else [])
      ensures StoredIn(after) == StoredIn(before) + (if stop > 0 then {d} else {})
    {
      forall e | e in StoredIn(after) ensures e in StoredIn(before) + (if stop > 0 then {d} else {}) {
        var m, i :| 0 <= m < |after| && 0 <= i < |after[m]| && after[m][i] == e;
        if i < |before[m]| {
          assert before[m][i] == e;
        }
      }
      forall e | e in StoredIn(before) ensures e in StoredIn(after) {
        var m, i :| 0 <= m < |before| && 0 <= i < |before[m]| && before[m][i] == e;
        assert after[m][i] == e;
      }
      if stop > 0 {
        assert after[0][|before[0]|] == d;
      }
    }

    /** `add_documents(documents)` as intended: each index in turn takes the
        documents in order, and the first that raises stops everything, so
        each index holds a prefix of the new documents (no ids are assigned,
        unlike `add_document`). */
    method AddDocuments(documents: seq<Document>) returns (o: Outcome)
      requires Valid()
      modifies Repr()
      ensures Valid()
      ensures o.Pass? ==> forall m :: 0 <= m < |indexes| ==> IndexDocuments(indexes[m]) == old(IndexDocuments(indexes[m])) + documents
      ensures forall m :: 0 <= m < |indexes| ==>
        exists p :: 0 <= p <= |documents| && IndexDocuments(indexes[m]) == old(IndexDocuments(indexes[m])) + documents[..p]
      ensures o.Pass? ==> forall m :: 0 <= m < |indexes| ==>
        Content(indexes[m]) == Extended(indexes[m], old(Content(indexes[m])), documents, Texts(documents))
      ensures forall m :: 0 <= m < |indexes| ==>
        exists p :: 0 <= p <= |documents| && Content(indexes[m]) == Extended(indexes[m], old(Content(indexes[m])), documents[..p], Texts(documents[..p]))
    {
      assert documents[..|documents|] == documents;
      forall j | 0 <= j < |documents| ensures documents[j] !in Repr() {
        DocumentApart(documents[j]);
      }
      ghost var before := seq(|indexes|, m requires 0 <= m < |indexes| reads Repr() => Content(indexes[m]));
      ghost var texts := Texts(documents);
      o := Pass;
      ghost var p: nat := 0;
      var i := 0;
      while i < |indexes|
        invariant 0 <= i <= |indexes| && o.Pass? && p <= |documents|
        invariant Valid()
        invariant Texts(documents) == texts
        invariant forall m :: 0 <= m < i ==> Content(indexes[m]) == Extended(indexes[m], before[m], documents, texts)
        invariant forall m :: i <= m < |indexes| ==> Content(indexes[m]) == before[m]
      {
        o, p := AddAllTo(i, documents);
        assert Texts(documents) == texts;
        if o.Fail? {
          assert Content(indexes[i]) == Extended(indexes[i], before[i], documents[..p], Texts(documents[..p]));
          break;
        }
        i := i + 1;
      }
      TookPrefixes(documents, before, i, p);
    }

    /** Where `add_documents` stops: the indexes before `i` took every
        document, index `i` the first `p`, the ones after it none; so each
        took a prefix. */
    lemma TookPrefixes(documents: seq<Document>, before: seq<IndexContent>, i: nat, p: nat)
      requires |before| == |indexes| && forall m :: 0 <= m < |indexes| ==> (indexes[m].Lexical? <==> before[m].LexicalContent?)
      requires i <= |indexes| && p <= |documents|
      requires forall m :: 0 <= m < i ==> Content(indexes[m]) == Extended(indexes[m], before[m], documents, Texts(documents))
      requires i < |indexes| ==> Content(indexes[i]) == Extended(indexes[i], before[i], documents[..p], Texts(documents[..p]))
      requires forall m :: i < m < |indexes| ==> Content(indexes[m]) == before[m]
      ensures forall m :: 0 <= m < |indexes| ==>
        exists q :: 0 <= q <= |documents| && IndexDocuments(indexes[m]) == before[m].documents + documents[..q]
      ensures forall m :: 0 <= m < |indexes| ==>
        exists q :: 0 <= q <= |documents| && Content(indexes[m]) == Extended(indexes[m], before[m], documents[..q], Texts(documents[..q]))
    {
      assert documents[..|documents|] == documents;
      forall m | 0 <= m < |indexes|
        ensures exists q :: 0 <= q <= |documents| && IndexDocuments(indexes[m]) == before[m].documents + documents[..q]
        ensures exists q :: 0 <= q <= |documents| && Content(indexes[m]) == Extended(indexes[m], before[m], documents[..q], Texts(documents[..q]))
      {
        var q := if m < i then |documents| else if m == i then p else 0;
        if q == 0 {
          ExtendedNone(indexes[m], before[m]);
          assert documents[..0] == [] && Texts([]) == [];
        }
        assert Content(indexes[m]) == Extended(indexes[m], before[m], documents[..q], Texts(documents[..q]));
        assert IndexDocuments(indexes[m]) == Content(indexes[m]).documents;
      }
    }

    /** The inner loop of `add_documents`: index `i` takes the documents in
        order until one raises; `p` is how many it took. */
    method AddAllTo(i: nat, documents: seq<Document>) returns (o: Outcome, ghost p: nat)
      requires Valid() && i < |indexes|
      modifies IndexObject(indexes[i])
      ensures Valid()
      ensures p <= |documents| && (o.Pass? <==> p == |documents|)
      ensures forall m :: 0 <= m < |indexes| ==>
        IndexDocuments(indexes[m]) == old(IndexDocuments(indexes[m])) + (if m == i then documents[..p] else [])
      ensures Content(indexes[i]) == Extended(indexes[i], old(Content(indexes[i])), documents[..p], Texts(documents[..p]))
      ensures forall m :: 0 <= m < |indexes| && m != i ==> Content(indexes[m]) == old(Content(indexes[m]))
    {
      o, p := AddAllToIndex(indexes[i], documents);
      forall m | 0 <= m < |indexes| && m != i
        ensures IndexValid(indexes[m]) && Content(indexes[m]) == old(Content(indexes[m]))
      {
        assert IndexObject(indexes[m]) != IndexObject(indexes[i]);
      }
    }

    /** The answers the indexes give to `query` with `k`, in index order. */
    ghost function Answers(query: string, k: int): (r: seq<Result<seq<Hit>>>)
      reads Repr()
      requires Valid()
      ensures |r| == |indexes| && forall m :: 0 <= m < |indexes| ==> r[m] == IndexAnswer(indexes[m], query, k)
    {
      seq(|indexes|, m requires 0 <= m < |indexes| && IndexValid(indexes[m]) reads Repr() => IndexAnswer(indexes[m], query, k))
    }

    /** One index answers a query; what every index holds, and what the
        other indexes would answer, stay as they were. */
    method SearchAt(i: nat, query: string, k: int) returns (r: Result<seq<Hit>>)
      requires Valid() && i < |indexes|
      modifies IndexObject(indexes[i])
      ensures Valid()
      ensures Holdings() == old(Holdings())
      ensures r == old(IndexAnswer(indexes[i], query, k))
      ensures r.Ok? ==> forall h :: h in r.value ==> h.0 in IndexDocuments(indexes[i])
      ensures forall m :: 0 <= m < |indexes| ==> Content(indexes[m]) == old(Content(indexes[m]))
      ensures forall m :: 0 <= m < |indexes| && m != i ==> IndexAnswer(indexes[m], query, k) == old(IndexAnswer(indexes[m], query, k))
    {
      r := SearchIndexOnce(indexes[i], query, k);
      forall m | 0 <= m < |indexes| && m != i ensures unchanged(IndexObject(indexes[m])) {
        assert IndexObject(indexes[m]) != IndexObject(indexes[i]);
      }
      assert Holdings() == old(Holdings());
    }

    /** `[index.search(query_text, k=...) for index in self._indexes]`. */
    method FetchAll(query: string, k: int) returns (r: Result<seq<seq<Hit>>>)
      requires Valid()
      modifies Repr()
      ensures Valid()
      ensures Holdings() == old(Holdings())
      ensures forall m :: 0 <= m < |indexes| ==> Content(indexes[m]) == old(Content(indexes[m]))
      ensures forall m, q, n :: 0 <= m < |indexes| ==> IndexAnswer(indexes[m], q, n) == old(IndexAnswer(indexes[m], q, n))
      ensures r == Gather(old(Answers(query, k)))
      ensures r.Ok? ==> |r.value| == |indexes|
      ensures r.Ok? ==> forall m, h :: 0 <= m < |indexes| && h in r.value[m] ==> h.0 in Holdings()[m]
    {
      ghost var answers := Answers(query, k);
      ghost var before := Holdings();
      var all: seq<seq<Hit>> := [];
      var i := 0;
      while i < |indexes|
        invariant 0 <= i <= |indexes|
        invariant Valid()
        invariant Holdings() == before
        invariant forall m :: 0 <= m < |indexes| ==> Content(indexes[m]) == old(Content(indexes[m]))
        invariant forall m :: i <= m < |indexes| ==> IndexAnswer(indexes[m], query, k) == answers[m]
        invariant Gather(answers[..i]) == Ok(all)
        invariant forall m :: 0 <= m < i ==> HitsFrom(all[m], before[m])
      {
        var hits := SearchAt(i, query, k);
        if hits.Err? {
          GatherErrExtends(answers, i);
          forall m | 0 <= m < |indexes| ensures forall q, n :: IndexAnswer(indexes[m], q, n) == old(IndexAnswer(indexes[m], q, n)) {
            AnswersKept(indexes[m]);
          }
          return Err(hits.error);
        }
        GatherOkExtends(answers, i, all);
        assert HitsFrom(hits.value, before[i]);
        all := all + [hits.value];
        i := i + 1;
      }
      assert answers[..i] == answers;
      forall m | 0 <= m < |indexes| ensures forall q, n :: IndexAnswer(indexes[m], q, n) == old(IndexAnswer(indexes[m], q, n)) {
        AnswersKept(indexes[m]);
      }
      r := Ok(all);
      forall m, h | 0 <= m < |indexes| && h in r.value[m] ensures h.0 in Holdings()[m] {
        assert HitsFrom(all[m], before[m]);
      }
    }

    /** `search(query_text, k, k_rrf)`. The arguments are checked first; then
        every index is asked for `5k` hits, the lists are fused, and the top
        `k` are returned, or handed to the reranker when there is one. */
    method Search(query: PyValue, k: int, kRrf: int) returns (r: Result<seq<Hit>>)
      requires Valid()
      modifies Repr(), Stored()
      ensures Valid()
      ensures Holdings() == old(Holdings())
      ensures forall m :: 0 <= m < |indexes| ==> Content(indexes[m]) == old(Content(indexes[m]))
      ensures forall m, q, n :: 0 <= m < |indexes| ==> IndexAnswer(indexes[m], q, n) == old(IndexAnswer(indexes[m], q, n))
      ensures r.Ok? ==> forall h :: h in r.value ==> h.0 in Stored()
      ensures forall d: Document :: old(allocated(d)) ==> d.fields == old(d.fields) || IdAssigned(old(d.fields), d.fields)
      ensures !query.PyStr? ==> r == Err(TypeError)
      ensures query.PyStr? && k <= 0 ==> r == Err(ValueError)
      ensures query.PyStr? && k > 0 && kRrf < 0 ==> r == Err(ValueError)
      ensures !query.PyStr? || k <= 0 || kRrf < 0 ==> unchanged(Repr()) && unchanged(Stored())
      ensures query.PyStr? && k > 0 && kRrf >= 0 ==>
        match Gather(old(Answers(query.s, k * 5)))
        case Err(e) => r == Err(e) && forall d: Document :: old(allocated(d)) ==> d.fields == old(d.fields)
        case Ok(lists) =>
          var fused := Fuse(HitDocs(lists), k, kRrf);
          && (reranker.None? ==> r == Ok(fused) && forall d: Document :: old(allocated(d)) ==> d.fields == old(d.fields))
          && (reranker.Some? ==>
                && DistinctDocs(fused)
                && (forall d: Document :: old(allocated(d)) && d in DocsOf(fused) ==> IdAssigned(old(d.fields), d.fields))
                && (forall i :: 0 <= i < |fused| ==> "id" in FieldsOf(DocsOf(fused))[i])
                && (forall d: Document :: old(allocated(d)) && d !in DocsOf(fused) ==> d.fields == old(d.fields))
                && r == Reranked(fused, FieldsOf(DocsOf(fused)), reranker.value, query.s, k))
    {
      if !query.PyStr? {
        return Err(TypeError);
      }
      if k <= 0 {
        return Err(ValueError);
      }
      if kRrf < 0 {
        return Err(ValueError);
      }
      var all := FetchAll(query.s, k * 5);
      forall d: Document | old(allocated(d)) ensures d.fields == old(d.fields) {
        DocumentApart(d);
      }
      if all.Err? {
        return Err(all.error);
      }
      r := FuseAndRerank(all.value, query.s, k, kRrf);
    }

    /** The part of `search` after the indexes have answered: fusion, the cut
        to `k`, and the reranker when there is one. */
    method FuseAndRerank(all: seq<seq<Hit>>, query: string, k: nat, kRrf: nat) returns (r: Result<seq<Hit>>)
      requires Valid() && k > 0 && |all| == |indexes|
      requires forall m, h :: 0 <= m < |indexes| && h in all[m] ==> h.0 in Holdings()[m]
      modifies Stored()
      ensures Valid() && Holdings() == old(Holdings())
      ensures forall m :: 0 <= m < |indexes| ==> Content(indexes[m]) == old(Content(indexes[m]))
      ensures forall m, q, n :: 0 <= m < |indexes| ==> IndexAnswer(indexes[m], q, n) == old(IndexAnswer(indexes[m], q, n))
      ensures reranker.None? ==> r == Ok(Fuse(HitDocs(all), k, kRrf))
      ensures reranker.None? ==> forall d: Document :: old(allocated(d)) ==> d.fields == old(d.fields)
      ensures reranker.Some? ==>
        var fused := Fuse(HitDocs(all), k, kRrf);
        && DistinctDocs(fused)
        && (forall d: Document :: old(allocated(d)) && d in DocsOf(fused) ==> IdAssigned(old(d.fields), d.fields))
        && (forall i :: 0 <= i < |fused| ==> "id" in FieldsOf(DocsOf(fused))[i])
        && (forall d: Document :: old(allocated(d)) && d !in DocsOf(fused) ==> d.fields == old(d.fields))
        && r == Reranked(fused, FieldsOf(DocsOf(fused)), reranker.value, query, k)
      ensures r.Ok? ==> forall h :: h in r.value ==> h.0 in Stored()
    {
      var lists := HitDocs(all);
      var result := Fuse(lists, k, kRrf);
      FuseStored(all, k, kRrf);
      if reranker.None? {
        return Ok(result);
      }
      FuseShape(lists, k, kRrf);
      r := RerankFused(result, query, k);
    }

    /** The reranking branch of `search`, which changes the candidates' fields
        and nothing the indexes hold. */
    method RerankFused(result: seq<Hit>, query: string, k: int) returns (r: Result<seq<Hit>>)
      requires Valid() && reranker.Some? && DistinctDocs(result)
      requires forall i :: 0 <= i < |result| ==> result[i].0 in Stored()
      modifies Stored()
      ensures Valid() && Holdings() == old(Holdings())
      ensures forall m :: 0 <= m < |indexes| ==> Content(indexes[m]) == old(Content(indexes[m]))
      ensures forall m, q, n :: 0 <= m < |indexes| ==> IndexAnswer(indexes[m], q, n) == old(IndexAnswer(indexes[m], q, n))
      ensures forall i :: 0 <= i < |result| ==> IdAssigned(old(result[i].0.fields), result[i].0.fields)
      ensures forall d: Document :: old(allocated(d)) && d !in DocsOf(result) ==> d.fields == old(d.fields)
      ensures forall i :: 0 <= i < |result| ==> "id" in FieldsOf(DocsOf(result))[i]
      ensures r == Reranked(result, FieldsOf(DocsOf(result)), reranker.value, query, k)
      ensures r.Ok? ==> forall h :: h in r.value ==> h.0 in Stored()
    {
      r := Rerank(result, reranker.value, query, k);
      forall m | 0 <= m < |indexes| ensures unchanged(IndexObject(indexes[m])) {
        match indexes[m]
        case Lexical(b) =>
        case Vector(v) =>
      }
      assert Holdings() == old(Holdings());
      if r.Ok? {
        var fields := FieldsOf(DocsOf(result));
        var ids := IdsOf(fields);
        var reranked := reranker.value(fields, query, k).value;
        forall h | h in r.value ensures h.0 in Stored() {
          RemapSound(result, ids, reranked, h);
        }
      }
    }

    /** Every fused candidate is a stored document. */
    lemma FuseStored(all: seq<seq<Hit>>, k: nat, kRrf: nat)
      requires Valid() && k > 0 && |all| == |indexes|
      requires forall m, h :: 0 <= m < |indexes| && h in all[m] ==> h.0 in Holdings()[m]
      ensures forall i :: 0 <= i < |Fuse(HitDocs(all), k, kRrf)| ==> Fuse(HitDocs(all), k, kRrf)[i].0 in Stored()
    {
      var result := Fuse(HitDocs(all), k, kRrf);
      FuseShape(HitDocs(all), k, kRrf);
      forall i | 0 <= i < |result| ensures result[i].0 in Stored() {
        FusedStored(all, Holdings(), result[i].0);
      }
    }

    /** `add_document(document)` followed by `search(...)`: the document
        comes back with every field it was given, plus an id; when every
        index took it, it is stored, and every hit is a stored document. */
    method AddThenSearch(doc: Document, query: PyValue, k: int, kRrf: int) returns (o: Outcome, r: Result<seq<Hit>>)
      requires Valid()
      modifies Repr(), Stored(), doc
      ensures Valid()
      ensures "id" in doc.fields && forall key :: key in old(doc.fields) ==> key in doc.fields && doc.fields[key] == old(doc.fields)[key]
      ensures "id" in old(doc.fields) ==> doc.fields == old(doc.fields)
      ensures o.Pass? ==> doc in Stored()
      ensures r.Ok? ==> forall h :: h in r.value ==> h.0 in Stored()
    {
      ghost var stop;
      o, stop := AddDocument(doc);
      ghost var mid := doc.fields;
      r := Search(query, k, kRrf);
      IdAssignedTwice(old(doc.fields), mid, doc.fields);
    }

    /** Every document the indexes answered with is a stored document. */
    static lemma FusedStored(all: seq<seq<Hit>>, holdings: seq<seq<Document>>, d: Document)
      requires |all| == |holdings|
      requires forall m, g :: 0 <= m < |holdings| && g in all[m] ==> g.0 in holdings[m]
      requires d in Flatten(HitDocs(all))
      ensures d in StoredIn(holdings)
    {
      var lists := HitDocs(all);
      FlattenMembers(lists, d);
      var m :| 0 <= m < |lists| && d in lists[m];
      var i :| 0 <= i < |lists[m]| && lists[m][i] == d;
      assert all[m][i] in all[m];
      var j :| 0 <= j < |holdings[m]| && holdings[m][j] == d;
    }
  }
}
