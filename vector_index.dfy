/** The dense index (rag/VectorDB/VectorIndex.py): parallel lists of vectors
    and documents, the dimension fixed by the first vector, and a brute-force
    nearest-neighbour search under cosine or Euclidean distance. */
module Dense {
  import opened Values
  import opened Sorting
  import opened RealMath

  datatype Metric = Cosine | Euclidean

  /** A search result: the document and its distance from the query. */
  type Neighbour = (Document, real)

  /** A pair of `distances`: the distance and the document. */
  type Measured = (real, Document)

  // ---------------------------------------------------------------------
  // Distances.

  function Dot(a: seq<real>, b: seq<real>): real
    requires |a| == |b|
  {
    if a == [] then 0.0 else Dot(a[..|a| - 1], b[..|b| - 1]) + a[|a| - 1] * b[|b| - 1]
  }

  /** `sum((p - q) ** 2 for p, q in zip(a, b))`. */
  function SquaredDistance(a: seq<real>, b: seq<real>): real
    requires |a| == |b|
  {
    if a == [] then 0.0
    else SquaredDistance(a[..|a| - 1], b[..|b| - 1]) + (a[|a| - 1] - b[|b| - 1]) * (a[|a| - 1] - b[|b| - 1])
  }

  /** `sqrt(sum(x * x for x in v))`. */
  function Magnitude(v: seq<real>, sqrt: real -> real): real {
    sqrt(Dot(v, v))
  }

  function Clamp(x: real): real {
    if x < -1.0 then -1.0 else if x > 1.0 then 1.0 else x
  }

  function EuclideanValue(a: seq<real>, b: seq<real>, sqrt: real -> real): real
    requires |a| == |b|
  {
    sqrt(SquaredDistance(a, b))
  }

  /** `_cosine_distance` on vectors of equal length. */
  function CosineValue(a: seq<real>, b: seq<real>, sqrt: real -> real): real
    requires |a| == |b|
  {
    var m1 := Magnitude(a, sqrt);
    var m2 := Magnitude(b, sqrt);
    if m1 == 0.0 && m2 == 0.0 then 0.0
    else if m1 == 0.0 || m2 == 0.0 then 1.0
    else 1.0 - Clamp(Dot(a, b) / (m1 * m2))
  }

  /** `_euclidean_distance`: a ValueError for vectors of different lengths. */
  function EuclideanDistance(a: seq<real>, b: seq<real>, sqrt: real -> real): (r: Result<real>)
    ensures r.Err? <==> |a| != |b|
    ensures r.Err? ==> r.error == ValueError
  {
    if |a| != |b| then Err(ValueError) else Ok(EuclideanValue(a, b, sqrt))
  }

  /** `_dot_product`: a ValueError for vectors of different lengths. */
  function DotProduct(a: seq<real>, b: seq<real>): (r: Result<real>)
    ensures r.Err? <==> |a| != |b|
    ensures r.Err? ==> r.error == ValueError
  {
    if |a| != |b| then Err(ValueError) else Ok(Dot(a, b))
  }

  /** `_cosine_distance`: a ValueError for vectors of different lengths. */
  function CosineDistance(a: seq<real>, b: seq<real>, sqrt: real -> real): (r: Result<real>)
    ensures r.Err? <==> |a| != |b|
    ensures r.Err? ==> r.error == ValueError
  {
    if |a| != |b| then Err(ValueError) else Ok(CosineValue(a, b, sqrt))
  }

  function DistanceValue(metric: Metric, a: seq<real>, b: seq<real>, sqrt: real -> real): real
    requires |a| == |b|
  {
    match metric
    case Cosine => CosineValue(a, b, sqrt)
    case Euclidean => EuclideanValue(a, b, sqrt)
  }

  lemma {:induction false} SquaredDistanceNonNegative(a: seq<real>, b: seq<real>)
    requires |a| == |b|
    ensures SquaredDistance(a, b) >= 0.0
  {
    if a != [] {
      SquaredDistanceNonNegative(a[..|a| - 1], b[..|b| - 1]);
      var d := a[|a| - 1] - b[|b| - 1];
      assert d * d >= 0.0;
    }
  }

  lemma {:induction false} SquaredDistanceSelf(a: seq<real>)
    ensures SquaredDistance(a, a) == 0.0
  {
    if a != [] {
      SquaredDistanceSelf(a[..|a| - 1]);
    }
  }

  lemma {:induction false} DotSelfNonNegative(a: seq<real>)
    ensures Dot(a, a) >= 0.0
  {
    if a != [] {
      DotSelfNonNegative(a[..|a| - 1]);
      var x := a[|a| - 1];
      assert x * x >= 0.0;
    }
  }

  /** Euclidean distance is never negative, and a vector is at distance zero
      from itself. */
  lemma EuclideanLaws(a: seq<real>, b: seq<real>, sqrt: real -> real)
    requires SqrtLaws(sqrt) && |a| == |b|
    ensures EuclideanDistance(a, b, sqrt).Ok? && EuclideanDistance(a, b, sqrt).value >= 0.0
    ensures EuclideanDistance(a, a, sqrt) == Ok(0.0)
  {
    SquaredDistanceNonNegative(a, b);
    SquaredDistanceSelf(a);
  }

  /** Cosine distance: zero when both vectors have zero magnitude, one when
      exactly one has, and always within `[0, 2]`. */
  lemma CosineLaws(a: seq<real>, b: seq<real>, sqrt: real -> real)
    requires |a| == |b|
    ensures var r := CosineDistance(a, b, sqrt).value;
      && 0.0 <= r <= 2.0
      && (Magnitude(a, sqrt) == 0.0 && Magnitude(b, sqrt) == 0.0 ==> r == 0.0)
      && ((Magnitude(a, sqrt) == 0.0) != (Magnitude(b, sqrt) == 0.0) ==> r == 1.0)
  {
  }

  lemma CosineUnfold(a: seq<real>, b: seq<real>, sqrt: real -> real)
    requires |a| == |b| && Magnitude(a, sqrt) != 0.0 && Magnitude(b, sqrt) != 0.0
    ensures CosineValue(a, b, sqrt) == 1.0 - Clamp(Dot(a, b) / (Magnitude(a, sqrt) * Magnitude(b, sqrt)))
  {
  }

  lemma DivideSelf(x: real, y: real)
    requires x == y && y != 0.0
    ensures x / y == 1.0
  {
  }

  /** A vector of non-zero magnitude is at cosine distance zero from itself. */
  lemma CosineSelf(a: seq<real>, sqrt: real -> real)
    requires SqrtLaws(sqrt) && Magnitude(a, sqrt) != 0.0
    ensures CosineDistance(a, a, sqrt) == Ok(0.0)
  {
    DotSelfNonNegative(a);
    SqrtSquare(sqrt, Dot(a, a));
    DivideSelf(Dot(a, a), Magnitude(a, sqrt) * Magnitude(a, sqrt));
    CosineUnfold(a, a, sqrt);
  }

  /** Orthogonal vectors of non-zero magnitude are at cosine distance one. */
  lemma CosineOrthogonal(a: seq<real>, b: seq<real>, sqrt: real -> real)
    requires |a| == |b| && Dot(a, b) == 0.0
    requires Magnitude(a, sqrt) != 0.0 && Magnitude(b, sqrt) != 0.0
    ensures CosineDistance(a, b, sqrt) == Ok(1.0)
  {
    var p := Magnitude(a, sqrt) * Magnitude(b, sqrt);
    assert p != 0.0;
    assert 0.0 / p == 0.0;
  }

  // ---------------------------------------------------------------------
  // Search.

  /** `(distance, document)` for every stored vector, in insertion order. */
  function Distances(metric: Metric, query: seq<real>, vectors: seq<seq<real>>, docs: seq<Document>, sqrt: real -> real): (r: seq<Measured>)
    requires |vectors| == |docs|
    requires forall i :: 0 <= i < |vectors| ==> |vectors[i]| == |query|
    ensures |r| == |vectors|
  {
    if vectors == [] then []
    else
      var n := |vectors| - 1;
      Distances(metric, query, vectors[..n], docs[..n], sqrt) + [(DistanceValue(metric, query, vectors[n], sqrt), docs[n])]
  }

  function DistanceKey(m: Measured): real { m.0 }

  function Swap(s: seq<Measured>): (r: seq<Neighbour>)
    ensures |r| == |s|
  {
    if s == [] then [] else [(s[0].1, s[0].0)] + Swap(s[1..])
  }

  /** The `k` nearest stored documents, nearest first; ties keep insertion
      order. */
  function Nearest(distances: seq<Measured>, k: int): seq<Neighbour> {
    var sorted := SortBy(distances, DistanceKey);
    Swap(sorted[..Min(Max(k, 0), |sorted|)])
  }

  lemma {:induction false} SwapAt(s: seq<Measured>, i: nat)
    requires i < |s|
    ensures Swap(s)[i] == (s[i].1, s[i].0)
  {
    if i > 0 {
      SwapAt(s[1..], i - 1);
    }
  }

  lemma {:induction false} DistancesAt(metric: Metric, query: seq<real>, vectors: seq<seq<real>>, docs: seq<Document>, sqrt: real -> real, i: nat)
    requires |vectors| == |docs|
    requires forall j :: 0 <= j < |vectors| ==> |vectors[j]| == |query|
    requires i < |vectors|
    ensures Distances(metric, query, vectors, docs, sqrt)[i] == (DistanceValue(metric, query, vectors[i], sqrt), docs[i])
  {
    var n := |vectors| - 1;
    if i < n {
      DistancesAt(metric, query, vectors[..n], docs[..n], sqrt, i);
    }
  }

  /** `min(k, n)` results, in ascending distance. */
  lemma NearestShape(distances: seq<Measured>, k: int)
    requires k > 0
    ensures |Nearest(distances, k)| == Min(k, |distances|)
    ensures forall i, j :: 0 <= i < j < |Nearest(distances, k)| ==> Nearest(distances, k)[i].1 <= Nearest(distances, k)[j].1
  {
    var sorted := SortBy(distances, DistanceKey);
    var top := sorted[..Min(k, |sorted|)];
    forall i, j | 0 <= i < j < |top| ensures Swap(top)[i].1 <= Swap(top)[j].1 {
      SwapAt(top, i);
      SwapAt(top, j);
      assert DistanceKey(sorted[i]) <= DistanceKey(sorted[j]);
    }
  }

  /** Nothing left out is nearer than anything returned. */
  lemma NearestSelects(distances: seq<Measured>, k: int)
    requires k > 0
    ensures var sorted := SortBy(distances, DistanceKey);
      var m := Min(k, |distances|);
      && multiset(sorted[..m]) + multiset(sorted[m..]) == multiset(distances)
      && forall x, y :: x in sorted[..m] && y in sorted[m..] ==> x.0 <= y.0
  {
    var sorted := SortBy(distances, DistanceKey);
    var m := Min(k, |distances|);
    TakeIsSmallest(sorted, DistanceKey, m);
    forall x, y | x in sorted[..m] && y in sorted[m..] ensures x.0 <= y.0 {
      assert DistanceKey(x) <= DistanceKey(y);
    }
  }

  /** Every result is a stored document with its distance from the query. */
  lemma NearestSound(metric: Metric, query: seq<real>, vectors: seq<seq<real>>, docs: seq<Document>, sqrt: real -> real, k: int, n: Neighbour)
    requires |vectors| == |docs|
    requires forall i :: 0 <= i < |vectors| ==> |vectors[i]| == |query|
    requires n in Nearest(Distances(metric, query, vectors, docs, sqrt), k)
    ensures exists i :: 0 <= i < |vectors| && n == (docs[i], DistanceValue(metric, query, vectors[i], sqrt))
  {
    var distances := Distances(metric, query, vectors, docs, sqrt);
    var sorted := SortBy(distances, DistanceKey);
    var top := sorted[..Min(Max(k, 0), |sorted|)];
    var j :| 0 <= j < |Swap(top)| && Swap(top)[j] == n;
    SwapAt(top, j);
    SortByMembers(distances, DistanceKey);
    assert top[j] in sorted;
    var i :| 0 <= i < |distances| && distances[i] == top[j];
    DistancesAt(metric, query, vectors, docs, sqrt, i);
  }

  /** The sort is stable: stored documents at the same distance keep their
      insertion order. */
  lemma NearestStable(distances: seq<Measured>, d: real)
    ensures WithKey(SortBy(distances, DistanceKey), DistanceKey, d) == WithKey(distances, DistanceKey, d)
  {
    SortByStable(distances, DistanceKey, d);
  }

  // ---------------------------------------------------------------------
  // The index.

  /** The embedding function: a text to its vector, or the exception it raises. */
  type Embedding = string -> Result<seq<real>>

  class VectorIndex {
    var vectors: seq<seq<real>>
    var documents: seq<Document>
    var vectorDim: Option<nat>
    const metric: Metric
    const embeddingFn: Option<Embedding>
    const math: MathLib

    /** Parallel lists; the dimension is known exactly when a vector is
        stored, and every stored vector has it. */
    ghost predicate Valid()
      reads this
    {
      && |vectors| == |documents|
      && (vectorDim.Some? <==> |vectors| > 0)
      && forall i :: 0 <= i < |vectors| ==> |vectors[i]| == vectorDim.value
    }

    constructor Init(metric: Metric, embeddingFn: Option<Embedding>, math: MathLib)
      ensures Valid() && vectors == [] && documents == [] && vectorDim == None
      ensures this.metric == metric && this.embeddingFn == embeddingFn && this.math == math
    {
      vectors := [];
      documents := [];
      vectorDim := None;
      this.metric := metric;
      this.embeddingFn := embeddingFn;
      this.math := math;
    }

    /** `VectorIndex(distance_metric, embedding_fn)`: only "cosine" and
        "euclidean" are accepted. */
    static method New(distanceMetric: string, embeddingFn: Option<Embedding>, math: MathLib) returns (r: Result<VectorIndex>)
      ensures r.Err? <==> distanceMetric != "cosine" && distanceMetric != "euclidean"
      ensures r.Err? ==> r.error == ValueError
      ensures r.Ok? ==> fresh(r.value) && r.value.Valid() && r.value.vectors == [] && r.value.documents == []
      ensures r.Ok? ==> r.value.metric == (if distanceMetric == "cosine" then Cosine else Euclidean)
      ensures r.Ok? ==> r.value.embeddingFn == embeddingFn && r.value.math == math
    {
      if distanceMetric != "cosine" && distanceMetric != "euclidean" {
        return Err(ValueError);
      }
      var index := new VectorIndex.Init(if distanceMetric == "cosine" then Cosine else Euclidean, embeddingFn, math);
      return Ok(index);
    }

    /** `len(index)`. */
    function Len(): (n: nat)
      reads this
      requires Valid()
      ensures n == |vectors| && n == |documents|
    {
      |vectors|
    }

    /** The argument checks of `add_vector`, in order: a list of numbers, then
        a dictionary, then one with `content` (its type is not checked), then
        the dimension. */
    ghost function AddVectorCheck(vector: PyValue, arg: DocArg): Outcome
      reads this
      reads if arg.DictArg? then {arg.doc} else {}
      requires Valid()
    {
      if NumericList(vector).None? then Fail(TypeError)
      else if arg.NonDict? then Fail(TypeError)
      else if "content" !in arg.doc.fields then Fail(ValueError)
      else if |vectors| > 0 && |NumericList(vector).value| != vectorDim.value then Fail(ValueError)
      else Pass
    }

    /** Stores a copy of the vector with its document; the first vector fixes
        the dimension. A failed check changes nothing. */
    method AddVector(vector: PyValue, arg: DocArg) returns (o: Outcome)
      requires Valid()
      modifies this
      ensures Valid()
      ensures o == old(AddVectorCheck(vector, arg))
      ensures o.Fail? ==> unchanged(this)
      ensures o.Pass? ==>
        && vectors == old(vectors) + [NumericList(vector).value]
        && documents == old(documents) + [arg.doc]
        && vectorDim == Some(|NumericList(vector).value|)
    {
      var numbers := NumericList(vector);
      if numbers.None? {
        return Fail(TypeError);
      }
      if arg.NonDict? {
        return Fail(TypeError);
      }
      if "content" !in arg.doc.fields {
        return Fail(ValueError);
      }
      if |vectors| == 0 {
        vectorDim := Some(|numbers.value|);
      } else if |numbers.value| != vectorDim.value {
        return Fail(ValueError);
      }
      vectors := vectors + [numbers.value];
      documents := documents + [arg.doc];
      o := Pass;
    }

    /** Embeds the document's content and stores it. Every check (an
        embedding function is set, a dictionary, with string `content`)
        comes before the embedding is computed. */
    method AddDocument(arg: DocArg) returns (o: Outcome)
      requires Valid()
      modifies this
      ensures Valid()
      ensures embeddingFn.None? ==> o == Fail(ValueError) && unchanged(this)
      ensures embeddingFn.Some? && CheckDocument(arg).Err? ==> o == Fail(CheckDocument(arg).error) && unchanged(this)
      ensures embeddingFn.Some? && CheckDocument(arg).Ok? && embeddingFn.value(CheckDocument(arg).value).Err? ==>
        o == Fail(embeddingFn.value(CheckDocument(arg).value).error) && unchanged(this)
      ensures embeddingFn.Some? && CheckDocument(arg).Ok? && embeddingFn.value(CheckDocument(arg).value).Ok? ==>
        var v := embeddingFn.value(CheckDocument(arg).value).value;
        && (o.Fail? <==> |old(vectors)| > 0 && |v| != old(vectorDim).value)
        && (o.Fail? ==> o == Fail(ValueError) && unchanged(this))
        && (o.Pass? ==> vectors == old(vectors) + [v] && documents == old(documents) + [arg.doc])
    {
      if embeddingFn.None? {
        return Fail(ValueError);
      }
      var content := CheckDocument(arg);
      if content.Err? {
        return Fail(content.error);
      }
      var vector := embeddingFn.value(content.value);
      if vector.Err? {
        return Fail(vector.error);
      }
      o := AddVector(FloatList(vector.value), arg);
    }

    /** The query vector of a search: a string is embedded (an exception of
        the embedding function propagates), a list of numbers taken as it is. */
    function QueryVector(query: PyValue): (r: Result<seq<real>>)
      reads this
    {
      if query.PyStr? then
        if embeddingFn.None? then Err(ValueError) else embeddingFn.value(query.s)
      else if NumericList(query).Some? then Ok(NumericList(query).value)
      else Err(TypeError)
    }

    /** What `search(query, k)` answers, as a function of the stored vectors. */
    ghost function Answer(query: PyValue, k: int): Result<seq<Neighbour>>
      reads this
      requires Valid()
    {
      if |vectors| == 0 then Ok([])
      else match QueryVector(query)
        case Err(e) => Err(e)
        case Ok(q) =>
          if |q| != vectorDim.value || k <= 0 then Err(ValueError)
          else Ok(Nearest(Distances(metric, q, vectors, documents, math.sqrt), k))
    }

    /** The distance loop of `search`: one pair per stored vector, in order. */
    method AllDistances(queryVector: seq<real>) returns (distances: seq<Measured>)
      requires Valid() && |vectors| > 0 && |queryVector| == vectorDim.value
      ensures distances == Distances(metric, queryVector, vectors, documents, math.sqrt)
    {
      distances := [];
      var i := 0;
      while i < |vectors|
        invariant 0 <= i <= |vectors|
        invariant distances == Distances(metric, queryVector, vectors[..i], documents[..i], math.sqrt)
      {
        var distance := DistanceValue(metric, queryVector, vectors[i], math.sqrt);
        assert vectors[..i + 1][..i] == vectors[..i] && documents[..i + 1][..i] == documents[..i];
        distances := distances + [(distance, documents[i])];
        i := i + 1;
      }
      assert vectors[..i] == vectors && documents[..i] == documents;
    }

    /** `search(query, k)`: an empty index answers `[]`; then the query must
        be a string (with an embedding function) or a list of numbers, of the
        stored dimension, and `k` must be positive. The answer is the `k`
        nearest stored documents with their distances. */
    method Search(query: PyValue, k: int) returns (r: Result<seq<Neighbour>>)
      requires Valid()
      ensures |vectors| == 0 ==> r == Ok([])
      ensures |vectors| > 0 && QueryVector(query).Err? ==> r == Err(QueryVector(query).error)
      ensures |vectors| > 0 && QueryVector(query).Ok? && |QueryVector(query).value| != vectorDim.value ==> r == Err(ValueError)
      ensures |vectors| > 0 && QueryVector(query).Ok? && |QueryVector(query).value| == vectorDim.value && k <= 0 ==> r == Err(ValueError)
      ensures |vectors| > 0 && QueryVector(query).Ok? && |QueryVector(query).value| == vectorDim.value && k > 0 ==>
        r == Ok(Nearest(Distances(metric, QueryVector(query).value, vectors, documents, math.sqrt), k))
      ensures r == Answer(query, k)
    {
      if |vectors| == 0 {
        return Ok([]);
      }
      var queryVector: seq<real>;
      if query.PyStr? {
        if embeddingFn.None? {
          return Err(ValueError);
        }
        var embedded := embeddingFn.value(query.s);
        if embedded.Err? {
          return Err(embedded.error);
        }
        queryVector := embedded.value;
      } else if NumericList(query).Some? {
        queryVector := NumericList(query).value;
      } else {
        return Err(TypeError);
      }
      if |queryVector| != vectorDim.value {
        return Err(ValueError);
      }
      if k <= 0 {
        return Err(ValueError);
      }

      var distances := AllDistances(queryVector);
      var sorted := SortBy(distances, DistanceKey);
      r := Ok(Swap(sorted[..Min(k, |sorted|)]));
    }
  }
}
