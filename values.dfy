/** Python values as the modelled code sees them: the exception kinds it raises,
    results that carry either a value or a raised exception, the dynamic values
    stored in documents, and documents themselves (mutable dictionaries, compared
    by object identity). */
module Values {

  /** The exception classes the modelled code raises. */
  datatype Error =
    | TypeError
    | ValueError
    | IndexError
    | AttributeError
    | ZeroDivisionError
    | FileNotFoundError
    | FileExistsError
    | IsADirectoryError
    | NotADirectoryError
    | SameFileError

  datatype Option<+T> = None | Some(value: T)

  /** A call that either returns a value or raises an exception. */
  datatype Result<+T> = Ok(value: T) | Err(error: Error)

  /** A call that returns nothing or raises an exception. */
  datatype Outcome = Pass | Fail(error: Error)

  /** The dynamic values a document field (or a query argument) may hold.
      `PyObject` stands for any other object, kept opaque except for whether
      it can be hashed (a dict or a set cannot). */
  datatype PyValue =
    | PyNone
    | PyBool(b: bool)
    | PyInt(i: int)
    | PyFloat(f: real)
    | PyStr(s: string)
    | PyList(items: seq<PyValue>)
    | PyObject(hashable: bool)

  /** Whether `hash(v)` raises TypeError: a list, or an unhashable object. */
  predicate Unhashable(v: PyValue) {
    v.PyList? || (v.PyObject? && !v.hashable)
  }

  /** `isinstance(v, (int, float))`; `bool` is a subclass of `int` in Python. */
  predicate IsNumber(v: PyValue) {
    v.PyInt? || v.PyFloat? || v.PyBool?
  }

  function NumberValue(v: PyValue): real
    requires IsNumber(v)
  {
    match v
    case PyInt(i) => i as real
    case PyFloat(f) => f
    case PyBool(b) => if b then 1.0 else 0.0
  }

  /** `isinstance(v, list) and all(isinstance(x, (int, float)) for x in v)`,
      returning the numbers when the test passes. */
  function NumericList(v: PyValue): (r: Option<seq<real>>)
    ensures r.Some? <==> v.PyList? && forall i :: 0 <= i < |v.items| ==> IsNumber(v.items[i])
    ensures r.Some? ==> |r.value| == |v.items|
    ensures r.Some? ==> forall i :: 0 <= i < |r.value| ==> r.value[i] == NumberValue(v.items[i])
  {
    if v.PyList? && forall i :: 0 <= i < |v.items| ==> IsNumber(v.items[i]) then
      Some(seq(|v.items|, i requires 0 <= i < |v.items| => NumberValue(v.items[i])))
    else
      None
  }

  /** A list of floats, as an embedding function returns it. */
  function FloatList(v: seq<real>): (r: PyValue)
    ensures NumericList(r) == Some(v)
  {
    var r := PyList(seq(|v|, i requires 0 <= i < |v| => PyFloat(v[i])));
    assert NumericList(r).value == v;
    r
  }

  /** A document: a mutable dictionary. Indexes and the retriever hold
      references to the same object, so a field written through one of them is
      seen by all. */
  class Document {
    var fields: map<string, PyValue>

    constructor (fields: map<string, PyValue>)
      ensures this.fields == fields
    {
      this.fields := fields;
    }
  }

  /** The argument handed to an index's `add_document`: a dictionary or some
      other value. */
  datatype DocArg = DictArg(doc: Document) | NonDict(value: PyValue)

  /** The argument check shared by both indexes' `add_document`: not a
      dictionary is a TypeError, a dictionary without `content` a ValueError,
      non-string content a TypeError. */
  function CheckDocument(arg: DocArg): (r: Result<string>)
    reads if arg.DictArg? then {arg.doc} else {}
    ensures r.Ok? <==> arg.DictArg? && "content" in arg.doc.fields && arg.doc.fields["content"].PyStr?
    ensures r.Ok? ==> r.value == arg.doc.fields["content"].s
    ensures arg.NonDict? ==> r == Err(TypeError)
    ensures arg.DictArg? && "content" !in arg.doc.fields ==> r == Err(ValueError)
    ensures arg.DictArg? && "content" in arg.doc.fields && !arg.doc.fields["content"].PyStr? ==> r == Err(TypeError)
  {
    match arg
    case NonDict(_) => Err(TypeError)
    case DictArg(d) =>
      if "content" !in d.fields then Err(ValueError)
      else if !d.fields["content"].PyStr? then Err(TypeError)
      else Ok(d.fields["content"].s)
  }

  function Min(a: int, b: int): int { if a <= b then a else b }
  function Max(a: int, b: int): int { if a >= b then a else b }
}
