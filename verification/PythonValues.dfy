/** Python values as generated code handles them, and the records of a contract among them. */
module PythonValues {
  import opened Wrappers
  import opened Ast
  import opened Validate
  import opened Arrow
  import opened Records
  import opened Literals

  datatype PyValue =
    | PyNone
    | PyLeaf(x: Scalar)
    | PyList(items: seq<PyValue>)
    | PyPairs(pairs: seq<(PyValue, PyValue)>)
    | PyDict(m: map<PyValue, PyValue>)

  type PyRecord = map<string, PyValue>

  /** The attribute a field's value is held in. */
  function ToPy(v: Value): PyValue {
    match v
    case VLeaf(x) => PyLeaf(x)
    case VList(items) => PyList(seq(|items|, i requires 0 <= i < |items| => ToPy(items[i])))
    case VOption(o) => if o.None? then PyNone else ToPy(o.value)
    case VMap(m) => PyDict(ToPyDict(m))
  }

  function ToPyDict(m: map<Scalar, Scalar>): (d: map<PyValue, PyValue>)
    ensures forall p :: p in d <==> p.PyLeaf? && p.x in m
    ensures forall k :: k in m ==> d[PyLeaf(k)] == PyLeaf(m[k])
  {
    map p | p in (set k | k in m :: PyLeaf(k)) :: PyLeaf(m[p.x])
  }

  function ToPyRecord(rec: Record): PyRecord {
    map n | n in rec :: ToPy(rec[n])
  }

  /** No optional directly inside an optional, where Python could not tell the two absences apart. */
  predicate Unnested(ty: LaicType) {
    match ty
    case List(item) => Unnested(item)
    case Optional(inner) => !inner.Optional? && Unnested(inner)
    case _ => true
  }

  /** Values of a type are told apart by their attributes, unless optionals nest; in supported types they do not. */
  lemma {:induction false} ToPyInjective(ty: LaicType, a: Value, b: Value)
    requires Unnested(ty) || Supported(ty)
    requires HasType(a, ty) && HasType(b, ty) && ToPy(a) == ToPy(b)
    ensures a == b
  {
    match ty {
      case List(item) =>
        forall i | 0 <= i < |a.items| ensures |a.items| == |b.items| && a.items[i] == b.items[i] {
          assert ToPy(a).items[i] == ToPy(b).items[i];
          ToPyInjective(item, a.items[i], b.items[i]);
        }
        assert |a.items| == |ToPy(a).items| && |b.items| == |ToPy(b).items|;
      case Optional(inner) =>
        if a.o.Some? {
          SomethingIsNotNone(inner, a.o.value);
        }
        if b.o.Some? {
          SomethingIsNotNone(inner, b.o.value);
        }
        if a.o.Some? && b.o.Some? {
          ToPyInjective(inner, a.o.value, b.o.value);
        }
      case Map(_, _) =>
        MapsToldApart(a.m, b.m);
      case _ =>
    }
  }

  lemma SomethingIsNotNone(ty: LaicType, v: Value)
    requires !ty.Optional? && HasType(v, ty)
    ensures !ToPy(v).PyNone?
  {
  }

  lemma KeyToldApart(a: map<Scalar, Scalar>, b: map<Scalar, Scalar>, k: Scalar)
    requires ToPyDict(a) == ToPyDict(b)
    ensures (k in a <==> k in b) && (k in a ==> a[k] == b[k])
  {
    var d := ToPyDict(a);
    assert PyLeaf(k) in d <==> k in a;
    assert PyLeaf(k) in d <==> k in b;
    if k in a {
      assert d[PyLeaf(k)] == PyLeaf(a[k]);
      assert d[PyLeaf(k)] == PyLeaf(b[k]);
    }
  }

  lemma MapsToldApart(a: map<Scalar, Scalar>, b: map<Scalar, Scalar>)
    requires ToPyDict(a) == ToPyDict(b)
    ensures a == b
  {
    forall k ensures (k in a <==> k in b) && (k in a ==> a[k] == b[k]) {
      KeyToldApart(a, b, k);
    }
  }

  // Literals

  const ENCODE := ".encode(\"utf-8\")"

  /** A string literal that stands alone. */
  function PythonString(text: string): Option<string> {
    match LexPython(text) case Some((value, rest)) => (if rest == "" then Some(value) else None) case None => None
  }

  /** A bytes expression, by the text it encodes: a literal with prefix `b`, or an encoded string literal. */
  function PythonBytes(text: string): Option<string> {
    if text != "" && text[0] == 'b' then PythonString(text[1..])
    else
      match LexPython(text) case Some((value, rest)) => (if rest == ENCODE then Some(value) else None) case None => None
  }

  /** `python_bytes_literal` */
  function EncodedLiteral(value: string): string {
    Quoted(value, PythonLike) + ENCODE
  }

  lemma EncodedLiteralIsRead(value: string)
    ensures PythonBytes(EncodedLiteral(value)) == Some(value)
  {
    PythonRoundTrip(value, ENCODE);
    assert EncodedLiteral(value)[0] == '"';
  }

  lemma StringLiteralIsRead(value: string)
    ensures PythonString(Quoted(value, PythonLike)) == Some(value)
  {
    PythonRoundTrip(value, "");
    assert Quoted(value, PythonLike) + "" == Quoted(value, PythonLike);
  }
}
