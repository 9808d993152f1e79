/** `process(val, vtype)`: the type coercion applied to search text and to resolved leaves. */
module TypeCoercer {
  import opened Wrappers
  import opened PyText
  import opened PyValues

  /** `not vtype`: no type spec, or an empty one. */
  predicate BlankSpec(spec: Option<string>) {
    spec.None? || spec.value == []
  }

  /**
   * The untyped branch of `process`: `float(val)` is tried first; when it
   * works and `int(val)` also works and compares equal, the int wins,
   * otherwise the float; when `float(val)` raises, `val` comes back as it was.
   */
  function Coerce(rt: Runtime, v: Value): (r: Value)
    ensures r == v || r.VInt? || r.VFloat?
    ensures r.VInt? && r != v ==>
      PyInt(rt, v) == Some(r.i) && PyFloat(rt, v).Some? && rt.floatEqualsInt(PyFloat(rt, v).value, r.i)
    ensures r.VFloat? && r != v ==> PyFloat(rt, v) == Some(r.f)
    ensures PyFloat(rt, v).None? ==> r == v
  {
    match PyFloat(rt, v)
    case None => v
    case Some(f) =>
      match PyInt(rt, v)
      case None => VFloat(f)
      case Some(i) => if rt.floatEqualsInt(f, i) then VInt(i) else VFloat(f)
  }

  /**
   * `process(val, vtype)`: a non-empty type spec hands the value to the
   * converter it names, whose exception propagates; the untyped branch
   * never raises.
   */
  function Process(rt: Runtime, v: Value, spec: Option<string>): (r: Result<Value, PyError>)
    ensures BlankSpec(spec) ==> r.Success? && (r.value == v || r.value.VInt? || r.value.VFloat?)
    ensures !BlankSpec(spec) && rt.convert(spec.value, v).Failure? ==> r.Failure?
  {
    if BlankSpec(spec) then Success(Coerce(rt, v))
    else
      match rt.convert(spec.value, v)
      case Success(w) => Success(w)
      case Failure(m) => Failure(ConverterError(m))
  }

  /**
   * On text the untyped coercion is three-way: integer text becomes that
   * integer, other float text a float, and anything else stays the same text.
   */
  lemma CoerceText(rt: Runtime, s: string)
    requires NumericSound(rt)
    ensures ParseInt(s).Some? && -ExactIntLimit <= ParseInt(s).value <= ExactIntLimit ==>
      Coerce(rt, VStr(s)) == VInt(ParseInt(s).value)
    ensures ParseInt(s).None? && rt.parseFloat(s).Some? ==>
      Coerce(rt, VStr(s)) == VFloat(rt.parseFloat(s).value)
    ensures rt.parseFloat(s).None? ==> Coerce(rt, VStr(s)) == VStr(s)
  {
    var v := VStr(s);
    assert PyFloat(rt, v) == rt.parseFloat(s) && PyInt(rt, v) == ParseInt(s);
    if ParseInt(s).Some? && -ExactIntLimit <= ParseInt(s).value <= ExactIntLimit {
      CoerceIntText(rt, s, ParseInt(s).value);
    }
  }

  /** Integer text within the exact range coerces to its integer. */
  lemma CoerceIntText(rt: Runtime, s: string, i: int)
    requires NumericSound(rt) && ParseInt(s) == Some(i) && -ExactIntLimit <= i <= ExactIntLimit
    ensures Coerce(rt, VStr(s)) == VInt(i)
  {
    assert rt.parseFloat(s).Some?;
    assert rt.floatEqualsInt(rt.parseFloat(s).value, i);
  }

  /** An integer stays an integer, so coercing integer text twice changes nothing more. */
  lemma CoerceIntStable(rt: Runtime, i: int)
    requires NumericSound(rt) && -ExactIntLimit <= i <= ExactIntLimit
    ensures Coerce(rt, VInt(i)) == VInt(i)
  {
  }

  /** A float with an integral value, such as a stored 3.0, comes back as an integer. */
  lemma CoerceIntegralFloat(rt: Runtime, f: Float, i: int)
    requires rt.truncate(f) == Some(i) && rt.floatEqualsInt(f, i)
    ensures Coerce(rt, VFloat(f)) == VInt(i)
  {
  }

  /** `None`, lists and dicts have no numeric reading and pass through unchanged. */
  lemma CoerceNonNumeric(rt: Runtime, v: Value)
    requires v.VNone? || v.VList? || v.VDict?
    ensures Coerce(rt, v) == v
  {
  }
}
