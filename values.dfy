/**
 * The Python values that flow through views.py: JSON/BSON documents and
 * criteria, the results of `process`, and the exceptions it can raise.
 * The library code the module calls (regular expressions, `json`, floating
 * point) is the `Runtime` parameter, a record of total functions.
 */
module PyValues {
  import opened Wrappers
  import opened Dicts
  import opened PyText

  /** An IEEE 754 double, kept opaque: only its bit pattern is carried. */
  datatype Float = Float(bits: bv64)

  /** A dict key: documents and JSON objects have text keys; `val[int(t)]` probes integer keys. */
  datatype Key = KS(s: string) | KI(n: int)

  datatype Value =
    | VNone
    | VBool(b: bool)
    | VInt(i: int)
    | VFloat(f: Float)
    | VStr(s: string)
    | VList(elems: seq<Value>)
    | VDict(entries: Dict<Key, Value>)

  /** A stored document, as the database returns it. */
  type Doc = Dict<Key, Value>

  /** The exceptions views.py lets reach its callers; `Message` is `str(ex)`. */
  datatype PyError =
    | IndexError(msg: string)
    | ValueError(msg: string)
    | KeyError(key: Key)
    | TypeError(msg: string)
    | AttributeError(typeName: string, attr: string)
    | ConverterError(msg: string)
  {
    function Message(): string {
      match this
      case IndexError(m) => m
      case ValueError(m) => m
      case KeyError(k) => (match k case KS(s) => "u'" + s + "'" case KI(n) => FormatInt(n))
      case TypeError(m) => m
      case AttributeError(t, a) => "'" + t + "' object has no attribute '" + a + "'"
      case ConverterError(m) => m
    }
  }

  /**
   * The library behaviour views.py depends on, as total functions:
   * - matches(pattern, s): `re.match(pattern, s)` found a match
   * - loads(s): `json.loads(s)`, failing with the parser's message
   * - dumps(v): `json.dumps(v)`
   * - parseFloat(s): `float(s)` for text, `None` for the ValueError
   * - intToFloat(i): `float(i)`, `None` for the OverflowError of a huge integer
   * - truncate(f): `int(f)`, `None` for infinities and NaN
   * - floatEqualsInt(f, i): `f == i`
   * - floatIsZero(f): `not f`
   * - floatStr(f): `str(f)`
   * - containerStr(v): `str(v)` of a list or dict
   * - convert(name, v): the converter a non-empty type spec names, applied to v
   */
  datatype Runtime = Runtime(
    matches: (string, string) -> bool,
    loads: string -> Result<Value, string>,
    dumps: Value -> string,
    parseFloat: string -> Option<Float>,
    intToFloat: int -> Option<Float>,
    truncate: Float -> Option<int>,
    floatEqualsInt: (Float, int) -> bool,
    floatIsZero: Float -> bool,
    floatStr: Float -> string,
    containerStr: Value -> string,
    convert: (string, Value) -> Result<Value, string>)

  /** The largest magnitude below which every integer is exactly a double. */
  const ExactIntLimit: int := 0x20_0000_0000_0000

  /**
   * Python's numeric text rules, as far as the model relies on them: text
   * `int()` accepts is also accepted by `float()`, and for integers up to
   * 2^53 in magnitude the two conversions agree.
   */
  ghost predicate NumericSound(rt: Runtime) {
    && (forall s :: ParseInt(s).Some? ==> rt.parseFloat(s).Some?)
    && (forall s :: ParseInt(s).Some? && -ExactIntLimit <= ParseInt(s).value <= ExactIntLimit ==>
          rt.floatEqualsInt(rt.parseFloat(s).value, ParseInt(s).value))
    && (forall i :: -ExactIntLimit <= i <= ExactIntLimit ==>
          rt.intToFloat(i).Some? && rt.floatEqualsInt(rt.intToFloat(i).value, i))
  }

  /** Python truth value: `None`, `False`, zero, and empty text, lists and dicts are false. */
  function Truthy(rt: Runtime, v: Value): bool {
    match v
    case VNone => false
    case VBool(b) => b
    case VInt(i) => i != 0
    case VFloat(f) => !rt.floatIsZero(f)
    case VStr(s) => s != []
    case VList(xs) => xs != []
    case VDict(es) => es != []
  }

  /** `type(v).__name__` under Python 2. */
  function TypeName(v: Value): string {
    match v
    case VNone => "NoneType"
    case VBool(_) => "bool"
    case VInt(_) => "int"
    case VFloat(_) => "float"
    case VStr(_) => "unicode"
    case VList(_) => "list"
    case VDict(_) => "dict"
  }

  /** `str(v)` */
  function PyStr(rt: Runtime, v: Value): string {
    match v
    case VNone => "None"
    case VBool(b) => if b then "True" else "False"
    case VInt(i) => FormatInt(i)
    case VFloat(f) => rt.floatStr(f)
    case VStr(s) => s
    case _ => rt.containerStr(v)
  }

  /** `int(v)`, `None` standing for the exception it raises. */
  function PyInt(rt: Runtime, v: Value): Option<int> {
    match v
    case VBool(b) => Some(if b then 1 else 0)
    case VInt(i) => Some(i)
    case VFloat(f) => rt.truncate(f)
    case VStr(s) => ParseInt(s)
    case _ => None
  }

  /** `float(v)`, `None` standing for the exception it raises. */
  function PyFloat(rt: Runtime, v: Value): Option<Float> {
    match v
    case VBool(b) => rt.intToFloat(if b then 1 else 0)
    case VInt(i) => rt.intToFloat(i)
    case VFloat(f) => Some(f)
    case VStr(s) => rt.parseFloat(s)
    case _ => None
  }

  /** Every dict at every depth of `v` has text keys only, as in a stored document. */
  predicate TextKeyed(v: Value)
    decreases v
  {
    match v
    case VDict(es) => forall i :: 0 <= i < |es| ==> es[i].0.KS? && TextKeyed(es[i].1)
    case VList(xs) => forall i :: 0 <= i < |xs| ==> TextKeyed(xs[i])
    case _ => true
  }
}
