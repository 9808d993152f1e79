/** `_get_val(k, d, processing_func)`: a dotted field path resolved in a document. */
module ValueResolver {
  import opened Wrappers
  import opened Dicts
  import opened PyText
  import opened PyValues
  import opened TypeCoercer

  /**
   * One descent step after the first token: `val[t]`, and when a dict lacks
   * the text key, `val[int(t)]`. A list, text, number or `None` indexed by
   * text raises TypeError, which the `except KeyError` does not catch, so
   * only dicts can be descended.
   */
  function Step(node: Value, tok: string): (r: Option<Value>)
    ensures r.Some? ==> node.VDict?
    ensures node.VDict? && Get(node.entries, KS(tok)).Some? ==> r == Get(node.entries, KS(tok))
  {
    match node
    case VDict(es) =>
      (match Get(es, KS(tok))
       case Some(child) => Some(child)
       case None =>
         match ParseInt(tok)
         case None => None
         case Some(n) => Get(es, KI(n)))
    case _ => None
  }

  /** The node reached from `node` by the steps for `toks`, in order; `None` once a step fails. */
  function Walk(node: Value, toks: seq<string>): Option<Value>
    decreases |toks|
  {
    if toks == [] then Some(node)
    else
      match Step(node, toks[0])
      case None => None
      case Some(child) => Walk(child, toks[1..])
  }

  /** Walking one more token is one more step from where the walk ended. */
  lemma {:induction false} WalkNext(node: Value, toks: seq<string>, i: nat)
    requires i < |toks|
    ensures Walk(node, toks[..i + 1]) ==
      match Walk(node, toks[..i]) case None => None case Some(m) => Step(m, toks[i])
    decreases i
  {
    var s := Step(node, toks[0]);
    if i == 0 {
      assert toks[..1] == [toks[0]] && toks[..1][1..] == [];
    } else {
      assert toks[..i + 1][0] == toks[0] && toks[..i + 1][1..] == toks[1..][..i];
      assert toks[..i][0] == toks[0] && toks[..i][1..] == toks[1..][..i - 1];
      if s.Some? {
        WalkNext(s.value, toks[1..], i - 1);
      }
    }
  }

  /** Once a walk has failed, no further token brings it back. */
  lemma {:induction false} WalkFailed(node: Value, toks: seq<string>, i: nat)
    requires i <= |toks| && Walk(node, toks[..i]) == None
    ensures Walk(node, toks) == None
    decreases |toks| - i
  {
    if i == |toks| {
      assert toks[..i] == toks;
    } else {
      WalkNext(node, toks, i);
      WalkFailed(node, toks, i + 1);
    }
  }

  /** A walk that reaches anything but a dict before its last token fails: lists and scalars end the descent. */
  lemma WalkStopsAtNonDict(node: Value, toks: seq<string>, i: nat)
    requires i < |toks| && Walk(node, toks[..i]).Some? && !Walk(node, toks[..i]).value.VDict?
    ensures Walk(node, toks) == None
  {
    WalkNext(node, toks, i);
    WalkFailed(node, toks, i + 1);
  }

  /** Descent by text keys alone: the reference reading of a dotted path. */
  function DescendByName(node: Value, toks: seq<string>): Option<Value>
    decreases |toks|
  {
    if toks == [] then Some(node)
    else
      match node
      case VDict(es) =>
        (match Get(es, KS(toks[0]))
         case None => None
         case Some(child) => DescendByName(child, toks[1..]))
      case _ => None
  }

  /** In a text-keyed value, such as a stored document, the integer fallback never finds anything. */
  lemma {:induction false} WalkTextKeyed(node: Value, toks: seq<string>)
    requires TextKeyed(node)
    ensures Walk(node, toks) == DescendByName(node, toks)
    decreases |toks|
  {
    if toks != [] && node.VDict? {
      var es := node.entries;
      var byName := Get(es, KS(toks[0]));
      if byName.Some? {
        GetFound(es, KS(toks[0]));
        var i :| 0 <= i < |es| && es[i] == (KS(toks[0]), byName.value);
        WalkTextKeyed(byName.value, toks[1..]);
      } else if ParseInt(toks[0]).Some? {
        var n := ParseInt(toks[0]).value;
        if Get(es, KI(n)).Some? {
          GetFound(es, KI(n));
          assert false;
        }
      }
    }
  }

  /** What `_get_val` returns: `None` when any step fails or `process` raises, else the processed leaf. */
  function Resolve(rt: Runtime, path: string, doc: Doc, spec: Option<string>): (r: Value)
    ensures Get(doc, KS(Split(path, '.')[0])).None? ==> r == VNone
  {
    var toks := Split(path, '.');
    match Get(doc, KS(toks[0]))
    case None => VNone
    case Some(first) =>
      match Walk(first, toks[1..])
      case None => VNone
      case Some(leaf) =>
        match Process(rt, leaf, spec)
        case Success(v) => v
        case Failure(_) => VNone
  }

  /** `_get_val`: the first token is looked up as a key, then each later token is a descent step. */
  method GetVal(rt: Runtime, path: string, doc: Doc, spec: Option<string>) returns (val: Value)
    ensures val == Resolve(rt, path, doc, spec)
  {
    var toks := Split(path, '.');
    var first := Get(doc, KS(toks[0]));
    if first.None? {
      return VNone;
    }
    var rest := toks[1..];
    var node := first.value;
    var i := 0;
    while i < |rest|
      invariant 0 <= i <= |rest|
      invariant Walk(first.value, rest[..i]) == Some(node)
    {
      var next := Step(node, rest[i]);
      WalkNext(first.value, rest, i);
      if next.None? {
        WalkFailed(first.value, rest, i + 1);
        assert Walk(first.value, rest) == None;
        return VNone;
      }
      node := next.value;
      i := i + 1;
    }
    assert rest[..i] == rest;
    assert Walk(first.value, rest) == Some(node);
    var processed := Process(rt, node, spec);
    val := if processed.Success? then processed.value else VNone;
  }

  /**
   * In a stored document, whose keys are all text, a path resolves exactly
   * when every token names a key on the way down, and then to the processed leaf.
   */
  lemma ResolveTextKeyed(rt: Runtime, path: string, doc: Doc, spec: Option<string>)
    requires TextKeyed(VDict(doc))
    ensures Resolve(rt, path, doc, spec) ==
      match DescendByName(VDict(doc), Split(path, '.'))
      case None => VNone
      case Some(leaf) => (match Process(rt, leaf, spec) case Success(v) => v case Failure(_) => VNone)
  {
    var toks := Split(path, '.');
    var first := Get(doc, KS(toks[0]));
    if first.Some? {
      GetFound(doc, KS(toks[0]));
      var i :| 0 <= i < |doc| && doc[i] == (KS(toks[0]), first.value);
      WalkTextKeyed(first.value, toks[1..]);
    }
  }

  /** Only later tokens fall back to an integer key: a first token must name a text key. */
  lemma ResolveFirstTokenIsText(rt: Runtime, doc: Doc, spec: Option<string>, v: Value)
    requires doc == [(KI(0), v)]
    ensures Resolve(rt, "0", doc, spec) == VNone
  {
    SplitNone("0", '.');
  }

  lemma TagsZeroTokens()
    ensures Split("tags.0", '.') == ["tags", "0"]
  {
    assert "tags.0" == "tags" + ['.'] + "0";
    SplitFirst("tags", '.', "0");
    SplitNone("0", '.');
  }

  /** The token "0" reaches the entry keyed by the integer 0. */
  lemma ZeroStep(inner: Doc, leaf: Value)
    requires inner == [(KI(0), leaf)]
    ensures Step(VDict(inner), "0") == Some(leaf)
  {
    ParseFormatInt(0);
    assert FormatInt(0) == "0";
    assert Get(inner, KS("0")) == None;
  }

  /** A two-token path resolves to the processed node one step below the first token's value. */
  lemma ResolveTwoTokens(rt: Runtime, path: string, doc: Doc, spec: Option<string>, first: Value, leaf: Value)
    requires |Split(path, '.')| == 2
    requires Get(doc, KS(Split(path, '.')[0])) == Some(first)
    requires Step(first, Split(path, '.')[1]) == Some(leaf)
    ensures Resolve(rt, path, doc, spec) ==
      match Process(rt, leaf, spec) case Success(v) => v case Failure(_) => VNone
  {
    var rest := Split(path, '.')[1..];
    assert rest[0] == Split(path, '.')[1] && rest[1..] == [];
    assert Walk(first, rest) == Some(leaf);
  }

  /** A dict keyed by the integer 0 is reached by the token "0". */
  lemma ResolveIntegerKey(rt: Runtime, leaf: Value)
    ensures Resolve(rt, "tags.0", [(KS("tags"), VDict([(KI(0), leaf)]))], None) == Coerce(rt, leaf)
  {
    TagsZeroTokens();
    var inner: Doc := [(KI(0), leaf)];
    var doc: Doc := [(KS("tags"), VDict(inner))];
    assert Get(doc, KS("tags")) == Some(VDict(inner));
    ZeroStep(inner, leaf);
    ResolveTwoTokens(rt, "tags.0", doc, None, VDict(inner), leaf);
  }

  /** A list is never indexed: `tags.0` against a list of tags resolves to `None`. */
  lemma ResolveListIndexIsAbsent(rt: Runtime, xs: seq<Value>)
    ensures Resolve(rt, "tags.0", [(KS("tags"), VList(xs))], None) == VNone
  {
    TagsZeroTokens();
  }
}
