/**
 * `process_search_string`: the text a user types becomes query criteria,
 * either through the first matching query rule or by reading the text as the
 * body of a JSON object whose top-level keys may be display names.
 */
module CriteriaCompiler {
  import opened Wrappers
  import opened Dicts
  import opened PyText
  import opened PyValues
  import opened TypeCoercer
  import opened Settings

  /** Query criteria: a dict from field (or operator) to condition. */
  type Criteria = Dict<Key, Value>

  /** The index of the first rule whose pattern matches `s`, if any. */
  function FirstMatch(rt: Runtime, rules: seq<Rule>, s: string): (r: Option<nat>)
    ensures r.Some? ==>
      && r.value < |rules| && rt.matches(rules[r.value].pattern, s)
      && forall j :: 0 <= j < r.value ==> !rt.matches(rules[j].pattern, s)
    ensures r.None? ==> forall j :: 0 <= j < |rules| ==> !rt.matches(rules[j].pattern, s)
  {
    if rules == [] then None
    else if rt.matches(rules[0].pattern, s) then Some(0)
    else
      match FirstMatch(rt, rules[1..], s)
      case None => None
      case Some(j) => Some(j + 1)
  }

  /** Rules after the first match are never looked at: any tail may follow it. */
  lemma {:induction false} FirstMatchIgnoresLater(rt: Runtime, rules: seq<Rule>, s: string, more: seq<Rule>)
    requires FirstMatch(rt, rules, s).Some?
    ensures var j := FirstMatch(rt, rules, s).value;
      FirstMatch(rt, rules[..j + 1] + more, s) == Some(j)
  {
    var j := FirstMatch(rt, rules, s).value;
    var rules' := rules[..j + 1] + more;
    if j > 0 {
      assert rules'[0] == rules[0];
      assert !rt.matches(rules[0].pattern, s);
      assert FirstMatch(rt, rules[1..], s) == Some(j - 1);
      FirstMatchIgnoresLater(rt, rules[1..], s, more);
      assert rules'[1..] == rules[1..][..j] + more;
    }
  }

  /** `str(process(s, type))`: the value a rule puts under `$regex`. */
  function RegexText(rt: Runtime, s: string, spec: Option<string>): Result<string, PyError> {
    match Process(rt, VStr(s), spec)
    case Success(v) => Success(PyStr(rt, v))
    case Failure(e) => Failure(e)
  }

  /** Untyped rules normalise integer text to its plain decimal form and leave non-numeric text alone. */
  lemma RegexTextNormalises(rt: Runtime, s: string, spec: Option<string>)
    requires NumericSound(rt) && BlankSpec(spec)
    ensures ParseInt(s).Some? && -ExactIntLimit <= ParseInt(s).value <= ExactIntLimit ==>
      RegexText(rt, s, spec) == Success(FormatInt(ParseInt(s).value))
    ensures rt.parseFloat(s).None? ==> RegexText(rt, s, spec) == Success(s)
  {
    CoerceText(rt, s);
  }

  /** `{rule.field: {'$regex': str(process(s, rule.type))}}` */
  function RuleCriteria(rt: Runtime, rule: Rule, s: string): Result<Criteria, PyError> {
    match RegexText(rt, s, rule.typeSpec)
    case Success(text) => Success([(KS(rule.field), VDict([(KS("$regex"), VStr(text))]))])
    case Failure(e) => Failure(e)
  }

  /** Lines 83-85: text not both starting with `{` and ending with `}` is wrapped in braces. */
  function BraceWrap(t: string): (r: string)
    requires t != []
    ensures |r| >= 2 && r[0] == '{' && r[|r| - 1] == '}'
    ensures t[0] == '{' && t[|t| - 1] == '}' ==> r == t
    ensures r == t || r == "{" + t + "}"
  {
    if t[0] != '{' || t[|t| - 1] != '}' then "{" + t + "}" else t
  }

  /** Wrapping is idempotent: a wrapped body passes a second wrap unchanged. */
  lemma BraceWrapIdempotent(t: string)
    requires t != []
    ensures BraceWrap(BraceWrap(t)) == BraceWrap(t)
  {
  }

  /** A criteria key renamed by `get_mapped_name`; only text keys can be display names. */
  function MapKey(aliases: Dict<string, string>, k: Key): Key {
    match k
    case KS(name) => KS(MappedName(aliases, name))
    case KI(_) => k
  }

  /** `{get_mapped_name(settings, k): v for k, v in criteria.items()}` */
  function Remap(aliases: Dict<string, string>, es: Criteria): (r: Criteria)
    ensures DistinctKeys(r)
  {
    if es == [] then []
    else
      var n := |es| - 1;
      var prev := Remap(aliases, es[..n]);
      PutDistinct(prev, MapKey(aliases, es[n].0), es[n].1);
      Put(prev, MapKey(aliases, es[n].0), es[n].1)
  }

  /** The renamed criteria hold exactly the renamed keys. */
  lemma {:induction false} RemapKeys(aliases: Dict<string, string>, es: Criteria, k: Key)
    ensures k in Keys(Remap(aliases, es)) <==> exists i :: 0 <= i < |es| && MapKey(aliases, es[i].0) == k
  {
    if es != [] {
      var n := |es| - 1;
      var prev := Remap(aliases, es[..n]);
      var m := MapKey(aliases, es[n].0);
      var r := Remap(aliases, es);
      assert r == Put(prev, m, es[n].1);
      RemapKeys(aliases, es[..n], k);
      if k == m {
        assert Get(r, k).Some?;
        assert MapKey(aliases, es[n].0) == k;
      } else {
        PutOther(prev, m, es[n].1, k);
        assert k in Keys(r) <==> k in Keys(prev);
        if k in Keys(prev) {
          var i :| 0 <= i < n && MapKey(aliases, es[..n][i].0) == k;
          assert es[..n][i] == es[i];
        }
        if exists i :: 0 <= i < |es| && MapKey(aliases, es[i].0) == k {
          var i :| 0 <= i < |es| && MapKey(aliases, es[i].0) == k;
          assert i != n by { assert MapKey(aliases, es[n].0) == m != k; }
          assert es[..n][i] == es[i];
          assert MapKey(aliases, es[..n][i].0) == k;
        }
      }
    }
  }

  /**
   * When no two keys are renamed to the same name, renaming keeps every
   * entry at its position in the sequence with its value, under its mapped key.
   */
  lemma {:induction false} RemapPointwise(aliases: Dict<string, string>, es: Criteria)
    requires forall i, j :: 0 <= i < j < |es| ==> MapKey(aliases, es[i].0) != MapKey(aliases, es[j].0)
    ensures |Remap(aliases, es)| == |es|
    ensures forall i :: 0 <= i < |es| ==> Remap(aliases, es)[i] == (MapKey(aliases, es[i].0), es[i].1)
  {
    if es != [] {
      var n := |es| - 1;
      var prev := Remap(aliases, es[..n]);
      var m := MapKey(aliases, es[n].0);
      RemapPointwise(aliases, es[..n]);
      RemapKeys(aliases, es[..n], m);
      assert m !in Keys(prev);
      PutShape(prev, m, es[n].1);
      assert Remap(aliases, es) == prev + [(m, es[n].1)];
      forall i | 0 <= i < |es|
        ensures Remap(aliases, es)[i] == (MapKey(aliases, es[i].0), es[i].1)
      {
        if i < n {
          assert es[..n][i] == es[i];
        }
      }
    }
  }

  /** The search text after friendly-term substitution (lines 71-74); a falsy criteria tree is not substituted. */
  function SubstitutedText(rt: Runtime, cfg: CollectionSettings, s: string): string {
    match Get(cfg.friendlyTerms, s)
    case Some(q) => if Truthy(rt, q) then rt.dumps(q) else s
    case None => s
  }

  /**
   * Lines 81-89: the text read as a JSON object body, its keys renamed
   * through the aliases. Blank text, and only blank text, raises IndexError;
   * any other text reaches `json.loads` braced, and what it parses to must
   * be an object, whose keys become exactly the mapped names of its keys.
   */
  function ParseBody(rt: Runtime, cfg: CollectionSettings, s: string): (r: Result<Criteria, PyError>)
    ensures r.Failure? && r.error.IndexError? <==> Strip(s) == []
    ensures Strip(s) != [] && rt.loads(BraceWrap(Strip(s))).Failure? ==> r.Failure? && r.error.ValueError?
    ensures Strip(s) != [] && rt.loads(BraceWrap(Strip(s))).Success? && !rt.loads(BraceWrap(Strip(s))).value.VDict? ==>
      r.Failure? && r.error.AttributeError?
    ensures r.Success? ==>
      && Strip(s) != [] && rt.loads(BraceWrap(Strip(s))).Success? && rt.loads(BraceWrap(Strip(s))).value.VDict?
      && DistinctKeys(r.value)
      && var es := rt.loads(BraceWrap(Strip(s))).value.entries;
         forall k :: k in Keys(r.value) <==> exists i :: 0 <= i < |es| && MapKey(cfg.aliases, es[i].0) == k
  {
    var t := Strip(s);
    if t == [] then Failure(IndexError("string index out of range"))
    else
      match rt.loads(BraceWrap(t))
      case Failure(m) => Failure(ValueError(m))
      case Success(v) =>
        if v.VDict? then
          assert forall k :: k in Keys(Remap(cfg.aliases, v.entries)) <==>
              exists i :: 0 <= i < |v.entries| && MapKey(cfg.aliases, v.entries[i].0) == k by {
            forall k {
              RemapKeys(cfg.aliases, v.entries, k);
            }
          }
          Success(Remap(cfg.aliases, v.entries))
        else Failure(AttributeError(TypeName(v), "items"))
  }

  /** What `process_search_string(s, settings)` returns or raises. */
  function Compile(rt: Runtime, cfg: CollectionSettings, s: string): Result<Criteria, PyError> {
    var text := SubstitutedText(rt, cfg, s);
    match FirstMatch(rt, cfg.query, text)
    case Some(j) => RuleCriteria(rt, cfg.query[j], text)
    case None => ParseBody(rt, cfg, text)
  }

  /** `process_search_string`: the rule loop stops at the first match; otherwise the text is parsed. */
  method ProcessSearchString(rt: Runtime, cfg: CollectionSettings, searchString: string)
    returns (r: Result<Criteria, PyError>)
    ensures r == Compile(rt, cfg, searchString)
  {
    var s := searchString;
    var friendly := Get(cfg.friendlyTerms, s);
    if friendly.Some? && Truthy(rt, friendly.value) {
      s := rt.dumps(friendly.value);
    }
    assert s == SubstitutedText(rt, cfg, searchString);
    var criteria: Criteria := [];
    var i := 0;
    while i < |cfg.query|
      invariant 0 <= i <= |cfg.query|
      invariant criteria == []
      invariant forall j :: 0 <= j < i ==> !rt.matches(cfg.query[j].pattern, s)
    {
      var rule := cfg.query[i];
      if rt.matches(rule.pattern, s) {
        var processed := Process(rt, VStr(s), rule.typeSpec);
        if processed.Failure? {
          assert FirstMatch(rt, cfg.query, s) == Some(i);
          return Failure(processed.error);
        }
        criteria := Put(criteria, KS(rule.field), VDict([(KS("$regex"), VStr(PyStr(rt, processed.value)))]));
        assert FirstMatch(rt, cfg.query, s) == Some(i);
        assert Success(criteria) == RuleCriteria(rt, rule, s);
        break;
      }
      i := i + 1;
    }
    if criteria == [] {
      assert FirstMatch(rt, cfg.query, s).None?;
      r := ParseBody(rt, cfg, s);
    } else {
      r := Success(criteria);
    }
  }

  /**
   * The first matching rule decides: the criteria then hold exactly one
   * key, that rule's field, mapped to `{'$regex': ...}`, and rules after it
   * can be anything.
   */
  lemma CompileFirstRuleWins(rt: Runtime, cfg: CollectionSettings, s: string, more: seq<Rule>)
    requires FirstMatch(rt, cfg.query, SubstitutedText(rt, cfg, s)).Some?
    ensures var text := SubstitutedText(rt, cfg, s);
      var j := FirstMatch(rt, cfg.query, text).value;
      && (Compile(rt, cfg, s).Success? ==>
            Compile(rt, cfg, s).value == [(KS(cfg.query[j].field),
              VDict([(KS("$regex"), VStr(RegexText(rt, text, cfg.query[j].typeSpec).value))]))])
      && Compile(rt, cfg.(query := cfg.query[..j + 1] + more), s) == Compile(rt, cfg, s)
  {
    var text := SubstitutedText(rt, cfg, s);
    FirstMatchIgnoresLater(rt, cfg.query, text, more);
    var j := FirstMatch(rt, cfg.query, text).value;
    var cfg' := cfg.(query := cfg.query[..j + 1] + more);
    assert SubstitutedText(rt, cfg', s) == text;
    assert cfg'.query[j] == cfg.query[j];
    assert Compile(rt, cfg, s) == RuleCriteria(rt, cfg.query[j], text);
    assert Compile(rt, cfg', s) == RuleCriteria(rt, cfg.query[j], text);
  }

  /** With no friendly term and no matching rule, blank text raises IndexError at `[0]`. */
  lemma CompileBlank(rt: Runtime, cfg: CollectionSettings, s: string)
    requires Get(cfg.friendlyTerms, s).None?
    requires FirstMatch(rt, cfg.query, s).None?
    requires forall i :: 0 <= i < |s| ==> IsSpace(s[i])
    ensures Compile(rt, cfg, s) == Failure(IndexError("string index out of range"))
  {
    StripBlank(s);
  }

  /**
   * With no friendly term and no matching rule, any other text reaches the
   * JSON parser braced: starting with `{`, ending with `}`, and unchanged
   * when its stripped form already was.
   */
  lemma CompileBody(rt: Runtime, cfg: CollectionSettings, s: string)
    requires Get(cfg.friendlyTerms, s).None?
    requires FirstMatch(rt, cfg.query, s).None?
    requires Strip(s) != []
    ensures var t := Strip(s);
      var body := BraceWrap(t);
      && body[0] == '{' && body[|body| - 1] == '}'
      && (t[0] == '{' && t[|t| - 1] == '}' ==> body == t)
      && Compile(rt, cfg, s) == ParseBody(rt, cfg, s)
  {
    assert SubstitutedText(rt, cfg, s) == s;
  }

  /**
   * With no friendly term to substitute, text that is not blank never raises
   * the IndexError of line 83: a matching rule can raise only its
   * converter's error, and the parser gets non-blank text.
   */
  lemma CompileNonBlank(rt: Runtime, cfg: CollectionSettings, s: string)
    requires Get(cfg.friendlyTerms, s).None? && Strip(s) != []
    ensures var c := Compile(rt, cfg, s);
      !(c.Failure? && c.error.IndexError?)
  {
    assert SubstitutedText(rt, cfg, s) == s;
    match FirstMatch(rt, cfg.query, s)
    case Some(j) =>
      var p := Process(rt, VStr(s), cfg.query[j].typeSpec);
      assert p.Failure? ==> p.error.ConverterError?;
    case None =>
  }

  /** A body typed without braces compiles like the same body typed with them. */
  lemma CompileBareBody(rt: Runtime, cfg: CollectionSettings, s: string)
    requires Strip(s) != [] && !(Strip(s)[0] == '{' && Strip(s)[|Strip(s)| - 1] == '}')
    requires Get(cfg.friendlyTerms, s).None? && Get(cfg.friendlyTerms, "{" + Strip(s) + "}").None?
    requires FirstMatch(rt, cfg.query, s).None? && FirstMatch(rt, cfg.query, "{" + Strip(s) + "}").None?
    ensures Compile(rt, cfg, s) == Compile(rt, cfg, "{" + Strip(s) + "}")
  {
    var t := Strip(s);
    var braced := "{" + t + "}";
    assert SubstitutedText(rt, cfg, s) == s;
    assert SubstitutedText(rt, cfg, braced) == braced;
    StripUnbounded(braced);
    assert BraceWrap(braced) == braced;
    assert BraceWrap(t) == braced;
    assert ParseBody(rt, cfg, s) == ParseBody(rt, cfg, braced);
  }

  /** `json.dumps` of a text-keyed object is braced text that `json.loads` reads back. */
  ghost predicate JsonSound(rt: Runtime) {
    forall es: Criteria :: TextKeyed(VDict(es)) ==>
      var t := rt.dumps(VDict(es));
      |t| >= 2 && t[0] == '{' && t[|t| - 1] == '}' && rt.loads(t) == Success(VDict(es))
  }

  /**
   * A friendly term whose criteria tree is a non-empty object, and whose
   * JSON text no rule matches, compiles to that tree with its keys renamed.
   */
  lemma CompileFriendlyTerm(rt: Runtime, cfg: CollectionSettings, s: string, es: Criteria)
    requires JsonSound(rt) && TextKeyed(VDict(es)) && es != []
    requires Get(cfg.friendlyTerms, s) == Some(VDict(es))
    requires FirstMatch(rt, cfg.query, rt.dumps(VDict(es))).None?
    ensures Compile(rt, cfg, s) == Success(Remap(cfg.aliases, es))
  {
    var t := rt.dumps(VDict(es));
    assert |t| >= 2 && t[0] == '{' && t[|t| - 1] == '}' && rt.loads(t) == Success(VDict(es));
    assert SubstitutedText(rt, cfg, s) == t;
    StripUnbounded(t);
    assert BraceWrap(Strip(t)) == t;
    assert ParseBody(rt, cfg, t) == Success(Remap(cfg.aliases, es));
  }

  /** The empty object `{}` compiles to empty criteria, which match every document. */
  lemma CompileEmptyObject(rt: Runtime, cfg: CollectionSettings)
    requires rt.loads("{}") == Success(VDict([]))
    requires Get(cfg.friendlyTerms, "{}").None? && FirstMatch(rt, cfg.query, "{}").None?
    ensures Compile(rt, cfg, "{}") == Success([])
  {
    StripUnbounded("{}");
  }

  /** A display name typed as a criteria key is replaced by its field path; the value is kept. */
  lemma CompileDisplayName(rt: Runtime, cfg: CollectionSettings, s: string, i: nat, x: Value)
    requires DistinctValues(cfg.aliases) && i < |cfg.aliases|
    requires Get(cfg.friendlyTerms, s).None? && FirstMatch(rt, cfg.query, s).None? && Strip(s) != []
    requires rt.loads(BraceWrap(Strip(s))) == Success(VDict([(KS(cfg.aliases[i].1), x)]))
    ensures Compile(rt, cfg, s) == Success([(KS(cfg.aliases[i].0), x)])
  {
    MappedNameInverts(cfg.aliases, i);
    var es := [(KS(cfg.aliases[i].1), x)];
    RemapPointwise(cfg.aliases, es);
  }
}
