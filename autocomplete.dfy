/**
 * The `/autocomplete` endpoint: suggestions for a partly typed search
 * string, from the values a matching rule's field takes in the database,
 * from the friendly-term names, or from the configured key names.
 */
module AutocompleteSuggester {
  import opened Wrappers
  import opened Dicts
  import opened PyText
  import opened PyValues
  import opened Settings
  import opened CriteriaCompiler

  /** The entries of `d` whose key contains `sub`, in the order of the sequence. */
  function KeysContaining<V(!new)>(d: Dict<string, V>, sub: string): (r: Dict<string, V>)
    ensures |r| <= |d|
    ensures forall p :: p in r <==> p in d && Contains(p.0, sub)
  {
    if d == [] then []
    else
      var n := |d| - 1;
      assert d == d[..n] + [d[n]];
      var prev := KeysContaining(d[..n], sub);
      if Contains(d[n].0, sub) then prev + [d[n]] else prev
  }

  /** The entries of `d` whose value contains `sub`, in the order of the sequence. */
  function ValuesContaining(d: Dict<string, string>, sub: string): (r: Dict<string, string>)
    ensures |r| <= |d|
    ensures forall p :: p in r <==> p in d && Contains(p.1, sub)
  {
    if d == [] then []
    else
      var n := |d| - 1;
      assert d == d[..n] + [d[n]];
      var prev := ValuesContaining(d[..n], sub);
      if Contains(d[n].1, sub) then prev + [d[n]] else prev
  }

  /** `_search_dict_keys`: copies the entries whose key contains `substr`. */
  method SearchDictKeys<V(!new)>(dictionary: Dict<string, V>, substr: string) returns (result: Dict<string, V>)
    requires DistinctKeys(dictionary)
    ensures result == KeysContaining(dictionary, substr)
  {
    result := [];
    var i := 0;
    while i < |dictionary|
      invariant 0 <= i <= |dictionary|
      invariant result == KeysContaining(dictionary[..i], substr)
    {
      var (k, v) := dictionary[i];
      assert dictionary[..i + 1][..i] == dictionary[..i];
      if Contains(k, substr) {
        FreshKey(dictionary, i, result);
        PutShape(result, k, v);
        result := Put(result, k, v);
      }
      i := i + 1;
    }
    assert dictionary[..|dictionary|] == dictionary;
  }

  /** `_search_dict_values`: copies the entries whose value contains `substr`. */
  method SearchDictValues(dictionary: Dict<string, string>, substr: string) returns (result: Dict<string, string>)
    requires DistinctKeys(dictionary)
    ensures result == ValuesContaining(dictionary, substr)
  {
    result := [];
    var i := 0;
    while i < |dictionary|
      invariant 0 <= i <= |dictionary|
      invariant result == ValuesContaining(dictionary[..i], substr)
    {
      var (k, v) := dictionary[i];
      assert dictionary[..i + 1][..i] == dictionary[..i];
      if Contains(v, substr) {
        FreshKey(dictionary, i, result);
        PutShape(result, k, v);
        result := Put(result, k, v);
      }
      i := i + 1;
    }
    assert dictionary[..|dictionary|] == dictionary;
  }

  /** The names kept by the key search are exactly the names containing `sub`. */
  lemma KeysContainingNames<V(!new)>(d: Dict<string, V>, sub: string, k: string)
    ensures k in Keys(KeysContaining(d, sub)) <==> k in Keys(d) && Contains(k, sub)
  {
    var r := KeysContaining(d, sub);
    if k in Keys(r) {
      var j :| 0 <= j < |r| && Keys(r)[j] == k;
      assert r[j] in d;
      var m :| 0 <= m < |d| && d[m] == r[j];
      assert Keys(d)[m] == k;
    }
    if k in Keys(d) && Contains(k, sub) {
      var m :| 0 <= m < |d| && Keys(d)[m] == k;
      assert d[m] in r;
      var j :| 0 <= j < |r| && r[j] == d[m];
      assert Keys(r)[j] == k;
    }
  }

  /** `[doc[field] for doc in docs]`, raising KeyError at the first document without the field. */
  function FieldValues(docs: seq<Doc>, field: string): (r: Result<seq<Value>, PyError>)
    ensures r.Success? <==> forall i :: 0 <= i < |docs| ==> Get(docs[i], KS(field)).Some?
    ensures r.Success? ==> |r.value| == |docs|
    ensures r.Success? ==> forall i :: 0 <= i < |docs| ==> Get(docs[i], KS(field)) == Some(r.value[i])
    ensures r.Failure? ==> r.error == KeyError(KS(field))
  {
    if docs == [] then Success([])
    else
      match Get(docs[0], KS(field))
      case None => Failure(KeyError(KS(field)))
      case Some(v) =>
        match FieldValues(docs[1..], field)
        case Failure(e) => Failure(e)
        case Success(vs) => Success([v] + vs)
  }

  /** Lists and dicts cannot be set members. */
  predicate Hashable(v: Value) {
    !v.VList? && !v.VDict?
  }

  /** `set(values)`, raising TypeError at the first unhashable value. */
  function DistinctTerms(vs: seq<Value>): (r: Result<set<Value>, PyError>)
    ensures r.Success? <==> forall i :: 0 <= i < |vs| ==> Hashable(vs[i])
    ensures r.Success? ==> forall v :: v in r.value <==> v in vs
    ensures r.Failure? ==>
      exists i :: 0 <= i < |vs| && !Hashable(vs[i]) && r.error == TypeError("unhashable type: '" + TypeName(vs[i]) + "'")
  {
    if vs == [] then Success({})
    else if !Hashable(vs[0]) then Failure(TypeError("unhashable type: '" + TypeName(vs[0]) + "'"))
    else
      match DistinctTerms(vs[1..])
      case Failure(e) => Failure(e)
      case Success(s) => Success({vs[0]} + s)
  }

  /** One key-name suggestion: `'"'.join(previous + [key]) + '":'`. */
  function Completion(previous: seq<string>, key: string): string {
    Join(previous + [key], '"') + "\":"
  }

  /** `['"'.join(previous + [key]) + '":' for key in keys if last in key]`, in the order of `keys`. */
  function KeyNameSuggestions(previous: seq<string>, last: string, keys: seq<string>): (r: seq<string>)
    ensures forall s :: s in r <==> exists k :: k in keys && Contains(k, last) && s == Completion(previous, k)
  {
    if keys == [] then []
    else
      var n := |keys| - 1;
      assert keys == keys[..n] + [keys[n]];
      var prev := KeyNameSuggestions(previous, last, keys[..n]);
      if Contains(keys[n], last) then prev + [Completion(previous, keys[n])] else prev
  }

  /** Text suggestions as the values `jsonify` receives. */
  function TextSet(names: seq<string>): set<Value> {
    set s | s in names :: VStr(s)
  }

  /** `term[0:2] == '{"'`: the term is being typed as a criteria object. */
  predicate QueryLike(term: string) {
    |term| >= 2 && term[0] == '{' && term[1] == '"'
  }

  /**
   * What `/autocomplete` answers for `term`, before `jsanitize`: the set of
   * suggestions, or the exception raised. `found` is what the database
   * returns for the criteria of the first matching rule.
   */
  function Suggest(rt: Runtime, cfg: CollectionSettings, term: string, found: seq<Doc>): Result<set<Value>, PyError> {
    match FirstMatch(rt, cfg.query, term)
    case Some(j) =>
      (match RegexText(rt, term, cfg.query[j].typeSpec)
       case Failure(e) => Failure(e)
       case Success(_) =>
         match FieldValues(found, cfg.query[j].field)
         case Failure(e) => Failure(e)
         case Success(vs) => DistinctTerms(vs))
    case None =>
      if !QueryLike(term) then
        Success(TextSet(Keys(KeysContaining(cfg.friendlyTerms, term))))
      else if Count(term, '"') % 2 != 0 then
        var parts := Split(term, '"');
        Success(TextSet(KeyNameSuggestions(parts[..|parts| - 1], parts[|parts| - 1], cfg.autocompleteKeys)))
      else Success({})
  }

  /** `autocomplete`: the rule loop returns at the first match; otherwise the term's shape picks the mode. */
  method Autocomplete(rt: Runtime, cfg: CollectionSettings, term: string, found: seq<Doc>)
    returns (r: Result<set<Value>, PyError>)
    requires DistinctKeys(cfg.friendlyTerms)
    ensures r == Suggest(rt, cfg, term, found)
  {
    var i := 0;
    while i < |cfg.query|
      invariant 0 <= i <= |cfg.query|
      invariant forall j :: 0 <= j < i ==> !rt.matches(cfg.query[j].pattern, term)
    {
      var rule := cfg.query[i];
      if rt.matches(rule.pattern, term) {
        assert FirstMatch(rt, cfg.query, term) == Some(i);
        var regexText := RegexText(rt, term, rule.typeSpec);
        if regexText.Failure? {
          return Failure(regexText.error);
        }
        var terms := FieldValues(found, rule.field);
        if terms.Failure? {
          return Failure(terms.error);
        }
        return DistinctTerms(terms.value);
      }
      i := i + 1;
    }
    if !QueryLike(term) {
      var results := SearchDictKeys(cfg.friendlyTerms, term);
      return Success(TextSet(Keys(results)));
    }
    if Count(term, '"') % 2 != 0 {
      var splitted := Split(term, '"');
      var previous := splitted[..|splitted| - 1];
      var last := splitted[|splitted| - 1];
      var results := KeyNameSuggestions(previous, last, cfg.autocompleteKeys);
      return Success(TextSet(results));
    }
    return Success({});
  }

  /** Friendly-term mode suggests exactly the friendly-term names that contain the term. */
  lemma SuggestFriendly(rt: Runtime, cfg: CollectionSettings, term: string, found: seq<Doc>)
    requires FirstMatch(rt, cfg.query, term).None? && !QueryLike(term)
    ensures Suggest(rt, cfg, term, found).Success?
    ensures forall v :: v in Suggest(rt, cfg, term, found).value <==>
      v.VStr? && v.s in Keys(cfg.friendlyTerms) && Contains(v.s, term)
  {
    forall k {
      KeysContainingNames(cfg.friendlyTerms, term, k);
    }
  }

  /**
   * Key-name mode, for a term typed as an object with an open quote: each
   * suggestion is the term up to and including its last quote, then a
   * configured key containing the text after that quote, then `":`.
   */
  lemma SuggestKeyNames(rt: Runtime, cfg: CollectionSettings, term: string, found: seq<Doc>)
    requires FirstMatch(rt, cfg.query, term).None? && QueryLike(term) && Count(term, '"') % 2 != 0
    ensures var parts := Split(term, '"');
      var last := parts[|parts| - 1];
      |last| < |term| &&
      var prefix := term[..|term| - |last|];
      && term == prefix + last && prefix[|prefix| - 1] == '"' && '"' !in last
      && Suggest(rt, cfg, term, found).Success?
      && forall v :: v in Suggest(rt, cfg, term, found).value <==>
           exists k :: k in cfg.autocompleteKeys && Contains(k, last) && v == VStr(prefix + k + "\":")
  {
    var parts := Split(term, '"');
    var last := parts[|parts| - 1];
    var previous := parts[..|parts| - 1];
    ReplaceLastPiece(term, '"', []);
    forall k
      ensures Completion(previous, k) == term[..|term| - |last|] + k + "\":"
    {
      ReplaceLastPiece(term, '"', k);
    }
  }

  /** A term typed as an object with its quotes balanced gets no suggestions. */
  lemma SuggestBalancedQuotes(rt: Runtime, cfg: CollectionSettings, term: string, found: seq<Doc>)
    requires FirstMatch(rt, cfg.query, term).None? && QueryLike(term) && Count(term, '"') % 2 == 0
    ensures Suggest(rt, cfg, term, found) == Success({})
  {
  }

  /**
   * Rule mode, when the rule's type conversion succeeds and every document
   * found carries the rule's field with a hashable value: the suggestions
   * are exactly the values of that field.
   */
  lemma SuggestRuleValues(rt: Runtime, cfg: CollectionSettings, term: string, found: seq<Doc>)
    requires FirstMatch(rt, cfg.query, term).Some?
    requires var rule := cfg.query[FirstMatch(rt, cfg.query, term).value];
      && RegexText(rt, term, rule.typeSpec).Success?
      && forall i :: 0 <= i < |found| ==>
           Get(found[i], KS(rule.field)).Some? && Hashable(Get(found[i], KS(rule.field)).value)
    ensures var field := cfg.query[FirstMatch(rt, cfg.query, term).value].field;
      && Suggest(rt, cfg, term, found).Success?
      && forall v :: v in Suggest(rt, cfg, term, found).value <==>
           exists i :: 0 <= i < |found| && Get(found[i], KS(field)) == Some(v)
  {
    var field := cfg.query[FirstMatch(rt, cfg.query, term).value].field;
    var vs := FieldValues(found, field).value;
    forall v
      ensures v in vs <==> exists i :: 0 <= i < |found| && Get(found[i], KS(field)) == Some(v)
    {
      if v in vs {
        var i :| 0 <= i < |vs| && vs[i] == v;
        assert Get(found[i], KS(field)) == Some(v);
      }
    }
  }
}
