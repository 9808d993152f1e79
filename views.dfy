/**
 * The request handlers of views.py, without Flask and the database: the
 * basic-auth gate, the `/data` scatter pairs, the `/query` result page and
 * `num_to_id`. What the database returns is the parameter `found`.
 */
module Views {
  import opened Wrappers
  import opened Dicts
  import opened PyText
  import opened PyValues
  import opened ValueResolver
  import opened Settings
  import opened CriteriaCompiler

  // ---------------------------------------------------------------- auth

  /**
   * `request.authorization`: the user name and, when the header carries one,
   * the password (a Digest header has none).
   */
  datatype Credentials = Credentials(username: string, password: Option<string>)

  /** `check_auth`: with no configured user everyone passes, otherwise both fields must equal the configured ones. */
  function CheckAuth(authUser: Option<string>, authPasswd: Option<string>, username: string, password: Option<string>)
    : bool
  {
    authUser.None? || (Some(username) == authUser && password == authPasswd)
  }

  /** `requires_auth`: the wrapped view runs, rather than the 401 answer. */
  function Admits(authUser: Option<string>, authPasswd: Option<string>, auth: Option<Credentials>): bool {
    !(authUser.Some? && (auth.None? || !CheckAuth(authUser, authPasswd, auth.value.username, auth.value.password)))
  }

  /**
   * With a configured user, exactly the configured user with the configured
   * password (or with none, when none is configured) passes; without one,
   * every request passes, with or without credentials.
   */
  lemma AdmitsExactly(authUser: Option<string>, authPasswd: Option<string>, auth: Option<Credentials>)
    ensures authUser.None? ==> Admits(authUser, authPasswd, auth)
    ensures authUser.Some? ==>
      (Admits(authUser, authPasswd, auth) <==> auth == Some(Credentials(authUser.value, authPasswd)))
  {
    if authUser.Some? && auth.Some? {
      assert auth.value == Credentials(auth.value.username, auth.value.password);
    }
  }

  /**
   * A user configured without a password admits only credentials that carry
   * that user name and no password: a basic-auth header, which always has a
   * password, never gets in.
   */
  lemma UnsetPasswordAdmitsOnlyPasswordless(user: string, auth: Option<Credentials>)
    ensures Admits(Some(user), None, auth) <==> auth == Some(Credentials(user, None))
    ensures auth.Some? && auth.value.password.Some? ==> !Admits(Some(user), None, auth)
  {
    AdmitsExactly(Some(user), None, auth);
  }

  // ---------------------------------------------------------------- num_to_id

  /** `num_to_id(num)`: `"2dm-%s" % num`. */
  function NumToId(rt: Runtime, num: Value): string {
    "2dm-" + PyStr(rt, num)
  }

  /** An id made from an integer starts with `2dm-`, and the number reads back from the rest. */
  lemma NumToIdRoundTrip(rt: Runtime, n: int)
    ensures var id := NumToId(rt, VInt(n));
      |id| > 4 && id[..4] == "2dm-" && ParseInt(id[4..]) == Some(n)
  {
    var id := NumToId(rt, VInt(n));
    assert id[4..] == FormatInt(n);
    ParseFormatInt(n);
  }

  // ---------------------------------------------------------------- /data

  /** The point a document gives: the values its x and y paths resolve to. */
  function DocPoint(rt: Runtime, xpath: string, ypath: string): Doc -> (Value, Value) {
    doc => (Resolve(rt, xpath, doc, None), Resolve(rt, ypath, doc, None))
  }

  /** Python truth, as a test on values. */
  function TruthOf(rt: Runtime): Value -> bool {
    v => Truthy(rt, v)
  }

  /** The points of the first `i` documents whose coordinates are both true, in document order. */
  function PlotPairs(point: Doc -> (Value, Value), truthy: Value -> bool, docs: seq<Doc>, i: nat)
    : (r: seq<(Value, Value)>)
    requires i <= |docs|
    ensures |r| <= i
  {
    if i == 0 then []
    else
      var prev := PlotPairs(point, truthy, docs, i - 1);
      var p := point(docs[i - 1]);
      if truthy(p.0) && truthy(p.1) then prev + [p] else prev
  }

  /**
   * Every pair kept is the point of some document, with both coordinates
   * true, and the point of every document with both coordinates true is kept.
   */
  lemma {:induction false} PlotPairsExactly(point: Doc -> (Value, Value), truthy: Value -> bool, docs: seq<Doc>,
                                            i: nat)
    requires i <= |docs|
    ensures forall p :: p in PlotPairs(point, truthy, docs, i) ==>
      truthy(p.0) && truthy(p.1) && exists u :: 0 <= u < i && p == point(docs[u])
    ensures forall u :: 0 <= u < i && truthy(point(docs[u]).0) && truthy(point(docs[u]).1) ==>
      point(docs[u]) in PlotPairs(point, truthy, docs, i)
  {
    if i > 0 {
      PlotPairsExactly(point, truthy, docs, i - 1);
    }
  }

  /** What `/data` returns for a search, or the exception `process_search_string` raises. */
  function PlotData(rt: Runtime, cfg: CollectionSettings, searchString: string, xaxis: string, yaxis: string,
                    found: seq<Doc>): Result<seq<(Value, Value)>, PyError> {
    if Strip(searchString) == [] then Success([])
    else
      match Compile(rt, cfg, searchString)
      case Failure(e) => Failure(e)
      case Success(_) =>
        var point := DocPoint(rt, MappedName(cfg.aliases, xaxis), MappedName(cfg.aliases, yaxis));
        Success(PlotPairs(point, TruthOf(rt), found, |found|))
  }

  /** `get_data`: axis names are mapped, then each document found gives a pair when both values are truthy. */
  method GetData(rt: Runtime, cfg: CollectionSettings, searchString: string, xaxis: string, yaxis: string,
                 found: seq<Doc>) returns (r: Result<seq<(Value, Value)>, PyError>)
    ensures r == PlotData(rt, cfg, searchString, xaxis, yaxis, found)
  {
    var xpath := MappedName(cfg.aliases, xaxis);
    var ypath := MappedName(cfg.aliases, yaxis);
    if Strip(searchString) == [] {
      return Success([]);
    }
    var criteria := ProcessSearchString(rt, cfg, searchString);
    if criteria.Failure? {
      return Failure(criteria.error);
    }
    var data: seq<(Value, Value)> := [];
    var i := 0;
    while i < |found|
      invariant 0 <= i <= |found|
      invariant data == PlotPairs(DocPoint(rt, xpath, ypath), TruthOf(rt), found, i)
    {
      var x := GetVal(rt, xpath, found[i], None);
      var y := GetVal(rt, ypath, found[i], None);
      assert (x, y) == DocPoint(rt, xpath, ypath)(found[i]);
      assert TruthOf(rt)(x) == Truthy(rt, x) && TruthOf(rt)(y) == Truthy(rt, y);
      if Truthy(rt, x) && Truthy(rt, y) {
        data := data + [(x, y)];
      }
      assert data == PlotPairs(DocPoint(rt, xpath, ypath), TruthOf(rt), found, i + 1);
      i := i + 1;
    }
    return Success(data);
  }

  /** The pairs from the first `i` documents do not depend on the documents after them. */
  lemma {:induction false} PlotPairsPrefix(point: Doc -> (Value, Value), truthy: Value -> bool, docs: seq<Doc>,
                                           more: seq<Doc>, i: nat)
    requires i <= |docs|
    ensures PlotPairs(point, truthy, docs + more, i) == PlotPairs(point, truthy, docs, i)
  {
    if i > 0 {
      PlotPairsPrefix(point, truthy, docs, more, i - 1);
      assert (docs + more)[i - 1] == docs[i - 1];
    }
  }

  /** A document whose x value resolves to zero adds no point, whatever its y value. */
  lemma PlotDropsZero(rt: Runtime, xpath: string, ypath: string, docs: seq<Doc>, d: Doc)
    requires Resolve(rt, xpath, d, None) == VInt(0)
    ensures var point := DocPoint(rt, xpath, ypath);
      PlotPairs(point, TruthOf(rt), docs + [d], |docs| + 1) == PlotPairs(point, TruthOf(rt), docs, |docs|)
  {
    var point := DocPoint(rt, xpath, ypath);
    PlotPairsPrefix(point, TruthOf(rt), docs, [d], |docs|);
    assert (docs + [d])[|docs|] == d;
    assert !TruthOf(rt)(point(d).0);
  }

  // ---------------------------------------------------------------- /query

  /** A summary column after its checks: the field path and the type spec as configured. */
  type Column = (string, string)

  /** The columns checked so far, and the exception that stopped the check, if one did. */
  datatype Columns = Columns(specs: seq<Column>, error: Option<PyError>)

  /**
   * Lines 180-185 for one summary entry, in the order the code fails:
   * wrong length, then a null type spec at `v.strip()`, then a null field
   * path at `k.split(".")` inside `_get_val`.
   */
  function EntryCheck(m: SummaryEntry): Result<Column, PyError> {
    if |m| != 2 then Failure(ValueError("Invalid summary settings!"))
    else if m[1].None? then Failure(AttributeError("NoneType", "strip"))
    else if m[0].None? then Failure(AttributeError("NoneType", "split"))
    else Success((m[0].value, m[1].value))
  }

  /** The first `j` summary entries, checked in order up to the first that fails. */
  function CheckedColumns(summary: seq<SummaryEntry>, j: nat): (c: Columns)
    requires j <= |summary|
    ensures c.error.None? ==> |c.specs| == j
    ensures c.error.Some? ==> |c.specs| < j
    ensures forall t :: 0 <= t < |c.specs| ==> EntryCheck(summary[t]) == Success(c.specs[t])
    ensures c.error.Some? ==> EntryCheck(summary[|c.specs|]) == Failure(c.error.value)
    decreases j
  {
    if j == 0 then Columns([], None)
    else
      var prev := CheckedColumns(summary, j - 1);
      if prev.error.Some? then prev
      else
        match EntryCheck(summary[j - 1])
        case Failure(e) => Columns(prev.specs, Some(e))
        case Success(c) =>
          var specs := prev.specs + [c];
          assert forall t :: 0 <= t < |prev.specs| ==> specs[t] == prev.specs[t];
          assert specs[j - 1] == c;
          Columns(specs, None)
  }

  /** One table cell: the value resolved under the stripped type spec, with `None` shown as empty text. */
  function Cell(rt: Runtime, doc: Doc, col: Column): (v: Value)
    ensures !v.VNone?
    ensures Resolve(rt, col.0, doc, Some(Strip(col.1))).VNone? ==> v == VStr("")
  {
    var val := Resolve(rt, col.0, doc, Some(Strip(col.1)));
    if val.VNone? then VStr("") else val
  }

  /** The cells of one document, column by column. */
  function DocCells(rt: Runtime, doc: Doc): Column -> Value {
    col => Cell(rt, doc, col)
  }

  /** `processed`: each column's cell under the column's display name, assigned in column order. */
  function Row(aliases: Dict<string, string>, specs: seq<Column>, cells: Column -> Value): Dict<string, Value> {
    if specs == [] then []
    else
      var n := |specs| - 1;
      Put(Row(aliases, specs[..n], cells), DisplayName(aliases, specs[n].0), cells(specs[n]))
  }

  /** `fields`: the display names of the columns, in order. */
  function Fields(aliases: Dict<string, string>, specs: seq<Column>): (fs: seq<string>)
    ensures |fs| == |specs|
    ensures forall t :: 0 <= t < |specs| ==> fs[t] == DisplayName(aliases, specs[t].0)
  {
    if specs == [] then []
    else
      var n := |specs| - 1;
      Fields(aliases, specs[..n]) + [DisplayName(aliases, specs[n].0)]
  }

  /** `mapped_names`: each column's field path with its display name. */
  function MappedNames(aliases: Dict<string, string>, specs: seq<Column>): Dict<string, string> {
    if specs == [] then []
    else
      var n := |specs| - 1;
      Put(MappedNames(aliases, specs[..n]), specs[n].0, DisplayName(aliases, specs[n].0))
  }

  /** What the result page is rendered with. */
  datatype QueryPage = QueryPage(
    searchString: string,
    results: Option<seq<Dict<string, Value>>>,
    fields: Option<seq<string>>,
    mappedNames: Option<Dict<string, string>>,
    errorMessage: Option<string>)

  /** Some summary entry is empty, so the projection `[t[0] for t in summary]` fails. */
  predicate HasEmptyEntry(summary: seq<SummaryEntry>) {
    exists t :: 0 <= t < |summary| && summary[t] == []
  }

  /** Lines 170-171: a blank search string stands for `{}`, so the compiler never sees blank text. */
  function SearchText(searchString: string): (s: string)
    ensures Strip(s) != []
  {
    if Strip(searchString) == [] then
      StripUnbounded("{}");
      "{}"
    else searchString
  }

  /** The row a document gives under the checked columns. */
  function DocRow(rt: Runtime, aliases: Dict<string, string>, specs: seq<Column>): Doc -> Dict<string, Value> {
    doc => Row(aliases, specs, DocCells(rt, doc))
  }

  /** `results`: one row for each of the first `i` documents, in the order found. */
  function Rows(rowOf: Doc -> Dict<string, Value>, docs: seq<Doc>, i: nat): (rows: seq<Dict<string, Value>>)
    requires i <= |docs|
    ensures |rows| == i
  {
    if i == 0 then [] else Rows(rowOf, docs, i - 1) + [rowOf(docs[i - 1])]
  }

  /** Row `u` of the listing is document `u`'s row. */
  lemma {:induction false} RowsAt(rowOf: Doc -> Dict<string, Value>, docs: seq<Doc>, i: nat, u: nat)
    requires u < i <= |docs|
    ensures Rows(rowOf, docs, i)[u] == rowOf(docs[u])
  {
    if u < i - 1 {
      RowsAt(rowOf, docs, i - 1, u);
    }
  }

  /**
   * Lines 174-192, once the criteria compiled: with no document found the
   * page says so; otherwise the first document meets any bad summary entry,
   * leaving no rows, and without one every document gives a row.
   */
  function ListingPage(rt: Runtime, cfg: CollectionSettings, s: string, found: seq<Doc>): QueryPage {
    if found == [] then QueryPage(s, Some([]), None, None, Some("No results!"))
    else
      var cols := CheckedColumns(cfg.summary, |cfg.summary|);
      var fields := Some(Fields(cfg.aliases, cols.specs));
      var names := Some(MappedNames(cfg.aliases, cols.specs));
      match cols.error
      case Some(e) => QueryPage(s, Some([]), fields, names, Some(e.Message()))
      case None => QueryPage(s, Some(Rows(DocRow(rt, cfg.aliases, cols.specs), found, |found|)), fields, names, None)
  }

  /**
   * What `/query` renders, or the exception that escapes it: an empty
   * summary entry fails the projection before the `try`; everything raised
   * inside the `try` becomes the page's error message.
   */
  function QueryResult(rt: Runtime, cfg: CollectionSettings, searchString: string, found: seq<Doc>)
    : Result<QueryPage, PyError>
  {
    if HasEmptyEntry(cfg.summary) then Failure(IndexError("list index out of range"))
    else
      var s := SearchText(searchString);
      match Compile(rt, cfg, s)
      case Failure(e) => Success(QueryPage(s, None, None, None, Some(e.Message())))
      case Success(_) => Success(ListingPage(rt, cfg, s, found))
  }

  /** Lines 176-189 for one document: the row, names and fields built, and the exception that stops them. */
  method SummaryRow(rt: Runtime, aliases: Dict<string, string>, summary: seq<SummaryEntry>, doc: Doc)
    returns (processed: Dict<string, Value>, mappedNames: Dict<string, string>, fields: seq<string>,
             error: Option<PyError>)
    ensures var cols := CheckedColumns(summary, |summary|);
      && error == cols.error
      && processed == Row(aliases, cols.specs, DocCells(rt, doc))
      && mappedNames == MappedNames(aliases, cols.specs)
      && fields == Fields(aliases, cols.specs)
  {
    processed, mappedNames, fields, error := [], [], [], None;
    ghost var specs: seq<Column> := [];
    var j := 0;
    while j < |summary|
      invariant 0 <= j <= |summary|
      invariant CheckedColumns(summary, j) == Columns(specs, None)
      invariant processed == Row(aliases, specs, DocCells(rt, doc))
      invariant mappedNames == MappedNames(aliases, specs)
      invariant fields == Fields(aliases, specs)
    {
      var m := summary[j];
      if |m| != 2 {
        error := Some(ValueError("Invalid summary settings!"));
        break;
      }
      var k, v := m[0], m[1];
      if v.None? {
        error := Some(AttributeError("NoneType", "strip"));
        break;
      }
      if k.None? {
        error := Some(AttributeError("NoneType", "split"));
        break;
      }
      var mappedK := DisplayName(aliases, k.value);
      var val := GetVal(rt, k.value, doc, Some(Strip(v.value)));
      if val.VNone? {
        val := VStr("");
      }
      ghost var col := (k.value, v.value);
      assert val == DocCells(rt, doc)(col);
      assert (specs + [col])[..|specs|] == specs;
      mappedNames := Put(mappedNames, k.value, mappedK);
      processed := Put(processed, mappedK, val);
      fields := fields + [mappedK];
      specs := specs + [col];
      j := j + 1;
    }
    if error.Some? {
      CheckedColumnsStop(summary, j);
    }
  }

  /** Once an entry fails, the check of every longer prefix reports that entry's failure. */
  lemma {:induction false} CheckedColumnsStop(summary: seq<SummaryEntry>, j: nat)
    requires j < |summary| && CheckedColumns(summary, j).error.None? && EntryCheck(summary[j]).Failure?
    ensures CheckedColumns(summary, |summary|) ==
      Columns(CheckedColumns(summary, j).specs, Some(EntryCheck(summary[j]).error))
  {
    var k := j + 1;
    while k < |summary|
      invariant j < k <= |summary|
      invariant CheckedColumns(summary, k) == Columns(CheckedColumns(summary, j).specs, Some(EntryCheck(summary[j]).error))
    {
      k := k + 1;
    }
  }

  /** Line 161: `[t[0] for t in settings["summary"]]` succeeds. */
  method CheckProjection(summary: seq<SummaryEntry>) returns (ok: bool)
    ensures ok <==> !HasEmptyEntry(summary)
  {
    var t := 0;
    while t < |summary|
      invariant 0 <= t <= |summary|
      invariant forall u :: 0 <= u < t ==> summary[u] != []
    {
      if summary[t] == [] {
        return false;
      }
      t := t + 1;
    }
    return true;
  }

  /** Lines 174-192: one row per document found, until a summary entry raises. */
  method ListDocuments(rt: Runtime, cfg: CollectionSettings, s: string, found: seq<Doc>) returns (page: QueryPage)
    ensures page == ListingPage(rt, cfg, s, found)
  {
    ghost var cols := CheckedColumns(cfg.summary, |cfg.summary|);
    ghost var rowOf := DocRow(rt, cfg.aliases, cols.specs);
    var results: seq<Dict<string, Value>> := [];
    var fields: Option<seq<string>> := None;
    var mappedNames: Option<Dict<string, string>> := None;
    var i := 0;
    while i < |found|
      invariant 0 <= i <= |found|
      invariant results == Rows(rowOf, found, i)
      invariant i == 0 ==> fields.None? && mappedNames.None?
      invariant i > 0 ==> cols.error.None?
      invariant i > 0 ==> fields == Some(Fields(cfg.aliases, cols.specs))
      invariant i > 0 ==> mappedNames == Some(MappedNames(cfg.aliases, cols.specs))
    {
      var processed, names, fs, error := SummaryRow(rt, cfg.aliases, cfg.summary, found[i]);
      if error.Some? {
        assert i == 0 && results == [];
        return QueryPage(s, Some(results), Some(fs), Some(names), Some(error.value.Message()));
      }
      assert processed == rowOf(found[i]);
      assert Rows(rowOf, found, i + 1) == results + [processed];
      results := results + [processed];
      fields := Some(fs);
      mappedNames := Some(names);
      i := i + 1;
    }
    assert |results| == |found|;
    if results == [] {
      return QueryPage(s, Some(results), fields, mappedNames, Some("No results!"));
    }
    assert cols.error.None? && results == Rows(rowOf, found, |found|);
    return QueryPage(s, Some(results), fields, mappedNames, None);
  }

  /** `query`: the projection, the blank-search default, the compile, then the listing. */
  method Query(rt: Runtime, cfg: CollectionSettings, searchString: string, found: seq<Doc>)
    returns (r: Result<QueryPage, PyError>)
    ensures r == QueryResult(rt, cfg, searchString, found)
  {
    var projected := CheckProjection(cfg.summary);
    if !projected {
      return Failure(IndexError("list index out of range"));
    }
    var s := searchString;
    if Strip(s) == [] {
      s := "{}";
    }
    var criteria := ProcessSearchString(rt, cfg, s);
    if criteria.Failure? {
      return Success(QueryPage(s, None, None, None, Some(criteria.error.Message())));
    }
    var page := ListDocuments(rt, cfg, s, found);
    return Success(page);
  }

  /** A column's display name maps to its path in `mapped_names`, whatever the other columns are. */
  lemma {:induction false} MappedNamesLookup(aliases: Dict<string, string>, specs: seq<Column>, t: nat)
    requires t < |specs|
    ensures Get(MappedNames(aliases, specs), specs[t].0) == Some(DisplayName(aliases, specs[t].0))
  {
    var n := |specs| - 1;
    if t < n && specs[t].0 != specs[n].0 {
      assert specs[..n][t] == specs[t];
      MappedNamesLookup(aliases, specs[..n], t);
      PutOther(MappedNames(aliases, specs[..n]), specs[n].0, DisplayName(aliases, specs[n].0), specs[t].0);
    }
  }

  /**
   * A row holds each column's cell under that column's display name, unless
   * a later column with the same display name overwrote it.
   */
  lemma {:induction false} RowLookup(aliases: Dict<string, string>, specs: seq<Column>, cells: Column -> Value, t: nat)
    requires t < |specs|
    requires forall u :: t < u < |specs| ==> DisplayName(aliases, specs[u].0) != DisplayName(aliases, specs[t].0)
    ensures Get(Row(aliases, specs, cells), DisplayName(aliases, specs[t].0)) == Some(cells(specs[t]))
  {
    var n := |specs| - 1;
    var prev := specs[..n];
    var last := DisplayName(aliases, specs[n].0);
    assert Row(aliases, specs, cells) == Put(Row(aliases, prev, cells), last, cells(specs[n]));
    if t < n {
      var name := DisplayName(aliases, specs[t].0);
      assert prev[t] == specs[t];
      assert forall u :: t < u < n ==> prev[u] == specs[u];
      RowLookup(aliases, prev, cells, t);
      assert name != last;
      PutOther(Row(aliases, prev, cells), last, cells(specs[n]), name);
    }
  }

  /**
   * Because of lines 170-171, the IndexError that blank text raises in the
   * compiler never reaches the `/query` page: unless a friendly term
   * substitutes other text, compiling the search text never raises it.
   */
  lemma QueryNeverBlankIndexError(rt: Runtime, cfg: CollectionSettings, searchString: string)
    requires Get(cfg.friendlyTerms, SearchText(searchString)).None?
    ensures var c := Compile(rt, cfg, SearchText(searchString));
      !(c.Failure? && c.error.IndexError?)
  {
    CompileNonBlank(rt, cfg, SearchText(searchString));
  }

  /**
   * A bad summary entry is reported as soon as one document is found, with
   * no rows, and the report is the same whichever documents were found.
   */
  lemma QueryBadSummary(rt: Runtime, cfg: CollectionSettings, s: string, found: seq<Doc>, other: seq<Doc>)
    requires found != [] && other != []
    requires CheckedColumns(cfg.summary, |cfg.summary|).error.Some?
    ensures QueryResult(rt, cfg, s, found) == QueryResult(rt, cfg, s, other)
    ensures QueryResult(rt, cfg, s, found).Success? ==>
      var page := QueryResult(rt, cfg, s, found).value;
      page.errorMessage.Some? && (page.results.Some? ==> page.results.value == [])
  {
  }

  /**
   * A blank search lists every document: the search text becomes `{}`,
   * which compiles to empty criteria, and with a well-formed summary each
   * document found gives a row and no error is shown.
   */
  lemma QueryBlankSearch(rt: Runtime, cfg: CollectionSettings, searchString: string, found: seq<Doc>)
    requires Strip(searchString) == [] && found != []
    requires rt.loads("{}") == Success(VDict([]))
    requires Get(cfg.friendlyTerms, "{}").None? && FirstMatch(rt, cfg.query, "{}").None?
    requires forall t :: 0 <= t < |cfg.summary| ==> EntryCheck(cfg.summary[t]).Success?
    ensures QueryResult(rt, cfg, searchString, found).Success?
    ensures var page := QueryResult(rt, cfg, searchString, found).value;
      && page.searchString == "{}" && page.errorMessage.None?
      && page.results.Some? && |page.results.value| == |found|
  {
    CompileEmptyObject(rt, cfg);
    assert !HasEmptyEntry(cfg.summary) by {
      assert forall t :: 0 <= t < |cfg.summary| ==> cfg.summary[t] != [];
    }
    assert SearchText(searchString) == "{}";
    assert QueryResult(rt, cfg, searchString, found) == Success(ListingPage(rt, cfg, "{}", found));
    ListingComplete(rt, cfg, "{}", found);
  }

  /** When every summary entry passes its checks, each found document gets a row and no error is shown. */
  lemma ListingComplete(rt: Runtime, cfg: CollectionSettings, s: string, found: seq<Doc>)
    requires found != []
    requires forall t :: 0 <= t < |cfg.summary| ==> EntryCheck(cfg.summary[t]).Success?
    ensures var page := ListingPage(rt, cfg, s, found);
      && page.searchString == s && page.errorMessage.None?
      && page.results.Some? && |page.results.value| == |found|
  {
    var cols := CheckedColumns(cfg.summary, |cfg.summary|);
    assert cols.error.None?;
  }
}
