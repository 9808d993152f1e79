# flamyngo views, modelled in Dafny

flamyngo is a small Flask front end for browsing a MongoDB collection. A
user types a search string. The views turn that string into MongoDB
criteria, show the matching documents as a table of summary columns, plot
two fields against each other, and suggest completions while the user
types. This project models the logic of `flamyngo/views.py` that sits
between Flask and the database, and proves properties of it.

- `wrappers.dfy` (`Wrappers`): `Option` and `Result`.
- `dicts.dfy` (`Dicts`): a Python dict as a sequence of its entries.
  `Get` is `d.get(k)`. `Put` is `d[k] = v`: it replaces the value of a
  present key and appends a new key. Iterating a dict is modelled as
  walking this sequence in insertion order.
- `text.dfy` (`PyText`): the Python 2 unicode string operations the views
  use: `strip()`, `int(text)`, `str(int)`, `sub in s`, `count`, `split` and
  `join`.
- `values.dfy` (`PyValues`): JSON-like values (`None`, bool, int, float,
  text, list, dict with text or integer keys), Python truth, `type(v).__name__`,
  `str`, `int()` and `float()`, and the exceptions the views can raise.
  Everything foreign sits in one `Runtime` value that every operation
  takes as a parameter: the regex matcher, `json.loads`, `json.dumps`,
  float parsing, comparison and formatting, and the converters a type spec
  names.
- `settings.dfy` (`Settings`): one collection's settings, and the alias
  table with `get_mapped_name`.
- `coerce.dfy` (`TypeCoercer`): `process(val, vtype)`.
- `resolve.dfy` (`ValueResolver`): `_get_val`, the dotted-path descent.
- `criteria.dfy` (`CriteriaCompiler`): `process_search_string`.
- `autocomplete.dfy` (`AutocompleteSuggester`): `_search_dict_keys`,
  `_search_dict_values` and the `/autocomplete` view.
- `views.dfy` (`Views`): the basic-auth gate, `num_to_id`, the `/data`
  view and the `/query` view.

The loops of the source are methods with loop invariants. Each method is
proved equal to a function that states the same result. For example,
`GetVal` equals `Resolve`, `ProcessSearchString` equals `Compile`, and
`Query` equals `QueryResult`. The lemmas then state what the source
promises about those functions. What the database returns for a query is
the parameter `found`, a sequence of documents in cursor order.

Three behaviours of the code are worth stating plainly, because a reader
of the code might expect otherwise:

- `aliases` maps a stored field path to the name shown for it: line 184
  looks a path up in it. `get_mapped_name` (lines 62-65) inverts the table,
  so a display name typed in a search or chosen as a plot axis becomes the
  stored path.
- The comment "Handle integer indices" at line 350 suggests that list
  elements can be reached by position, but a list node always gives
  `None`. Indexing a list with a text token raises TypeError, which the
  inner `except KeyError` does not catch, so the outer handler returns
  `None` (lines 347-355). Only a dict with integer keys is reached through
  `val[int(t)]`.
- `process_search_string` on blank text raises IndexError at
  `clean_search_string[0]` (line 83). `/query` replaces a blank search by
  `"{}"` first (lines 170-171), and `/data` skips blank searches (line 245),
  so neither view reaches that IndexError.

## Model

| member | source | states |
|---|---|---|
| Settings.InvertAliases | flamyngo/views.py:62 | every key of the inverted alias table is the display name of some alias entry |
| Settings.MappedNameUnaliased | flamyngo/views.py:62-65 | a name that is no alias's display name comes back unchanged |
| Settings.MappedNameInverts | flamyngo/views.py:62-65 | with distinct display names, the display name of entry i maps back to entry i's field path, whatever the order of the entries |
| Settings.MappedName | flamyngo/views.py:62-65 | no contract of its own; `MappedNameUnaliased`, `MappedNameInverts` and `AliasRoundTrip` state its behaviour |
| Settings.DisplayName | flamyngo/views.py:184 | no contract of its own; `AliasRoundTrip` states that `MappedName` undoes it |
| Settings.AliasRoundTrip | flamyngo/views.py:62-65 | with distinct display names, `get_mapped_name` undoes the lookup of line 184: a configured path's display name maps back to the path |
| TypeCoercer.Coerce | flamyngo/views.py:329-339 | the untyped result is the value itself, an int or a float; an int only when `float()` and `int()` both succeed and compare equal; a float only what `float()` gave; the value itself whenever `float()` fails |
| TypeCoercer.Process | flamyngo/views.py:320-339 | with no type spec `process` never raises and returns the value or a number; with a type spec, a converter that raises makes `process` raise |
| TypeCoercer.CoerceText | flamyngo/views.py:329-339 | on text: integer text (within 2^53) becomes its integer, other float text a float, anything else stays the same text |
| TypeCoercer.CoerceIntText | flamyngo/views.py:331-332 | integer text within the exact range comes back as that integer |
| TypeCoercer.CoerceIntStable | flamyngo/views.py:331-332 | an integer within the exact range stays that integer, so coercion is idempotent on integer text |
| TypeCoercer.CoerceIntegralFloat | flamyngo/views.py:331-332 | a float with an integral value comes back as the integer |
| TypeCoercer.CoerceNonNumeric | flamyngo/views.py:334-339 | `None`, lists and dicts come back unchanged |
| ValueResolver.Step | flamyngo/views.py:347-351 | a descent step succeeds only on a dict, and a present text key wins over the integer fallback |
| ValueResolver.Walk | flamyngo/views.py:346-351 | no contract of its own; `WalkNext`, `WalkFailed`, `WalkStopsAtNonDict` and `WalkTextKeyed` state its behaviour |
| ValueResolver.WalkNext | flamyngo/views.py:346-351 | walking one more token is one more step from where the walk ended |
| ValueResolver.WalkFailed | flamyngo/views.py:346-355 | once a step has failed, the whole path fails, whatever tokens follow |
| ValueResolver.WalkStopsAtNonDict | flamyngo/views.py:347-355 | reaching a list or scalar before the last token makes the path fail |
| ValueResolver.WalkTextKeyed | flamyngo/views.py:347-351 | in a value whose dicts have only text keys, the integer fallback never finds anything: the walk is descent by name |
| ValueResolver.Resolve | flamyngo/views.py:342-356 | a missing first key gives `None` |
| ValueResolver.GetVal | flamyngo/views.py:342-356 | the token loop returns exactly `Resolve`: `None` when any step fails or `process` raises, else the processed leaf |
| ValueResolver.ResolveTextKeyed | flamyngo/views.py:342-356 | in a stored document a path resolves exactly when every token names a key on the way down, and then to the processed leaf |
| ValueResolver.ResolveFirstTokenIsText | flamyngo/views.py:345 | the first token is never read as an integer: `"0"` does not reach a key 0 at the top |
| ValueResolver.TagsZeroTokens | flamyngo/views.py:343 | `"tags.0".split(".")` is `["tags", "0"]` |
| ValueResolver.ZeroStep | flamyngo/views.py:347-351 | the token `"0"` reaches the entry under the integer key 0 |
| ValueResolver.ResolveTwoTokens | flamyngo/views.py:345-352 | a two-token path resolves to the processed node one step below the first key's value |
| ValueResolver.ResolveIntegerKey | flamyngo/views.py:349-352 | `tags.0` reaches a dict's integer key 0 and returns the coerced leaf |
| ValueResolver.ResolveListIndexIsAbsent | flamyngo/views.py:347-355 | `tags.0` against a list of tags gives `None` |
| CriteriaCompiler.FirstMatch | flamyngo/views.py:76-79 | the index found is of a matching rule with no matching rule before it; no index means no rule matches |
| CriteriaCompiler.FirstMatchIgnoresLater | flamyngo/views.py:76-79 | rules after the first match are never consulted: any tail may replace them |
| CriteriaCompiler.RegexText | flamyngo/views.py:78 | no contract of its own; `RegexTextNormalises` and `CompileFirstRuleWins` state what it puts under `$regex` |
| CriteriaCompiler.RegexTextNormalises | flamyngo/views.py:78 | an untyped rule puts integer text in its plain decimal form and leaves non-numeric text alone |
| CriteriaCompiler.BraceWrap | flamyngo/views.py:83-85 | the wrapped text starts with `{` and ends with `}`; text already of that shape is unchanged; otherwise it is the text in braces |
| CriteriaCompiler.BraceWrapIdempotent | flamyngo/views.py:83-85 | wrapping twice is wrapping once |
| CriteriaCompiler.Remap | flamyngo/views.py:88-89 | the renamed criteria have distinct keys |
| CriteriaCompiler.RemapKeys | flamyngo/views.py:88-89 | the renamed criteria hold exactly the mapped names of the parsed keys |
| CriteriaCompiler.RemapPointwise | flamyngo/views.py:88-89 | when no two keys map to the same name, each entry keeps its position in the sequence and its value, under its mapped key |
| CriteriaCompiler.ProcessSearchString | flamyngo/views.py:66-91 | the method returns exactly `Compile`: friendly-term substitution, then the first matching rule, else the braced JSON body with keys renamed, or the exception raised |
| CriteriaCompiler.ParseBody | flamyngo/views.py:81-89 | blank text, and only blank text, raises IndexError; otherwise `json.loads` gets the stripped text braced, its failure raises ValueError and a non-object raises AttributeError; on success the keys are distinct and are exactly the mapped names of the parsed keys |
| CriteriaCompiler.CompileNonBlank | flamyngo/views.py:68-89 | with no friendly term, text that is not blank never raises IndexError: a rule raises only its converter's error and the parser gets non-blank text |
| CriteriaCompiler.SubstitutedText | flamyngo/views.py:71-74 | no contract of its own; `CompileFriendlyTerm`, `CompileBody` and `CompileBareBody` state its effect |
| CriteriaCompiler.RuleCriteria | flamyngo/views.py:78 | no contract of its own; `CompileFirstRuleWins` states the criteria it builds |
| CriteriaCompiler.Compile | flamyngo/views.py:68-91 | no contract of its own; it is what `ProcessSearchString` is proved equal to, and `CompileFirstRuleWins`, `CompileBlank`, `CompileBody`, `CompileNonBlank`, `CompileFriendlyTerm` and `CompileDisplayName` state its behaviour |
| CriteriaCompiler.CompileFirstRuleWins | flamyngo/views.py:76-79 | when a rule matches, the criteria are the one key `{field: {'$regex': str(process(s, type))}}` of the first matching rule, and later rules change nothing |
| CriteriaCompiler.CompileBlank | flamyngo/views.py:81-83 | with no friendly term and no matching rule, blank text raises IndexError |
| CriteriaCompiler.CompileBody | flamyngo/views.py:81-86 | otherwise the parser gets the stripped text braced, unchanged when it was already braced |
| CriteriaCompiler.CompileBareBody | flamyngo/views.py:81-86 | a body typed without braces compiles like the same body typed with them |
| CriteriaCompiler.CompileFriendlyTerm | flamyngo/views.py:69-89 | a friendly term whose tree is a non-empty object, and whose JSON no rule matches, compiles to that tree with its keys renamed |
| CriteriaCompiler.CompileEmptyObject | flamyngo/views.py:81-89 | `{}` compiles to empty criteria |
| CriteriaCompiler.CompileDisplayName | flamyngo/views.py:86-89 | a display name typed as a criteria key is replaced by its field path and the value is kept |
| AutocompleteSuggester.KeysContaining | flamyngo/views.py:359-364 | the kept entries are exactly the entries whose key contains the text |
| AutocompleteSuggester.ValuesContaining | flamyngo/views.py:367-372 | the kept entries are exactly the entries whose value contains the text |
| AutocompleteSuggester.SearchDictKeys | flamyngo/views.py:359-364 | the loop builds exactly `KeysContaining`, in the order of the model's entries |
| AutocompleteSuggester.SearchDictValues | flamyngo/views.py:367-372 | the loop builds exactly `ValuesContaining`, in the order of the model's entries |
| AutocompleteSuggester.KeysContainingNames | flamyngo/views.py:359-364 | the names kept are exactly the names of the dict that contain the text |
| AutocompleteSuggester.FieldValues | flamyngo/views.py:124 | success exactly when every document has the field, and then the values in document order; otherwise KeyError for the field |
| AutocompleteSuggester.DistinctTerms | flamyngo/views.py:126 | `set()` succeeds exactly when no value is a list or dict, and then holds exactly the values; otherwise TypeError naming an unhashable value's type |
| AutocompleteSuggester.Completion | flamyngo/views.py:148 | no contract of its own; `KeyNameSuggestions` and `SuggestKeyNames` state the suggestions it builds |
| AutocompleteSuggester.QueryLike | flamyngo/views.py:128 | no contract of its own; `SuggestKeyNames` and `SuggestBalancedQuotes` state the two outcomes of a term typed as an object, and `SuggestFriendly` the other |
| AutocompleteSuggester.KeyNameSuggestions | flamyngo/views.py:145-148 | a suggestion is exactly the rejoined prefix, a configured key containing the last fragment, and `":` |
| AutocompleteSuggester.Suggest | flamyngo/views.py:102-152 | no contract of its own; it is what `Autocomplete` is proved equal to, and `SuggestFriendly`, `SuggestKeyNames`, `SuggestBalancedQuotes` and `SuggestRuleValues` state its four modes |
| AutocompleteSuggester.Autocomplete | flamyngo/views.py:102-152 | the method returns exactly `Suggest`: rule values at the first matching rule, else friendly names, key names, or nothing by the term's shape |
| AutocompleteSuggester.SuggestFriendly | flamyngo/views.py:128-134 | friendly-term mode suggests exactly the friendly-term names that contain the term |
| AutocompleteSuggester.SuggestKeyNames | flamyngo/views.py:138-150 | with an odd quote count, each suggestion is the term up to and including its last quote, then a configured key containing the text after that quote, then `":`, and every such key gives one |
| AutocompleteSuggester.SuggestBalancedQuotes | flamyngo/views.py:136-152 | a term typed as an object with balanced quotes gets no suggestions |
| AutocompleteSuggester.SuggestRuleValues | flamyngo/views.py:113-126 | when the rule's conversion succeeds and every document has a hashable value for the field, the suggestions are exactly those values |
| PyText.ParseFormatInt | flamyngo/views.py:376 | `int(str(i)) == i` |
| PyText.StripBlank | flamyngo/views.py:170 | `strip()` is empty exactly when the text is all whitespace |
| PyText.ReplaceLastPiece | flamyngo/views.py:139-148 | rejoining all but the last piece of a split with a new last piece keeps the text up to its last separator |
| Views.CheckAuth | flamyngo/views.py:33-40 | no contract of its own; `AdmitsExactly` states the decision |
| Views.Admits | flamyngo/views.py:51-59 | no contract of its own; `AdmitsExactly` states the decision |
| Views.AdmitsExactly | flamyngo/views.py:33-59 | with a configured user, exactly credentials equal to the configured user and password are admitted, a missing password matching only a missing one; without a configured user, every request is, with or without credentials |
| Views.UnsetPasswordAdmitsOnlyPasswordless | flamyngo/views.py:38-40 | with a user but no password configured, exactly credentials with that user name and no password are admitted, so no basic-auth header gets in |
| Views.NumToId | flamyngo/views.py:375-376 | no contract of its own; `NumToIdRoundTrip` states its behaviour |
| Views.NumToIdRoundTrip | flamyngo/views.py:375-376 | an id made from an integer starts with `2dm-` and the integer reads back from the rest |
| Views.PlotPairs | flamyngo/views.py:248-252 | no more pairs than documents |
| Views.DocPoint | flamyngo/views.py:249-250 | no contract of its own; `PlotPairsExactly` states that the pairs are exactly the truthy points it gives |
| Views.PlotPairsExactly | flamyngo/views.py:248-252 | every pair is some document's point with both coordinates true, and every such point is kept |
| Views.PlotPairsPrefix | flamyngo/views.py:248-252 | the pairs of the first i documents do not depend on later documents |
| Views.PlotDropsZero | flamyngo/views.py:249-252 | a document whose x value is 0 adds no pair |
| Views.PlotData | flamyngo/views.py:233-255 | no contract of its own; it is what `GetData` is proved equal to, and `PlotPairsExactly`, `PlotPairsPrefix` and `PlotDropsZero` state what it keeps |
| Views.GetData | flamyngo/views.py:233-255 | the method returns exactly `PlotData`: axes mapped, nothing for a blank search, the compile error, else the truthy pairs in document order |
| Views.EntryCheck | flamyngo/views.py:180-185 | no contract of its own; `CheckedColumns` states how its results combine |
| Views.CheckedColumns | flamyngo/views.py:179-185 | the columns checked are the successful checks of the leading entries; an error is the check failure of the first failing entry |
| Views.CheckedColumnsStop | flamyngo/views.py:179-183 | once an entry fails, the check of the whole summary reports that entry's failure |
| Views.Cell | flamyngo/views.py:185-186 | a cell is never `None`; an unresolved path shows as empty text |
| Views.Fields | flamyngo/views.py:189 | `fields` has one display name per column, in column order |
| Views.SearchText | flamyngo/views.py:170-171 | the text handed to the compiler is never blank |
| Views.QueryNeverBlankIndexError | flamyngo/views.py:167-173 | unless a friendly term substitutes other text, compiling the `/query` search never raises the IndexError of blank text |
| Views.Row | flamyngo/views.py:176-188 | no contract of its own; `RowLookup` states what a row holds |
| Views.MappedNames | flamyngo/views.py:177-187 | no contract of its own; `MappedNamesLookup` states what it holds |
| Views.Rows | flamyngo/views.py:175-190 | one row per document |
| Views.RowsAt | flamyngo/views.py:175-190 | row u is document u's row |
| Views.SummaryRow | flamyngo/views.py:176-189 | the inner loop builds exactly the row, names and fields of the checked columns, and stops with the check's error |
| Views.CheckProjection | flamyngo/views.py:161 | the projection succeeds exactly when no summary entry is empty |
| Views.ListingPage | flamyngo/views.py:174-192 | no contract of its own; it is what `ListDocuments` is proved equal to, and `ListingComplete` and `QueryBadSummary` state its outcomes |
| Views.QueryResult | flamyngo/views.py:157-196 | no contract of its own; it is what `Query` is proved equal to, and `QueryBlankSearch`, `QueryBadSummary` and `QueryNeverBlankIndexError` state its outcomes |
| Views.ListDocuments | flamyngo/views.py:174-192 | the document loop builds exactly `ListingPage` |
| Views.Query | flamyngo/views.py:157-196 | the view returns exactly `QueryResult`: the projection's IndexError, else the page with the compile error, no results, the summary error, or the rows |
| Views.MappedNamesLookup | flamyngo/views.py:187 | `mapped_names` maps each column's path to its display name |
| Views.RowLookup | flamyngo/views.py:188 | a row holds each column's cell under its display name unless a later column with the same display name overwrote it |
| Views.QueryBadSummary | flamyngo/views.py:174-196 | a bad summary entry is reported with no rows once anything is found, the same whichever documents were found |
| Views.QueryBlankSearch | flamyngo/views.py:167-192 | a blank search with a well-formed summary lists every document with no error |
| Views.ListingComplete | flamyngo/views.py:174-192 | with a well-formed summary, each document found gives a row and no error is shown |

## Left out

- Flask routing, `render_template`, `make_response`, `jsonify` and `jsanitize` are not modelled. `/query` yields the values the template is rendered with (`QueryPage`), and `/autocomplete` and `/data` yield the values handed to `jsonify`.
- The 401 `Response` that `authenticate()` builds is not modelled. `Admits` says only whether the view runs.
- Settings loading, the module-level MongoDB connection and `DB.authenticate` (lines 21-30) are I/O. The settings of one collection are a `CollectionSettings` value.
- Every database call is left out. Its result is a parameter: `found` for `find`, in cursor order. The criteria and projection sent to the database are not checked against the documents returned.
- `get_doc`, `get_doc_json`, `get_alldocs_json`, `plot`, `guide` and `index` are not modelled. They are template rendering, database reads, or float formatting over a fixed document schema.
- The regex engine, `json.loads`, `json.dumps`, float parsing, comparison and formatting, and the converters named by a non-empty type spec are fields of `Runtime`. They are not modelled beyond the assumptions stated as predicates (`NumericSound`, `JsonSound`). How a converter is looked up (`__import__` or the builtins) is not modelled.
- `int()` on text accepts only ASCII digits. Python 2 also accepts other Unicode decimal digits.
- `str()` of non-ASCII text, which raises UnicodeEncodeError in Python 2, is not modelled. Text is returned as it is.
- A missing request argument, such as `term` or `search_string` being `None`, is not modelled. Every argument is a string.
- Set equality across types is not modelled. Python's `set()` treats `1`, `1.0` and `True` as one member; the model keeps them apart.
- `_search_dict_values` is modelled for text values only. Other values raise or use `__contains__` in Python.
- Summary entries are modelled as sequences of text or `None`. Entries of other types, such as numbers, are not modelled.
- The order of `list(set(terms))` is not modelled. Suggestions are a set.
- Dict iteration order is not modelled. Python 2 iterates a dict in hash order; the model walks its entries in insertion order. Positions stated by `RemapPointwise`, `SearchDictKeys` and `SearchDictValues` are positions in the model's sequence. The order matters when two keys collide. In `Remap` (lines 88-89) two search keys can map to the same field path, and in `InvertAliases` (line 64) two paths can share a display name. Python keeps whichever entry it iterates last in hash order; the model keeps the last entry of its sequence. `RemapPointwise` and `MappedNameInverts` require that no collision occurs. Without a collision the order does not reach an output: criteria go to the database as a mapping, and suggestions are a set.
- `EntryCheck`, `ListingPage` and `QueryResult`: a summary entry whose field path is `null` is not rejected by the database library in the model. In the program, the projection of line 161 then holds `None`, and `find` (line 175) raises TypeError inside the `try` before any document is read, so the page shows that error with no rows. The model has no such check on the projection. With documents found, it reports the AttributeError of `k.split` at line 184. With nothing found, it reports "No results!".
- `int()` on text with whitespace between the sign and the digits is not modelled. Python 2 reads `int(u"- 5")` as -5; `ParseInt` rejects it. It matters only for a path token such as `"- 0"` reaching an integer key, and stored documents have text keys only (`WalkTextKeyed`).
- Duplicate keys in a dict are not modelled. `SearchDictKeys`, `SearchDictValues` and `Autocomplete` require `DistinctKeys`, which every Python dict has.
- Views.PlotPairs: its own contract states only the length bound; what it keeps is stated by `PlotPairsExactly`.
