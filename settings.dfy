/**
 * One collection's settings, read once at start-up and never changed, and
 * the alias table: `aliases` maps a stored field path to the name shown for it.
 */
module Settings {
  import opened Wrappers
  import opened Dicts
  import opened PyValues

  /** One `query` entry: `[field, pattern, type spec or null]`. */
  datatype Rule = Rule(field: string, pattern: string, typeSpec: Option<string>)

  /** One `summary` entry as configured; a well-formed one is `[field path, type spec]`. */
  type SummaryEntry = seq<Option<string>>

  datatype CollectionSettings = CollectionSettings(
    query: seq<Rule>,
    aliases: Dict<string, string>,
    friendlyTerms: Dict<string, Value>,
    autocompleteKeys: seq<string>,
    summary: seq<SummaryEntry>,
    uniqueKey: string)

  predicate DistinctValues(aliases: Dict<string, string>) {
    forall i, j :: 0 <= i < j < |aliases| ==> aliases[i].1 != aliases[j].1
  }

  /** `name` is the display name of some field path. */
  predicate IsDisplayName(aliases: Dict<string, string>, name: string) {
    exists i :: 0 <= i < |aliases| && aliases[i].1 == name
  }

  /** `{v: k for k, v in aliases.items()}`: later entries overwrite earlier ones. */
  function InvertAliases(aliases: Dict<string, string>): (inv: Dict<string, string>)
    ensures forall name :: name in Keys(inv) ==> IsDisplayName(aliases, name)
  {
    if aliases == [] then []
    else
      var n := |aliases| - 1;
      var prev := InvertAliases(aliases[..n]);
      var inv := Put(prev, aliases[n].1, aliases[n].0);
      assert forall name :: name in Keys(inv) ==> name == aliases[n].1 || name in Keys(prev) by {
        forall name | name in Keys(inv) && name != aliases[n].1 ensures name in Keys(prev) {
          PutOther(prev, aliases[n].1, aliases[n].0, name);
        }
      }
      assert forall name :: IsDisplayName(aliases[..n], name) ==> IsDisplayName(aliases, name) by {
        forall name | IsDisplayName(aliases[..n], name) ensures IsDisplayName(aliases, name) {
          var i :| 0 <= i < n && aliases[..n][i].1 == name;
          assert aliases[i].1 == name;
        }
      }
      inv
  }

  /** `get_mapped_name(settings, name)`: the field path a display name stands for, else the name itself. */
  function MappedName(aliases: Dict<string, string>, name: string): string {
    Get(InvertAliases(aliases), name).GetOr(name)
  }

  /** `settings.get("aliases", {}).get(k, k)`: the name shown for a field path. */
  function DisplayName(aliases: Dict<string, string>, path: string): string {
    Get(aliases, path).GetOr(path)
  }

  /** A name that is no alias's display name maps to itself. */
  lemma MappedNameUnaliased(aliases: Dict<string, string>, name: string)
    requires !IsDisplayName(aliases, name)
    ensures MappedName(aliases, name) == name
  {
  }

  /** With distinct display names, mapping a display name gives back its field path. */
  lemma {:induction false} MappedNameInverts(aliases: Dict<string, string>, i: nat)
    requires DistinctValues(aliases) && i < |aliases|
    ensures MappedName(aliases, aliases[i].1) == aliases[i].0
  {
    var n := |aliases| - 1;
    var prev := aliases[..n];
    var inv := InvertAliases(aliases);
    assert inv == Put(InvertAliases(prev), aliases[n].1, aliases[n].0);
    if i == n {
      assert Get(inv, aliases[n].1) == Some(aliases[n].0);
    } else {
      assert prev[i] == aliases[i] && aliases[i].1 != aliases[n].1 by {
        assert i < n;
      }
      assert DistinctValues(prev);
      MappedNameInverts(prev, i);
      PutOther(InvertAliases(prev), aliases[n].1, aliases[n].0, aliases[i].1);
    }
  }

  /**
   * `get_mapped_name` undoes the display lookup of the summary columns:
   * with distinct display names, the display name of a configured field
   * path maps back to that path.
   */
  lemma AliasRoundTrip(aliases: Dict<string, string>, path: string)
    requires DistinctValues(aliases) && path in Keys(aliases)
    ensures MappedName(aliases, DisplayName(aliases, path)) == path
  {
    GetFound(aliases, path);
    var i :| 0 <= i < |aliases| && aliases[i] == (path, Get(aliases, path).value);
    MappedNameInverts(aliases, i);
  }
}
