/**
 * Values shared by the models of the Python and TypeScript code: optional
 * values, Python's exceptions as error values, JSON-like dictionaries, and the
 * few string operations the source uses (`startswith`, `in`, `replace`).
 */
module Common {

  datatype Option<+T> = None | Some(value: T)

  /** The Python exceptions the modelled code can raise. */
  datatype PyError = KeyError | IndexError | ValueError | TypeError | AttributeError

  /** The outcome of a Python call: a value, or the exception it raised. */
  datatype Result<+T> = Ok(value: T) | Err(error: PyError)

  /** A value as `json.load` or a scraper builds it (floats are not modelled). */
  datatype Json =
    | JNull
    | JBool(b: bool)
    | JInt(i: int)
    | JStr(s: string)
    | JList(items: seq<Json>)
    | JDict(fields: map<string, Json>)

  /** A Python dict with string keys. */
  type Dict = map<string, Json>

  /** `s.startswith(prefix)` */
  predicate StartsWith(s: string, prefix: string) {
    |prefix| <= |s| && s[..|prefix|] == prefix
  }

  /** `sub in s` for strings. */
  predicate Contains(s: string, sub: string)
    decreases |s|
  {
    StartsWith(s, sub) || (s != [] && Contains(s[1..], sub))
  }

  /**
   * `s.replace(pat, rep)`: every non-overlapping occurrence of `pat`, scanning
   * from the left, is replaced by `rep`.
   */
  function ReplaceAll(s: string, pat: string, rep: string): string
    requires pat != []
    decreases |s|
  {
    if |s| < |pat| then s
    else if s[..|pat|] == pat then rep + ReplaceAll(s[|pat|..], pat, rep)
    else [s[0]] + ReplaceAll(s[1..], pat, rep)
  }

  /** Removing a character that occurs only at the very end drops just that last character. */
  lemma {:induction false} ReplaceAllDropsLast(t: string, c: char)
    requires c !in t
    ensures ReplaceAll(t + [c], [c], "") == t
    decreases |t|
  {
    var s := t + [c];
    if t == [] {
      assert s[..1] == [c] && s[1..] == [];
    } else {
      assert s[..1] == [t[0]] && s[1..] == t[1..] + [c];
      ReplaceAllDropsLast(t[1..], c);
      assert [t[0]] + t[1..] == t;
    }
  }

  /** Removing every occurrence of a one-character string leaves none of it behind. */
  lemma {:induction false} ReplaceAllRemovesChar(s: string, c: char)
    ensures c !in ReplaceAll(s, [c], "")
    decreases |s|
  {
    if |s| >= 1 {
      ReplaceAllRemovesChar(s[1..], c);
      if s[..1] == [c] {
        assert ReplaceAll(s, [c], "") == ReplaceAll(s[1..], [c], "");
      } else {
        assert s[0] != c;
        assert ReplaceAll(s, [c], "") == [s[0]] + ReplaceAll(s[1..], [c], "");
      }
    }
  }
}
