/**
 * `camel_case_split(s)`: `re.findall(r"[A-Z](?:[a-z]+|[A-Z]*(?=[A-Z]|$))", s)`,
 * written out as the left-to-right scan the regex engine performs.  At each
 * position the pattern either matches (the next search starts where the match
 * ends) or fails (the search moves on by one character).  At a capital:
 *  - followed by a lower-case letter, the match is the capital and the whole
 *    lower-case run (`[a-z]+` is greedy and nothing follows it);
 *  - otherwise `[A-Z]*` takes the whole run of capitals; the look-ahead then
 *    succeeds only at the end of the string (Python's `$` also matches just
 *    before a final newline), and if it fails the engine gives back the last
 *    capital of the run, where the look-ahead does succeed; with no capital to
 *    give back there is no match at this position.
 * The character classes are ASCII: no other letter counts.
 */
module CamelCase {
  import opened Common

  predicate IsUpper(c: char) { 'A' <= c <= 'Z' }
  predicate IsLower(c: char) { 'a' <= c <= 'z' }
  predicate IsLetter(c: char) { IsUpper(c) || IsLower(c) }

  /** Python's `$` (no MULTILINE) at position q. */
  predicate AtEnd(s: string, q: nat) {
    q == |s| || (q + 1 == |s| && s[q] == '\n')
  }

  /** The end of the run of lower-case letters starting at q. */
  function LowerRunEnd(s: string, q: nat): (e: nat)
    requires q <= |s|
    ensures q <= e <= |s|
    ensures forall k :: q <= k < e ==> IsLower(s[k])
    ensures e < |s| ==> !IsLower(s[e])
    decreases |s| - q
  {
    if q < |s| && IsLower(s[q]) then LowerRunEnd(s, q + 1) else q
  }

  /** The end of the run of capitals starting at q. */
  function UpperRunEnd(s: string, q: nat): (e: nat)
    requires q <= |s|
    ensures q <= e <= |s|
    ensures forall k :: q <= k < e ==> IsUpper(s[k])
    ensures e < |s| ==> !IsUpper(s[e])
    decreases |s| - q
  {
    if q < |s| && IsUpper(s[q]) then UpperRunEnd(s, q + 1) else q
  }

  /** Where a match of the pattern that starts at p ends, or None when there is none. */
  function MatchAt(s: string, p: nat): (r: Option<nat>)
    requires p < |s|
    ensures r.Some? ==> p < r.value <= |s|
  {
    if !IsUpper(s[p]) then None
    else if p + 1 < |s| && IsLower(s[p + 1]) then Some(LowerRunEnd(s, p + 1))
    else
      var q := UpperRunEnd(s, p + 1);
      if AtEnd(s, q) then Some(q)
      else if q > p + 1 then Some(q - 1)
      else None
  }

  /** The matches `findall` reports from position p on, as (start, end) pairs. */
  function Spans(s: string, p: nat): seq<(nat, nat)>
    requires p <= |s|
    decreases |s| - p
  {
    if p == |s| then []
    else match MatchAt(s, p)
      case None => Spans(s, p + 1)
      case Some(e) => [(p, e)] + Spans(s, e)
  }

  /** `camel_case_split(s)` */
  function CamelCaseSplit(s: string): seq<string> {
    var spans := Spans(s, 0);
    SpansWellFormed(s, 0);
    seq(|spans|, k requires 0 <= k < |spans| => s[spans[k].0..spans[k].1])
  }

  /** The spans are non-empty, inside [p, |s|], and in strictly increasing, non-overlapping order. */
  predicate OrderedSpans(s: string, p: nat, spans: seq<(nat, nat)>) {
    && (forall k :: 0 <= k < |spans| ==> p <= spans[k].0 < spans[k].1 <= |s|)
    && (forall k :: 0 <= k < |spans| - 1 ==> spans[k].1 <= spans[k + 1].0)
  }

  lemma {:induction false} SpansWellFormed(s: string, p: nat)
    requires p <= |s|
    ensures OrderedSpans(s, p, Spans(s, p))
    decreases |s| - p
  {
    if p < |s| {
      match MatchAt(s, p)
      case None => SpansWellFormed(s, p + 1);
      case Some(e) => SpansWellFormed(s, e);
    }
  }

  /** What every match looks like: a capital first, then letters only. */
  predicate PieceShape(piece: string) {
    piece != [] && IsUpper(piece[0]) && forall k :: 0 <= k < |piece| ==> IsLetter(piece[k])
  }

  lemma MatchShape(s: string, p: nat)
    requires p < |s| && MatchAt(s, p).Some?
    ensures PieceShape(s[p..MatchAt(s, p).value])
  {
  }

  lemma {:induction false} SpansShape(s: string, p: nat)
    requires p <= |s|
    ensures forall k :: 0 <= k < |Spans(s, p)| ==>
              Spans(s, p)[k].0 < Spans(s, p)[k].1 <= |s| && PieceShape(s[Spans(s, p)[k].0..Spans(s, p)[k].1])
    decreases |s| - p
  {
    if p < |s| {
      match MatchAt(s, p)
      case None => SpansShape(s, p + 1);
      case Some(e) =>
        MatchShape(s, p);
        SpansShape(s, e);
    }
  }

  /**
   * The pieces are substrings of the input taken at increasing, non-overlapping
   * positions, and each is a capital followed by letters.
   */
  lemma CamelCaseSplitPieces(s: string)
    ensures var spans := Spans(s, 0); var pieces := CamelCaseSplit(s);
      && |pieces| == |spans| && OrderedSpans(s, 0, spans)
      && forall k :: 0 <= k < |pieces| ==> pieces[k] == s[spans[k].0..spans[k].1] && PieceShape(pieces[k])
  {
    SpansWellFormed(s, 0);
    SpansShape(s, 0);
  }

  /** A string without ASCII capitals from p on yields no pieces. */
  lemma {:induction false} NoCapitalsNoPieces(s: string, p: nat)
    requires p <= |s|
    requires forall k :: p <= k < |s| ==> !IsUpper(s[k])
    ensures Spans(s, p) == []
    decreases |s| - p
  {
    if p < |s| {
      NoCapitalsNoPieces(s, p + 1);
    }
  }

  lemma CamelCaseSplitNoCapitals(s: string)
    requires forall k :: 0 <= k < |s| ==> !IsUpper(s[k])
    ensures CamelCaseSplit(s) == []
  {
    NoCapitalsNoPieces(s, 0);
  }

  /** The first piece starts at the first capital that begins a match. */
  lemma {:induction false} SkipToMatch(s: string, p: nat, q: nat)
    requires p <= q < |s|
    requires forall k :: p <= k < q ==> MatchAt(s, k).None?
    ensures Spans(s, p) == Spans(s, q)
    decreases q - p
  {
    if p < q {
      SkipToMatch(s, p + 1, q);
    }
  }

  /** A capital followed by lower-case letters takes the whole lower-case run. */
  lemma CapitalThenLower(s: string, p: nat)
    requires p + 1 < |s| && IsUpper(s[p]) && IsLower(s[p + 1])
    ensures Spans(s, p) == [(p, LowerRunEnd(s, p + 1))] + Spans(s, LowerRunEnd(s, p + 1))
  {
  }

  /** A run of capitals stopped by something other than the end loses its last capital. */
  lemma CapitalRun(s: string, p: nat)
    requires p < |s| && IsUpper(s[p]) && !(p + 1 < |s| && IsLower(s[p + 1]))
    ensures var q := UpperRunEnd(s, p + 1);
      && (AtEnd(s, q) ==> Spans(s, p) == [(p, q)])
      && (!AtEnd(s, q) && q > p + 1 ==> Spans(s, p) == [(p, q - 1)] + Spans(s, q - 1))
      && (!AtEnd(s, q) && q == p + 1 ==> Spans(s, p) == Spans(s, p + 1))
  {
    var q := UpperRunEnd(s, p + 1);
    if AtEnd(s, q) {
      if q < |s| {
        assert Spans(s, q) == Spans(s, q + 1) == [] by { assert MatchAt(s, q).None?; }
      }
    }
  }

  /** In a name made only of letters, every capital starts a match, and the next one starts where it ends. */
  lemma LetterMatch(s: string, p: nat)
    requires p < |s| && IsUpper(s[p])
    requires forall k :: 0 <= k < |s| ==> IsLetter(s[k])
    ensures MatchAt(s, p).Some?
    ensures MatchAt(s, p).value < |s| ==> IsUpper(s[MatchAt(s, p).value])
  {
    if !(p + 1 < |s| && IsLower(s[p + 1])) {
      var q := UpperRunEnd(s, p + 1);
      if q < |s| {
        assert IsLower(s[q]);
        assert q != p + 1;
      }
    }
  }

  /**
   * For a name made only of ASCII letters nothing is lost after the first
   * capital: the pieces, joined without separators, give back the name from its
   * first capital on.
   */
  lemma {:induction false} LettersTile(s: string, p: nat)
    requires p <= |s|
    requires forall k :: 0 <= k < |s| ==> IsLetter(s[k])
    requires p < |s| ==> IsUpper(s[p])
    ensures OrderedSpans(s, p, Spans(s, p))
    ensures Concat(Spans(s, p), s) == s[p..]
    decreases |s| - p
  {
    SpansWellFormed(s, p);
    if p < |s| {
      LetterMatch(s, p);
      var e := MatchAt(s, p).value;
      LettersTile(s, e);
      var spans := Spans(s, p);
      assert spans == [(p, e)] + Spans(s, e);
      assert spans[1..] == Spans(s, e);
      assert Concat(spans, s) == s[p..e] + Concat(Spans(s, e), s);
      assert s[p..] == s[p..e] + s[e..];
    }
  }

  /** The pieces of `s` named by `spans`, joined without separators. */
  function Concat(spans: seq<(nat, nat)>, s: string): string
    requires forall k :: 0 <= k < |spans| ==> spans[k].0 <= spans[k].1 <= |s|
  {
    if spans == [] then "" else s[spans[0].0..spans[0].1] + Concat(spans[1..], s)
  }

  lemma CamelCaseSplitFooBar()
    ensures CamelCaseSplit("FooBar") == ["Foo", "Bar"]
  {
    var s := "FooBar";
    assert LowerRunEnd(s, 4) == 6;
    CapitalThenLower(s, 3);
    assert LowerRunEnd(s, 1) == 3;
    CapitalThenLower(s, 0);
    assert Spans(s, 0) == [(0, 3), (3, 6)];
    CamelCaseSplitPieces(s);
    assert s[0..3] == "Foo" && s[3..6] == "Bar";
    assert CamelCaseSplit(s)[0] == "Foo" && CamelCaseSplit(s)[1] == "Bar";
  }

  lemma CamelCaseSplitAcronym()
    ensures CamelCaseSplit("HTMLParser") == ["HTML", "Parser"]
  {
    var s := "HTMLParser";
    assert LowerRunEnd(s, 5) == 10;
    CapitalThenLower(s, 4);
    assert UpperRunEnd(s, 1) == 5;
    CapitalRun(s, 0);
    assert Spans(s, 0) == [(0, 4), (4, 10)];
    CamelCaseSplitPieces(s);
    assert s[0..4] == "HTML" && s[4..10] == "Parser";
    assert CamelCaseSplit(s)[0] == "HTML" && CamelCaseSplit(s)[1] == "Parser";
  }

  lemma CamelCaseSplitAllCapitals()
    ensures CamelCaseSplit("ABC") == ["ABC"]
  {
    var s := "ABC";
    assert UpperRunEnd(s, 1) == 3;
    CapitalRun(s, 0);
    assert Spans(s, 0) == [(0, 3)];
    CamelCaseSplitPieces(s);
    assert s[0..3] == "ABC";
    assert CamelCaseSplit(s)[0] == "ABC";
  }

  /** A lone capital followed by a digit is not a match: `[A-Z]*` has nothing to give back. */
  lemma CamelCaseSplitCapitalDigit()
    ensures CamelCaseSplit("A1") == []
  {
    var s := "A1";
    assert UpperRunEnd(s, 1) == 1;
    CapitalRun(s, 0);
    NoCapitalsNoPieces(s, 1);
    assert Spans(s, 0) == [];
  }

  lemma CamelCaseSplitLowerCase()
    ensures CamelCaseSplit("my-repo") == []
  {
    CamelCaseSplitNoCapitals("my-repo");
  }
}
