/**
 * Turning scraped repository names into display titles, and the loops that
 * rewrite the `'repo'` field of every record in place.
 *
 * Two rules exist: app.py and app/github_pins.py split on the first kind of
 * separator present, in the priority '.', '-', '_', and fall back to the
 * camel-case pieces; LandingPage/views.py always uses the camel-case pieces.
 */
module RepoNames {
  import opened Common
  import opened PyStr
  import opened CamelCase

  /** `" ".join(camel_case_split(name))` */
  function CamelWords(name: string): string {
    Join(CamelCaseSplit(name), " ")
  }

  /** The `if '.' … elif '-' … elif '_' … else` chain applied to one name. */
  function NormalizeName(name: string): string {
    if '.' in name then Join(Split(name, '.'), " ")
    else if '-' in name then Join(Split(name, '-'), " ")
    else if '_' in name then Join(Split(name, '_'), " ")
    else CamelWords(name)
  }

  /**
   * Exactly one branch applies, in priority order.  A separator branch puts a
   * space in place of each occurrence of that separator and keeps every other
   * character, so lower-priority separators survive and the length is unchanged.
   */
  lemma NormalizeNameBranches(name: string)
    ensures '.' in name ==> NormalizeName(name) == MapChar(name, '.', ' ')
    ensures '.' !in name && '-' in name ==> NormalizeName(name) == MapChar(name, '-', ' ')
    ensures '.' !in name && '-' !in name && '_' in name ==> NormalizeName(name) == MapChar(name, '_', ' ')
    ensures '.' !in name && '-' !in name && '_' !in name ==> NormalizeName(name) == CamelWords(name)
    ensures '.' in name || '-' in name || '_' in name ==> |NormalizeName(name)| == |name|
  {
    JoinSplit(name, '.', ' ');
    JoinSplit(name, '-', ' ');
    JoinSplit(name, '_', ' ');
  }

  /** Joining capital-led words with single spaces gives letters and spaces only, starting with a capital. */
  lemma {:induction false} JoinPieces(parts: seq<string>)
    requires forall k :: 0 <= k < |parts| ==> PieceShape(parts[k])
    ensures var r := Join(parts, " ");
      && (parts != [] ==> r != [] && IsUpper(r[0]))
      && forall k :: 0 <= k < |r| ==> IsLetter(r[k]) || r[k] == ' '
    decreases |parts|
  {
    if |parts| > 1 {
      JoinPieces(parts[1..]);
      var r := Join(parts, " ");
      var tail := Join(parts[1..], " ");
      assert r == parts[0] + " " + tail;
      forall k | 0 <= k < |r|
        ensures IsLetter(r[k]) || r[k] == ' '
      {
        if k < |parts[0]| {
          assert r[k] == parts[0][k];
        } else if k > |parts[0]| {
          assert r[k] == tail[k - |parts[0]| - 1];
        }
      }
    }
  }

  /** The camel branch yields words made of letters, each led by a capital, separated by single spaces. */
  lemma CamelWordsShape(name: string)
    ensures var r := CamelWords(name);
      && (r != [] ==> IsUpper(r[0]))
      && forall k :: 0 <= k < |r| ==> IsLetter(r[k]) || r[k] == ' '
  {
    CamelCaseSplitPieces(name);
    JoinPieces(CamelCaseSplit(name));
  }

  /** A name with no separator and no capital letter becomes the empty string. */
  lemma NoSeparatorNoCapitalIsEmpty(name: string)
    requires '.' !in name && '-' !in name && '_' !in name
    requires forall k :: 0 <= k < |name| ==> !IsUpper(name[k])
    ensures NormalizeName(name) == ""
  {
    CamelCaseSplitNoCapitals(name);
  }

  /** "a.b-c" becomes "a b-c": only the highest-priority separator is replaced. */
  lemma NormalizeNameKeepsLowerSeparators()
    ensures NormalizeName("a.b-c") == "a b-c"
  {
    NormalizeNameBranches("a.b-c");
    assert MapChar("a.b-c", '.', ' ') == "a b-c";
  }

  lemma NormalizeNameCamel()
    ensures NormalizeName("HTMLParser") == "HTML Parser"
  {
    var s := "HTMLParser";
    assert '.' !in s && '-' !in s && '_' !in s;
    CamelCaseSplitAcronym();
    assert Join(["HTML", "Parser"], " ") == "HTML Parser";
  }

  /** The camel-only rule keeps just the capital-led words: "Foo-Bar" becomes "Foo Bar", "my-repo" becomes "". */
  lemma CamelWordsExamples()
    ensures CamelWords("Foo-Bar") == "Foo Bar"
    ensures CamelWords("my-repo") == ""
  {
    var s := "Foo-Bar";
    assert LowerRunEnd(s, 5) == 7;
    CapitalThenLower(s, 4);
    assert MatchAt(s, 3).None?;
    assert LowerRunEnd(s, 1) == 3;
    CapitalThenLower(s, 0);
    assert Spans(s, 0) == [(0, 3), (4, 7)];
    CamelCaseSplitPieces(s);
    assert s[0..3] == "Foo" && s[4..7] == "Bar";
    assert CamelCaseSplit(s) == ["Foo", "Bar"];
    assert Join(["Foo", "Bar"], " ") == "Foo Bar";
    CamelCaseSplitLowerCase();
  }

  /** Which of the two rewrite rules a loop applies. */
  datatype Rule = SeparatorsFirst | CamelOnly

  function RewriteName(rule: Rule, name: string): string {
    match rule
    case SeparatorsFirst => NormalizeName(name)
    case CamelOnly => CamelWords(name)
  }

  /**
   * The new value of `i['repo']`, or the exception that testing and rewriting
   * the old one raises: only a string has `split` and can be scanned by the
   * regex; for a list or a dict `'.' in v` is a membership test, and a hit
   * there leads to `v.split`, which does not exist.
   */
  function RewriteValue(rule: Rule, v: Json): (r: Result<Json>)
    ensures r.Ok? <==> v.JStr?
    ensures r.Ok? ==> r.value == JStr(RewriteName(rule, v.s))
    ensures r.Err? && rule == CamelOnly ==> r.error == TypeError
  {
    match v
    case JStr(s) => Ok(JStr(RewriteName(rule, s)))
    case JList(items) =>
      if rule == SeparatorsFirst && (JStr(".") in items || JStr("-") in items || JStr("_") in items)
      then Err(AttributeError) else Err(TypeError)
    case JDict(fields) =>
      if rule == SeparatorsFirst && ("." in fields || "-" in fields || "_" in fields)
      then Err(AttributeError) else Err(TypeError)
    case _ => Err(TypeError)
  }

  /** One iteration of the loop: `i['repo'] = …` on one record. */
  function RewriteRecord(rule: Rule, d: Dict): (r: Result<Dict>)
    ensures r.Ok? <==> "repo" in d && d["repo"].JStr?
    ensures "repo" !in d ==> r == Err(KeyError)
    ensures r.Ok? ==> r.value.Keys == d.Keys && r.value["repo"] == JStr(RewriteName(rule, d["repo"].s))
    ensures r.Ok? ==> forall key :: key in d && key != "repo" ==> r.value[key] == d[key]
  {
    if "repo" !in d then Err(KeyError)
    else match RewriteValue(rule, d["repo"])
      case Ok(v) => Ok(d["repo" := v])
      case Err(e) => Err(e)
  }

  /** The per-record step of a loop under `rule`. */
  function Rewriter(rule: Rule): Dict -> Result<Dict> {
    d => RewriteRecord(rule, d)
  }

  /**
   * A `for i in content:` loop whose body is `step`: the records after it and
   * the exception that ended it, if any.  Records before the failing one have
   * been rewritten already; the failing one and those after it are untouched.
   */
  function ApplyAll(step: Dict -> Result<Dict>, s: seq<Dict>): (seq<Dict>, Option<PyError>)
    decreases |s|
  {
    if s == [] then ([], None)
    else match step(s[0])
      case Err(e) => (s, Some(e))
      case Ok(d) => ([d] + ApplyAll(step, s[1..]).0, ApplyAll(step, s[1..]).1)
  }

  /** The loop of app.py, app/github_pins.py and LandingPage/views.py under `rule`. */
  function RewriteAll(rule: Rule, s: seq<Dict>): (seq<Dict>, Option<PyError>) {
    ApplyAll(Rewriter(rule), s)
  }

  /** The index of the first record the step fails on, or |s| when there is none. */
  function FirstFailure(step: Dict -> Result<Dict>, s: seq<Dict>): (f: nat)
    ensures f <= |s|
    ensures forall k :: 0 <= k < f ==> step(s[k]).Ok?
    ensures f < |s| ==> step(s[f]).Err?
    decreases |s|
  {
    if s == [] || step(s[0]).Err? then 0
    else 1 + FirstFailure(step, s[1..])
  }

  /** The loop keeps the number of records. */
  lemma {:induction false} ApplyAllLength(step: Dict -> Result<Dict>, s: seq<Dict>)
    ensures |ApplyAll(step, s).0| == |s|
    decreases |s|
  {
    if s != [] && step(s[0]).Ok? {
      ApplyAllLength(step, s[1..]);
    }
  }

  /** The loop reports an exception exactly when some record fails, and it is the first failure's. */
  lemma {:induction false} ApplyAllError(step: Dict -> Result<Dict>, s: seq<Dict>)
    ensures var f := FirstFailure(step, s); var out := ApplyAll(step, s);
      && (out.1.None? <==> f == |s|)
      && (f < |s| ==> out.1 == Some(step(s[f]).error))
    decreases |s|
  {
    if s != [] && step(s[0]).Ok? {
      ApplyAllError(step, s[1..]);
      assert s[1..][FirstFailure(step, s[1..])..] == s[FirstFailure(step, s)..];
    }
  }

  /** Record k of the loop's output, for k before the first failure: rewritten. */
  lemma {:induction false} ApplyAllBefore(step: Dict -> Result<Dict>, s: seq<Dict>, k: nat)
    requires k < FirstFailure(step, s)
    ensures k < |ApplyAll(step, s).0| && ApplyAll(step, s).0[k] == step(s[k]).value
    decreases k
  {
    assert ApplyAll(step, s).0 == [step(s[0]).value] + ApplyAll(step, s[1..]).0;
    if k > 0 {
      ApplyAllBefore(step, s[1..], k - 1);
      assert s[1..][k - 1] == s[k];
    }
  }

  /** Record k of the loop's output, for k from the first failure on: untouched. */
  lemma {:induction false} ApplyAllAfter(step: Dict -> Result<Dict>, s: seq<Dict>, k: nat)
    requires FirstFailure(step, s) <= k < |s|
    ensures k < |ApplyAll(step, s).0| && ApplyAll(step, s).0[k] == s[k]
    decreases k
  {
    if step(s[0]).Ok? {
      assert ApplyAll(step, s).0 == [step(s[0]).value] + ApplyAll(step, s[1..]).0;
      ApplyAllAfter(step, s[1..], k - 1);
      assert s[1..][k - 1] == s[k];
    }
  }

  /**
   * The loop keeps the number and order of the records, rewrites exactly the
   * records before the first failure, and reports that failure's exception.
   */
  lemma ApplyAllEffect(step: Dict -> Result<Dict>, s: seq<Dict>)
    ensures var f := FirstFailure(step, s); var out := ApplyAll(step, s);
      && |out.0| == |s|
      && (forall k :: 0 <= k < f ==> out.0[k] == step(s[k]).value)
      && (forall k :: f <= k < |s| ==> out.0[k] == s[k])
      && (out.1.None? <==> f == |s|)
      && (f < |s| ==> out.1 == Some(step(s[f]).error))
  {
    ApplyAllLength(step, s);
    ApplyAllError(step, s);
    forall k | 0 <= k < |s|
      ensures k < FirstFailure(step, s) ==> ApplyAll(step, s).0[k] == step(s[k]).value
      ensures FirstFailure(step, s) <= k ==> ApplyAll(step, s).0[k] == s[k]
    {
      if k < FirstFailure(step, s) {
        ApplyAllBefore(step, s, k);
      } else {
        ApplyAllAfter(step, s, k);
      }
    }
  }

  /**
   * Under either rule every record keeps its keys and every field other than
   * `'repo'`, the loop stops at the first record without a string `'repo'`,
   * and when no exception occurs every `'repo'` holds the rewritten name.
   */
  lemma RewriteAllKeepsOtherFields(rule: Rule, s: seq<Dict>)
    ensures var out := RewriteAll(rule, s);
      && |out.0| == |s|
      && (forall k :: 0 <= k < |s| ==> out.0[k].Keys == s[k].Keys)
      && (forall k, key :: 0 <= k < |s| && key in s[k] && key != "repo" ==> out.0[k][key] == s[k][key])
      && (out.1.None? ==> forall k :: 0 <= k < |s| ==>
            "repo" in s[k] && s[k]["repo"].JStr? && out.0[k]["repo"] == JStr(RewriteName(rule, s[k]["repo"].s)))
  {
    ApplyAllEffect(Rewriter(rule), s);
    forall k | 0 <= k < |s|
      ensures Rewriter(rule)(s[k]) == RewriteRecord(rule, s[k])
    {
    }
  }

  /** One step of the loop, from record i on: a failure ends it, a success extends the rewritten prefix. */
  lemma ApplyAllStep(step: Dict -> Result<Dict>, s: seq<Dict>, done: seq<Dict>, i: nat)
    requires i < |s|
    requires ApplyAll(step, s).0 == done + ApplyAll(step, s[i..]).0
    requires ApplyAll(step, s).1 == ApplyAll(step, s[i..]).1
    ensures step(s[i]).Err? ==> ApplyAll(step, s) == (done + s[i..], Some(step(s[i]).error))
    ensures step(s[i]).Ok? ==>
              ApplyAll(step, s).0 == (done + [step(s[i]).value]) + ApplyAll(step, s[i + 1..]).0 &&
              ApplyAll(step, s).1 == ApplyAll(step, s[i + 1..]).1
  {
    assert s[i..][0] == s[i] && s[i..][1..] == s[i + 1..];
    if step(s[i]).Ok? {
      var rest := ApplyAll(step, s[i + 1..]).0;
      assert done + ([step(s[i]).value] + rest) == (done + [step(s[i]).value]) + rest;
    }
  }

  /** The loop on the list of records in place; the result is the exception that escaped it, if any. */
  method ApplyInPlace(content: array<Dict>, step: Dict -> Result<Dict>) returns (err: Option<PyError>)
    modifies content
    ensures content[..] == ApplyAll(step, old(content[..])).0
    ensures err == ApplyAll(step, old(content[..])).1
  {
    ghost var s := content[..];
    var i := 0;
    assert s[0..] == s && content[..0] == [];
    while i < content.Length
      invariant 0 <= i <= content.Length
      invariant content[i..] == s[i..]
      invariant ApplyAll(step, s).0 == content[..i] + ApplyAll(step, s[i..]).0
      invariant ApplyAll(step, s).1 == ApplyAll(step, s[i..]).1
    {
      var r := step(content[i]);
      assert content[i] == s[i];
      ghost var done := content[..i];
      ApplyAllStep(step, s, done, i);
      if r.Err? {
        assert content[..] == done + s[i..];
        return Some(r.error);
      }
      content[i] := r.value;
      assert content[..i + 1] == done + [r.value];
      assert content[i + 1..] == s[i + 1..];
      i := i + 1;
    }
    assert content[..] == content[..i] && s[i..] == [];
    err := None;
  }

  /**
   * The `for i in content:` loop of app.py:76-87, app/github_pins.py:59-70 and
   * LandingPage/views.py:19-20, on the list of records in place.  The result
   * is the exception that escaped the loop, if any.
   */
  method RewriteRepoNames(content: array<Dict>, rule: Rule) returns (err: Option<PyError>)
    modifies content
    ensures content[..] == RewriteAll(rule, old(content[..])).0
    ensures err == RewriteAll(rule, old(content[..])).1
  {
    err := ApplyInPlace(content, Rewriter(rule));
  }
}
