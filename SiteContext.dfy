/**
 * The Flask site of app.py: a module-level `context` dict built once at
 * import, the `get_repos` step that fills its `'repos'` entry from the
 * scraper, and the four routes, each of which records its page name in the
 * shared dict and then reads the entries its template needs.
 */
module SiteContext {
  import opened Common
  import opened PinCard
  import opened RepoNames

  /** A Python dict that several functions update in place. */
  class Context {
    var entries: Dict

    constructor(initial: Dict)
      ensures entries == initial
    {
      entries := initial;
    }
  }

  /** The eight sentences of the `typewriter` entry, in order. */
  const Typewriter: seq<string> := [
    "Humans are the only animals that blush.",
    "The moon has moonquakes.",
    "Kids ask 300 questions a day.",
    "Don't have kids.",
    "The human body literally glows.",
    "The first computer was invented in the 1940s.",
    "The unicorn is the national animal of Scotland.",
    "Rabbits can't puke."
  ]

  function TypewriterJson(): (j: Json)
    ensures j.JList? && |j.items| == 8
  {
    JList(seq(|Typewriter|, k requires 0 <= k < |Typewriter| => JStr(Typewriter[k])))
  }

  function DictList(records: seq<Dict>): Json {
    JList(seq(|records|, k requires 0 <= k < |records| => JDict(records[k])))
  }

  /**
   * app.py's `get_repos()`: the scraped records as dicts, with every `'repo'`
   * rewritten by the separator rule; an exception in the loop propagates.
   */
  function GetRepos(scraped: seq<Record>): Result<seq<Dict>> {
    var content := seq(|scraped|, k requires 0 <= k < |scraped| => ToDict(scraped[k]));
    var out := RewriteAll(SeparatorsFirst, content);
    if out.1.Some? then Err(out.1.value) else Ok(out.0)
  }

  /**
   * A `{}` record from the scraper makes `get_repos` raise KeyError (and with
   * it the import of app.py); without one, every record keeps its fields and
   * gets its name normalised.
   */
  lemma GetReposOutcome(scraped: seq<Record>)
    ensures (exists j :: 0 <= j < |scraped| && scraped[j].NoRecord?) <==> GetRepos(scraped) == Err(KeyError)
    ensures GetRepos(scraped).Ok? ==>
      && |GetRepos(scraped).value| == |scraped|
      && forall k :: 0 <= k < |scraped| ==>
           scraped[k].Repo? &&
           GetRepos(scraped).value[k] == ToDict(scraped[k])["repo" := JStr(NormalizeName(scraped[k].repo))]
  {
    var content := seq(|scraped|, k requires 0 <= k < |scraped| => ToDict(scraped[k]));
    var step := Rewriter(SeparatorsFirst);
    ApplyAllEffect(step, content);
    var f := FirstFailure(step, content);
    if exists j :: 0 <= j < |scraped| && scraped[j].NoRecord? {
      var j :| 0 <= j < |scraped| && scraped[j].NoRecord?;
      assert step(content[j]).Err?;
      assert f <= j;
      assert content[f] == ToDict(scraped[f]);
    }
  }

  /** The entries of `context` once app.py has been imported (app.py:102-128). */
  function SiteEntries(repos: seq<Dict>, papers: Json, internCerts: Json, collegeCerts: Json, courseCerts: Json): Dict {
    map["name" := JStr("home"), "repos" := DictList(repos), "papers" := papers,
        "intern_certs" := internCerts, "college_certs" := collegeCerts,
        "course_certs" := courseCerts, "typewriter" := TypewriterJson()]
  }

  /**
   * The module-level statements of app.py that build `context` key by key;
   * the loaded JSON files are parameters.
   */
  method BuildContext(repos: seq<Dict>, papers: Json, internCerts: Json, collegeCerts: Json, courseCerts: Json)
    returns (context: Context)
    ensures fresh(context)
    ensures context.entries == SiteEntries(repos, papers, internCerts, collegeCerts, courseCerts)
  {
    context := new Context(map["name" := JStr("home")]);
    context.entries := context.entries["repos" := DictList(repos)];
    context.entries := context.entries["papers" := papers];
    context.entries := context.entries["intern_certs" := internCerts];
    context.entries := context.entries["college_certs" := collegeCerts];
    context.entries := context.entries["course_certs" := courseCerts];
    context.entries := context.entries["typewriter" := TypewriterJson()];
  }

  datatype Page = Home | Certificates | Research | Resume

  /** The value each route stores in `context['name']`. */
  function PageName(p: Page): string {
    match p
    case Home => "home"
    case Certificates => "certificates"
    case Research => "research"
    case Resume => "resume"
  }

  /** The context entries each route passes to its template, after `name`. */
  function TemplateKeys(p: Page): seq<string> {
    match p
    case Home => ["name", "repos", "typewriter"]
    case Certificates => ["name", "intern_certs", "college_certs", "course_certs", "typewriter"]
    case Research => ["name", "papers", "typewriter"]
    case Resume => ["name", "typewriter"]
  }

  /** The template arguments read from the dict: KeyError if any entry is missing. */
  function TemplateArgs(entries: Dict, keys: seq<string>): (r: Result<Dict>)
    ensures r.Ok? <==> forall k :: 0 <= k < |keys| ==> keys[k] in entries
    ensures r.Ok? ==> r.value.Keys <= entries.Keys && forall key :: key in r.value ==> r.value[key] == entries[key]
    ensures r.Ok? ==> forall k :: 0 <= k < |keys| ==> keys[k] in r.value
    ensures r.Err? ==> r.error == KeyError
    decreases |keys|
  {
    if keys == [] then Ok(map[])
    else if keys[0] !in entries then Err(KeyError)
    else match TemplateArgs(entries, keys[1..])
      case Err(e) => Err(e)
      case Ok(rest) => Ok(rest[keys[0] := entries[keys[0]]])
  }

  /** What a route leaves in the dict: only the name changes. */
  function AfterRoute(entries: Dict, p: Page): Dict {
    entries["name" := JStr(PageName(p))]
  }

  /**
   * The route handlers: `context['name'] = <page>` on the shared dict, then
   * `render_template(…, name=context['name'], …)` with the page's entries.
   */
  method Serve(context: Context, p: Page) returns (args: Result<Dict>)
    modifies context
    ensures context.entries == AfterRoute(old(context.entries), p)
    ensures args == TemplateArgs(context.entries, TemplateKeys(p))
  {
    context.entries := context.entries["name" := JStr(PageName(p))];
    args := TemplateArgs(context.entries, TemplateKeys(p));
  }

  /**
   * On the dict app.py builds at import every route renders, with its own page
   * name as the `name` argument, and the other entries are left alone.
   */
  lemma RoutesRenderOnSiteContext(p: Page, repos: seq<Dict>, papers: Json, internCerts: Json, collegeCerts: Json, courseCerts: Json)
    ensures var before := SiteEntries(repos, papers, internCerts, collegeCerts, courseCerts);
      var after := AfterRoute(before, p);
      var args := TemplateArgs(after, TemplateKeys(p));
      && args.Ok? && "name" in args.value && args.value["name"] == JStr(PageName(p))
      && after.Keys == before.Keys
      && forall key :: key in before && key != "name" ==> after[key] == before[key]
  {
    var before := SiteEntries(repos, papers, internCerts, collegeCerts, courseCerts);
    var after := AfterRoute(before, p);
    var args := TemplateArgs(after, TemplateKeys(p));
    assert args.Ok?;
    assert "name" in args.value;
  }

  /** Each route names its own page: the four names are distinct. */
  lemma PageNamesDistinct(p: Page, q: Page)
    ensures PageName(p) == PageName(q) <==> p == q
  {
  }
}
