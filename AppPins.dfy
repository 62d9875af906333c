/**
 * The scraper class of app/github_pins.py.  Unlike the script version, its
 * `get_repo` is all-or-nothing: one failed lookup among owner, name,
 * description, language and colour gives `{}`, while the star and fork
 * counts are read outside the `try` and their failures escape.  Its
 * `get_repos` calls `scrape_github()` without the `username` argument that
 * method requires, so it always raises TypeError and `set_repo_context`
 * always falls back to the static repository file.
 */
module AppPins {
  import opened Common
  import opened Decimal
  import opened PinCard
  import opened RepoNames
  import opened PyUtils
  import SiteContext

  /**
   * `get_repo(pin)`; `githubLink` is `GITHUB_LINK.format`, whose template
   * lives in app/constants.py.
   */
  function GetRepo(pin: Pin, githubLink: (string, string) -> string): (r: Result<Record>)
    ensures r.Ok? && r.value.Repo? ==> r.value.image == JStr("") && r.value.website == JStr("")
    ensures r.Ok? && r.value.Repo? ==> ';' !in r.value.languageColor
  {
    if pin.owner.None? || pin.repo.None? || pin.description.None? || pin.language.None? || pin.languageStyle.None? then
      Ok(NoRecord)
    else if |pin.meta| < 1 then Err(IndexError)
    else match ParseInt(pin.meta[0])
      case Err(e) => Err(e)
      case Ok(stars) =>
        if |pin.meta| < 2 then Err(IndexError)
        else match ParseInt(pin.meta[1])
          case Err(e) => Err(e)
          case Ok(forks) =>
            var owner := pin.owner.value;
            var repo := pin.repo.value;
            Ok(Repo(owner, repo, githubLink(owner, repo), pin.description.value, JStr(""), JStr(""),
                    pin.language.value, CleanColour(pin.languageStyle.value), stars, forks))
  }

  /**
   * All or nothing: `{}` exactly when one of the five lookups fails, the full
   * record of the looked-up values (the link from the template, the colour
   * cleaned) when all of them and both counts succeed, and otherwise the
   * IndexError or ValueError of the counts escapes.
   */
  lemma GetRepoAllOrNothing(pin: Pin, githubLink: (string, string) -> string)
    ensures var lookupsOk := pin.owner.Some? && pin.repo.Some? && pin.description.Some? &&
                             pin.language.Some? && pin.languageStyle.Some?;
      var countsOk := |pin.meta| >= 2 && ParseInt(pin.meta[0]).Ok? && ParseInt(pin.meta[1]).Ok?;
      var r := GetRepo(pin, githubLink);
      && (r == Ok(NoRecord) <==> !lookupsOk)
      && (r.Ok? && r.value.Repo? <==> lookupsOk && countsOk)
      && (r.Err? <==> lookupsOk && !countsOk)
      && (r.Err? ==> r.error == IndexError || r.error == ValueError)
      && (r.Ok? && r.value.Repo? ==>
            r.value.owner == pin.owner.value && r.value.repo == pin.repo.value &&
            r.value.link == githubLink(pin.owner.value, pin.repo.value) &&
            r.value.description == pin.description.value && r.value.language == pin.language.value &&
            r.value.languageColor == CleanColour(pin.languageStyle.value) &&
            r.value.stars == ParseInt(pin.meta[0]).value && r.value.forks == ParseInt(pin.meta[1]).value)
  {
  }

  /** A missing owner drops the whole card here, whereas the script version falls back to the user name. */
  lemma MissingOwnerDropsCard(pin: Pin, githubLink: (string, string) -> string)
    requires pin.owner.None?
    ensures GetRepo(pin, githubLink) == Ok(NoRecord)
  {
  }

  /** The number of arguments `scrape_github(self, username)` takes besides `self`. */
  const ScrapeGithubParameters: nat := 1

  /** The arguments `get_repos` passes to it: none. */
  const GetReposArguments: seq<string> := []

  /**
   * Calling `self.scrape_github(*args)`: a wrong number of arguments raises
   * TypeError before the body runs; `scrape` is the body for a user name.
   */
  function CallScrapeGithub(args: seq<string>, scrape: string -> seq<Dict>): Result<seq<Dict>> {
    if |args| != ScrapeGithubParameters then Err(TypeError) else Ok(scrape(args[0]))
  }

  /** `get_repos()`: scrape, then rewrite every name by the separator rule. */
  function GetRepos(scrape: string -> seq<Dict>): Result<seq<Dict>> {
    match CallScrapeGithub(GetReposArguments, scrape)
    case Err(e) => Err(e)
    case Ok(content) =>
      var out := RewriteAll(SeparatorsFirst, content);
      if out.1.Some? then Err(out.1.value) else Ok(out.0)
  }

  /** Whatever the scraper would return, `get_repos` raises TypeError. */
  lemma GetReposAlwaysRaises(scrape: string -> seq<Dict>)
    ensures GetRepos(scrape) == Err(TypeError)
  {
  }

  /** The context keys `set_repo_context` fills from user_data.json, and the JSON keys they come from, in order. */
  const UserDataKeys: seq<(string, string)> := [
    ("papers", "RESEARCH_PAPERS"),
    ("intern_certs", "INTERNSHIP_CERTIFICATES"),
    ("course_certs", "COURSE_CERTIFICATES"),
    ("college_certs", "COLLEGE_CERTIFICATES")
  ]

  /**
   * `set_repo_context(context)` on the dict's entries: the new entries and the
   * exception that escaped, if any.  `repos` is the outcome of `get_repos`,
   * `staticRepos` the loaded static/data/repos.json and `userData` the loaded
   * static/data/user_data.json.
   */
  function SetRepoContextSpec(entries: Dict, repos: Result<seq<Dict>>, staticRepos: Json, userData: Json): (Dict, Option<PyError>) {
    var e0 := entries["repos" := if repos.Ok? then SiteContext.DictList(repos.value) else staticRepos];
    FillFromUserData(e0, userData, 0)
  }

  /** The `context[k] = get_json_data(K)` lines from the i-th on. */
  function FillFromUserData(entries: Dict, userData: Json, i: nat): (Dict, Option<PyError>)
    requires i <= |UserDataKeys|
    decreases |UserDataKeys| - i
  {
    if i == |UserDataKeys| then (entries["typewriter" := SiteContext.TypewriterJson()], None)
    else match GetJsonData(userData, UserDataKeys[i].1)
      case Err(e) => (entries, Some(e))
      case Ok(v) => FillFromUserData(entries[UserDataKeys[i].0 := v], userData, i + 1)
  }

  /**
   * `get_repos` always raises, so `'repos'` is always the static file; when
   * user_data.json holds the four lists, every key is set and nothing else
   * changes.
   */
  lemma SetRepoContextFallsBack(entries: Dict, scrape: string -> seq<Dict>, staticRepos: Json, fields: Dict)
    requires "RESEARCH_PAPERS" in fields && "INTERNSHIP_CERTIFICATES" in fields
    requires "COURSE_CERTIFICATES" in fields && "COLLEGE_CERTIFICATES" in fields
    ensures var out := SetRepoContextSpec(entries, GetRepos(scrape), staticRepos, JDict(fields));
      && out.1 == None
      && out.0 == entries["repos" := staticRepos]["papers" := fields["RESEARCH_PAPERS"]]
                         ["intern_certs" := fields["INTERNSHIP_CERTIFICATES"]]
                         ["course_certs" := fields["COURSE_CERTIFICATES"]]
                         ["college_certs" := fields["COLLEGE_CERTIFICATES"]]
                         ["typewriter" := SiteContext.TypewriterJson()]
  {
    GetReposAlwaysRaises(scrape);
  }

  /**
   * A user_data.json without the research papers raises KeyError after
   * `'repos'` is set and before anything else is.
   */
  lemma SetRepoContextMissingPapers(entries: Dict, repos: Result<seq<Dict>>, staticRepos: Json, fields: Dict)
    requires "RESEARCH_PAPERS" !in fields
    ensures var out := SetRepoContextSpec(entries, repos, staticRepos, JDict(fields));
      out.1 == Some(KeyError) &&
      out.0 == entries["repos" := if repos.Ok? then SiteContext.DictList(repos.value) else staticRepos]
  {
  }

  /** A user_data.json that is not an object raises TypeError at the first lookup. */
  lemma SetRepoContextNotAnObject(entries: Dict, repos: Result<seq<Dict>>, staticRepos: Json, userData: Json)
    requires !userData.JDict?
    ensures SetRepoContextSpec(entries, repos, staticRepos, userData).1 == Some(TypeError)
  {
  }

  /** `GetPinnedGithubRepos`: the scraper object and its user name. */
  class PinnedGithubRepos {
    const username: string

    constructor(user: string)
      ensures username == user
    {
      username := user;
    }

    /**
     * `set_repo_context(context)`: fills the dict in place and returns the
     * same dict, or the exception that escaped.  `repos` is the outcome of
     * `self.get_repos()`, which `GetReposAlwaysRaises` shows to be TypeError.
     */
    method SetRepoContext(context: SiteContext.Context, repos: Result<seq<Dict>>, staticRepos: Json, userData: Json)
      returns (r: Result<SiteContext.Context>)
      modifies context
      ensures context.entries == SetRepoContextSpec(old(context.entries), repos, staticRepos, userData).0
      ensures r.Ok? <==> SetRepoContextSpec(old(context.entries), repos, staticRepos, userData).1.None?
      ensures r.Ok? ==> r.value == context
      ensures r.Err? ==> Some(r.error) == SetRepoContextSpec(old(context.entries), repos, staticRepos, userData).1
    {
      if repos.Ok? {
        context.entries := context.entries["repos" := SiteContext.DictList(repos.value)];
      } else {
        context.entries := context.entries["repos" := staticRepos];
      }
      var papers := GetJsonData(userData, "RESEARCH_PAPERS");
      if papers.Err? {
        return Err(papers.error);
      }
      context.entries := context.entries["papers" := papers.value];
      var internCerts := GetJsonData(userData, "INTERNSHIP_CERTIFICATES");
      if internCerts.Err? {
        return Err(internCerts.error);
      }
      context.entries := context.entries["intern_certs" := internCerts.value];
      var courseCerts := GetJsonData(userData, "COURSE_CERTIFICATES");
      if courseCerts.Err? {
        return Err(courseCerts.error);
      }
      context.entries := context.entries["course_certs" := courseCerts.value];
      var collegeCerts := GetJsonData(userData, "COLLEGE_CERTIFICATES");
      if collegeCerts.Err? {
        return Err(collegeCerts.error);
      }
      context.entries := context.entries["college_certs" := collegeCerts.value];
      context.entries := context.entries["typewriter" := SiteContext.TypewriterJson()];
      r := Ok(context);
    }
  }
}
