/**
 * What both scrapers read from a pinned-repository card on a GitHub profile
 * page, and the record they build from it.  Each Selenium lookup is an input:
 * `None` where `find_element` raises (or, for an attribute, where the value
 * is absent and the string operation on it raises).
 */
module PinCard {
  import opened Common
  import opened Decimal

  /** The texts and attributes a card offers to the scraper. */
  datatype Pin = Pin(
    owner: Option<string>,
    repo: Option<string>,
    description: Option<string>,
    language: Option<string>,
    languageStyle: Option<string>,
    meta: seq<string>)

  /**
   * The record a scraper returns for a card: `{}` or the ten-field dict.
   * `image` and `website` are Json because the website step may store
   * Python's `None` in them.
   */
  datatype Record =
    | NoRecord
    | Repo(owner: string, repo: string, link: string, description: string,
           image: Json, website: Json, language: string, languageColor: string,
           stars: int, forks: int)

  /** The record as the Python dict the rest of the program sees. */
  function ToDict(r: Record): (d: Dict)
    ensures r.NoRecord? ==> d == map[]
    ensures r.Repo? ==> "repo" in d && d["repo"] == JStr(r.repo) && "owner" in d && "link" in d
  {
    match r
    case NoRecord => map[]
    case Repo(owner, repo, link, description, image, website, language, languageColor, stars, forks) =>
      map["owner" := JStr(owner), "repo" := JStr(repo), "link" := JStr(link),
          "description" := JStr(description), "image" := image, "website" := website,
          "language" := JStr(language), "languageColor" := JStr(languageColor),
          "stars" := JInt(stars), "forks" := JInt(forks)]
  }

  /** `style.replace("background-color: ", "").replace(";", "")` */
  function CleanColour(style: string): (colour: string)
    ensures ';' !in colour
  {
    ReplaceAllRemovesChar(ReplaceAll(style, "background-color: ", ""), ';');
    ReplaceAll(ReplaceAll(style, "background-color: ", ""), ";", "")
  }

  /**
   * A style attribute of the usual form `background-color: <colour>;` gives
   * back the colour, for any colour value shorter than the property name.
   */
  lemma CleanColourOfStyle(colour: string)
    requires ';' !in colour && |colour| < 17
    ensures CleanColour("background-color: " + colour + ";") == colour
  {
    var prop := "background-color: ";
    var style := prop + colour + ";";
    assert style[..|prop|] == prop;
    assert style[|prop|..] == colour + ";";
    assert ReplaceAll(colour + ";", prop, "") == colour + ";";
    assert ReplaceAll(style, prop, "") == "" + ReplaceAll(colour + ";", prop, "");
    ReplaceAllDropsLast(colour, ';');
    assert ReplaceAll(colour + ";", ";", "") == colour;
    assert ReplaceAll(style, prop, "") == colour + ";";
    assert CleanColour(style) == ReplaceAll(ReplaceAll(style, prop, ""), ";", "");
  }
}
