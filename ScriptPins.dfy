/**
 * The pinned-repository scraper of scripts/github_pins.py.  Every field of a
 * record has its own fallback: only a missing repository name drops the card
 * (to `{}`).  After all cards are read, each record is completed with the
 * repository's website and social image, until the first record or page that
 * makes that step raise; the list is returned either way.
 */
module ScriptPins {
  import opened Common
  import opened Decimal
  import opened PinCard

  /** `int(meta[i].text)`, or 0 when there is no such element or its text is not an integer. */
  function CountOrZero(meta: seq<string>, i: nat): int {
    if i < |meta| && ParseInt(meta[i]).Ok? then ParseInt(meta[i]).value else 0
  }

  /** `f"https://github.com/{owner}/{repo}"` */
  function RepoLink(owner: string, repo: string): string {
    "https://github.com/" + owner + "/" + repo
  }

  /** `get_repo(username, pin)` */
  function GetRepo(username: string, pin: Pin): Record {
    if pin.repo.None? then NoRecord
    else
      var owner := if pin.owner.Some? then pin.owner.value else username;
      var repo := pin.repo.value;
      Repo(owner, repo, RepoLink(owner, repo),
           if pin.description.Some? then pin.description.value else "",
           JStr(""), JStr(""),
           if pin.language.Some? then pin.language.value else "",
           if pin.languageStyle.Some? then CleanColour(pin.languageStyle.value) else "",
           CountOrZero(pin.meta, 0), CountOrZero(pin.meta, 1))
  }

  /**
   * What `get_repo` copies and its per-field fallbacks: only a missing name
   * gives `{}`; a missing owner is the user; found texts are copied and missing
   * ones are empty; a found style is cleaned to its colour, which never holds
   * a ';'; a count that parses is kept and any other falls back to 0.
   */
  lemma GetRepoFields(username: string, pin: Pin)
    ensures GetRepo(username, pin).NoRecord? <==> pin.repo.None?
    ensures var r := GetRepo(username, pin); r.Repo? ==>
      && r.repo == pin.repo.value
      && (pin.owner.None? ==> r.owner == username)
      && (pin.owner.Some? ==> r.owner == pin.owner.value)
      && r.link == "https://github.com/" + r.owner + "/" + r.repo
      && (pin.description.Some? ==> r.description == pin.description.value)
      && (pin.description.None? ==> r.description == "")
      && (pin.language.Some? ==> r.language == pin.language.value)
      && (pin.language.None? ==> r.language == "")
      && (pin.languageStyle.Some? ==> r.languageColor == CleanColour(pin.languageStyle.value))
      && (pin.languageStyle.None? ==> r.languageColor == "")
      && ';' !in r.languageColor
      && r.image == JStr("") && r.website == JStr("")
      && (|pin.meta| > 0 && ParseInt(pin.meta[0]).Ok? ==> r.stars == ParseInt(pin.meta[0]).value)
      && (|pin.meta| == 0 || ParseInt(pin.meta[0]).Err? ==> r.stars == 0)
      && (|pin.meta| > 1 && ParseInt(pin.meta[1]).Ok? ==> r.forks == ParseInt(pin.meta[1]).value)
      && (|pin.meta| <= 1 || ParseInt(pin.meta[1]).Err? ==> r.forks == 0)
  {
  }

  /** A count that GitHub prints as a plain decimal is read back exactly. */
  lemma CountReadsPrintedNumber(meta: seq<string>, i: nat, n: nat)
    requires i < |meta| && meta[i] == NatToString(n)
    ensures CountOrZero(meta, i) == n
  {
    ParseIntOfNatToString(n);
  }

  /** An abbreviated count such as "1.2k" or "12k" is not an integer and becomes 0. */
  lemma CountOfAbbreviation(meta: seq<string>, i: nat, p: nat)
    requires i < |meta| && meta[i] != [] && IsDigit(meta[i][0])
    requires p < |meta[i]| && !IsDigit(meta[i][p]) && !IsSpace(meta[i][p])
    ensures CountOrZero(meta, i) == 0
  {
    ParseIntRejectsNonDigit(meta[i], p);
  }

  /** The anchor in the repository's About box: its `title` and `href` attributes. */
  datatype Anchor = Anchor(title: Option<string>, href: Option<string>)

  /**
   * What `get_website_image` finds on a repository page: the About-box anchor
   * (None when the box or the anchor is missing) and the social-image meta
   * element (None when missing; inside it, None when it has no `content`).
   */
  datatype RepoPage = RepoPage(anchor: Option<Anchor>, imageMeta: Option<Option<string>>)

  /** `f"https://opengraph.githubassets.com/1/{owner}/{repo}"` */
  function FallbackImage(owner: string, repo: string): string {
    "https://opengraph.githubassets.com/1/" + owner + "/" + repo
  }

  /** Python's `None` or a string, as stored in the record. */
  function StrOrNone(v: Option<string>): Json {
    if v.Some? then JStr(v.value) else JNull
  }

  /**
   * `get_website_image(owner, repo, link)` once the page has loaded: the
   * website is the anchor's `href` unless the anchor is missing, has no
   * title (`in` on `None` raises) or is a topic link; the image is the meta
   * element's `content`, or the generated Open Graph image when the element is
   * missing.
   */
  function GetWebsiteImage(owner: string, repo: string, page: RepoPage): (r: (Json, Json))
    ensures r.0 != JStr("") ==>
              (page.anchor.Some? && page.anchor.value.title.Some? && !Contains(page.anchor.value.title.value, "Topic"))
    ensures page.imageMeta.Some? ==> r.1 == StrOrNone(page.imageMeta.value)
  {
    var web :=
      match page.anchor
      case None => JStr("")
      case Some(a) =>
        if a.title.None? || Contains(a.title.value, "Topic") then JStr("")
        else StrOrNone(a.href);
    var image :=
      match page.imageMeta
      case None => JStr(FallbackImage(owner, repo))
      case Some(content) => StrOrNone(content);
    (web, image)
  }

  /** A topic link never counts as the website, and a missing image element gives the generated image. */
  lemma WebsiteImageFallbacks(owner: string, repo: string, page: RepoPage)
    ensures page.anchor.None? ==> GetWebsiteImage(owner, repo, page).0 == JStr("")
    ensures (page.anchor.Some? && page.anchor.value.title.Some? && Contains(page.anchor.value.title.value, "Topic")) ==>
              GetWebsiteImage(owner, repo, page).0 == JStr("")
    ensures (page.anchor.Some? && page.anchor.value.title.Some? && !Contains(page.anchor.value.title.value, "Topic")) ==>
              GetWebsiteImage(owner, repo, page).0 == StrOrNone(page.anchor.value.href)
    ensures page.imageMeta.None? ==>
              GetWebsiteImage(owner, repo, page).1 == JStr("https://opengraph.githubassets.com/1/" + owner + "/" + repo)
  {
  }

  /**
   * The patch loop from record i on.  `pageAt(link)` is the loaded page, or
   * None when `DRIVER.get(link)` raises.  A `{}` record raises KeyError at
   * `data[i]['owner']`; either exception ends the loop and leaves the rest as
   * it is.
   */
  function PatchFrom(data: seq<Record>, pageAt: string -> Option<RepoPage>, i: nat): (out: seq<Record>)
    requires i <= |data|
    ensures |out| == |data|
    decreases |data| - i
  {
    if i == |data| || data[i].NoRecord? || pageAt(data[i].link).None? then data
    else
      var wi := GetWebsiteImage(data[i].owner, data[i].repo, pageAt(data[i].link).value);
      PatchFrom(data[i := data[i].(website := wi.0, image := wi.1)], pageAt, i + 1)
  }

  /**
   * `scrape_github(username)`: `pins` is the list of cards on the profile
   * page, or None when loading the page or finding the cards raises.
   */
  function ScrapeSpec(username: string, pins: Option<seq<Pin>>, pageAt: string -> Option<RepoPage>): seq<Record> {
    if pins.None? then []
    else PatchFrom(seq(|pins.value|, k requires 0 <= k < |pins.value| => GetRepo(username, pins.value[k])), pageAt, 0)
  }

  /** The first record from i on that stops the patch loop, or |data|. */
  function FirstUnpatched(data: seq<Record>, pageAt: string -> Option<RepoPage>, i: nat): (f: nat)
    requires i <= |data|
    ensures i <= f <= |data|
    ensures forall k :: i <= k < f ==> data[k].Repo? && pageAt(data[k].link).Some?
    ensures f < |data| ==> data[f].NoRecord? || pageAt(data[f].link).None?
    decreases |data| - i
  {
    if i == |data| || data[i].NoRecord? || pageAt(data[i].link).None? then i
    else FirstUnpatched(data, pageAt, i + 1)
  }

  /** The record with its website and image filled in from its page. */
  function Patched(r: Record, page: RepoPage): Record
    requires r.Repo?
  {
    var wi := GetWebsiteImage(r.owner, r.repo, page);
    r.(website := wi.0, image := wi.1)
  }

  /**
   * The patch loop completes exactly the records before the first one that
   * fails, leaves that one and all later ones as they were, and never changes
   * a field other than `website` and `image`.
   */
  lemma PatchFromEffect(data: seq<Record>, pageAt: string -> Option<RepoPage>, i: nat)
    requires i <= |data|
    ensures var out := PatchFrom(data, pageAt, i); var f := FirstUnpatched(data, pageAt, i);
      && (forall k :: 0 <= k < i ==> out[k] == data[k])
      && (forall k :: i <= k < f ==> out[k] == Patched(data[k], pageAt(data[k].link).value))
      && (forall k :: f <= k < |data| ==> out[k] == data[k])
  {
    PatchFromKeepsDone(data, pageAt, i);
    PatchFromPatches(data, pageAt, i);
    PatchFromKeepsRest(data, pageAt, i);
  }

  /** The records before i are not touched. */
  lemma {:induction false} PatchFromKeepsDone(data: seq<Record>, pageAt: string -> Option<RepoPage>, i: nat)
    requires i <= |data|
    ensures forall k :: 0 <= k < i ==> PatchFrom(data, pageAt, i)[k] == data[k]
    decreases |data| - i
  {
    if !(i == |data| || data[i].NoRecord? || pageAt(data[i].link).None?) {
      var next := data[i := Patched(data[i], pageAt(data[i].link).value)];
      assert PatchFrom(data, pageAt, i) == PatchFrom(next, pageAt, i + 1);
      PatchFromKeepsDone(next, pageAt, i + 1);
    }
  }

  /** The records from i up to the first failure are completed. */
  lemma {:induction false} PatchFromPatches(data: seq<Record>, pageAt: string -> Option<RepoPage>, i: nat)
    requires i <= |data|
    ensures forall k :: i <= k < FirstUnpatched(data, pageAt, i) ==>
      PatchFrom(data, pageAt, i)[k] == Patched(data[k], pageAt(data[k].link).value)
    decreases |data| - i
  {
    if !(i == |data| || data[i].NoRecord? || pageAt(data[i].link).None?) {
      var next := data[i := Patched(data[i], pageAt(data[i].link).value)];
      assert PatchFrom(data, pageAt, i) == PatchFrom(next, pageAt, i + 1);
      PatchFromPatches(next, pageAt, i + 1);
      PatchFromKeepsDone(next, pageAt, i + 1);
      SameUnpatched(data, next, pageAt, i + 1);
    }
  }

  /** The first record that fails, and every later one, are left as they were. */
  lemma {:induction false} PatchFromKeepsRest(data: seq<Record>, pageAt: string -> Option<RepoPage>, i: nat)
    requires i <= |data|
    ensures forall k :: FirstUnpatched(data, pageAt, i) <= k < |data| ==> PatchFrom(data, pageAt, i)[k] == data[k]
    decreases |data| - i
  {
    if !(i == |data| || data[i].NoRecord? || pageAt(data[i].link).None?) {
      var next := data[i := Patched(data[i], pageAt(data[i].link).value)];
      assert PatchFrom(data, pageAt, i) == PatchFrom(next, pageAt, i + 1);
      PatchFromKeepsRest(next, pageAt, i + 1);
      SameUnpatched(data, next, pageAt, i + 1);
    }
  }

  /** Changing a record before i does not move the first failure from i on. */
  lemma {:induction false} SameUnpatched(a: seq<Record>, b: seq<Record>, pageAt: string -> Option<RepoPage>, i: nat)
    requires i <= |a| == |b|
    requires forall k :: i <= k < |a| ==> a[k] == b[k]
    ensures FirstUnpatched(a, pageAt, i) == FirstUnpatched(b, pageAt, i)
    decreases |a| - i
  {
    if i < |a| {
      SameUnpatched(a, b, pageAt, i + 1);
    }
  }

  /**
   * One record per card, in card order; each is the card's `get_repo` record,
   * completed by its page while no earlier record has stopped the loop.
   */
  lemma ScrapeRecords(username: string, pins: seq<Pin>, pageAt: string -> Option<RepoPage>)
    ensures var out := ScrapeSpec(username, Some(pins), pageAt);
      var data := seq(|pins|, k requires 0 <= k < |pins| => GetRepo(username, pins[k]));
      var f := FirstUnpatched(data, pageAt, 0);
      && |out| == |pins|
      && (forall k :: 0 <= k < f ==> out[k] == Patched(GetRepo(username, pins[k]), pageAt(data[k].link).value))
      && (forall k :: f <= k < |pins| ==> out[k] == GetRepo(username, pins[k]))
  {
    var data := seq(|pins|, k requires 0 <= k < |pins| => GetRepo(username, pins[k]));
    PatchFromEffect(data, pageAt, 0);
  }

  /** A card without a repository name leaves `{}` in the list and stops the completion of every later record. */
  lemma EmptyRecordStopsPatching(username: string, pins: seq<Pin>, pageAt: string -> Option<RepoPage>, j: nat)
    requires j < |pins| && pins[j].repo.None?
    ensures var out := ScrapeSpec(username, Some(pins), pageAt);
      forall k :: j <= k < |pins| ==> out[k] == GetRepo(username, pins[k])
  {
    var data := seq(|pins|, k requires 0 <= k < |pins| => GetRepo(username, pins[k]));
    ScrapeRecords(username, pins, pageAt);
    assert data[j].NoRecord?;
    assert FirstUnpatched(data, pageAt, 0) <= j;
  }

  /** The first loop of `scrape_github`: one `read(card)` per card, appended in card order. */
  method ReadCards<C, R>(read: C -> R, cards: seq<C>) returns (data: seq<R>)
    ensures |data| == |cards| && forall k :: 0 <= k < |cards| ==> data[k] == read(cards[k])
  {
    data := [];
    var n := 0;
    while n < |cards|
      invariant 0 <= n <= |cards| && |data| == n
      invariant forall k :: 0 <= k < n ==> data[k] == read(cards[k])
    {
      data := data + [read(cards[n])];
      n := n + 1;
    }
  }

  /** The second loop of `scrape_github`: complete the records until the first exception. */
  method PatchRecords(records: seq<Record>, pageAt: string -> Option<RepoPage>) returns (data: seq<Record>)
    ensures data == PatchFrom(records, pageAt, 0)
  {
    data := records;
    var i := 0;
    while i < |data|
      invariant 0 <= i <= |data|
      invariant PatchFrom(data, pageAt, i) == PatchFrom(records, pageAt, 0)
    {
      if data[i].NoRecord? {
        return;
      }
      var page := pageAt(data[i].link);
      if page.None? {
        return;
      }
      var wi := GetWebsiteImage(data[i].owner, data[i].repo, page.value);
      data := data[i := data[i].(website := wi.0, image := wi.1)];
      i := i + 1;
    }
  }

  /**
   * `scrape_github(username)`: the cards are read into `data` one by one, then
   * the records are completed in a second loop that stops at the first
   * exception.
   */
  method ScrapeGithub(username: string, pins: Option<seq<Pin>>, pageAt: string -> Option<RepoPage>)
    returns (data: seq<Record>)
    ensures data == ScrapeSpec(username, pins, pageAt)
  {
    data := [];
    if pins.None? {
      return;
    }
    var records := ReadCards(pin => GetRepo(username, pin), pins.value);
    assert records == seq(|pins.value|, k requires 0 <= k < |pins.value| => GetRepo(username, pins.value[k]));
    data := PatchRecords(records, pageAt);
  }
}
