/**
 * The hash-routing state machine of the portfolio app.
 *
 * One piece of React state, `activeItemId`, is kept in step with
 * `window.location.hash`.  The browser is explicit state: its session history
 * for the page (the fragment of each entry; every entry has the same path),
 * the current entry, and the queue of `hashchange` events not yet delivered.
 * Each React effect is a step that runs after the state it depends on changes:
 *  - effect 1 (state -> hash) writes `location.hash` or calls `pushState`;
 *  - effect 2 (hash -> state) runs `handleHashChange` once at mount and then
 *    for every delivered `hashchange` event;
 *  - effect 3 resets the "show code" toggle whenever `activeItemId` changes.
 * `setActiveItemId(v)` with the value already held changes nothing and runs no
 * effect (React bails out), which is what ends every sync round.
 *
 * The pure datatypes `Nav` and `AppState` give the meaning of each step; the
 * classes `Browser` and `App` perform the same steps on mutable fields and are
 * proved against them.
 */
module Routing {
  import opened Common
  import Catalogue

  const ProjectPrefix: string := "#project="

  /** The fragment effect 1 wants: `#project=<id>` for a (truthy) id, `""` otherwise. */
  function DesiredHash(active: Option<string>): string {
    if active.Some? && active.value != "" then ProjectPrefix + active.value else ""
  }

  /**
   * The state `handleHashChange` leaves when it reads `hash` while the state is
   * `current`: a known id after the prefix is selected, an unknown one leaves
   * the state as it is, and any other fragment goes home.  (`replace` removes
   * the first occurrence of the prefix, which is the prefix itself.)
   */
  function HashToState(hash: string, current: Option<string>): Option<string> {
    if StartsWith(hash, ProjectPrefix) then
      var id := hash[|ProjectPrefix|..];
      if Catalogue.Find(Catalogue.AllItems, id).Some? then Some(id) else current
    else None
  }

  /** A queued `hashchange` event. The handler ignores it and reads `location.hash`. */
  datatype HashChange = HashChange(oldHash: string, newHash: string)

  /** The browser: session-history fragments, the current entry, and pending events. */
  datatype Nav = Nav(entries: seq<string>, index: nat, pending: seq<HashChange>) {

    ghost predicate Valid() {
      index < |entries|
    }

    /** `window.location.hash` */
    function Hash(): string
      requires Valid()
    {
      entries[index]
    }

    /**
     * `location.hash = h`: a different fragment adds a history entry after the
     * current one (dropping the forward entries) and queues a `hashchange`;
     * the same fragment changes nothing.
     */
    function AssignHash(h: string): (n: Nav)
      requires Valid()
      ensures n.Valid() && n.Hash() == h
    {
      if h == Hash() then this
      else Nav(entries[..index + 1] + [h], index + 1, pending + [HashChange(Hash(), h)])
    }

    /** `history.pushState(null, '', pathname)`: a new entry without a fragment, and no event. */
    function PushPath(): (n: Nav)
      requires Valid()
      ensures n.Valid() && n.Hash() == ""
    {
      Nav(entries[..index + 1] + [""], index + 1, pending)
    }

    /** The back button: the previous entry, with a `hashchange` if its fragment differs. */
    function Back(): (n: Nav)
      requires Valid()
      ensures n.Valid()
    {
      if index == 0 then this
      else if entries[index - 1] == Hash() then this.(index := index - 1)
      else Nav(entries, index - 1, pending + [HashChange(Hash(), entries[index - 1])])
    }
  }

  /** A page load at the given fragment: one history entry, nothing queued. */
  function LoadedAt(hash: string): Nav {
    Nav([hash], 0, [])
  }

  /** The app's React state together with the browser it runs in. */
  datatype AppState = AppState(active: Option<string>, showTechnical: bool, listening: bool, nav: Nav) {

    ghost predicate Valid() {
      nav.Valid()
    }

    /** Effect 1, state -> hash (App.tsx:224-245). */
    function SyncStateToHash(): (s: AppState)
      requires Valid()
      ensures s.Valid()
    {
      var current := nav.Hash();
      var desired := DesiredHash(active);
      if current == desired then this
      else if desired != "" then this.(nav := nav.AssignHash(desired))
      else if current != "" then this.(nav := nav.PushPath())
      else this
    }

    /** Effect 3: scroll to the top (not modelled) and `setShowTechnical(false)`. */
    function ResetView(): AppState {
      this.(showTechnical := false)
    }

    /** `setActiveItemId(v)`: nothing when `v` is the current value, else re-render and effects 1 and 3. */
    function SetActive(v: Option<string>): (s: AppState)
      requires Valid()
      ensures s.Valid()
    {
      if v == active then this else this.(active := v).SyncStateToHash().ResetView()
    }

    /** `handleHashChange` (App.tsx:249-262). */
    function HandleHashChange(): (s: AppState)
      requires Valid()
      ensures s.Valid()
    {
      SetActive(HashToState(nav.Hash(), active))
    }

    /**
     * The mount: effect 1 with the initial state, then effect 2 (one call of
     * `handleHashChange`, then the listener is registered), then effect 3; a
     * state set by effect 2 re-renders afterwards and runs effects 1 and 3.
     */
    function Mount(): (s: AppState)
      requires Valid()
      ensures s.Valid()
    {
      var synced := SyncStateToHash();
      var next := HashToState(synced.nav.Hash(), synced.active);
      synced.(listening := true).ResetView().SetActive(next)
    }

    /** A card's `onClick`: `setActiveItemId(item.id)`. */
    function Select(id: string): (s: AppState)
      requires Valid()
      ensures s.Valid()
    {
      SetActive(Some(id))
    }

    /** A "back to portfolio" button: `setActiveItemId(null)`. */
    function GoHome(): (s: AppState)
      requires Valid()
      ensures s.Valid()
    {
      SetActive(None)
    }

    /** The "Show Code" / "Show Concept" button: `setShowTechnical(!showTechnical)`. */
    function ToggleTechnical(): AppState {
      this.(showTechnical := !showTechnical)
    }

    /** The browser delivers its oldest queued `hashchange`, to the listener if one is registered. */
    function DeliverEvent(): (s: AppState)
      requires Valid()
      ensures s.Valid()
    {
      if nav.pending == [] then this
      else
        var dequeued := this.(nav := nav.(pending := nav.pending[1..]));
        if listening then dequeued.HandleHashChange() else dequeued
    }

    /** The user presses the browser's back button. */
    function PressBack(): (s: AppState)
      requires Valid()
      ensures s.Valid()
    {
      this.(nav := nav.Back())
    }

    /** The user follows an in-page link or edits the fragment, e.g. `<a href="#projects">`. */
    function FollowFragment(h: string): (s: AppState)
      requires Valid()
      ensures s.Valid()
    {
      this.(nav := nav.AssignHash(h))
    }
  }

  /** The state after the first render: `useState(null)`, `useState(false)`, no listener yet. */
  function Initial(hash: string): AppState {
    AppState(None, false, false, LoadedAt(hash))
  }

  /** `activeItem = allItems.find(p => p.id === activeItemId)`; the detail view shows iff it exists. */
  function ActiveItem(s: AppState): Option<Catalogue.Item> {
    if s.active.Some? then Catalogue.Find(Catalogue.AllItems, s.active.value) else None
  }

  // ---------------------------------------------------------------------------
  // Properties of the state machine

  /** Round trip: the fragment written for any catalogue item reads back as that item. */
  lemma HashRoundTrip(i: nat, current: Option<string>)
    requires i < |Catalogue.AllItems|
    ensures DesiredHash(Some(Catalogue.AllItems[i].id)) == ProjectPrefix + Catalogue.AllItems[i].id
    ensures HashToState(DesiredHash(Some(Catalogue.AllItems[i].id)), current) == Some(Catalogue.AllItems[i].id)
  {
    var id := Catalogue.AllItems[i].id;
    Catalogue.FindEachItem(i);
    assert id != "";
    assert (ProjectPrefix + id)[|ProjectPrefix|..] == id;
  }

  /** The three cases of `handleHashChange`, each in both directions where it can be. */
  lemma HashToStateCases(hash: string, current: Option<string>)
    ensures StartsWith(hash, ProjectPrefix) && Catalogue.HasId(Catalogue.AllItems, hash[|ProjectPrefix|..])
            ==> HashToState(hash, current) == Some(hash[|ProjectPrefix|..])
    ensures StartsWith(hash, ProjectPrefix) && !Catalogue.HasId(Catalogue.AllItems, hash[|ProjectPrefix|..])
            ==> HashToState(hash, current) == current
    ensures !StartsWith(hash, ProjectPrefix) ==> HashToState(hash, current) == None
    ensures HashToState(hash, current) != current ==>
              HashToState(hash, current) == None || Catalogue.HasId(Catalogue.AllItems, HashToState(hash, current).value)
  {
  }

  /** The fragments of the home page's own links do not carry the prefix, so they go home. */
  lemma OtherFragmentsGoHome(current: Option<string>)
    ensures HashToState("", current) == None
    ensures HashToState("#projects", current) == None
    ensures HashToState("#research", current) == None
    ensures HashToState("#resume", current) == None
  {
    assert "#projects"[..|ProjectPrefix|] != ProjectPrefix by { assert "#projects"[8] == 's'; }
  }

  /** An unknown id after the prefix leaves the state alone: it does not go home. */
  lemma UnknownIdKeepsState(s: AppState, id: string)
    requires s.Valid() && s.listening
    requires s.nav.pending == []
    requires !Catalogue.HasId(Catalogue.AllItems, id)
    ensures s.FollowFragment(ProjectPrefix + id).DeliverEvent().active == s.active
    ensures s.FollowFragment(ProjectPrefix + id).DeliverEvent().showTechnical == s.showTechnical
  {
    assert (ProjectPrefix + id)[..|ProjectPrefix|] == ProjectPrefix;
    assert (ProjectPrefix + id)[|ProjectPrefix|..] == id;
  }

  /** Effect 1 does nothing when the fragment already is the desired one. */
  lemma SyncIsNoOpWhenInStep(s: AppState)
    requires s.Valid()
    ensures s.nav.Hash() == DesiredHash(s.active) <==> s.SyncStateToHash() == s
  {
    if s.nav.Hash() != DesiredHash(s.active) {
      assert s.SyncStateToHash().nav.Hash() == DesiredHash(s.active);
    }
  }

  /**
   * Effect 1 against its source: a differing non-empty desired fragment is
   * assigned (one entry, one event); going home from a fragment pushes the bare
   * path as a new entry with no event; going home without a fragment does nothing.
   */
  lemma SyncStateToHashCases(s: AppState)
    requires s.Valid()
    ensures var d := DesiredHash(s.active); var t := s.SyncStateToHash();
      && t.active == s.active && t.showTechnical == s.showTechnical && t.listening == s.listening
      && t.nav.Hash() == d
      && (s.nav.Hash() != d && d != "" ==>
            t.nav.entries == s.nav.entries[..s.nav.index + 1] + [d] && t.nav.index == s.nav.index + 1
            && t.nav.pending == s.nav.pending + [HashChange(s.nav.Hash(), d)])
      && (s.nav.Hash() != "" && d == "" ==>
            t.nav.entries == s.nav.entries[..s.nav.index + 1] + [""] && t.nav.index == s.nav.index + 1
            && t.nav.pending == s.nav.pending)
      && (s.nav.Hash() == d ==> t == s)
  {
  }

  /** Every change of `activeItemId` resets the toggle; setting the same value changes nothing. */
  lemma SetActiveResetsToggle(s: AppState, v: Option<string>)
    requires s.Valid()
    ensures v != s.active ==> s.SetActive(v).active == v && !s.SetActive(v).showTechnical
    ensures v == s.active ==> s.SetActive(v) == s
  {
  }

  /** The toggle button flips the flag and nothing else; two presses restore it. */
  lemma ToggleTechnicalFlips(s: AppState)
    ensures s.ToggleTechnical().showTechnical == !s.showTechnical
    ensures s.ToggleTechnical().ToggleTechnical() == s
  {
  }

  /**
   * Selecting an item sets `#project=<id>` (one new history entry, one queued
   * event); delivering that event reads back the same id, changes nothing else
   * and queues nothing, so the round ends at a fixed point.
   */
  lemma SelectReachesFixedPoint(s: AppState, i: nat)
    requires s.Valid() && s.listening && s.nav.pending == []
    requires i < |Catalogue.AllItems|
    requires s.active != Some(Catalogue.AllItems[i].id)
    requires s.nav.Hash() != ProjectPrefix + Catalogue.AllItems[i].id
    ensures var id := Catalogue.AllItems[i].id; var s1 := s.Select(id);
      && s1.active == Some(id) && !s1.showTechnical
      && s1.nav.Hash() == ProjectPrefix + id
      && s1.nav.entries == s.nav.entries[..s.nav.index + 1] + [ProjectPrefix + id]
      && s1.nav.pending == [HashChange(s.nav.Hash(), ProjectPrefix + id)]
      && s1.DeliverEvent() == s1.(nav := s1.nav.(pending := []))
      && s1.DeliverEvent().DeliverEvent() == s1.DeliverEvent()
  {
    var id := Catalogue.AllItems[i].id;
    HashRoundTrip(i, Some(id));
  }

  /**
   * Leaving a detail view whose fragment is in step pushes the bare path: the
   * history gains an entry (it is not replaced) and no event is queued.
   */
  lemma GoHomePushesEntry(s: AppState)
    requires s.Valid() && s.active.Some? && s.active.value != ""
    requires s.nav.Hash() == DesiredHash(s.active)
    ensures var s1 := s.GoHome();
      && s1.active == None && !s1.showTechnical
      && s1.nav.Hash() == ""
      && s1.nav.entries == s.nav.entries[..s.nav.index + 1] + [""]
      && |s1.nav.entries| == s.nav.index + 2
      && s1.nav.pending == s.nav.pending
  {
  }

  /** Going home while the fragment is already empty touches neither the history nor the queue. */
  lemma GoHomeWithoutFragment(s: AppState)
    requires s.Valid() && s.nav.Hash() == ""
    ensures s.GoHome().nav == s.nav
  {
  }

  /**
   * The mount as written: effect 1 runs before `handleHashChange()`, so any
   * non-empty starting fragment (a deep link `#project=<id>` included) is
   * replaced by the bare path before it is read, and the first state is home.
   */
  lemma MountDropsDeepLink(h: string)
    ensures var s := Initial(h).Mount();
      && s.active == None && !s.showTechnical && s.listening
      && s.nav.Hash() == ""
      && s.nav.entries == (if h == "" then [h] else [h, ""])
      && s.nav.pending == []
  {
  }

  /** A deep link to a catalogue item, in particular, still opens on the home view. */
  lemma DeepLinkOpensHome(i: nat)
    requires i < |Catalogue.AllItems|
    ensures Initial(ProjectPrefix + Catalogue.AllItems[i].id).Mount().active == None
    ensures ActiveItem(Initial(ProjectPrefix + Catalogue.AllItems[i].id).Mount()).None?
  {
    MountDropsDeepLink(ProjectPrefix + Catalogue.AllItems[i].id);
  }

  /**
   * Scenario: from the mounted home view, select an item, let its event pass,
   * press back; once the back event is delivered the app is home again, the
   * fragment is empty and nothing more is queued.
   */
  lemma SelectThenBackReturnsHome(h: string, i: nat)
    requires i < |Catalogue.AllItems|
    ensures var home := Initial(h).Mount();
      var detail := home.Select(Catalogue.AllItems[i].id).DeliverEvent();
      var back := detail.PressBack().DeliverEvent();
      && detail.active == Some(Catalogue.AllItems[i].id)
      && ActiveItem(detail) == Some(Catalogue.AllItems[i])
      && back.active == None && back.nav.Hash() == "" && back.nav.pending == []
      && !back.showTechnical
  {
    var id := Catalogue.AllItems[i].id;
    var home := Initial(h).Mount();
    MountDropsDeepLink(h);
    Catalogue.FindEachItem(i);
    SelectReachesFixedPoint(home, i);
  }

  /** The state only ever holds nothing or a catalogue id. */
  ghost predicate ActiveKnown(s: AppState) {
    s.active.None? || Catalogue.HasId(Catalogue.AllItems, s.active.value)
  }

  /** Every transition the app can take keeps `ActiveKnown` (selection is from the catalogue's cards). */
  lemma TransitionsKeepActiveKnown(s: AppState, i: nat, h: string)
    requires s.Valid() && ActiveKnown(s)
    requires i < |Catalogue.AllItems|
    ensures ActiveKnown(s.Mount())
    ensures ActiveKnown(s.Select(Catalogue.AllItems[i].id))
    ensures ActiveKnown(s.GoHome())
    ensures ActiveKnown(s.ToggleTechnical())
    ensures ActiveKnown(s.DeliverEvent())
    ensures ActiveKnown(s.PressBack())
    ensures ActiveKnown(s.FollowFragment(h))
  {
    UserActionsKeepActiveKnown(s, i);
    DeliverEventKeepsActiveKnown(s);
    NavigationKeepsActiveKnown(s, h);
  }

  lemma UserActionsKeepActiveKnown(s: AppState, i: nat)
    requires s.Valid() && ActiveKnown(s)
    requires i < |Catalogue.AllItems|
    ensures ActiveKnown(s.Mount())
    ensures ActiveKnown(s.Select(Catalogue.AllItems[i].id))
    ensures ActiveKnown(s.GoHome())
    ensures ActiveKnown(s.ToggleTechnical())
  {
    HashToStateCases(s.SyncStateToHash().nav.Hash(), s.SyncStateToHash().active);
  }

  lemma DeliverEventKeepsActiveKnown(s: AppState)
    requires s.Valid() && ActiveKnown(s)
    ensures ActiveKnown(s.DeliverEvent())
  {
    if s.nav.pending != [] {
      var d := s.(nav := s.nav.(pending := s.nav.pending[1..]));
      HashToStateCases(d.nav.Hash(), d.active);
    }
  }

  lemma NavigationKeepsActiveKnown(s: AppState, h: string)
    requires s.Valid() && ActiveKnown(s)
    ensures ActiveKnown(s.PressBack())
    ensures ActiveKnown(s.FollowFragment(h))
  {
  }

  /** In a state that keeps `ActiveKnown`, the detail view shows exactly when an id is held. */
  lemma DetailShownIffActive(s: AppState)
    requires ActiveKnown(s)
    ensures ActiveItem(s).Some? <==> s.active.Some?
    ensures ActiveItem(s).Some? ==> ActiveItem(s).value.id == s.active.value
  {
  }

  // ---------------------------------------------------------------------------
  // The same steps on mutable objects

  /** `window`: `location.hash`, the session history and the event queue. */
  class Browser {
    var entries: seq<string>
    var index: nat
    var pending: seq<HashChange>

    function State(): Nav
      reads this
    {
      Nav(entries, index, pending)
    }

    ghost predicate Valid()
      reads this
    {
      State().Valid()
    }

    constructor Load(hash: string)
      ensures Valid() && State() == LoadedAt(hash)
    {
      entries, index, pending := [hash], 0, [];
    }

    function Hash(): string
      reads this
      requires Valid()
    {
      entries[index]
    }

    method AssignHash(h: string)
      requires Valid()
      modifies this
      ensures Valid() && State() == old(State()).AssignHash(h)
    {
      var current := entries[index];
      if h != current {
        entries := entries[..index + 1] + [h];
        index := index + 1;
        pending := pending + [HashChange(current, h)];
      }
    }

    method PushPath()
      requires Valid()
      modifies this
      ensures Valid() && State() == old(State()).PushPath()
    {
      entries := entries[..index + 1] + [""];
      index := index + 1;
    }

    method Back()
      requires Valid()
      modifies this
      ensures Valid() && State() == old(State()).Back()
    {
      if index > 0 {
        var current := entries[index];
        index := index - 1;
        if entries[index] != current {
          pending := pending + [HashChange(current, entries[index])];
        }
      }
    }

    /** Removes the oldest queued event, if any, and reports whether there was one. */
    method TakeEvent() returns (taken: bool)
      requires Valid()
      modifies this
      ensures Valid() && taken == (old(pending) != [])
      ensures State() == if taken then old(State()).(pending := old(pending)[1..]) else old(State())
    {
      taken := pending != [];
      if taken {
        pending := pending[1..];
      }
    }
  }

  /** The `App` component: its state hooks and its effects. */
  class App {
    const browser: Browser
    var active: Option<string>
    var showTechnical: bool
    var listening: bool

    function State(): AppState
      reads this, browser
    {
      AppState(active, showTechnical, listening, browser.State())
    }

    ghost predicate Valid()
      reads this, browser
    {
      browser.Valid()
    }

    /** The first render in a freshly loaded page. */
    constructor (browser: Browser)
      requires browser.Valid()
      ensures Valid() && this.browser == browser
      ensures State() == AppState(None, false, false, browser.State())
    {
      this.browser := browser;
      active, showTechnical, listening := None, false, false;
    }

    /** Effect 1 (App.tsx:224-245). */
    method SyncStateToHash()
      requires Valid()
      modifies browser
      ensures Valid() && State() == old(State()).SyncStateToHash()
    {
      var currentHash := browser.Hash();
      var desiredHash := "";
      if active.Some? && active.value != "" {
        desiredHash := ProjectPrefix + active.value;
      }
      if currentHash != desiredHash {
        if desiredHash != "" {
          browser.AssignHash(desiredHash);
        } else if currentHash != "" {
          browser.PushPath();
        }
      }
    }

    /** `setActiveItemId(v)` followed, when it changes the state, by effects 1 and 3. */
    method SetActive(v: Option<string>)
      requires Valid()
      modifies this, browser
      ensures Valid() && State() == old(State()).SetActive(v)
    {
      if v != active {
        active := v;
        SyncStateToHash();
        showTechnical := false;
      }
    }

    /** `handleHashChange` (App.tsx:249-262). */
    method HandleHashChange()
      requires Valid()
      modifies this, browser
      ensures Valid() && State() == old(State()).HandleHashChange()
    {
      var hash := browser.Hash();
      if StartsWith(hash, ProjectPrefix) {
        var id := hash[|ProjectPrefix|..];
        if Catalogue.Find(Catalogue.AllItems, id).Some? {
          SetActive(Some(id));
        }
      } else {
        SetActive(None);
      }
    }

    /** The mount-time effects in declaration order (App.tsx:224-275). */
    method Mount()
      requires Valid()
      modifies this, browser
      ensures Valid() && State() == old(State()).Mount()
    {
      SyncStateToHash();
      var hash := browser.Hash();
      var next := HashToState(hash, active);
      listening := true;
      showTechnical := false;
      SetActive(next);
    }

    /** Delivers the oldest queued `hashchange` to the registered listener. */
    method DeliverEvent()
      requires Valid()
      modifies this, browser
      ensures Valid() && State() == old(State()).DeliverEvent()
    {
      var taken := browser.TakeEvent();
      if taken && listening {
        HandleHashChange();
      }
    }

    /** The toggle button (App.tsx:582). */
    method ToggleTechnical()
      modifies this
      ensures State() == old(State()).ToggleTechnical()
    {
      showTechnical := !showTechnical;
    }
  }
}
