# Portfolio site: routing, diagrams, repository names, scrapers and node graph

This project models the deterministic core of a personal portfolio site in
Dafny, and proves properties of that model. The site has four parts that the
model covers.

- **React single-page app** (`App.tsx`, `data.ts`, `components/Diagrams.tsx`).
  - **Routing.** One piece of state, `activeItemId`, is kept in step with
    `window.location.hash` by three effects: state to hash, hash to state, and
    a reset of the "show code" toggle.
    - The browser is explicit state (module `Routing`): a session history of
      fragments, the current entry and a queue of pending `hashchange` events.
    - The pure datatypes `Nav` and `AppState` give the meaning of each step.
    - The classes `Browser` and `App` perform the same steps on mutable fields
      and are proved against those datatypes.
  - **Catalogue and detail view** (module `Catalogue`): the eight items of
    `[...papers, ...projects]`, the `find` lookups, `renderDiagram`, and the
    choice between the code terminal and the diagram.
  - **Diagram arithmetic** (module `FuzzyCurves`):
    - the fuzzy time-of-day diagram: the crisp label, the 241-sample curve, the
      SVG coordinates, the closed fill path, the `hh:mm` readout and the
      indicator offset;
    - the bar heights of the feature-selection chart.
- **Flask site and scrapers** (`app.py`, `app/github_pins.py`,
  `scripts/github_pins.py`, `app/utils.py`, `scripts/utils.py`).
  - `camel_case_split` is written out as the left-to-right scan that Python's
    regex engine performs (module `CamelCase`).
  - Repository names are rewritten by separator priority, or by camel case
    alone, in the in-place loops over the scraped records (module
    `RepoNames`).
  - `sort_files` (module `FileSort`).
  - The two pinned-repository scrapers, with every Selenium lookup an
    `Option` input (modules `PinCard`, `ScriptPins`, `AppPins`).
  - The module-level `context` dict of app.py and its routes (module
    `SiteContext`).
- **Django landing page** (`LandingPage/views.py`).
  - Its camel-case-only rewrite of repository names.
  - The index picking of `get_stats` (module `PyUtils`).
- **Node-graph animation** (`static/js/neural-network.js`, module
  `NeuralNetwork`).
  - `Node` and `Star` are classes with mutable fields.
  - The setup builds, in order, the central node, the project nodes, the
    research nodes and the resume node, each with a spoke to the centre.
  - The nested setup loop adds a symmetric edge between nodes of different
    types whose stacks share an entry.
  - Each frame updates the radii and picks the hovered node: the last node in
    array order whose hover check succeeds.

Python exceptions are values of the datatype `Common.PyError`, carried in a
`Result`. Python dicts are `map<string, Json>`. A list of records mutated in
place is an `array`.

Three behaviours of the routing code are worth stating on their own, because
the code does something other than a reader of the page might expect:

- **Unknown id.** `#project=<unknown id>` does not lead to the home view.
  The handler validates the id and, when it is unknown, sets nothing, so the
  state stays as it was (App.tsx:252-257); see `Routing.UnknownIdKeepsState`.
- **Leaving a detail view.** The code calls `history.pushState`, which adds a
  history entry for the home view, as its comment says (App.tsx:236-242); see
  `Routing.GoHomePushesEntry`.
- **Deep links.** The code's comment at App.tsx:264 says the initial call of
  `handleHashChange` is there to "Handle initial load (e.g., reloading on
  #resume)". But the state-to-hash effect is declared first, so at mount it
  runs first: it pushes any non-empty starting fragment away before
  `handleHashChange` reads it, and the first state is home (App.tsx:224-245,
  265). A reload on `#project=<id>` therefore opens the home view; see
  `Routing.MountDropsDeepLink` and `Routing.DeepLinkOpensHome`.

Selection is also not validated by the code: cards call `setActiveItemId`
with their own id (App.tsx:364, 377). The model's `Select` therefore takes
any id, and `Routing.TransitionsKeepActiveKnown` shows that selecting a
catalogue item keeps the state inside the catalogue.

## Model

| member | source | states |
|---|---|---|
| Routing.DesiredHash | App.tsx:226-230 | definition of the fragment the state-to-hash effect wants; see `HashRoundTrip` and `SyncStateToHashCases` |
| Routing.HashToState | App.tsx:249-261 | definition of the state `handleHashChange` leaves; see `HashToStateCases` and `HashRoundTrip` |
| Routing.Nav.Back | App.tsx:267 | the browser's back traversal that delivers `hashchange` to the listener keeps the history well-formed; see `SelectThenBackReturnsHome` |
| Routing.Nav.AssignHash | App.tsx:233-234 | assigning `location.hash` leaves a well-formed history whose current fragment is the assigned one |
| Routing.Nav.PushPath | App.tsx:240-242 | `pushState` of the bare path leaves a well-formed history whose current fragment is empty |
| Routing.AppState.SyncStateToHash | App.tsx:224-245 | the state-to-hash effect keeps the browser state well-formed; its cases are `SyncStateToHashCases` |
| Routing.AppState.SetActive | App.tsx:272-275 | setting the state keeps the browser well-formed; see `SetActiveResetsToggle` |
| Routing.AppState.HandleHashChange | App.tsx:249-262 | reading the fragment keeps the browser well-formed; see `HashToStateCases` |
| Routing.AppState.Mount | App.tsx:224-275 | the mount-time effects keep the browser well-formed; see `MountDropsDeepLink` |
| Routing.AppState.Select | App.tsx:364 | a card click keeps the browser well-formed; see `SelectReachesFixedPoint` |
| Routing.AppState.GoHome | App.tsx:431 | "back to portfolio" keeps the browser well-formed; see `GoHomePushesEntry` |
| Routing.AppState.DeliverEvent | App.tsx:267 | delivering a `hashchange` to the listener keeps the browser well-formed |
| Routing.AppState.PressBack | App.tsx:267 | pressing the browser's back button keeps the state well-formed; see `SelectThenBackReturnsHome` |
| Routing.AppState.FollowFragment | App.tsx:249-267 | following an in-page link or editing the fragment keeps the state well-formed; see `UnknownIdKeepsState` and `OtherFragmentsGoHome` |
| Routing.AppState.ToggleTechnical | App.tsx:582 | definition of the toggle button; see `ToggleTechnicalFlips` |
| Routing.HashRoundTrip | App.tsx:228-256 | for every catalogue item, the fragment the state-to-hash effect writes is `#project=<id>`, and `handleHashChange` reads it back as the same id |
| Routing.HashToStateCases | App.tsx:250-261 | a known id after `#project=` is selected; an unknown id leaves the state as it was; any other fragment gives null; a changed state is null or a catalogue id |
| Routing.OtherFragmentsGoHome | App.tsx:258-261 | `""`, `#projects`, `#research` and `#resume` all give null |
| Routing.UnknownIdKeepsState | App.tsx:252-257 | following `#project=<unknown>` and delivering its event changes neither the active id nor the toggle |
| Routing.SyncIsNoOpWhenInStep | App.tsx:232 | the state-to-hash effect changes nothing exactly when the fragment already equals the desired one |
| Routing.SyncStateToHashCases | App.tsx:224-245 | a differing non-empty desired fragment is assigned (one entry, one event); going home from a fragment pushes the bare path (one entry, no event); otherwise nothing changes; the fragment always ends as the desired one |
| Routing.SetActiveResetsToggle | App.tsx:272-275 | every change of the active id sets it and resets the toggle; setting the same value changes nothing |
| Routing.ToggleTechnicalFlips | App.tsx:582 | the toggle button flips the flag, and two presses restore the state |
| Routing.SelectReachesFixedPoint | App.tsx:252-256 | selecting an item writes `#project=<id>` as one new entry with one event; delivering the event changes nothing more, so the round reaches a fixed point |
| Routing.GoHomePushesEntry | App.tsx:235-243 | leaving an in-step detail view pushes the bare path as a new history entry and queues no event |
| Routing.GoHomeWithoutFragment | App.tsx:240-242 | going home with an empty fragment leaves the history and the queue untouched |
| Routing.MountDropsDeepLink | App.tsx:224-265 | at mount any non-empty starting fragment is replaced by the bare path before it is read; the first state is home, with the listener registered and nothing queued |
| Routing.DeepLinkOpensHome | App.tsx:264-265 | a deep link to any catalogue item still opens on the home view, with no active item |
| Routing.SelectThenBackReturnsHome | App.tsx:224-269 | mount, select an item, deliver, press back, deliver: the detail view showed that item, and the app ends home with an empty fragment and nothing queued |
| Routing.TransitionsKeepActiveKnown | App.tsx:252-260 | every transition keeps the active id null or a catalogue id |
| Routing.DetailShownIffActive | App.tsx:278-283 | in such a state the detail view shows exactly when an id is held, and it shows that id's item |
| Routing.ActiveItem | App.tsx:278 | `allItems.find` on the held id; definition, see `DetailShownIffActive` |
| Routing.Browser.Load | App.tsx:264-265 | the page loads with one history entry holding the address's fragment and no queued event, which the initial `handleHashChange()` reads |
| Routing.Browser.TakeEvent | App.tsx:267 | a queued `hashchange` is removed, oldest first, exactly when there is one, and nothing else changes; the listener then runs on it |
| Routing.Browser.AssignHash | App.tsx:234 | the mutable browser performs `Nav.AssignHash` |
| Routing.Browser.PushPath | App.tsx:241 | the mutable browser performs `Nav.PushPath` |
| Routing.Browser.Back | App.tsx:267 | the back traversal on mutable fields ends equal to `Nav.Back` of the old state |
| Routing.App.constructor | App.tsx:208-211 | the first render holds null, toggle off, and no listener |
| Routing.App.SyncStateToHash | App.tsx:224-245 | the effect on mutable state yields `AppState.SyncStateToHash` of the old state |
| Routing.App.SetActive | App.tsx:272-275 | `setActiveItemId` on mutable state yields `AppState.SetActive` |
| Routing.App.HandleHashChange | App.tsx:249-262 | the handler on mutable state yields `AppState.HandleHashChange` |
| Routing.App.Mount | App.tsx:224-275 | the mount on mutable state yields `AppState.Mount` |
| Routing.App.DeliverEvent | App.tsx:267 | the listener on mutable state yields `AppState.DeliverEvent` |
| Routing.App.ToggleTechnical | App.tsx:582 | the toggle on mutable state yields `AppState.ToggleTechnical` |
| Catalogue.Find | App.tsx:278 | `find` gives None exactly when no item has the id; otherwise it gives the first item with that id |
| Catalogue.CatalogueIdsDistinct | App.tsx:219 | `allItems` has 8 items with pairwise distinct ids |
| Catalogue.FindEachItem | App.tsx:255 | every catalogue item is found by its own id |
| Catalogue.RenderDiagram | App.tsx:409-421 | definition of `renderDiagram`'s switch; see `RenderDiagramExact`, `RenderDiagramUnknown` and `CatalogueDiagramsKnown` |
| Catalogue.RenderDiagramExact | App.tsx:409-421 | each `diagramType` variant selects exactly its own component, and only that name selects it |
| Catalogue.RenderDiagramUnknown | App.tsx:419 | any other value renders null |
| Catalogue.CatalogueDiagramsKnown | data.ts:25 | every catalogue item names one of the eight known variants |
| Catalogue.MethodologyPanel | App.tsx:616-620 | the code terminal shows exactly when the toggle is on and the item has a non-empty snippet; otherwise `renderDiagram` is shown |
| FuzzyCurves.FuzzyLabel | components/Diagrams.tsx:124-131 | definition of `getFuzzyLabel`; see `LabelPartition`, `LabelBoundaries` and `LabelMonotone` |
| FuzzyCurves.CurvePoint | components/Diagrams.tsx:143-150 | definition of the i-th sample's SVG point; see `SamplesSpanSurface`, `SvgYRange` and `CurveInBox` |
| FuzzyCurves.PathVertices | components/Diagrams.tsx:155 | definition of the vertices of the closed fill path; see `PathClosesOnBaseline` |
| FuzzyCurves.HourPart | components/Diagrams.tsx:203 | definition of `Math.floor(time)`; see `HourMinuteBounds` |
| FuzzyCurves.MinutePart | components/Diagrams.tsx:203 | definition of `Math.floor((time % 1) * 60)` on the reals; see `HourMinuteBounds` and the line under "Left out" |
| FuzzyCurves.Clock | components/Diagrams.tsx:203 | definition of the padded `hh:mm` text; see `ClockShape` |
| FuzzyCurves.Readout | components/Diagrams.tsx:203 | definition of the readout span's text; see `ReadoutShape` |
| FuzzyCurves.IndicatorLeft | components/Diagrams.tsx:200 | definition of the indicator's left offset; see `IndicatorInRange` |
| FuzzyCurves.BarHeight | components/Diagrams.tsx:36 | definition of a bar's height in percent; see `BarsFitChart` |
| FuzzyCurves.LabelPartition | components/Diagrams.tsx:124-131 | the labels partition the reals into the intervals <5, [5,11), [11,16), [16,19), >=19, and the `""` branch is never taken |
| FuzzyCurves.LabelBoundaries | components/Diagrams.tsx:125-129 | boundaries are left-inclusive (5 Morning, 11 Afternoon, 16 Evening, 19 Night), and 4.999, 23.999 and 24 fall as expected |
| FuzzyCurves.LabelMonotone | components/Diagrams.tsx:124-129 | a later time never gets an earlier label |
| FuzzyCurves.GenerateCurve | components/Diagrams.tsx:141-152 | the loop yields exactly 241 vertices, the i-th at (i/10 mapped to x, membership mapped to y) |
| FuzzyCurves.SamplesSpanSurface | components/Diagrams.tsx:143-149 | samples run from hour 0 to hour 24; svgX runs from 0 to 1000 and strictly increases |
| FuzzyCurves.SvgYRange | components/Diagrams.tsx:150 | a membership in [0,1] gives svgY in [20,200], and a higher membership gives a smaller svgY |
| FuzzyCurves.CurveInBox | components/Diagrams.tsx:149-150 | every vertex lies in [0,1000] x [20,200] |
| FuzzyCurves.PathClosesOnBaseline | components/Diagrams.tsx:155 | the fill path returns along the baseline y = 200 from x = 1000 to x = 0 |
| FuzzyCurves.HourMinuteBounds | components/Diagrams.tsx:203 | on [0,24] the hour is floor(t) in 0..24 and the minute is in 0..59 |
| FuzzyCurves.PadTwoDigits | components/Diagrams.tsx:203 | `padStart(2,'0')` of a number below 100 is two digits that read back as the number |
| FuzzyCurves.ClockShape | components/Diagrams.tsx:203 | `hh:mm` has five characters with ':' in the middle, and both parts read back |
| FuzzyCurves.ReadoutShape | components/Diagrams.tsx:203 | the readout is `hh:mm` with parts floor(t) and a minute in 0..59 |
| FuzzyCurves.IndicatorInRange | components/Diagrams.tsx:200 | the indicator's left offset lies in [0,100] percent, with 0 at t = 0 and 100 at t = 24 |
| FuzzyCurves.TimeSlider.constructor | components/Diagrams.tsx:121 | the time starts at 10 |
| FuzzyCurves.TimeSlider.ActiveLabel | components/Diagrams.tsx:133 | `getFuzzyLabel(time)`; definition, see `TimeSlider.ActiveLabelShown` |
| FuzzyCurves.TimeSlider.ActiveLabelShown | components/Diagrams.tsx:204 | on the slider's range `activeLabel` (line 133) is never `""`, so the `activeLabel && <span>` guard always renders the label |
| FuzzyCurves.TimeSlider.OnChange | components/Diagrams.tsx:209-215 | the slider keeps the time in [0,24] and stores the new value |
| FuzzyCurves.BarsFitChart | components/Diagrams.tsx:12-36 | every bar height is in (0,100] percent, and the bar marked best has the lowest value |
| Decimal.NatToStringDigits | components/Diagrams.tsx:203 | `toString` of a natural number is at least one character, all digits |
| Decimal.NatToStringRoundTrip | components/Diagrams.tsx:203 | reading the digits of `toString` back gives the number |
| Decimal.NatToStringLength | components/Diagrams.tsx:203 | one-digit numbers print as one character, two-digit numbers as two |
| Decimal.PadStart | components/Diagrams.tsx:203 | `padStart` gives the longer of the two lengths, ends with the input and is '0' before it |
| Decimal.Strip | scripts/github_pins.py:114 | the text `int` parses is no longer than the input and has no surrounding whitespace |
| Decimal.StripTrims | scripts/github_pins.py:114 | the text `int` parses is a slice of the input with only whitespace before and after it, so with the ends of `Strip` it is the input trimmed of its surrounding whitespace |
| Decimal.ParseInt | scripts/github_pins.py:114 | `int(text)` fails only with ValueError |
| Decimal.ParseIntOfNatToString | scripts/github_pins.py:114-116 | `int(str(n)) == n` |
| Decimal.ParseIntRejectsNonDigit | scripts/github_pins.py:113-116 | text that starts with a digit and holds a character that is neither a digit nor whitespace, such as the abbreviated count "1.2k", raises ValueError |
| Common.ReplaceAllRemovesChar | app/github_pins.py:188 | removing every ';' leaves none |
| Common.ReplaceAllDropsLast | scripts/github_pins.py:104 | removing a character that occurs only at the end drops just that character |
| PyStr.Split | app.py:78 | `split(c)` gives at least one piece, and no piece contains `c` |
| PyStr.MapChar | app.py:78 | reference definition: every `c` replaced by `d` and every other character kept, with the same length |
| PyStr.JoinSplit | app.py:78 | `d.join(s.split(c))` equals that character-for-character replacement |
| PyStr.SplitFirst | app/utils.py:50 | `x.split('.')[0]` is the prefix of `x` before its first '.' |
| CamelCase.LowerRunEnd | app/utils.py:28 | `[a-z]+` is greedy: the run is all lower-case and stops at a non-lower-case character or the end |
| CamelCase.UpperRunEnd | app/utils.py:28 | `[A-Z]*` is greedy: the run is all capitals and stops at a non-capital or the end |
| CamelCase.Spans | app/utils.py:28 | definition of `findall`'s scan as match spans; see `SpansWellFormed` and `SpansShape` |
| CamelCase.CamelCaseSplit | app/utils.py:27-28 | definition of `camel_case_split`; see `CamelCaseSplitPieces` and `LettersTile` |
| CamelCase.MatchAt | app/utils.py:28 | a match starting at p ends after p and within the string |
| CamelCase.SpansWellFormed | app/utils.py:28 | the matches of `findall` are non-empty, in the string, ordered and non-overlapping |
| CamelCase.MatchShape | scripts/utils.py:7 | every match is a capital followed by letters only |
| CamelCase.SpansShape | scripts/utils.py:7 | every reported match has that shape |
| CamelCase.CamelCaseSplitPieces | app/utils.py:27-28 | the pieces are the input's substrings at ordered, disjoint positions, each a capital followed by letters |
| CamelCase.NoCapitalsNoPieces | scripts/utils.py:7 | no capital from p on means no match from p on |
| CamelCase.CamelCaseSplitNoCapitals | scripts/utils.py:6-7 | a string without A-Z yields `[]` |
| CamelCase.SkipToMatch | LandingPage/views.py:13 | positions where the pattern fails are skipped one character at a time |
| CamelCase.CapitalThenLower | app/utils.py:28 | a capital followed by lower-case letters takes the whole lower-case run |
| CamelCase.CapitalRun | scripts/utils.py:7 | a run of capitals is kept whole at the end of the string, loses its last capital before anything else, and a lone capital there gives no match |
| CamelCase.LetterMatch | LandingPage/views.py:13 | in a letters-only name every capital starts a match, and the next match starts where it ends |
| CamelCase.LettersTile | LandingPage/views.py:12-13 | for a letters-only name the pieces, concatenated, give back the name from its first capital on |
| CamelCase.CamelCaseSplitFooBar | app/utils.py:28 | "FooBar" gives ["Foo","Bar"] |
| CamelCase.CamelCaseSplitAcronym | scripts/utils.py:7 | "HTMLParser" gives ["HTML","Parser"] |
| CamelCase.CamelCaseSplitAllCapitals | app/utils.py:28 | "ABC" gives ["ABC"] |
| CamelCase.CamelCaseSplitCapitalDigit | scripts/utils.py:7 | "A1" gives [] |
| CamelCase.CamelCaseSplitLowerCase | LandingPage/views.py:13 | "my-repo" gives [] |
| RepoNames.NormalizeName | app.py:77-87 | definition of the separator-priority rewrite; see `NormalizeNameBranches` |
| RepoNames.CamelWords | LandingPage/views.py:20 | definition of the camel-case-only rewrite; see `CamelWordsShape` and `CamelWordsExamples` |
| RepoNames.ApplyAll | app.py:76-88 | definition of a loop over the records that stops at the first exception; see `ApplyAllEffect` |
| RepoNames.RewriteAll | LandingPage/views.py:19-21 | definition of the rewrite loop under either rule; see `RewriteAllKeepsOtherFields` and `ApplyInPlace` |
| RepoNames.NormalizeNameBranches | app.py:77-87 | exactly one branch applies, in the priority '.', '-', '_', camel case; a separator branch replaces each occurrence of that separator by a space and keeps the length |
| RepoNames.JoinPieces | app.py:87 | joining capital-led words with spaces gives letters and spaces only, starting with a capital |
| RepoNames.CamelWordsShape | app/github_pins.py:70 | the camel branch yields letters and single spaces, led by a capital |
| RepoNames.NoSeparatorNoCapitalIsEmpty | app.py:86-87 | a name with no separator and no capital becomes "" |
| RepoNames.NormalizeNameKeepsLowerSeparators | app.py:77-84 | "a.b-c" becomes "a b-c" |
| RepoNames.NormalizeNameCamel | app/github_pins.py:69-70 | "HTMLParser" becomes "HTML Parser" |
| RepoNames.CamelWordsExamples | LandingPage/views.py:20 | the camel-only rule turns "Foo-Bar" into "Foo Bar" and "my-repo" into "" |
| RepoNames.RewriteValue | app.py:77-87 | only a string `'repo'` is rewritten; any other value raises, with TypeError under the camel-only rule |
| RepoNames.RewriteRecord | LandingPage/views.py:20 | one record: KeyError without `'repo'`; otherwise the same keys, the rewritten name, and every other field unchanged |
| RepoNames.FirstFailure | app.py:76 | the index of the first record the loop body fails on, or the length |
| RepoNames.ApplyAllLength | app.py:76-87 | the loop keeps the number of records |
| RepoNames.ApplyAllError | app/github_pins.py:59-70 | the loop raises exactly when some record fails, and it raises the first failure's exception |
| RepoNames.ApplyAllBefore | app.py:76-87 | records before the first failure are rewritten |
| RepoNames.ApplyAllAfter | app.py:76-87 | the failing record and the ones after it are untouched |
| RepoNames.ApplyAllEffect | app.py:76-88 | the loop keeps count and order, rewrites exactly the records before the first failure, and reports that failure |
| RepoNames.RewriteAllKeepsOtherFields | LandingPage/views.py:19-21 | under either rule every record keeps its keys and all fields other than `'repo'`; without an exception every `'repo'` holds the rewritten name |
| RepoNames.ApplyInPlace | app/github_pins.py:59-70 | the in-place loop over the record array leaves the contents and the escaping exception of `ApplyAll` |
| RepoNames.RewriteRepoNames | app.py:76-87 | the in-place rewrite loop leaves the array and the exception of `RewriteAll` |
| PinCard.ToDict | scripts/github_pins.py:123-134 | `{}` becomes the empty dict, and a record has `'repo'`, `'owner'` and `'link'` |
| PinCard.CleanColour | scripts/github_pins.py:103-104 | the cleaned colour contains no ';' |
| PinCard.CleanColourOfStyle | app/github_pins.py:187-188 | `background-color: <colour>;` gives back the colour |
| PyUtils.GetJsonData | app/utils.py:54-65 | an empty key gives the whole object; otherwise `data[key]`, or KeyError for a missing key, or TypeError for a non-dict |
| PyUtils.GetJsonDataFindsStoredKey | app/utils.py:63-64 | a stored key yields exactly its value |
| PyUtils.GetStats | LandingPage/views.py:30-39 | the result is `[int(text[3]), int(text[9])]` exactly when there are at least 10 texts and both parse; fewer texts raise IndexError and a bad number raises ValueError, in evaluation order |
| PyUtils.GetStatsReadsPrintedCounts | scripts/utils.py:21-25 | printed natural counts are read back exactly |
| ScriptPins.GetRepo | scripts/github_pins.py:55-136 | definition of `get_repo`; see `GetRepoFields` |
| ScriptPins.CountOrZero | scripts/github_pins.py:108-121 | definition of a count with its fallback to 0; see `CountReadsPrintedNumber` and `CountOfAbbreviation` |
| ScriptPins.GetRepoFields | scripts/github_pins.py:55-136 | `{}` exactly when the name lookup fails; the owner defaults to the user name; found description and language are copied, missing ones are ""; a found style is cleaned to its colour, which has no ';'; the link is `https://github.com/<owner>/<repo>`; image and website are ""; a count whose text parses is that integer, and a missing or unparsable one is 0 |
| ScriptPins.CountReadsPrintedNumber | scripts/github_pins.py:113-116 | a count printed as a plain number is read exactly |
| ScriptPins.CountOfAbbreviation | scripts/github_pins.py:118-121 | an abbreviated count such as "1.2k" or "12k" (a leading digit, then a character that is neither a digit nor whitespace) falls back to 0 |
| ScriptPins.GetWebsiteImage | scripts/github_pins.py:19-52 | a non-empty website comes from an anchor with a title and no "Topic" in it; an image element present gives its content |
| ScriptPins.WebsiteImageFallbacks | scripts/github_pins.py:34-50 | a missing anchor or a topic link gives ""; otherwise the href is used; a missing image element gives the Open Graph URL for owner and repo |
| ScriptPins.PatchFrom | scripts/github_pins.py:174-180 | the patch loop keeps the number of records |
| ScriptPins.FirstUnpatched | scripts/github_pins.py:174-180 | the first record that stops the loop (`{}` or a page that fails to load); all earlier ones are complete records with a loaded page |
| ScriptPins.PatchFromEffect | scripts/github_pins.py:174-180 | the patch loop completes exactly the records before the first failure and leaves the rest as they were |
| ScriptPins.PatchFromKeepsDone | scripts/github_pins.py:174 | records before the loop's start are untouched |
| ScriptPins.PatchFromPatches | scripts/github_pins.py:175-177 | records up to the first failure get their website and image |
| ScriptPins.PatchFromKeepsRest | scripts/github_pins.py:179-180 | the failing record and all later ones are left as they were |
| ScriptPins.ScrapeSpec | scripts/github_pins.py:139-184 | definition of what `scrape_github` returns; see `ScrapeRecords` and `EmptyRecordStopsPatching` |
| ScriptPins.ScrapeRecords | scripts/github_pins.py:171-177 | one record per card, in card order, each completed while no earlier record has stopped the loop |
| ScriptPins.EmptyRecordStopsPatching | scripts/github_pins.py:174-180 | a card without a name leaves `{}`, and it and every later record stay as `get_repo` built them |
| ScriptPins.ReadCards | scripts/github_pins.py:171-172 | the append loop yields exactly one record per card, the card's own, in card order |
| ScriptPins.PatchRecords | scripts/github_pins.py:174-177 | the completion loop returns `PatchFrom` of the records: each record is completed in order until the first `{}` record or failed page load |
| ScriptPins.ScrapeGithub | scripts/github_pins.py:139-184 | the two loops of `scrape_github` return `ScrapeSpec`: [] when the profile fails to load, else the records as above |
| AppPins.GetRepo | app/github_pins.py:150-218 | a full record has empty image and website and a colour without ';' |
| AppPins.GetRepoAllOrNothing | app/github_pins.py:159-216 | `{}` exactly when one of the five lookups fails; a full record exactly when they and both counts succeed, holding the looked-up owner, name, description and language, the template's link, the cleaned colour and the parsed counts; otherwise the IndexError or ValueError of the counts escapes |
| AppPins.MissingOwnerDropsCard | app/github_pins.py:161-162 | a missing owner drops the card, unlike the script version |
| AppPins.GetRepos | app/github_pins.py:50-73 | definition of `get_repos`; see `GetReposAlwaysRaises` |
| AppPins.SetRepoContextSpec | app/github_pins.py:24-48 | definition of `set_repo_context`'s effect; see `SetRepoContextFallsBack`, `SetRepoContextMissingPapers` and `SetRepoContextNotAnObject` |
| AppPins.GetReposAlwaysRaises | app/github_pins.py:57 | `get_repos` calls `scrape_github()` without `username`, so it always raises TypeError |
| AppPins.SetRepoContextFallsBack | app/github_pins.py:24-48 | `'repos'` is always the static file; with the four lists present every key is set and nothing else changes |
| AppPins.SetRepoContextMissingPapers | app/github_pins.py:33 | user data without research papers raises KeyError after only `'repos'` is set |
| AppPins.SetRepoContextNotAnObject | app/github_pins.py:33 | user data that is not an object raises TypeError |
| AppPins.PinnedGithubRepos.constructor | app/github_pins.py:19-22 | the scraper keeps its user name |
| AppPins.PinnedGithubRepos.SetRepoContext | app/github_pins.py:24-48 | the dict is filled in place as `SetRepoContextSpec` says, and the same dict is returned, or the escaping exception |
| SiteContext.Context.constructor | app.py:102-104 | the dict starts as given |
| SiteContext.TypewriterJson | app.py:119-128 | the typewriter entry is a list of eight sentences |
| SiteContext.GetRepos | app.py:67-88 | definition of `get_repos`; see `GetReposOutcome` |
| SiteContext.GetReposOutcome | app.py:67-88 | a `{}` record makes `get_repos` raise KeyError, and only then; otherwise every record keeps its fields and gets its name normalised |
| SiteContext.BuildContext | app.py:102-128 | the import builds exactly the seven entries, key by key |
| SiteContext.TemplateArgs | app.py:18-24 | template arguments succeed exactly when every key is present and copy the dict's values; otherwise KeyError |
| SiteContext.Serve | app.py:14-64 | a route changes only `'name'` and renders with that dict's entries |
| SiteContext.RoutesRenderOnSiteContext | app.py:14-64 | on the imported context every route renders, with its own page name as `name`, and leaves every other entry alone |
| SiteContext.PageNamesDistinct | app.py:17-58 | the four routes store four distinct page names |
| FileSort.SortKey | app/utils.py:50 | the key is the prefix before the first '.', and contains no '.' |
| FileSort.StrLeTotal | app/utils.py:50 | Python string order is total |
| FileSort.StrLeTransitive | app/utils.py:50 | Python string order is transitive |
| FileSort.StrLeAntisymmetric | app/utils.py:50 | Python string order is antisymmetric |
| FileSort.SortedAllPairs | scripts/utils.py:29 | a list ordered by neighbours is ordered on every pair |
| FileSort.Insert | app/utils.py:50 | inserting adds one element |
| FileSort.SortSpec | app/utils.py:50 | sorting keeps the length |
| FileSort.InsertSorted | scripts/utils.py:29 | insertion keeps a list ordered by key |
| FileSort.SortSpecSorted | app/utils.py:50 | the result is ordered by key |
| FileSort.InsertPermutes | scripts/utils.py:29 | insertion adds exactly the element |
| FileSort.SortSpecPermutes | app/utils.py:50 | the result is a permutation of the input |
| FileSort.WithKey | app/utils.py:50 | the elements with one key form a sub-list |
| FileSort.InsertStable | scripts/utils.py:29 | insertion puts an element after every equal-key element |
| FileSort.SortSpecStable | app/utils.py:50 | elements with equal keys keep their original order |
| FileSort.SortFiles | app/utils.py:49-51 | the list is sorted in place and returned as the same object: ordered by key, a permutation, and stable |
| NeuralNetwork.Node.constructor | static/js/neural-network.js:45-54 | the radius is 60 for the central node and 32 otherwise; the base radius equals it; not hovered; no connections |
| NeuralNetwork.Node.Connect | static/js/neural-network.js:55 | `connect` appends and changes nothing else |
| NeuralNetwork.Node.Update | static/js/neural-network.js:59-66 | the central node does not move; others move to their orbit position; radius = base x (1.13 if hovered) x pulse |
| NeuralNetwork.Node.CheckHover | static/js/neural-network.js:82-86 | hovered iff the distance is below the radius, and the flag is returned |
| NeuralNetwork.ScaledRadius | static/js/neural-network.js:65 | positive inputs give a positive radius, larger when hovered |
| NeuralNetwork.LinkedSymmetric | static/js/neural-network.js:247-248 | the edge rule is symmetric |
| NeuralNetwork.PartnersBelow | static/js/neural-network.js:245-254 | a node has fewer cross edges than nodes |
| NeuralNetwork.PartnersBelowMembers | static/js/neural-network.js:245-254 | node m is a cross partner of k iff 1 <= m, m != k, and the types differ with a shared stack entry |
| NeuralNetwork.CrossEdges | static/js/neural-network.js:245-254 | cross edges are symmetric, never self-loops, never between two nodes of the same type, and never touch the central node |
| NeuralNetwork.Setup | static/js/neural-network.js:206-255 | 2 + projects + research fresh distinct nodes in the order central, projects, research, resume, each at rest (radius and base radius 60 for the centre, 32 otherwise, not hovered); the centre has no connections; every other node has its spoke, then its cross edges in index order |
| NeuralNetwork.CreateNodes | static/js/neural-network.js:215-243 | the node-creating part: same order and kinds, each node at rest, each non-central node with exactly its spoke |
| NeuralNetwork.AddGroup | static/js/neural-network.js:221-228 | one `forEach`: a fresh node at rest per entry, in order, each connected to the centre |
| NeuralNetwork.ConnectCrossEdges | static/js/neural-network.js:244-254 | the nested loop appends exactly the cross edges of each node, in index order, and changes no position, radius or hover flag |
| NeuralNetwork.LinkRow | static/js/neural-network.js:246-253 | the inner loop for row i links node i with each later partner, and changes no position, radius or hover flag |
| NeuralNetwork.LinkPair | static/js/neural-network.js:247-252 | the loop body moves every node's connections one pair further in the setup order, and changes nothing else |
| NeuralNetwork.ConnectIfLinked | static/js/neural-network.js:247-251 | a linked pair is connected in both directions and no other node gains a connection; positions, radii and hover flags stay |
| NeuralNetwork.StarStaysInFront | static/js/neural-network.js:27-30 | after an update the depth is at least 1 when the width is at least 1 |
| NeuralNetwork.Star.constructor | static/js/neural-network.js:20-26 | a star starts at the given position, depth and size |
| NeuralNetwork.Star.Update | static/js/neural-network.js:27-30 | the depth moves by the speed, or on passing 1 the star resets with depth = width |
| NeuralNetwork.LastHit | static/js/neural-network.js:276-279 | the index of the last hit, or None exactly when there is none |
| NeuralNetwork.SelectHovered | static/js/neural-network.js:276-279 | every node's hover flag is set from its distance, and `hoveredNode` is the last node whose check succeeded, or null; positions, radii, base radii and connections stay |
| NeuralNetwork.HoverFlags | static/js/neural-network.js:277-278 | the hover flags of the nodes, in order |
| NeuralNetwork.TooltipText | static/js/neural-network.js:282 | the tooltip shows the first non-empty of title, repo and name, or "" exactly when all are missing or empty |
| NeuralNetwork.FrameRadiusValues | static/js/neural-network.js:260-264 | after a frame the central radius is 60·pulse² and the others 32·pulse, times 1.13 when hovered |
| NeuralNetwork.AnimateNodes | static/js/neural-network.js:259-264 | every node gets its frame radius; the hover flags and connections are kept; the central node stays put and the others move to their orbit positions; the base radius is 60·pulse for the centre and 32 for the others |
| NeuralNetwork.DetailsForNonCentralHover | static/js/neural-network.js:276-290 | with the centre first, the tooltip and the modal act exactly when some non-central node is hovered, and then on the last such node |
| NeuralNetwork.Draw | static/js/neural-network.js:256-279 | one frame: radii from the previous hover flags, new flags from the new radii, `hoveredNode` the last hit; the graph and the base radii stay as the next frame needs them |
| NeuralNetwork.Sketch | static/js/neural-network.js:206-279 | setup and then any number of frames: the graph stays as the setup built it, and the hovered node is the one the last frame picked |
| NeuralNetwork.RunFrames | static/js/neural-network.js:256-279 | frame after frame on the built graph: the graph and the base radii are kept, and the last frame's hover flags and hovered node hold |

## Left out

- Rendering of every kind is not modelled. This covers JSX markup, presentational components, p5 drawing, the tooltip and modal DOM, `window.scrollTo`, `scrollToSection`, the scroll listener and the mobile menu. It is layout with no statable behaviour.
- Forward navigation is not modelled. The browser history supports only back, which the scenarios need.
- Routing.Nav.Back / Browser.Back: back from the first entry leaves the page in a real browser. The model treats it as no change, because the app is gone afterwards and nothing of it remains to model.
- Routing.AppState.Select: takes any id, as the code does. The catalogue restriction is proved separately.
- FuzzyCurves.GenerateCurve: the Gaussian is a parameter. Its bounds in [0, 1] are a precondition of `CurveInBox`, not proved. Its peak and monotonicity are not stated. The `Math.exp` body is floating point.
- FuzzyCurves.MinutePart / Readout: the time is a real number, where the browser computes `Math.floor((time % 1) * 60)` on IEEE doubles. For slider values such as 10.1, 10.2, 2.3 and 23.9, `time % 1` is just below the exact fraction, so the displayed minute is one lower than floor(frac(t)·60) (10:05 rather than 10:06). The bounds 0..59 of `HourMinuteBounds` hold either way; the exact minute digits of `ReadoutShape` are those of the real-number computation.
- FuzzyCurves.ReadoutShape: states the minute digits of the real-number computation, which can be one more than the browser's for the reason in the line above.
- The `toFixed(1)` text of the path coordinates and the random waveform heights are not modelled. They are floating-point formatting and randomness.
- The static figures of the other diagram components are not modelled. They have no behaviour.
- The three.js scenes, neural-galaxy.js and scripts.js are not modelled. They are 3D or random decoration and DOM modal code.
- All I/O is a parameter: Selenium, `requests`, BeautifulSoup, pandas, file reads, JSON loading, logging, and the Flask and Django wiring.
  - Pins, pages and loaded JSON are inputs. The profile-page lookup is an `Option`. `DRIVER.get(link)` is an `Option`-valued function.
  - Creating and quitting the driver, and writing repos.json, are not modelled.
- AppPins.GetRepo: `scrape_github` and `get_website_image` of app/github_pins.py are not modelled.
  - `get_repos` reaches neither: it always raises TypeError first (`GetReposAlwaysRaises`).
  - Both also call methods with a wrong number of arguments.
  - `GITHUB_LINK` comes from app/constants.py, which is not part of this model. It is a parameter.
- SiteContext.GetRepos: app.py's `get_json_data(path)` (pandas `read_json`) is not modelled. Its results are parameters.
- Decimal.ParseInt: does not accept the underscores or non-ASCII digits that Python's `int()` allows. GitHub prints neither in star counts. Whitespace is Python's full `str.isspace` set.
- `window.projectData` and `window.researchData` come from the page template; only their `stack` fields are used, as inputs.
- NeuralNetwork.Setup: positions are not modelled.
  - Every node is created at the centre. `setFixed`'s angle and orbit radius are abstracted away.
  - Orbit positions are inputs to `Update`.
  - Mouse distances are inputs to `CheckHover`.
  - The pulse is an input.
  - `windowResized` and the keyboard handlers are not modelled.
- NeuralNetwork.Star.Update: the reset's random position and size are inputs.
- NeuralNetwork.Sketch / Draw: p5 calls `draw` once per animation frame; the model takes a finite list of frames, each with its orbit positions, mouse distances and pulse. The starfield pass, the drawing of edges and nodes, and the tooltip and modal DOM calls of a frame are not modelled.
- FileSort.SortFiles: models the result of Python's library sort, not its algorithm (Timsort). The result is specified by a functional insertion sort, and proved ordered, a permutation, and stable.
- The identity of dicts shared between lists is not modelled. Records are values in an array, so aliasing between records is not captured.
- PinCard.CleanColourOfStyle: holds only for colours shorter than the property name (17 characters). A longer colour containing "background-color: " would also lose that text.
