# Global disaster overview — Dafny model

This project models the live logic of the "global disaster overview" dashboard page:

- **Location tree navigator** (`LocationTree.jsx`): the hard-coded location hierarchy
  (global → region → country → city), the set of expanded node ids, the toggle on it,
  and the rows the tree draws — a pre-order walk in which a node's children appear
  only when the node has children and is expanded, each row with its depth,
  indentation, chevron and "selected" mark.
- **Selection and details panel** (`index.jsx`, the live component at lines 1–216):
  one optional selection shared by the tree and the globe, replaced by a selection
  and cleared by the close button, and the details section as a projection of it
  with JavaScript truthiness (`name || title`, `activeDisasters || magnitude || 'N/A'`,
  the severity-dot chain, the "N/A" population guard).
- **Live alert feed helpers** (`LiveAlertFeed.jsx`): `formatTimeAgo` as whole-minute /
  whole-hour bucketing of a millisecond difference, the simulated connection status as a
  three-state machine driven by the interval and its follow-up timeout, and the
  colour, icon and label switches.

Modules: `Wrappers` (Option), `Text` (decimal rendering of numbers), `Palette` (the
severity-level classification every colour switch shares), `LocationTree`, `TreePaths`
(visibility described through ancestry, independently of the traversal),
`LiveAlertFeed`, `Overview` (selection, details, page events) and `Scenarios` (the page
walked through on its hard-coded data).

Modelling choices:
- A node written without `children` is modelled with an empty children list; the tree
  treats both the same (`hasChildren` is false).
- Severity and kind tags stay strings, as the switches have a `default` for any other
  string. The connection status is a three-value type holding the values the status switch
  names (LiveAlertFeed.jsx:116-120); the feed itself only ever sets connected and updating.
- The selection is a tagged union: a tree node, an alert, or a loosely shaped value from
  the globe whose fields are all optional. Reading a field the value lacks yields `None`,
  as `?.` yields `undefined`. Only the tree and the globe report selections (index.jsx
  lines 111 and 141); the alert cards have no click handler, so an alert-shaped value
  can only arrive as a globe pick (`GlobePicked(Alert(…))`).
- Clock readings become parameters: `FormatTimeAgo(now, timestamp)`.
- `Math.floor(diff / 60000)`: Dafny's `/` by a positive constant already rounds down,
  also for a negative difference, as long as `diff` is a whole number JavaScript holds
  exactly (see "Numbers" under Left out).
- `toggleExpanded` does not check that the node has children: `Toggle` flips any id,
  and `LeafToggleKeepsRows` proves that flipping an id no node with children carries
  leaves every drawn row unchanged.

## Model

| member | source | states |
|---|---|---|
| `LocationTree.Registry` | src/pages/global-disaster-overview/components/LocationTree.jsx:7-99 | one global root; every node's kind is the kind of its level (global, region, country, city), and cities have no children |
| `LocationTree.RegistryIds` | src/pages/global-disaster-overview/components/LocationTree.jsx:7-99 | the registry's ids in pre-order are global, then the ids of the middle-east, asia-pacific and americas subtrees in that order: nineteen ids, dubai to houston spelled out |
| `LocationTree.RegistryIdsDistinct` | src/pages/global-disaster-overview/components/LocationTree.jsx:7-99 | all node ids of the registry are pairwise distinct |
| `LocationTree.InitialExpandedAreBranches` | src/pages/global-disaster-overview/components/LocationTree.jsx:5 | the initially expanded ids (global, middle-east, asia-pacific) all belong to nodes with children |
| `LocationTree.SeverityColor` | src/pages/global-disaster-overview/components/LocationTree.jsx:101-109 | the badge text colour is `text-<hue>-400`, the hue of the tag's level: red, orange, yellow, green, slate for any other tag |
| `LocationTree.SeverityBg` | src/pages/global-disaster-overview/components/LocationTree.jsx:111-119 | the badge background is `bg-<hue>-500/20` with the same hue as the text colour |
| `Palette.ClassifyRated` | src/pages/global-disaster-overview/components/LocationTree.jsx:102-107 | exactly the four tags critical, high, medium, low are rated; every other string takes the default |
| `LocationTree.TypeIcon` | src/pages/global-disaster-overview/components/LocationTree.jsx:121-129 | the switch is total; the default icon Circle is returned exactly for kinds outside global, region, country, city |
| `LocationTree.TypeIconInjective` | src/pages/global-disaster-overview/components/LocationTree.jsx:121-129 | two kinds share an icon only if they are equal or both unknown |
| `LocationTree.Toggle` | src/pages/global-disaster-overview/components/LocationTree.jsx:131-139 | the toggled id's membership flips and every other id keeps its membership |
| `LocationTree.ToggleInvolution` | src/pages/global-disaster-overview/components/LocationTree.jsx:131-139 | toggling the same id twice restores the expanded set |
| `LocationTree.VisibleNode` | src/pages/global-disaster-overview/components/LocationTree.jsx:145-201 | a node's rows start with the node itself at its depth, and no row is shallower than it |
| `LocationTree.VisibleForest` | src/pages/global-disaster-overview/components/LocationTree.jsx:198-218 | a forest shows rows iff it has nodes, the first row is its first node, and no row is shallower than the forest's depth (roots at 0) |
| `LocationTree.SubtreeFollowsNode` | src/pages/global-disaster-overview/components/LocationTree.jsx:198-201 | a node has rows after its own iff it has children and is expanded, and those rows are its children's rows one level deeper, directly after it |
| `LocationTree.TopLevelRows` | src/pages/global-disaster-overview/components/LocationTree.jsx:198-201 | the rows at a forest's own depth are exactly its nodes in registry order; open subtrees only add deeper rows |
| `LocationTree.NodeRowsNested` | src/pages/global-disaster-overview/components/LocationTree.jsx:145-201 | within a node's rows, each row is at most one level deeper than the row above, and one level deeper only as the first child of an expanded row |
| `LocationTree.ForestRowsNested` | src/pages/global-disaster-overview/components/LocationTree.jsx:198-218 | the same nesting law holds across the rows of the whole forest |
| `LocationTree.NodeRowsFrame` | src/pages/global-disaster-overview/components/LocationTree.jsx:146-147 | a node's rows depend only on which ids of nodes with children are expanded |
| `LocationTree.ForestRowsFrame` | src/pages/global-disaster-overview/components/LocationTree.jsx:198-201 | two expanded sets that agree on the ids of nodes with children give the same rows |
| `LocationTree.LeafToggleKeepsRows` | src/pages/global-disaster-overview/components/LocationTree.jsx:131-139 | toggling an id carried by no node with children changes the set but not the rows |
| `LocationTree.Rows` | src/pages/global-disaster-overview/components/LocationTree.jsx:145-175 | one row per visible entry, with indentation `depth*16 + 8`, marked selected iff its id equals the selection's id, with a chevron iff the node has children, pointing down iff it is expanded |
| `TreePaths.VisibleHasOpenPath` | src/pages/global-disaster-overview/components/LocationTree.jsx:198-201 | every shown row is reached by a path of expanded ancestors, at a depth equal to its number of ancestors |
| `TreePaths.OpenPathIsVisible` | src/pages/global-disaster-overview/components/LocationTree.jsx:198-201 | a node all of whose ancestors are expanded is shown, at a depth equal to its number of ancestors |
| `TreePaths.VisibleIffAncestorsOpen` | src/pages/global-disaster-overview/components/LocationTree.jsx:198-218 | a node is shown iff all its ancestors are expanded; under a collapsed ancestor it contributes no row |
| `TreePaths.ExtendPath` | src/pages/global-disaster-overview/components/LocationTree.jsx:200 | a child's ancestors are open iff its parent's ancestors are open and the parent is expanded |
| `TreePaths.ChildOfOpenRowIsVisible` | src/pages/global-disaster-overview/components/LocationTree.jsx:198-201 | every child of a shown, expanded node is shown one level deeper than its parent |
| `Text.ValueOfNatToString` | src/pages/global-disaster-overview/components/LiveAlertFeed.jsx:109 | reading back the printed digits of a count gives the count |
| `Text.IntToString` | src/pages/global-disaster-overview/components/LiveAlertFeed.jsx:109-111 | a whole number prints as a minus sign exactly when negative, then digits without a leading zero that read back as its magnitude |
| `Text.CanonicalIsNatToString` | src/pages/global-disaster-overview/components/LiveAlertFeed.jsx:109 | any digit string without a leading zero is the printing of the number it denotes, so the printed form of a number is unique |
| `Text.TenthsOfMillion` | src/pages/global-disaster-overview/index.jsx:203 | for whole tenths of a million, the one-decimal text has a whole part without leading zeros and reads back as the count in tenths of a million |
| `LiveAlertFeed.SeverityClasses` | src/pages/global-disaster-overview/components/LiveAlertFeed.jsx:81-89 | a card's text, background and border classes are all in the hue of the tag's level (red, orange, yellow, green), slate for any other tag |
| `LiveAlertFeed.CardClassesByLevel` | src/pages/global-disaster-overview/components/LiveAlertFeed.jsx:81-89 | the card classes determine the severity level and vice versa; unknown tags share the default |
| `LiveAlertFeed.ClassesReadBack` | src/pages/global-disaster-overview/components/LiveAlertFeed.jsx:81-89 | the level can be read back from a card's classes; any unrated tag gets the slate default |
| `LiveAlertFeed.TypeIcon` | src/pages/global-disaster-overview/components/LiveAlertFeed.jsx:91-100 | total; AlertTriangle exactly for kinds outside earthquake, flood, cyclone, wildfire, drought |
| `LiveAlertFeed.TypeIconInjective` | src/pages/global-disaster-overview/components/LiveAlertFeed.jsx:91-100 | two hazard kinds share an icon only if equal or both unknown |
| `LiveAlertFeed.TimeAgo` | src/pages/global-disaster-overview/components/LiveAlertFeed.jsx:102-113 | minutes iff the difference is under an hour, as the floor of diff/60000; otherwise hours, the floor of diff/3600000, which is at least 1 |
| `LiveAlertFeed.FormatTimeAgo` | src/pages/global-disaster-overview/components/LiveAlertFeed.jsx:102-113 | the label ends in "m ago" iff under an hour and "h ago" otherwise; its number is the floored count in digits without a leading zero, preceded by a minus sign exactly when the timestamp lies in the future |
| `LiveAlertFeed.WholeMinutesLabel` | src/pages/global-disaster-overview/components/LiveAlertFeed.jsx:105-109 | an alert exactly k minutes old, k below 60, reads "km ago" |
| `LiveAlertFeed.WholeHoursLabel` | src/pages/global-disaster-overview/components/LiveAlertFeed.jsx:106-111 | an alert exactly k ≥ 1 hours old reads "kh ago" |
| `LiveAlertFeed.MockAlertAges` | src/pages/global-disaster-overview/components/LiveAlertFeed.jsx:8-64 | five hard-coded alerts, newest first, 5, 15, 30, 45 and 60 minutes old when created |
| `LiveAlertFeed.MockAlertLabels` | src/pages/global-disaster-overview/components/LiveAlertFeed.jsx:15-59 | the newest hard-coded alert reads "5m ago" and the oldest "1h ago" |
| `LiveAlertFeed.Apply` | src/pages/global-disaster-overview/components/LiveAlertFeed.jsx:70-76 | the interval turns connected into updating and every other status into connected; the follow-up timeout always sets connected |
| `LiveAlertFeed.Run` | src/pages/global-disaster-overview/components/LiveAlertFeed.jsx:70-76 | no callbacks keep the status; after any callback the status is not disconnected, and after a closing follow-up timeout it is connected |
| `LiveAlertFeed.RunAppend` | src/pages/global-disaster-overview/components/LiveAlertFeed.jsx:70-76 | running two callback sequences one after the other equals running their concatenation |
| `LiveAlertFeed.NeverDisconnected` | src/pages/global-disaster-overview/components/LiveAlertFeed.jsx:71-75 | no sequence of timer callbacks reaches disconnected, from connected or after at least one callback |
| `LiveAlertFeed.TimeoutReconnects` | src/pages/global-disaster-overview/components/LiveAlertFeed.jsx:73-75 | after the follow-up timeout the status is connected, whatever came before |
| `LiveAlertFeed.RoundsFromConnected` | src/pages/global-disaster-overview/components/LiveAlertFeed.jsx:70-76 | under the real schedule each round goes connected → updating → connected |
| `LiveAlertFeed.StatusLabel` | src/pages/global-disaster-overview/components/LiveAlertFeed.jsx:132 | "Live" exactly when connected, "Updating" exactly when updating, "Offline" for every other status |
| `LiveAlertFeed.StatusColor` | src/pages/global-disaster-overview/components/LiveAlertFeed.jsx:115-122 | the label colour is `text-<hue>-400` in the status hue (green, yellow, red); the slate default is never produced |
| `LiveAlertFeed.StatusDot` | src/pages/global-disaster-overview/components/LiveAlertFeed.jsx:130 | the dot is `bg-<hue>-400` in the same status hue, pulsing exactly while updating |
| `LiveAlertFeed.StatusIndicatorsAgree` | src/pages/global-disaster-overview/components/LiveAlertFeed.jsx:115-132 | label, text colour and dot each distinguish the three statuses and agree: Live/green, Updating/yellow, Offline/red |
| `LiveAlertFeed.NeverOffline` | src/pages/global-disaster-overview/components/LiveAlertFeed.jsx:6-132 | starting from the initial status, the label never reads "Offline" |
| `Overview.Heading` | src/pages/global-disaster-overview/index.jsx:160 | the heading shows the name when it is a non-empty string, otherwise the title (nothing when that is absent too) |
| `Overview.SeverityDot` | src/pages/global-disaster-overview/index.jsx:176-184 | red, orange, yellow for critical, high, medium (the tag's hue); green for anything else, an absent severity included |
| `Overview.ActiveEvents` | src/pages/global-disaster-overview/index.jsx:195 | "N/A" iff neither the count nor the magnitude is present and non-zero; otherwise the count when it is present and non-zero, else the magnitude; a zero falls through |
| `Overview.AffectedPopulation` | src/pages/global-disaster-overview/index.jsx:202-204 | "N/A" exactly when the head count is absent or 0; otherwise the count, shown in millions |
| `Overview.PopulationText` | src/pages/global-disaster-overview/index.jsx:202-204 | "N/A", or the one-decimal millions text followed by "M" |
| `Overview.DetailsPanel` | src/pages/global-disaster-overview/index.jsx:155-210 | the details section exists iff something is selected, and shows the heading, dot, severity, active events and population of the selection |
| `Overview.LocationDetails` | src/pages/global-disaster-overview/index.jsx:155-210 | for a tree node: its name, its count unless the count is 0 (then "N/A"), population "N/A" |
| `Overview.AlertDetails` | src/pages/global-disaster-overview/index.jsx:155-210 | for an alert: its title, active events always "N/A", population "N/A" iff the head count is 0 |
| `Overview.DotAgreesWithTree` | src/pages/global-disaster-overview/index.jsx:176-184 | the panel dot matches the tree's hue for critical, high, medium; for low both are green; for unknown tags the dot is green while the tree uses slate |
| `Overview.ClickRow` | src/pages/global-disaster-overview/components/LocationTree.jsx:157-165 | a click toggles iff it lands on a chevron (which stops propagation); any other click selects the row's node unchanged |
| `Overview.ClicksOnDrawnRows` | src/pages/global-disaster-overview/components/LocationTree.jsx:157-175 | on drawn rows, a click toggles without selecting iff it lands on the chevron of a node with children; otherwise it selects the node and leaves the tree as is |
| `Overview.Step` | src/pages/global-disaster-overview/index.jsx:62-64 | only the timer writes the feed status, only a chevron the expanded set (by toggling), and row clicks, globe picks and close the selection (set to the node, the picked value, or none) |
| `Overview.SelectReplaces` | src/pages/global-disaster-overview/index.jsx:62-64 | selecting replaces the selection with the given value unconditionally; tree and status unchanged |
| `Overview.CloseClears` | src/pages/global-disaster-overview/index.jsx:163 | the close button sets the selection to none; tree and status unchanged |
| `Overview.ChevronOnlyToggles` | src/pages/global-disaster-overview/components/LocationTree.jsx:160-165 | a chevron click flips exactly its id and leaves the selection alone |
| `Overview.ReselectIdempotent` | src/pages/global-disaster-overview/index.jsx:62-64 | selecting the same value twice equals selecting it once; re-selection is not a toggle |
| `Overview.ChevronTwiceRestores` | src/pages/global-disaster-overview/components/LocationTree.jsx:131-139 | two clicks on the same chevron restore the page |
| `Overview.PanelFollowsSelection` | src/pages/global-disaster-overview/index.jsx:155-163 | after close there is no details section; after any selection there is one |
| `Overview.TimerLeavesSelection` | src/pages/global-disaster-overview/components/LiveAlertFeed.jsx:70-76 | timer callbacks change only the feed status, however many run |
| `Overview.ClickedRowIsMarked` | src/pages/global-disaster-overview/components/LocationTree.jsx:148-155 | after a row click, a row is marked selected iff its id is the clicked node's id |
| `Scenarios.InitialRows` | src/pages/global-disaster-overview/components/LocationTree.jsx:5-99 | at start-up the tree shows global, middle-east, uae, saudi, asia-pacific, philippines, indonesia, americas, in that order |
| `Scenarios.RiyadhHiddenAtStart` | src/pages/global-disaster-overview/components/LocationTree.jsx:198-201 | Riyadh has no row at start-up, as Saudi Arabia is collapsed |
| `Scenarios.RiyadhShownAfterExpandingSaudi` | src/pages/global-disaster-overview/components/LocationTree.jsx:198-201 | after expanding Saudi Arabia, Riyadh shows at depth 3 |
| `Scenarios.SelectInspectClose` | src/pages/global-disaster-overview/index.jsx:155-204 | expand Saudi Arabia, click Riyadh: heading Riyadh, orange dot, severity high, 2 active events, population N/A; closing removes the section |
| `Scenarios.FirstAlertPopulation` | src/pages/global-disaster-overview/index.jsx:202-204 | a selection carrying the first hard-coded alert's fields (its title, affectedPopulation 2400000) shows that title and "2.4M" |

## Left out

- Numbers: JavaScript numbers are doubles; the model uses unbounded integers, which agree with them on whole values below 2^53. Every time difference, count and head count on this page lies far below that; beyond it (or from 1e21 on, where `${n}` switches to exponent notation) the rendering is not modelled.

- Rendering: JSX markup, CSS classes not produced by the switches above, the `Icon`, `Helmet`, `Header`, `MetricCard` and `InteractiveGlobe` components. `InteractiveGlobe` is not part of this model; the values it reports are modelled as `GlobePicked` of a `Selected` value; a loosely shaped one is `Picked` with optional fields.
- The `preferredLanguage` read from `localStorage` (index.jsx:14-17): browser storage, unused by the logic.
- Timer scheduling and cleanup (`setInterval`, `setTimeout`, `clearInterval`): only the state changes of the two callbacks are modelled, as `TimerEvent` values.
- Clock reads (`new Date()`, `Date.now()`, `toLocaleTimeString`): the current time is a parameter.
- Overview.PopulationText: `toFixed(1)` is only rendered for head counts that are whole tenths of a million, where no floating-point rounding happens; other counts are kept as `Millions(people)`.
- Overview.ActiveEvents: a magnitude is modelled as a whole number; fractional magnitudes (7.2) would need floating point.
- The feed's per-card "…M affected" text (LiveAlertFeed.jsx:172): floating-point formatting, as above.
- The `capitalize` class on the severity text: pure CSS.
- React's re-render after a selection (consumers being notified again on re-selection): framework scheduling, not state.
- The commented-out page variants in index.jsx (lines 218-475 and 491-697), including the case-insensitive coordinate lookup for the globe: dead code.
- `metricsData` and the alert descriptions: mock content used only for display; `AlertRecord` has no description field.
- LiveAlertFeed's `getConnectionStatusColor` default case (slate): unreachable, since the status only ever takes the three modelled values.
