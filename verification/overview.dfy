/**
 * The overview page: the single selection cell shared by the tree, the globe
 * and the details panel, the details panel as a projection of it, and the
 * page's events (row clicks, chevron clicks, globe picks, the close button
 * and the feed's timer) with what each of them may change.
 */
module Overview {
  import opened Wrappers
  import opened Text
  import opened Palette
  import LocationTree
  import LiveAlertFeed

  type Node = LocationTree.Node
  type AlertRecord = LiveAlertFeed.AlertRecord

  /**
   * A loosely shaped value the globe may report. Its inner workings are not
   * part of this model, so every field is optional.
   */
  datatype Feature = Feature(
    id: Option<string>,
    name: Option<string>,
    title: Option<string>,
    severity: Option<string>,
    activeDisasters: Option<int>,
    magnitude: Option<int>,
    affectedPopulation: Option<int>)

  /** The selected thing: a tree node, an alert, or whatever the globe picked. */
  datatype Selected =
    | Location(node: Node)
    | Alert(alert: AlertRecord)
    | Picked(feature: Feature)

  // ---------------------------------------------------------------------------
  // Optional field reads (`selected?.field`): a field the value lacks reads as absent

  function IdOf(s: Selected): Option<string> {
    match s
    case Location(n) => Some(n.id)
    case Alert(a) => Some(a.id)
    case Picked(f) => f.id
  }

  function NameOf(s: Selected): Option<string> {
    match s
    case Location(n) => Some(n.name)
    case Alert(_) => None
    case Picked(f) => f.name
  }

  function TitleOf(s: Selected): Option<string> {
    match s
    case Location(_) => None
    case Alert(a) => Some(a.title)
    case Picked(f) => f.title
  }

  function SeverityOf(s: Selected): Option<string> {
    match s
    case Location(n) => Some(n.severity)
    case Alert(a) => Some(a.severity)
    case Picked(f) => f.severity
  }

  function ActiveDisastersOf(s: Selected): Option<int> {
    match s
    case Location(n) => Some(n.activeDisasters)
    case Alert(_) => None
    case Picked(f) => f.activeDisasters
  }

  function MagnitudeOf(s: Selected): Option<int> {
    match s
    case Location(_) => None
    case Alert(_) => None
    case Picked(f) => f.magnitude
  }

  function PopulationOf(s: Selected): Option<int> {
    match s
    case Location(_) => None
    case Alert(a) => Some(a.affectedPopulation)
    case Picked(f) => f.affectedPopulation
  }

  /** JavaScript truthiness of an optional string: present and not empty. */
  predicate TruthyText(v: Option<string>) {
    v.Some? && v.value != ""
  }

  /** JavaScript truthiness of an optional number: present and not zero. */
  predicate TruthyNumber(v: Option<int>) {
    v.Some? && v.value != 0
  }

  // ---------------------------------------------------------------------------
  // The details panel

  /** A cell that shows either a number or a fixed text. */
  datatype Shown = Number(value: int) | Placeholder(text: string)

  /** The affected-population cell: "N/A", or a head count shown in millions. */
  datatype Population = NotAvailable | Millions(people: int)

  datatype Details = Details(
    heading: string,
    dot: string,
    severityText: string,
    activeEvents: Shown,
    population: Population)

  /** The heading's name part: `name || title`; an absent value renders as nothing. */
  function Heading(s: Selected): (r: string)
    ensures TruthyText(NameOf(s)) ==> r == NameOf(s).value
    ensures !TruthyText(NameOf(s)) ==> r == TitleOf(s).GetOr("")
  {
    if TruthyText(NameOf(s)) then NameOf(s).value else TitleOf(s).GetOr("")
  }

  /** Colour of the severity dot; anything not critical, high or medium (absent too) is green. */
  function SeverityDot(severity: Option<string>): (r: string)
    ensures severity.Some? && Classify(severity.value) in {Critical, High, Medium} ==>
      r == "bg-" + Hue(Classify(severity.value)) + "-400"
    ensures !(severity.Some? && Classify(severity.value) in {Critical, High, Medium}) ==>
      r == "bg-green-400"
  {
    if severity == Some("critical") then "bg-red-400"
    else if severity == Some("high") then "bg-orange-400"
    else if severity == Some("medium") then "bg-yellow-400"
    else "bg-green-400"
  }

  /** `activeDisasters || magnitude || 'N/A'`: a zero count falls through like an absent one. */
  function ActiveEvents(s: Selected): (r: Shown)
    ensures r == Placeholder("N/A") <==> !TruthyNumber(ActiveDisastersOf(s)) && !TruthyNumber(MagnitudeOf(s))
    ensures r.Number? ==> r.value != 0
    ensures TruthyNumber(ActiveDisastersOf(s)) ==> r == Number(ActiveDisastersOf(s).value)
    ensures !TruthyNumber(ActiveDisastersOf(s)) && TruthyNumber(MagnitudeOf(s)) ==> r == Number(MagnitudeOf(s).value)
  {
    if TruthyNumber(ActiveDisastersOf(s)) then Number(ActiveDisastersOf(s).value)
    else if TruthyNumber(MagnitudeOf(s)) then Number(MagnitudeOf(s).value)
    else Placeholder("N/A")
  }

  /** "N/A" exactly when the head count is absent or zero; otherwise the count, shown in millions. */
  function AffectedPopulation(s: Selected): (r: Population)
    ensures r == NotAvailable <==> PopulationOf(s) == None || PopulationOf(s) == Some(0)
    ensures r.Millions? ==> Some(r.people) == PopulationOf(s)
  {
    if TruthyNumber(PopulationOf(s)) then Millions(PopulationOf(s).value) else NotAvailable
  }

  /**
   * The text of the population cell, for counts that `toFixed(1)` renders
   * without rounding: whole tenths of a million.
   */
  function PopulationText(p: Population): (r: string)
    requires p.Millions? ==> p.people >= 0 && p.people % 100000 == 0
    ensures p == NotAvailable ==> r == "N/A"
    ensures |r| >= 1
    ensures p.Millions? ==> r[|r| - 1] == 'M' && r[..|r| - 1] == TenthsOfMillion(p.people)
  {
    match p
    case NotAvailable => "N/A"
    case Millions(people) =>
      var r := TenthsOfMillion(people) + "M";
      assert r[..|r| - 1] == TenthsOfMillion(people);
      r
  }

  /** The details section: present exactly when something is selected. */
  function DetailsPanel(selection: Option<Selected>): (r: Option<Details>)
    ensures r.Some? <==> selection.Some?
    ensures r.Some? ==>
      (r.value.heading == Heading(selection.value) &&
       r.value.dot == SeverityDot(SeverityOf(selection.value)) &&
       r.value.severityText == SeverityOf(selection.value).GetOr("") &&
       r.value.activeEvents == ActiveEvents(selection.value) &&
       r.value.population == AffectedPopulation(selection.value))
  {
    match selection
    case None => None
    case Some(s) =>
      Some(Details(Heading(s), SeverityDot(SeverityOf(s)), SeverityOf(s).GetOr(""),
                   ActiveEvents(s), AffectedPopulation(s)))
  }

  /**
   * What the panel shows for a tree node: its name, its count unless that
   * count is zero (then "N/A", since nodes carry no magnitude), and "N/A"
   * for population, which nodes do not carry.
   */
  lemma LocationDetails(n: Node)
    ensures var d := DetailsPanel(Some(Location(n))).value;
      (n.name != "" ==> d.heading == n.name) &&
      (n.name == "" ==> d.heading == "") &&
      d.severityText == n.severity &&
      (d.activeEvents == Number(n.activeDisasters) <==> n.activeDisasters != 0) &&
      (d.activeEvents == Placeholder("N/A") <==> n.activeDisasters == 0) &&
      d.population == NotAvailable
  {
  }

  /**
   * What the panel shows for an alert: its title (alerts have no name), always
   * "N/A" for active events (alerts carry neither count nor magnitude), and
   * the head count unless it is zero.
   */
  lemma AlertDetails(a: AlertRecord)
    ensures var d := DetailsPanel(Some(Alert(a))).value;
      d.heading == a.title &&
      d.severityText == a.severity &&
      d.activeEvents == Placeholder("N/A") &&
      (d.population == NotAvailable <==> a.affectedPopulation == 0) &&
      (a.affectedPopulation != 0 ==> d.population == Millions(a.affectedPopulation))
  {
  }

  /**
   * The panel's dot agrees with the tree's badge colour for critical, high
   * and medium; for low and for unknown tags it is green, where the tree
   * uses green and slate respectively.
   */
  lemma DotAgreesWithTree(severity: string)
    ensures Classify(severity) in {Critical, High, Medium} ==>
      SeverityDot(Some(severity)) == "bg-" + Hue(Classify(severity)) + "-400" &&
      LocationTree.SeverityColor(severity) == "text-" + Hue(Classify(severity)) + "-400"
    ensures Classify(severity) == Low ==>
      SeverityDot(Some(severity)) == "bg-green-400" && LocationTree.SeverityColor(severity) == "text-green-400"
    ensures Classify(severity) == Unrated ==>
      SeverityDot(Some(severity)) == "bg-green-400" && LocationTree.SeverityColor(severity) == "text-slate-400"
  {
  }

  // ---------------------------------------------------------------------------
  // The page's state and events

  /** Everything on the page that changes: selection, expanded tree nodes, feed status. */
  datatype Page = Page(selection: Option<Selected>, expanded: set<string>, status: LiveAlertFeed.Status)

  const InitialPage: Page := Page(None, LocationTree.InitialExpanded, LiveAlertFeed.InitialStatus)

  datatype Event =
    | RowClicked(node: Node)          // a click on a tree row, outside its chevron
    | ChevronClicked(id: string)      // a click on a row's chevron button
    | GlobePicked(value: Selected)    // the globe reports a pick
    | CloseClicked                    // the × button of the details panel
    | Timer(tick: LiveAlertFeed.TimerEvent)

  /**
   * The event a click on a drawn row produces. The chevron button exists only
   * on rows with children and stops the click from reaching the row, so a
   * click on it toggles without selecting; any other click on the row selects
   * the row's node as it is.
   */
  function ClickRow(row: LocationTree.Row, onChevron: bool): (ev: Event)
    ensures ev.ChevronClicked? <==> onChevron && row.affordance.Chevron?
    ensures ev.ChevronClicked? ==> ev.id == row.node.id
    ensures !ev.ChevronClicked? ==> ev == RowClicked(row.node)
  {
    if onChevron && row.affordance.Chevron? then ChevronClicked(row.node.id) else RowClicked(row.node)
  }

  /**
   * On the drawn tree, a click toggles a node exactly when it lands on the
   * chevron of a node with children; a toggle never selects, and every other
   * click selects the row's node unchanged.
   */
  lemma ClicksOnDrawnRows(page: Page, roots: seq<Node>, selectedId: Option<string>, i: nat, onChevron: bool)
    requires i < |LocationTree.Rows(roots, page.expanded, selectedId)|
    ensures var row := LocationTree.Rows(roots, page.expanded, selectedId)[i];
      var after := Step(page, ClickRow(row, onChevron));
      (onChevron && LocationTree.HasChildren(row.node) ==>
        after.selection == page.selection && after.expanded == LocationTree.Toggle(page.expanded, row.node.id)) &&
      (!(onChevron && LocationTree.HasChildren(row.node)) ==>
        after.selection == Some(Location(row.node)) && after.expanded == page.expanded)
  {
  }

  /**
   * The page after one event. Each part of the page has its own writers:
   * only the timer changes the feed status, only a chevron the expanded set,
   * and only row clicks, globe picks and the close button the selection.
   */
  function Step(page: Page, ev: Event): (r: Page)
    ensures ev.Timer? ==> r.status == LiveAlertFeed.Apply(page.status, ev.tick)
    ensures !ev.Timer? ==> r.status == page.status
    ensures ev.ChevronClicked? ==> r.expanded == LocationTree.Toggle(page.expanded, ev.id)
    ensures !ev.ChevronClicked? ==> r.expanded == page.expanded
    ensures ev.ChevronClicked? || ev.Timer? ==> r.selection == page.selection
    ensures ev.RowClicked? ==> r.selection == Some(Location(ev.node))
    ensures ev.GlobePicked? ==> r.selection == Some(ev.value)
    ensures ev.CloseClicked? ==> r.selection == None
  {
    match ev
    case RowClicked(n) => page.(selection := Some(Location(n)))
    case ChevronClicked(id) => page.(expanded := LocationTree.Toggle(page.expanded, id))
    case GlobePicked(v) => page.(selection := Some(v))
    case CloseClicked => page.(selection := None)
    case Timer(t) => page.(status := LiveAlertFeed.Apply(page.status, t))
  }

  /** The page after a sequence of events, in order. */
  function Replay(page: Page, events: seq<Event>): Page
    decreases |events|
  {
    if |events| == 0 then page else Replay(Step(page, events[0]), events[1..])
  }

  /** Selecting replaces the selection with the value given, whatever it was; nothing else changes. */
  lemma SelectReplaces(page: Page, ev: Event)
    requires ev.RowClicked? || ev.GlobePicked?
    ensures Step(page, ev).selection == Some(if ev.RowClicked? then Location(ev.node) else ev.value)
    ensures Step(page, ev).expanded == page.expanded && Step(page, ev).status == page.status
  {
  }

  /** The close button clears the selection; nothing else changes. */
  lemma CloseClears(page: Page)
    ensures Step(page, CloseClicked).selection == None
    ensures Step(page, CloseClicked).expanded == page.expanded
    ensures Step(page, CloseClicked).status == page.status
  {
  }

  /** A chevron click flips exactly its own id in the expanded set and never touches the selection. */
  lemma ChevronOnlyToggles(page: Page, id: string)
    ensures var after := Step(page, ChevronClicked(id));
      after.selection == page.selection && after.status == page.status &&
      (id in after.expanded <==> id !in page.expanded) &&
      (forall other :: other != id ==> (other in after.expanded <==> other in page.expanded))
  {
  }

  /** Selecting the same value twice is the same as selecting it once: re-selection is not a toggle. */
  lemma ReselectIdempotent(page: Page, v: Selected)
    ensures Step(Step(page, GlobePicked(v)), GlobePicked(v)) == Step(page, GlobePicked(v))
    ensures Step(page, GlobePicked(v)).selection == Some(v)
  {
  }

  /** Two clicks on the same chevron restore the page. */
  lemma ChevronTwiceRestores(page: Page, id: string)
    ensures Step(Step(page, ChevronClicked(id)), ChevronClicked(id)) == page
  {
    LocationTree.ToggleInvolution(page.expanded, id);
  }

  /** The details section disappears on close, and shows after any selection. */
  lemma PanelFollowsSelection(page: Page, v: Selected)
    ensures DetailsPanel(Step(page, CloseClicked).selection) == None
    ensures DetailsPanel(Step(page, GlobePicked(v)).selection).Some?
  {
  }

  /** Timer callbacks never change the selection or the tree, however many of them run. */
  lemma {:induction false} TimerLeavesSelection(page: Page, ticks: seq<LiveAlertFeed.TimerEvent>)
    ensures var events := seq(|ticks|, i requires 0 <= i < |ticks| => Timer(ticks[i]));
      Replay(page, events).selection == page.selection &&
      Replay(page, events).expanded == page.expanded &&
      Replay(page, events).status == LiveAlertFeed.Run(page.status, ticks)
    decreases |ticks|
  {
    var events := seq(|ticks|, i requires 0 <= i < |ticks| => Timer(ticks[i]));
    if |ticks| > 0 {
      var rest := seq(|ticks| - 1, i requires 0 <= i < |ticks| - 1 => Timer(ticks[1..][i]));
      assert events[1..] == rest;
      TimerLeavesSelection(Step(page, events[0]), ticks[1..]);
    }
  }

  /** After a row click, the clicked node's row is the one marked selected (by id). */
  lemma ClickedRowIsMarked(page: Page, n: Node, roots: seq<Node>)
    ensures var after := Step(page, RowClicked(n));
      var rows := LocationTree.Rows(roots, after.expanded, IdOf(after.selection.value));
      forall i :: 0 <= i < |rows| ==> (rows[i].selected <==> rows[i].node.id == n.id)
  {
  }
}
