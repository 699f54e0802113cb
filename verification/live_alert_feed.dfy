/**
 * The live alert feed: alert records, the "time ago" label, the simulated
 * connection status, and the colour and icon switches of an alert card.
 */
module LiveAlertFeed {
  import opened Palette
  import opened Text

  /** One alert. Times are whole milliseconds since the epoch. */
  datatype AlertRecord = AlertRecord(
    id: string,
    kind: string,
    severity: string,
    title: string,
    location: string,
    timestamp: int,
    affectedPopulation: int,
    confidence: int)

  /**
   * The five hard-coded alerts, stamped relative to the moment `now` they are
   * created. Their descriptions are display text that nothing reads, so the
   * record leaves them out.
   */
  function MockAlerts(now: int): seq<AlertRecord> {
    [AlertRecord("alert-001", "earthquake", "critical", "Magnitude 7.2 Earthquake", "Manila, Philippines",
       now - 300000, 2400000, 94),
     AlertRecord("alert-002", "flood", "high", "Flash Flood Warning", "Dubai, UAE",
       now - 900000, 850000, 87),
     AlertRecord("alert-003", "cyclone", "critical", "Category 4 Cyclone Approaching", "Cebu, Philippines",
       now - 1800000, 1200000, 91),
     AlertRecord("alert-004", "wildfire", "high", "Wildfire Spreading Rapidly", "Riyadh, Saudi Arabia",
       now - 2700000, 450000, 82),
     AlertRecord("alert-005", "drought", "medium", "Severe Drought Conditions", "Jakarta, Indonesia",
       now - 3600000, 3200000, 78)]
  }

  // ---------------------------------------------------------------------------
  // Card colour and icon

  /**
   * Text, background and border classes of an alert card: all three in the
   * hue of the tag's severity level, slate for any unknown tag.
   */
  function SeverityClasses(severity: string): (r: string)
    ensures r == CardClasses(Hue(Classify(severity)))
  {
    if severity == "critical" then
      RedClasses();
      "text-red-400 " + "bg-red-500/20 " + "border-red-500/30"
    else if severity == "high" then
      OrangeClasses();
      "text-orange-400 " + "bg-orange-500/20 " + "border-orange-500/30"
    else if severity == "medium" then
      YellowClasses();
      "text-yellow-400 " + "bg-yellow-500/20 " + "border-yellow-500/30"
    else if severity == "low" then
      GreenClasses();
      "text-green-400 " + "bg-green-500/20 " + "border-green-500/30"
    else
      SlateClasses();
      "text-slate-400 " + "bg-slate-500/20 " + "border-slate-500/30"
  }

  /** The text, background and border classes of a card in hue `h`. */
  function CardClasses(h: string): string {
    ("text-" + h + "-400 ") + ("bg-" + h + "-500/20 ") + ("border-" + h + "-500/30")
  }

  // One lemma per hue, so that each spelled-out class string is matched on its own.

  lemma RedClasses()
    ensures "text-red-400 " + "bg-red-500/20 " + "border-red-500/30" == CardClasses("red")
  {
    assert "text-red-400 " == "text-" + "red" + "-400 ";
    assert "bg-red-500/20 " == "bg-" + "red" + "-500/20 ";
    assert "border-red-500/30" == "border-" + "red" + "-500/30";
  }

  lemma OrangeClasses()
    ensures "text-orange-400 " + "bg-orange-500/20 " + "border-orange-500/30" == CardClasses("orange")
  {
    assert "text-orange-400 " == "text-" + "orange" + "-400 ";
    assert "bg-orange-500/20 " == "bg-" + "orange" + "-500/20 ";
    assert "border-orange-500/30" == "border-" + "orange" + "-500/30";
  }

  lemma YellowClasses()
    ensures "text-yellow-400 " + "bg-yellow-500/20 " + "border-yellow-500/30" == CardClasses("yellow")
  {
    assert "text-yellow-400 " == "text-" + "yellow" + "-400 ";
    assert "bg-yellow-500/20 " == "bg-" + "yellow" + "-500/20 ";
    assert "border-yellow-500/30" == "border-" + "yellow" + "-500/30";
  }

  lemma GreenClasses()
    ensures "text-green-400 " + "bg-green-500/20 " + "border-green-500/30" == CardClasses("green")
  {
    assert "text-green-400 " == "text-" + "green" + "-400 ";
    assert "bg-green-500/20 " == "bg-" + "green" + "-500/20 ";
    assert "border-green-500/30" == "border-" + "green" + "-500/30";
  }

  lemma SlateClasses()
    ensures "text-slate-400 " + "bg-slate-500/20 " + "border-slate-500/30" == CardClasses("slate")
  {
    assert "text-slate-400 " == "text-" + "slate" + "-400 ";
    assert "bg-slate-500/20 " == "bg-" + "slate" + "-500/20 ";
    assert "border-slate-500/30" == "border-" + "slate" + "-500/30";
  }

  /**
   * Reads the severity level back from a card's classes, by the first letter
   * of its hue. Only a proof aid: it witnesses that the classes determine the level.
   */
  function LevelOfClasses(classes: string): Level {
    if |classes| < 6 then Unrated
    else if classes[5] == 'r' then Critical
    else if classes[5] == 'o' then High
    else if classes[5] == 'y' then Medium
    else if classes[5] == 'g' then Low
    else Unrated
  }

  /**
   * The card's classes encode exactly the severity level: the level can be
   * read back from them, so equal classes mean equal levels and unknown tags
   * all share the slate default.
   */
  lemma CardClassesByLevel(a: string, b: string)
    ensures LevelOfClasses(SeverityClasses(a)) == Classify(a)
    ensures SeverityClasses(a) == SeverityClasses(b) <==> Classify(a) == Classify(b)
  {
    ClassesReadBack(a);
    ClassesReadBack(b);
  }

  lemma ClassesReadBack(severity: string)
    ensures LevelOfClasses(SeverityClasses(severity)) == Classify(severity)
    ensures Classify(severity) == Unrated ==> SeverityClasses(severity) == SeverityClasses("")
  {
    var c := SeverityClasses(severity);
    if severity == "critical" {
      assert c == "text-red-400 " + "bg-red-500/20 " + "border-red-500/30";
      assert c[5] == 'r';
    } else if severity == "high" {
      assert c == "text-orange-400 " + "bg-orange-500/20 " + "border-orange-500/30";
      assert c[5] == 'o';
    } else if severity == "medium" {
      assert c == "text-yellow-400 " + "bg-yellow-500/20 " + "border-yellow-500/30";
      assert c[5] == 'y';
    } else if severity == "low" {
      assert c == "text-green-400 " + "bg-green-500/20 " + "border-green-500/30";
      assert c[5] == 'g';
    } else {
      assert c == "text-slate-400 " + "bg-slate-500/20 " + "border-slate-500/30";
      assert c[5] == 's';
    }
  }

  /** The hazard kinds the icon switch knows. */
  const KnownKinds: set<string> := {"earthquake", "flood", "cyclone", "wildfire", "drought"}

  /** Icon of an alert's hazard kind. */
  function TypeIcon(kind: string): (r: string)
    ensures r == "AlertTriangle" <==> kind !in KnownKinds
    ensures r in {"Zap", "Waves", "Wind", "Flame", "Sun", "AlertTriangle"}
  {
    if kind == "earthquake" then "Zap"
    else if kind == "flood" then "Waves"
    else if kind == "cyclone" then "Wind"
    else if kind == "wildfire" then "Flame"
    else if kind == "drought" then "Sun"
    else "AlertTriangle"
  }

  /** Two hazard kinds share an icon only when they are equal or both unknown. */
  lemma TypeIconInjective(a: string, b: string)
    requires TypeIcon(a) == TypeIcon(b)
    ensures a == b || (a !in KnownKinds && b !in KnownKinds)
  {
  }

  // ---------------------------------------------------------------------------
  // Time ago

  /** How long ago an alert happened, in the unit the feed chooses. */
  datatype Ago = MinutesAgo(minutes: int) | HoursAgo(hours: int)

  /**
   * Bucket a millisecond difference: whole minutes below one hour, whole
   * hours from then on. Both counts are rounded down (Math.floor); Dafny's
   * division by a positive constant rounds down too, also for a negative
   * difference (an alert stamped in the future).
   */
  function TimeAgo(diff: int): (r: Ago)
    ensures r.MinutesAgo? <==> diff < 3600000
    ensures r.MinutesAgo? ==> r.minutes * 60000 <= diff < (r.minutes + 1) * 60000 && r.minutes < 60
    ensures r.HoursAgo? ==> r.hours >= 1 && r.hours * 3600000 <= diff < (r.hours + 1) * 3600000
  {
    var minutes := diff / 60000;
    var hours := diff / 3600000;
    if minutes < 60 then MinutesAgo(minutes) else HoursAgo(hours)
  }

  /** The label of an alert stamped `timestamp`, read at clock time `now`. */
  function FormatTimeAgo(now: int, timestamp: int): (s: string)
    ensures var diff := now - timestamp;
      |s| >= 6 &&
      (diff < 3600000 <==> s[|s| - 5..] == "m ago") &&
      (diff >= 3600000 <==> s[|s| - 5..] == "h ago")
    ensures var diff := now - timestamp;
      var count := s[..|s| - 5];
      var n := if diff < 3600000 then diff / 60000 else diff / 3600000;
      (diff >= 0 ==> Canonical(count) && ValueOf(count) == n) &&
      (diff < 0 ==> count[0] == '-' && Canonical(count[1..]) && ValueOf(count[1..]) == -n)
  {
    match TimeAgo(now - timestamp)
    case MinutesAgo(m) =>
      var s := IntToString(m) + "m ago";
      assert s[..|s| - 5] == IntToString(m);
      s
    case HoursAgo(h) =>
      var s := IntToString(h) + "h ago";
      assert s[..|s| - 5] == IntToString(h);
      s
  }

  /** An alert exactly `k` minutes old, with `k` below 60, reads "`k`m ago". */
  lemma WholeMinutesLabel(now: int, k: nat)
    requires k < 60
    ensures FormatTimeAgo(now, now - k * 60000) == IntToString(k) + "m ago"
  {
    assert TimeAgo(k * 60000) == MinutesAgo(k);
  }

  /** An alert exactly `k` hours old, with `k` at least 1, reads "`k`h ago". */
  lemma WholeHoursLabel(now: int, k: nat)
    requires k >= 1
    ensures FormatTimeAgo(now, now - k * 3600000) == IntToString(k) + "h ago"
  {
    assert TimeAgo(k * 3600000) == HoursAgo(k);
  }

  /** The hard-coded alerts are 5, 15, 30, 45 and 60 minutes old when created. */
  lemma MockAlertAges(now: int)
    ensures |MockAlerts(now)| == 5
    ensures forall k :: 0 <= k < 5 ==> MockAlerts(now)[k].timestamp == now - [5, 15, 30, 45, 60][k] * 60000
  {
  }

  /** The first and the last of the hard-coded alerts, drawn at creation time. */
  lemma MockAlertLabels(now: int)
    ensures FormatTimeAgo(now, MockAlerts(now)[0].timestamp) == "5m ago"
    ensures FormatTimeAgo(now, MockAlerts(now)[4].timestamp) == "1h ago"
  {
    MockAlertAges(now);
    WholeMinutesLabel(now, 5);
    WholeHoursLabel(now, 1);
    assert IntToString(5) == "5" && IntToString(1) == "1";
  }

  // ---------------------------------------------------------------------------
  // Simulated connection status

  datatype Status = Connected | Updating | Disconnected

  /** The status the feed starts in. */
  const InitialStatus: Status := Connected

  /** The two timer callbacks: the 30-second interval and the 1-second follow-up. */
  datatype TimerEvent = IntervalFired | TimeoutFired

  /** One timer callback: the interval flips connected to updating and anything else to connected; the follow-up always reconnects. */
  function Apply(status: Status, ev: TimerEvent): (r: Status)
    ensures ev == IntervalFired ==> r != status && (r == Updating <==> status == Connected)
    ensures ev == IntervalFired && status != Connected ==> r == Connected
    ensures ev == TimeoutFired ==> r == Connected
  {
    match ev
    case IntervalFired => if status == Connected then Updating else Connected
    case TimeoutFired => Connected
  }

  /**
   * The status after a sequence of timer callbacks, in order. Any callback
   * leaves the feed out of the disconnected state, and a sequence that ends
   * with the follow-up timeout leaves it connected.
   */
  function Run(status: Status, events: seq<TimerEvent>): (r: Status)
    ensures |events| == 0 ==> r == status
    ensures |events| > 0 ==> r != Disconnected
    ensures |events| > 0 && events[|events| - 1] == TimeoutFired ==> r == Connected
    decreases |events|
  {
    if |events| == 0 then status else Run(Apply(status, events[0]), events[1..])
  }

  lemma {:induction false} RunAppend(status: Status, a: seq<TimerEvent>, b: seq<TimerEvent>)
    ensures Run(status, a + b) == Run(Run(status, a), b)
    decreases |a|
  {
    if |a| == 0 {
      assert a + b == b;
    } else {
      assert (a + b)[0] == a[0] && (a + b)[1..] == a[1..] + b;
      RunAppend(Apply(status, a[0]), a[1..], b);
    }
  }

  /**
   * No timer callback ever produces the disconnected status: after at least
   * one callback, or from any other start, the feed is never offline.
   */
  lemma {:induction false} NeverDisconnected(status: Status, events: seq<TimerEvent>)
    requires status != Disconnected || |events| > 0
    ensures Run(status, events) != Disconnected
    decreases |events|
  {
    if |events| > 0 {
      NeverDisconnected(Apply(status, events[0]), events[1..]);
    }
  }

  /** After the follow-up timeout, the status is connected whatever came before. */
  lemma TimeoutReconnects(status: Status, events: seq<TimerEvent>)
    ensures Run(status, events + [TimeoutFired]) == Connected
  {
    RunAppend(status, events, [TimeoutFired]);
  }

  /** `count` rounds of the schedule: the interval fires, then its follow-up. */
  function Rounds(count: nat): (events: seq<TimerEvent>)
    ensures |events| == 2 * count
  {
    if count == 0 then [] else Rounds(count - 1) + [IntervalFired, TimeoutFired]
  }

  /** Under the real schedule the status goes connected → updating → connected in every round. */
  lemma {:induction false} RoundsFromConnected(count: nat)
    ensures Run(Connected, Rounds(count)) == Connected
    ensures Run(Connected, Rounds(count) + [IntervalFired]) == Updating
  {
    if count > 0 {
      RoundsFromConnected(count - 1);
      RunAppend(Connected, Rounds(count - 1), [IntervalFired, TimeoutFired]);
    }
    RunAppend(Connected, Rounds(count), [IntervalFired]);
  }

  /** Hue of the status indicators: green when live, yellow while updating, red when offline. */
  function StatusHue(status: Status): string {
    match status
    case Connected => "green"
    case Updating => "yellow"
    case Disconnected => "red"
  }

  /** Status text next to the dot: a status that is neither connected nor updating reads "Offline". */
  function StatusLabel(status: Status): (r: string)
    ensures r == "Live" <==> status == Connected
    ensures r == "Updating" <==> status == Updating
    ensures r == "Offline" <==> status != Connected && status != Updating
  {
    match status
    case Connected => "Live"
    case Updating => "Updating"
    case Disconnected => "Offline"
  }

  /** Status text colour, in the status hue. The JavaScript switch's default (slate) belongs to no status value. */
  function StatusColor(status: Status): (r: string)
    ensures r == "text-" + StatusHue(status) + "-400"
    ensures r != "text-slate-400"
  {
    match status
    case Connected =>
      assert "text-green-400" == "text-" + "green" + "-400";
      "text-green-400"
    case Updating =>
      assert "text-yellow-400" == "text-" + "yellow" + "-400";
      "text-yellow-400"
    case Disconnected =>
      assert "text-red-400" == "text-" + "red" + "-400";
      "text-red-400"
  }

  /** Status dot classes: the status hue, pulsing exactly while updating. */
  function StatusDot(status: Status): (r: string)
    ensures status != Updating ==> r == "bg-" + StatusHue(status) + "-400"
    ensures status == Updating ==> r == "bg-" + StatusHue(status) + "-400" + " pulse-urgent"
  {
    match status
    case Connected =>
      assert "bg-green-400" == "bg-" + "green" + "-400";
      "bg-green-400"
    case Updating =>
      assert "bg-yellow-400 pulse-urgent" == "bg-" + "yellow" + "-400" + " pulse-urgent";
      "bg-yellow-400 pulse-urgent"
    case Disconnected =>
      assert "bg-red-400" == "bg-" + "red" + "-400";
      "bg-red-400"
  }

  /**
   * Label, text colour and dot tell the statuses apart and agree with one
   * another: "Live" is green, "Updating" yellow, "Offline" red.
   */
  lemma StatusIndicatorsAgree(a: Status, b: Status)
    ensures StatusLabel(a) == StatusLabel(b) <==> a == b
    ensures StatusColor(a) == StatusColor(b) <==> a == b
    ensures StatusDot(a) == StatusDot(b) <==> a == b
    ensures StatusLabel(a) == "Live" <==> StatusColor(a) == "text-green-400"
    ensures StatusLabel(a) == "Updating" <==> StatusColor(a) == "text-yellow-400"
    ensures StatusLabel(a) == "Offline" <==> StatusColor(a) == "text-red-400"
  {
  }

  /** The feed never reads "Offline": from the initial status no callback sequence shows it. */
  lemma NeverOffline(events: seq<TimerEvent>)
    ensures StatusLabel(Run(InitialStatus, events)) != "Offline"
  {
    NeverDisconnected(InitialStatus, events);
  }
}
