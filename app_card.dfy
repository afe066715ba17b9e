/**
 * The pure part of the application card: the chip colour and icon for an
 * application's status, the chip colour for its domain, and the details the
 * card shows with their fallbacks. A missing optional string field is "",
 * which JavaScript's `||` treats like an empty one.
 */
module AppCard {
  import Wrappers
  import opened Strings

  /** Joy UI chip colours. */
  datatype ChipColor = Primary | Success | Danger | Warning | Neutral

  /** The status icons of the card. */
  datatype StatusIcon = CheckCircleIcon | ErrorIcon | BuildIcon | WarningIcon

  /** The statuses the card knows; every other status is shown as a warning. */
  const KnownStatuses: set<string> := {"healthy", "down", "maintenance"}

  /** `getStatusColor`. */
  function StatusColor(status: string): (c: ChipColor)
    ensures c == Success <==> status == "healthy"
    ensures c == Danger <==> status == "down"
    ensures c == Warning <==> status == "maintenance"
    ensures c == Neutral <==> status !in KnownStatuses
    ensures c != Primary
  {
    match status
    case "healthy" => Success
    case "down" => Danger
    case "maintenance" => Warning
    case _ => Neutral
  }

  /** `getStatusIcon`. */
  function StatusIconOf(status: string): (i: StatusIcon)
    ensures i == CheckCircleIcon <==> status == "healthy"
    ensures i == ErrorIcon <==> status == "down"
    ensures i == BuildIcon <==> status == "maintenance"
    ensures i == WarningIcon <==> status !in KnownStatuses
  {
    match status
    case "healthy" => CheckCircleIcon
    case "down" => ErrorIcon
    case "maintenance" => BuildIcon
    case _ => WarningIcon
  }

  /** `needle` occurs somewhere in `s`. */
  ghost predicate Occurs(s: string, needle: string)
  {
    exists i :: 0 <= i <= |s| && StartsWith(s[i..], needle)
  }

  /**
   * `getDomainColor`: "phis" anywhere in the domain gives primary, otherwise
   * "ahis" gives success; a missing domain and every other domain give
   * neutral.
   */
  function DomainColor(domain: Wrappers.Option<string>): (c: ChipColor)
  {
    if domain.Some? && Contains(domain.value, "phis") then Primary
    else if domain.Some? && Contains(domain.value, "ahis") then Success
    else Neutral
  }

  /** `DomainColor` in terms of where the two markers occur, first match winning. */
  lemma DomainColorIff(domain: Wrappers.Option<string>)
    ensures DomainColor(domain) == Primary <==> domain.Some? && Occurs(domain.value, "phis")
    ensures DomainColor(domain) == Success <==>
              domain.Some? && !Occurs(domain.value, "phis") && Occurs(domain.value, "ahis")
    ensures DomainColor(domain) == Neutral <==>
              domain.None? || (!Occurs(domain.value, "phis") && !Occurs(domain.value, "ahis"))
  {
    if domain.Some? {
      ContainsIff(domain.value, "phis");
      ContainsIff(domain.value, "ahis");
    }
  }

  /** A domain with "phis" in it is primary, whatever else it holds ("phis" wins over "ahis"). */
  lemma PhisWins(p: string, q: string)
    ensures DomainColor(Wrappers.Some(p + "phis" + q)) == Primary
  {
    ContainsInfix(p, "phis", q);
  }

  /** A domain with "ahis" in it and no "phis" is success. */
  lemma AhisWithoutPhis(p: string, q: string)
    requires !Occurs(p + "ahis" + q, "phis")
    ensures DomainColor(Wrappers.Some(p + "ahis" + q)) == Success
  {
    ContainsInfix(p, "ahis", q);
    ContainsIff(p + "ahis" + q, "phis");
  }

  /** The application as the card receives it. */
  datatype AppInformation = AppInformation(
    name: string,
    description: string,
    address: string,
    status: string,
    icon: string,
    domain: Wrappers.Option<string>,
    uptime: string,
    lastCheck: string,
    version: string,
    category: string)

  /** The card's details after the fallbacks. */
  datatype CardDetails = CardDetails(uptime: string, lastCheck: string, version: string, category: string)

  const DefaultUptime: string := "99.9%"
  const DefaultLastCheck: string := "2 min ago"
  const DefaultVersion: string := "v2.1.4"
  const DefaultCategory: string := "Infrastructure"

  /** `value || fallback` on strings. */
  function OrDefault(value: string, fallback: string): (r: string)
    ensures value != "" ==> r == value
    ensures value == "" ==> r == fallback
  {
    if value != "" then value else fallback
  }

  function Details(app: AppInformation): CardDetails
  {
    CardDetails(
      OrDefault(app.uptime, DefaultUptime),
      OrDefault(app.lastCheck, DefaultLastCheck),
      OrDefault(app.version, DefaultVersion),
      OrDefault(app.category, DefaultCategory))
  }

  /**
   * Each detail is the application's own value when it is non-empty and its
   * literal default otherwise; so no detail is ever empty.
   */
  lemma DetailsFallBack(app: AppInformation)
    ensures var d := Details(app);
            && d.uptime == (if app.uptime == "" then "99.9%" else app.uptime)
            && d.lastCheck == (if app.lastCheck == "" then "2 min ago" else app.lastCheck)
            && d.version == (if app.version == "" then "v2.1.4" else app.version)
            && d.category == (if app.category == "" then "Infrastructure" else app.category)
            && d.uptime != "" && d.lastCheck != "" && d.version != "" && d.category != ""
  {
  }
}
