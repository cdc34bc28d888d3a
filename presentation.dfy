/**
 * Values the dashboard derives from the loaded list for display: the
 * per-category counts behind the two bar charts and the badge style of a
 * status.
 */
module Presentation {
  import opened Sequences
  import opened Leads

  // ---------------------------------------------------------------------
  // Status badge style (`getStatusColor`)

  const PendingStyle: string := "bg-yellow-500/20 text-yellow-400 border-yellow-500"
  const ContactedStyle: string := "bg-blue-500/20 text-blue-400 border-blue-500"
  const CompletedStyle: string := "bg-green-500/20 text-green-400 border-green-500"
  const OtherStyle: string := "bg-slate-500/20 text-slate-400 border-slate-500"

  /** The three statuses a lead moves through. */
  predicate KnownStatus(status: string)
  {
    status == "pending" || status == "contacted" || status == "completed"
  }

  /**
   * `getStatusColor(status)`: each known status has its own style, and every
   * other value falls back to the neutral style.
   */
  function StatusColor(status: string): (style: string)
    ensures style == OtherStyle <==> !KnownStatus(status)
  {
    match status
    case "pending" => PendingStyle
    case "contacted" => ContactedStyle
    case "completed" => CompletedStyle
    case _ => OtherStyle
  }

  /** Distinct known statuses get distinct styles. */
  lemma StatusColorsDistinct(a: string, b: string)
    requires KnownStatus(a) && KnownStatus(b) && a != b
    ensures StatusColor(a) != StatusColor(b)
  {
  }

  // ---------------------------------------------------------------------
  // Chart counts (`getChartData`)

  /** The two record fields a chart groups by. */
  datatype Field = Service | Status

  function FieldOf(sub: Submission, field: Field): string
  {
    match field
    case Service => sub.service
    case Status => sub.status
  }

  /**
   * `submissions.filter(s => s.<field> === value).length`: how many loaded
   * records have `value` in `field`; none exactly when no record has it.
   */
  function Count(subs: seq<Submission>, field: Field, value: string): (n: nat)
    ensures n <= |subs|
    ensures n == 0 <==> forall i :: 0 <= i < |subs| ==> FieldOf(subs[i], field) != value
  {
    FilterEmpty(subs, (s: Submission) => FieldOf(s, field) == value);
    |Filter(subs, (s: Submission) => FieldOf(s, field) == value)|
  }

  datatype ServiceData = ServiceData(residential: nat, commercial: nat, government: nat)
  datatype StatusData = StatusData(pending: nat, contacted: nat, completed: nat)
  datatype ChartData = ChartData(serviceData: ServiceData, statusData: StatusData)

  /**
   * `getChartData()`: per-service and per-status counts of the loaded list.
   * Neither group of bars counts more records than are loaded.
   */
  function GetChartData(subs: seq<Submission>): (r: ChartData)
    ensures r.serviceData.residential + r.serviceData.commercial + r.serviceData.government <= |subs|
    ensures r.statusData.pending + r.statusData.contacted + r.statusData.completed <= |subs|
  {
    ServiceSlack(subs);
    StatusSlack(subs);
    ChartData(
      ServiceData(Count(subs, Service, "residential"), Count(subs, Service, "commercial"), Count(subs, Service, "government")),
      StatusData(Count(subs, Status, "pending"), Count(subs, Status, "contacted"), Count(subs, Status, "completed")))
  }

  /** The three services a lead can ask for. */
  predicate KnownService(service: string)
  {
    service == "residential" || service == "commercial" || service == "government"
  }

  /** How many loaded records offer none of the three services. */
  function OtherServiceCount(subs: seq<Submission>): nat
  {
    |Filter(subs, (s: Submission) => !KnownService(s.service))|
  }

  /** How many loaded records have none of the three statuses. */
  function OtherStatusCount(subs: seq<Submission>): nat
  {
    |Filter(subs, (s: Submission) => !KnownStatus(s.status))|
  }

  /** Every record is counted in exactly one service bar or among the others. */
  lemma {:induction false} ServiceSlack(subs: seq<Submission>)
    ensures Count(subs, Service, "residential") + Count(subs, Service, "commercial")
          + Count(subs, Service, "government") + OtherServiceCount(subs) == |subs|
    decreases |subs|
  {
    if subs != [] {
      ServiceSlack(subs[1..]);
    }
  }

  /** Every record is counted in exactly one status bar or among the others. */
  lemma {:induction false} StatusSlack(subs: seq<Submission>)
    ensures Count(subs, Status, "pending") + Count(subs, Status, "contacted")
          + Count(subs, Status, "completed") + OtherStatusCount(subs) == |subs|
    decreases |subs|
  {
    if subs != [] {
      StatusSlack(subs[1..]);
    }
  }

  /** The three service bars add up to the list length exactly when every record offers one of the three services. */
  lemma ServiceTotals(subs: seq<Submission>)
    ensures var d := GetChartData(subs).serviceData;
      d.residential + d.commercial + d.government == |subs|
      <==> forall i :: 0 <= i < |subs| ==> KnownService(subs[i].service)
  {
    ServiceSlack(subs);
    FilterEmpty(subs, (s: Submission) => !KnownService(s.service));
  }

  /** The three status bars add up to the list length exactly when every record has a known status. */
  lemma StatusTotals(subs: seq<Submission>)
    ensures var d := GetChartData(subs).statusData;
      d.pending + d.contacted + d.completed == |subs|
      <==> forall i :: 0 <= i < |subs| ==> KnownStatus(subs[i].status)
  {
    StatusSlack(subs);
    FilterEmpty(subs, (s: Submission) => !KnownStatus(s.status));
  }

  /** The counts depend only on which records are loaded, not on their order. */
  lemma ChartDataIgnoresOrder(subs: seq<Submission>, other: seq<Submission>)
    requires multiset(subs) == multiset(other)
    ensures GetChartData(subs) == GetChartData(other)
  {
    SameCounts(subs, other, "residential");
    SameCounts(subs, other, "commercial");
    SameCounts(subs, other, "government");
    SameCounts(subs, other, "pending");
    SameCounts(subs, other, "contacted");
    SameCounts(subs, other, "completed");
  }

  lemma SameCounts(subs: seq<Submission>, other: seq<Submission>, v: string)
    requires multiset(subs) == multiset(other)
    ensures Count(subs, Service, v) == Count(other, Service, v)
    ensures Count(subs, Status, v) == Count(other, Status, v)
  {
    FilterSizeByMultiset(subs, other, (s: Submission) => FieldOf(s, Service) == v);
    FilterSizeByMultiset(subs, other, (s: Submission) => FieldOf(s, Status) == v);
  }

  /** Filters of two permutations of each other have equal lengths. */
  lemma FilterSizeByMultiset(a: seq<Submission>, b: seq<Submission>, p: Submission -> bool)
    requires multiset(a) == multiset(b)
    ensures |Filter(a, p)| == |Filter(b, p)|
  {
    var fa, fb := Filter(a, p), Filter(b, p);
    assert multiset(fa) == multiset(fb);
    assert |fa| == |multiset(fa)| && |fb| == |multiset(fb)|;
  }
}
