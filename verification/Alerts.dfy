/**
  The dimensional alert engine (internal/alert/engine.go): per-dimension scans with a sliding
  baseline, enrichment, a three-key sort and a global cut.

  Go leaves two orders open: the iteration order of a map and the order sort.Slice gives to equal
  elements.  Here the first is an arbitrary choice and the second any sorted rearrangement, so every
  result holds for whatever Go does.
 */
module Alerts {
  import opened Wrappers

  const MAX_ALERTS_PER_RUN := 50
  const MAX_ALERTS_PER_DIMENSION := 5
  const DEFAULT_WINDOW := 14

  datatype Condition =
    | ValueGt(t: real) | ValueLt(t: real) | ChangeRateLt(t: real) | ChangeRateGt(t: real) | Unrecognised

  datatype Rule = Rule(ruleId: string, dimensionType: string, metricName: string, condition: Condition,
                       minSampleSize: int, severity: string, baselineWindow: int)

  /** One day of one dimension value; series are newest first. */
  datatype Entry = Entry(date: string, value: real, sampleSize: int)

  type Series = map<string, seq<Entry>>

  datatype Alert = Alert(ruleId: string, date: string, severity: string, metricName: string,
                         objectType: string, objectId: string, value: real, baseline: Option<real>,
                         changeRate: real, sampleSize: int, affectedGmv: Option<real>, impactScore: real)

  datatype Cell = Fails | NoRow | Found(value: real)

  // ---------------------------------------------------------------- one dimension: specification

  function Sum(s: seq<Entry>): real {
    if s == [] then 0.0 else Sum(s[..|s| - 1]) + s[|s| - 1].value
  }

  function Window(rule: Rule): nat {
    if rule.baselineWindow <= 0 then DEFAULT_WINDOW else rule.baselineWindow
  }

  predicate NeedsBaseline(c: Condition) {
    c.ChangeRateLt? || c.ChangeRateGt?
  }

  /** The entries the baseline of entry i is taken over: the next `Window` older ones, or what there is. */
  function Older(rule: Rule, series: seq<Entry>, i: nat): seq<Entry>
    requires i < |series|
  {
    Take(series[i + 1..], Window(rule))
  }

  /** The mean of the older entries; absent when there are none or the rule does not ask for it. */
  function Baseline(rule: Rule, series: seq<Entry>, i: nat): Option<real>
    requires i < |series|
  {
    var older := Older(rule, series, i);
    if !NeedsBaseline(rule.condition) || older == [] then None else Some(Sum(older) / (|older| as real))
  }

  function ChangeRate(value: real, baseline: Option<real>): real {
    if baseline.None? || baseline.value == 0.0 then 0.0 else (value - baseline.value) / baseline.value
  }

  predicate EvaluateCondition(c: Condition, value: real, baseline: Option<real>, changeRate: real) {
    match c
    case ValueGt(t) => value > t
    case ValueLt(t) => value < t
    case ChangeRateLt(t) => baseline.Some? && baseline.value != 0.0 && changeRate < t
    case ChangeRateGt(t) => baseline.Some? && baseline.value != 0.0 && changeRate > t
    case Unrecognised => false
  }

  predicate Triggers(rule: Rule, series: seq<Entry>, i: nat)
    requires i < |series|
  {
    var e, b := series[i], Baseline(rule, series, i);
    e.sampleSize >= rule.minSampleSize && EvaluateCondition(rule.condition, e.value, b, ChangeRate(e.value, b))
  }

  /** The sum the mean is taken of. */
  lemma SumIs(s: seq<Entry>, e: Entry)
    ensures Sum([]) == 0.0 && Sum(s + [e]) == Sum(s) + e.value
  {
    assert (s + [e])[..|s|] == s;
  }

  /**
    When an entry triggers, condition by condition.  For a change rate it needs the mean of the entries
    older than it, as many as the window holds (14 unless the rule says otherwise) or as there are;
    without any, or with a mean of zero, nothing triggers.
   */
  lemma TriggersExactly(rule: Rule, series: seq<Entry>, i: nat)
    requires i < |series|
    ensures var value, enough := series[i].value, series[i].sampleSize >= rule.minSampleSize;
      var window := if rule.baselineWindow > 0 then rule.baselineWindow else 14;
      var last := if i + 1 + window < |series| then i + 1 + window else |series|;
      var older := series[i + 1..last];
      match rule.condition
      case ValueGt(t) => Triggers(rule, series, i) <==> enough && value > t
      case ValueLt(t) => Triggers(rule, series, i) <==> enough && value < t
      case ChangeRateLt(t) =>
        Triggers(rule, series, i) <==>
          enough && older != [] && var mean := Sum(older) / |older| as real; mean != 0.0 && (value - mean) / mean < t
      case ChangeRateGt(t) =>
        Triggers(rule, series, i) <==>
          enough && older != [] && var mean := Sum(older) / |older| as real; mean != 0.0 && (value - mean) / mean > t
      case Unrecognised => !Triggers(rule, series, i)
  {
    OlderIs(rule, series, i);
  }

  lemma OlderIs(rule: Rule, series: seq<Entry>, i: nat)
    requires i < |series|
    ensures var window := if rule.baselineWindow > 0 then rule.baselineWindow else 14;
      var last := if i + 1 + window < |series| then i + 1 + window else |series|;
      Older(rule, series, i) == series[i + 1..last]
  {
  }

  /** What an alert says: the rule, the entry, and the baseline it was compared with, if the rule compares. */
  lemma AlertSays(rule: Rule, dim: string, series: seq<Entry>, i: nat)
    requires i < |series|
    ensures var a, e, older := AlertFor(rule, dim, series, i), series[i], Older(rule, series, i);
      && a.ruleId == rule.ruleId && a.severity == rule.severity && a.metricName == rule.metricName
      && a.objectType == rule.dimensionType && a.objectId == dim
      && a.date == e.date && a.value == e.value && a.sampleSize == e.sampleSize
      && (a.baseline.Some? <==> (rule.condition.ChangeRateLt? || rule.condition.ChangeRateGt?) && older != [])
      && (a.baseline.Some? ==> a.baseline.value == Sum(older) / |older| as real)
      && (a.baseline.Some? && a.baseline.value != 0.0 ==>
            a.changeRate == (e.value - a.baseline.value) / a.baseline.value)
      && a.affectedGmv == None && a.impactScore == 0.0
      && (a.baseline.None? || a.baseline.value == 0.0 ==> a.changeRate == 0.0)
  {
  }

  function AlertFor(rule: Rule, dim: string, series: seq<Entry>, i: nat): Alert
    requires i < |series|
  {
    var e, b := series[i], Baseline(rule, series, i);
    Alert(rule.ruleId, e.date, rule.severity, rule.metricName, rule.dimensionType, dim, e.value, b,
          ChangeRate(e.value, b), e.sampleSize, None, 0.0)
  }

  function TriggersAt(rule: Rule, series: seq<Entry>): nat -> bool {
    (i: nat) => i < |series| && Triggers(rule, series, i)
  }

  predicate Inside(positions: seq<nat>, n: nat) {
    forall k :: 0 <= k < |positions| ==> positions[k] < n
  }

  function AlertsAt(rule: Rule, dim: string, series: seq<Entry>, positions: seq<nat>): (alerts: seq<Alert>)
    requires Inside(positions, |series|)
    ensures |alerts| == |positions|
  {
    seq(|positions|, k requires 0 <= k < |positions| => AlertFor(rule, dim, series, positions[k]))
  }

  /** What a dimension emits: the alerts of its newest five triggering entries. */
  function DimensionAlerts(rule: Rule, dim: string, series: seq<Entry>): seq<Alert> {
    var newest := Take(Positions(|series|, TriggersAt(rule, series)), MAX_ALERTS_PER_DIMENSION);
    assert forall k :: 0 <= k < |newest| ==> newest[k] in newest;
    AlertsAt(rule, dim, series, newest)
  }

  /**
    The alerts of a dimension are those of the triggering entries, newest first, at most five; an
    older triggering entry is left out only when five newer ones are in.
   */
  lemma DimensionEmitsNewest(rule: Rule, dim: string, series: seq<Entry>) returns (kept: seq<nat>)
    ensures Inside(kept, |series|) && DimensionAlerts(rule, dim, series) == AlertsAt(rule, dim, series, kept)
    ensures forall j, k :: 0 <= j < k < |kept| ==> kept[j] < kept[k]
    ensures forall k :: 0 <= k < |kept| ==> Triggers(rule, series, kept[k])
    ensures |kept| <= 5
    ensures forall i: nat :: i < |series| && Triggers(rule, series, i) && i !in kept ==>
              |kept| == 5 && forall k :: k in kept ==> k < i
  {
    var p := TriggersAt(rule, series);
    var all := Positions(|series|, p);
    kept := Take(all, MAX_ALERTS_PER_DIMENSION);
    PositionsExact(|series|, p);
    assert forall k :: 0 <= k < |kept| ==> kept[k] == all[k] && all[k] in all;
    forall i: nat | i < |series| && Triggers(rule, series, i) && i !in kept
      ensures |kept| == MAX_ALERTS_PER_DIMENSION && forall k :: k in kept ==> k < i
    {
      assert p(i) && i in all;
      var m :| 0 <= m < |all| && all[m] == i;
      assert forall k :: 0 <= k < |kept| ==> kept[k] == all[k] && kept[k] != i;
    }
    forall k | 0 <= k < |kept| ensures Triggers(rule, series, kept[k]) {
      assert kept[k] in all && p(kept[k]);
    }
  }

  // ---------------------------------------------------------------- one dimension: implementation

  /** The baseline loop: the mean of series[i + 1 .. i + 1 + window], cut at the end. */
  method ComputeBaseline(rule: Rule, series: seq<Entry>, i: nat) returns (baseline: Option<real>, changeRate: real)
    requires i < |series|
    ensures baseline == Baseline(rule, series, i)
    ensures changeRate == ChangeRate(series[i].value, baseline)
  {
    baseline, changeRate := None, 0.0;
    if NeedsBaseline(rule.condition) {
      var end := i + 1 + Window(rule);
      if end > |series| {
        end := |series|;
      }
      assert series[i + 1..end] == Older(rule, series, i);
      var sum, count := 0.0, 0;
      for j := i + 1 to end
        invariant count == j - (i + 1)
        invariant sum == Sum(series[i + 1..j])
      {
        assert series[i + 1..j + 1][..j - i - 1] == series[i + 1..j];
        sum := sum + series[j].value;
        count := count + 1;
      }
      if count > 0 {
        var avg := sum / (count as real);
        baseline := Some(avg);
        if avg != 0.0 {
          changeRate := (series[i].value - avg) / avg;
        }
      }
    }
  }

  /** What the alerts of a dimension tell about the entries they are for. */
  lemma AlertsMeetRule(rule: Rule, dim: string, series: seq<Entry>)
    ensures forall a :: a in DimensionAlerts(rule, dim, series) ==>
              && a.objectId == dim && a.sampleSize >= rule.minSampleSize
              && (rule.condition.ValueGt? ==> a.value > rule.condition.t)
              && (rule.condition.ValueLt? ==> a.value < rule.condition.t)
              && (rule.condition.ChangeRateLt? ==> a.baseline.Some? && a.changeRate < rule.condition.t)
              && (rule.condition.ChangeRateGt? ==> a.baseline.Some? && a.changeRate > rule.condition.t)
              && !rule.condition.Unrecognised?
  {
    var kept := DimensionEmitsNewest(rule, dim, series);
    forall a | a in DimensionAlerts(rule, dim, series)
      ensures exists i: nat :: i < |series| && Triggers(rule, series, i) && a == AlertFor(rule, dim, series, i)
    {
      var k :| 0 <= k < |kept| && AlertsAt(rule, dim, series, kept)[k] == a;
      assert Triggers(rule, series, kept[k]);
    }
  }

  method ScanDimension(rule: Rule, dim: string, series: seq<Entry>) returns (alerts: seq<Alert>)
    ensures alerts == DimensionAlerts(rule, dim, series)
    ensures forall a :: a in alerts ==>
              && a.objectId == dim && a.sampleSize >= rule.minSampleSize
              && (rule.condition.ValueGt? ==> a.value > rule.condition.t)
              && (rule.condition.ValueLt? ==> a.value < rule.condition.t)
              && (rule.condition.ChangeRateLt? ==> a.baseline.Some? && a.changeRate < rule.condition.t)
              && (rule.condition.ChangeRateGt? ==> a.baseline.Some? && a.changeRate > rule.condition.t)
              && !rule.condition.Unrecognised?
  {
    alerts := [];
    ghost var p := TriggersAt(rule, series);
    AlertsMeetRule(rule, dim, series);
    for i := 0 to |series|
      invariant Inside(Positions(i, p), |series|) && alerts == AlertsAt(rule, dim, series, Positions(i, p))
      invariant |alerts| <= MAX_ALERTS_PER_DIMENSION
    {
      if |alerts| >= MAX_ALERTS_PER_DIMENSION {
        PositionsGrow(i, |series|, p);
        assert Positions(i, p) == Take(Positions(|series|, p), MAX_ALERTS_PER_DIMENSION);
        return;
      }
      var triggered, alert := ScanEntry(rule, dim, series, i);
      assert p(i) == triggered;
      if triggered {
        AlertsAtSnoc(rule, dim, series, Positions(i, p), i);
        alerts := alerts + [alert];
      }
    }
  }

  lemma AlertsAtSnoc(rule: Rule, dim: string, series: seq<Entry>, positions: seq<nat>, i: nat)
    requires Inside(positions, |series|) && i < |series|
    ensures Inside(positions + [i], |series|)
    ensures AlertsAt(rule, dim, series, positions + [i])
            == AlertsAt(rule, dim, series, positions) + [AlertFor(rule, dim, series, i)]
  {
  }

  /** The loop body: whether entry i triggers, and its alert. */
  method ScanEntry(rule: Rule, dim: string, series: seq<Entry>, i: nat) returns (triggered: bool, alert: Alert)
    requires i < |series|
    ensures triggered == Triggers(rule, series, i) && alert == AlertFor(rule, dim, series, i)
  {
    var baseline, changeRate := ComputeBaseline(rule, series, i);
    var entry := series[i];
    alert := Alert(rule.ruleId, entry.date, rule.severity, rule.metricName, rule.dimensionType, dim, entry.value,
                   baseline, changeRate, entry.sampleSize, None, 0.0);
    triggered := entry.sampleSize >= rule.minSampleSize
        && EvaluateCondition(rule.condition, entry.value, baseline, changeRate);
  }

  // ---------------------------------------------------------------- grouping and map order

  datatype Row = Row(dim: string, entry: Entry)

  /** The entries of one dimension value, in row order. */
  function EntriesOf(rows: seq<Row>, dim: string): seq<Entry> {
    if rows == [] then []
    else
      var last := rows[|rows| - 1];
      EntriesOf(rows[..|rows| - 1], dim) + (if last.dim == dim then [last.entry] else [])
  }

  /** Row by row: a row belongs to the dimension it names, behind the rows before it. */
  lemma EntriesAre(rows: seq<Row>, row: Row, dim: string)
    ensures EntriesOf([], dim) == []
    ensures EntriesOf(rows + [row], dim) == EntriesOf(rows, dim) + (if row.dim == dim then [row.entry] else [])
  {
    assert (rows + [row])[..|rows|] == rows;
  }

  function Lookup(series: Series, dim: string): seq<Entry> {
    if dim in series then series[dim] else []
  }

  /** seriesByDim after some rows. */
  function Grouped(rows: seq<Row>): Series {
    if rows == [] then map[]
    else
      var earlier, last := Grouped(rows[..|rows| - 1]), rows[|rows| - 1];
      earlier[last.dim := Lookup(earlier, last.dim) + [last.entry]]
  }

  /** Grouping gives every dimension value that occurs its own entries, in row order. */
  lemma {:induction false} GroupedEntries(rows: seq<Row>, dim: string)
    ensures Lookup(Grouped(rows), dim) == EntriesOf(rows, dim)
    ensures dim in Grouped(rows) <==> EntriesOf(rows, dim) != []
  {
    if rows != [] {
      GroupedEntries(rows[..|rows| - 1], dim);
    }
  }

  /** Rows arrive sorted by dimension and newest first; grouping keeps that order inside each series. */
  method GroupRows(rows: seq<Row>) returns (series: Series)
    ensures series == Grouped(rows)
  {
    series := map[];
    for i := 0 to |rows|
      invariant series == Grouped(rows[..i])
    {
      assert rows[..i + 1][..i] == rows[..i];
      series := series[rows[i].dim := Lookup(series, rows[i].dim) + [rows[i].entry]];
    }
    assert rows[..|rows|] == rows;
  }

  /** The alerts of a set of dimension values, whatever the order they are visited in. */
  ghost function AlertsOver(rule: Rule, series: Series, dims: set<string>): multiset<Alert>
    requires dims <= series.Keys
  {
    if dims == {} then multiset{}
    else
      var dim :| dim in dims;
      multiset(DimensionAlerts(rule, dim, series[dim])) + AlertsOver(rule, series, dims - {dim})
  }

  /** Any dimension value may be visited first. */
  lemma {:induction false} AlertsOverAnyFirst(rule: Rule, series: Series, dims: set<string>, dim: string)
    requires dims <= series.Keys && dim in dims
    ensures AlertsOver(rule, series, dims)
         == multiset(DimensionAlerts(rule, dim, series[dim])) + AlertsOver(rule, series, dims - {dim})
    decreases dims
  {
    var first :| first in dims
              && AlertsOver(rule, series, dims)
                 == multiset(DimensionAlerts(rule, first, series[first])) + AlertsOver(rule, series, dims - {first});
    if first != dim {
      AlertsOverAnyFirst(rule, series, dims - {first}, dim);
      AlertsOverAnyFirst(rule, series, dims - {dim}, first);
      assert dims - {first} - {dim} == dims - {dim} - {first};
    }
  }

  ghost function RuleAlerts(rule: Rule, rows: seq<Row>): multiset<Alert> {
    AlertsOver(rule, Grouped(rows), Grouped(rows).Keys)
  }

  lemma {:induction false} AlertsOverMembers(rule: Rule, series: Series, dims: set<string>, a: Alert)
    requires dims <= series.Keys
    ensures a in AlertsOver(rule, series, dims) <==>
            exists dim :: dim in dims && a in DimensionAlerts(rule, dim, series[dim])
    decreases dims
  {
    if dims != {} {
      var dim :| dim in dims;
      AlertsOverAnyFirst(rule, series, dims, dim);
      AlertsOverMembers(rule, series, dims - {dim}, a);
    }
  }

  lemma AlertsOfDimension(rule: Rule, rows: seq<Row>, dim: string, a: Alert)
    ensures a in DimensionAlerts(rule, dim, EntriesOf(rows, dim))
            <==> dim in Grouped(rows) && a in DimensionAlerts(rule, dim, Grouped(rows)[dim])
  {
    GroupedEntries(rows, dim);
    assert DimensionAlerts(rule, dim, []) == [];
  }

  /** A rule's alerts are those of the dimension values that occur in its rows, each with its own rows. */
  lemma RuleAlertsAre(rule: Rule, rows: seq<Row>, a: Alert)
    ensures a in RuleAlerts(rule, rows) <==> exists dim :: a in DimensionAlerts(rule, dim, EntriesOf(rows, dim))
  {
    var series := Grouped(rows);
    AlertsOverMembers(rule, series, series.Keys, a);
    if a in RuleAlerts(rule, rows) {
      var dim :| dim in series.Keys && a in DimensionAlerts(rule, dim, series[dim]);
      AlertsOfDimension(rule, rows, dim, a);
    }
    if dim :| a in DimensionAlerts(rule, dim, EntriesOf(rows, dim)) {
      AlertsOfDimension(rule, rows, dim, a);
    }
  }

  /** ExecuteDimensionalRule: the same alerts for every iteration order of the map. */
  method ExecuteRule(rule: Rule, rows: seq<Row>) returns (alerts: seq<Alert>)
    ensures multiset(alerts) == RuleAlerts(rule, rows)
  {
    var series := GroupRows(rows);
    alerts := [];
    var pending := series.Keys;
    while pending != {}
      invariant pending <= series.Keys
      invariant multiset(alerts) + AlertsOver(rule, series, pending) == RuleAlerts(rule, rows)
    {
      var dim :| dim in pending;
      AlertsOverAnyFirst(rule, series, pending, dim);
      var found := ScanDimension(rule, dim, series[dim]);
      alerts := alerts + found;
      pending := pending - {dim};
    }
  }

  // ---------------------------------------------------------------- ranking

  /** A severity the table does not know ranks with `high`: Go's map lookup gives zero for both. */
  function SeverityRank(severity: string): int {
    if severity == "medium" then 1 else if severity == "low" then 2 else 0
  }

  function SeverityWeight(severity: string): real {
    if severity == "high" then 3.0 else if severity == "medium" then 2.0 else 1.0
  }

  datatype Key = Key(rank: int, impact: real, sampleSize: int)

  function KeyOf(a: Alert): Key {
    Key(SeverityRank(a.severity), a.impactScore, a.sampleSize)
  }

  /** The comparator: severity, then larger impact, then larger sample. */
  predicate Before(a: Key, b: Key) {
    if a.rank != b.rank then a.rank < b.rank
    else if a.impact != b.impact then a.impact > b.impact
    else a.sampleSize > b.sampleSize
  }

  /** Severity first: high and unknown, then medium, then low; then the larger impact; then the larger sample. */
  lemma RanksBefore(a: Alert, b: Alert)
    ensures (a.severity == "high" || a.severity !in {"high", "medium", "low"}) && b.severity in {"medium", "low"} ==>
              Before(KeyOf(a), KeyOf(b))
    ensures a.severity == "medium" && b.severity == "low" ==> Before(KeyOf(a), KeyOf(b))
    ensures a.severity == b.severity ==>
              (Before(KeyOf(a), KeyOf(b)) <==>
                a.impactScore > b.impactScore || (a.impactScore == b.impactScore && a.sampleSize > b.sampleSize))
    ensures !(Before(KeyOf(a), KeyOf(b)) && Before(KeyOf(b), KeyOf(a)))
  {
  }

  predicate Sorted(s: seq<Alert>) {
    forall i, j :: 0 <= i < j < |s| ==> !Before(KeyOf(s[j]), KeyOf(s[i]))
  }

  function Keys(s: seq<Alert>): (keys: seq<Key>)
    ensures |keys| == |s| && forall i :: 0 <= i < |s| ==> keys[i] == KeyOf(s[i])
  {
    seq(|s|, i requires 0 <= i < |s| => KeyOf(s[i]))
  }

  predicate SortedKeys(keys: seq<Key>) {
    forall i, j :: 0 <= i < j < |keys| ==> !Before(keys[j], keys[i])
  }

  lemma WithoutOne<A>(t: seq<A>, k: nat)
    requires k < |t|
    ensures multiset(t[..k] + t[k + 1..]) == multiset(t) - multiset{t[k]}
  {
    assert t == t[..k] + [t[k]] + t[k + 1..];
  }

  lemma DropFirst<A>(s: seq<A>)
    requires s != []
    ensures multiset(s[1..]) == multiset(s) - multiset{s[0]}
  {
    assert s == [s[0]] + s[1..];
  }

  function Image<A, B>(s: seq<A>, f: A -> B): (r: seq<B>)
    ensures |r| == |s| && forall i :: 0 <= i < |s| ==> r[i] == f(s[i])
  {
    seq(|s|, i requires 0 <= i < |s| => f(s[i]))
  }

  lemma ImageWithoutOne<A, B>(t: seq<A>, k: nat, f: A -> B)
    requires k < |t|
    ensures multiset(Image(t, f)) == multiset(Image(t[..k] + t[k + 1..], f)) + multiset{f(t[k])}
  {
    var front, back := Image(t[..k], f), Image(t[k + 1..], f);
    assert Image(t, f) == front + [f(t[k])] + back;
    assert Image(t[..k] + t[k + 1..], f) == front + back;
  }

  /** Equal multisets stay equal when one occurrence of the same element is taken out of each. */
  lemma WithoutTheSame<A>(s: seq<A>, t: seq<A>, k: nat)
    requires multiset(s) == multiset(t) && s != [] && k < |t| && t[k] == s[0]
    ensures multiset(s[1..]) == multiset(t[..k] + t[k + 1..])
  {
    DropFirst(s);
    WithoutOne(t, k);
  }

  lemma ImageOfRest<A, B>(s: seq<A>, f: A -> B)
    requires s != []
    ensures multiset(Image(s, f)) == multiset(Image(s[1..], f)) + multiset{f(s[0])}
  {
    ImageWithoutOne(s, 0, f);
    assert s[..0] + s[1..] == s[1..];
  }

  lemma FindInOther<A>(s: seq<A>, t: seq<A>) returns (k: nat)
    requires multiset(s) == multiset(t) && s != []
    ensures k < |t| && t[k] == s[0]
  {
    assert s[0] in multiset(t);
    k :| k < |t| && t[k] == s[0];
  }

  /** Rearranging a sequence rearranges the images of its elements. */
  lemma {:induction false} ImagesRearrange<A, B>(s: seq<A>, t: seq<A>, f: A -> B)
    requires multiset(s) == multiset(t)
    ensures multiset(Image(s, f)) == multiset(Image(t, f))
    decreases |s|
  {
    if s == [] {
      assert |t| == |multiset(t)| == 0;
    } else {
      var k := FindInOther(s, t);
      WithoutTheSame(s, t, k);
      ImagesRearrange(s[1..], t[..k] + t[k + 1..], f);
      ImageOfRest(s, f);
      ImageWithoutOne(t, k, f);
    }
  }

  lemma FirstKeyIsLeast(s: seq<Key>, k: Key)
    requires SortedKeys(s) && k in multiset(s)
    ensures !Before(k, s[0])
  {
    var i :| 0 <= i < |s| && s[i] == k;
  }

  lemma SameFirstKey(s: seq<Key>, t: seq<Key>)
    requires SortedKeys(s) && SortedKeys(t) && multiset(s) == multiset(t) && s != []
    ensures t != [] && s[0] == t[0]
  {
    assert |t| == |multiset(t)| == |multiset(s)| == |s|;
    var a, b := s[0], t[0];
    assert a in multiset(s) && b in multiset(t);
    FirstKeyIsLeast(s, b);
    FirstKeyIsLeast(t, a);
  }

  /** Keys are totally ordered, so a sorted arrangement of the same keys is unique. */
  lemma {:induction false} SortedKeysUnique(s: seq<Key>, t: seq<Key>)
    requires SortedKeys(s) && SortedKeys(t) && multiset(s) == multiset(t)
    ensures s == t
    decreases |s|
  {
    if s == [] {
      assert |t| == |multiset(t)| == 0;
    } else {
      SameFirstKey(s, t);
      DropFirst(s);
      DropFirst(t);
      SortedKeysUnique(s[1..], t[1..]);
      assert s == [s[0]] + s[1..] && t == [s[0]] + t[1..];
    }
  }

  /** Whatever order the alerts arrive in and however sort.Slice breaks ties, the keys come out the same. */
  lemma SortedAlertsAgreeOnKeys(s: seq<Alert>, t: seq<Alert>)
    requires Sorted(s) && Sorted(t) && multiset(s) == multiset(t)
    ensures Keys(s) == Keys(t)
  {
    ImagesRearrange(s, t, KeyOf);
    assert Image(s, KeyOf) == Keys(s) && Image(t, KeyOf) == Keys(t);
    SortedKeysUnique(Keys(s), Keys(t));
  }

  // ---------------------------------------------------------------- the cut

  function Cap(maxAlerts: int): nat {
    if maxAlerts <= 0 then MAX_ALERTS_PER_RUN else maxAlerts
  }

  /** Putting an alert that nothing ranks before in front keeps a sequence sorted. */
  lemma SortedInFront(a: Alert, s: seq<Alert>)
    requires Sorted(s) && forall x :: x in multiset(s) ==> !Before(KeyOf(x), KeyOf(a))
    ensures Sorted([a] + s)
  {
    forall i | 0 <= i < |s| ensures !Before(KeyOf(s[i]), KeyOf(a)) {
      assert s[i] in multiset(s);
    }
  }

  lemma FirstIsLeast(s: seq<Alert>, x: Alert)
    requires Sorted(s) && x in multiset(s)
    ensures !Before(KeyOf(x), KeyOf(s[0]))
  {
    var i :| 0 <= i < |s| && s[i] == x;
  }

  /** Inserting one alert into a sorted sequence. */
  lemma {:induction false} InsertSorted(s: seq<Alert>, a: Alert) returns (t: seq<Alert>)
    requires Sorted(s)
    ensures Sorted(t) && multiset(t) == multiset(s) + multiset{a}
  {
    if s == [] || !Before(KeyOf(s[0]), KeyOf(a)) {
      t := [a] + s;
      forall x | x in multiset(s) ensures !Before(KeyOf(x), KeyOf(a)) {
        FirstIsLeast(s, x);
      }
      SortedInFront(a, s);
    } else {
      var rest := InsertSorted(s[1..], a);
      t := [s[0]] + rest;
      assert s == [s[0]] + s[1..];
      forall x | x in multiset(rest) ensures !Before(KeyOf(x), KeyOf(s[0])) {
        if x in multiset(s[1..]) {
          FirstIsLeast(s, x);
        }
      }
      SortedInFront(s[0], rest);
    }
  }

  lemma {:induction false} SortedExists(s: seq<Alert>)
    ensures exists t :: Sorted(t) && multiset(t) == multiset(s)
  {
    if s == [] {
      assert Sorted(s);
    } else {
      SortedExists(s[1..]);
      var t :| Sorted(t) && multiset(t) == multiset(s[1..]);
      var longer := InsertSorted(t, s[0]);
      assert s == [s[0]] + s[1..];
      assert Sorted(longer) && multiset(longer) == multiset(s);
    }
  }

  /** sort.Slice: some sorted rearrangement, any of them. */
  method SortSlice(a: array<Alert>)
    modifies a
    ensures Sorted(a[..]) && multiset(a[..]) == multiset(old(a[..]))
  {
    var before := a[..];
    SortedExists(before);
    var s: seq<Alert> :| Sorted(s) && multiset(s) == multiset(before);
    assert |s| == |multiset(s)| == |multiset(before)| == |before|;
    forall i | 0 <= i < a.Length {
      a[i] := s[i];
    }
    assert a[..] == s;
  }

  /** SuppressAlerts: sorts in place, keeps the front, counts the rest. */
  method SuppressAlerts(a: array<Alert>, maxAlerts: int) returns (kept: seq<Alert>, suppressed: nat)
    modifies a
    ensures Sorted(a[..]) && multiset(a[..]) == multiset(old(a[..]))
    ensures kept == Take(a[..], Cap(maxAlerts))
    ensures maxAlerts > 0 ==> kept == if a.Length <= maxAlerts then a[..] else a[..maxAlerts]
    ensures maxAlerts <= 0 ==> kept == if a.Length <= 50 then a[..] else a[..50]
    ensures |kept| + suppressed == a.Length
  {
    if a.Length == 0 {
      return [], 0;
    }
    SortSlice(a);
    if a.Length <= Cap(maxAlerts) {
      return a[..], 0;
    }
    return a[..Cap(maxAlerts)], a.Length - Cap(maxAlerts);
  }

  /** Every kept alert ranks at least as high as every dropped one. */
  lemma KeptOutrankDropped(s: seq<Alert>, k: nat, kept: Alert, dropped: Alert)
    requires Sorted(s) && k <= |s| && kept in s[..k] && dropped in s[k..]
    ensures !Before(KeyOf(dropped), KeyOf(kept))
    ensures multiset(s[..k]) + multiset(s[k..]) == multiset(s)
  {
    assert s == s[..k] + s[k..];
    var i :| 0 <= i < k && s[..k][i] == kept;
    var j :| 0 <= j < |s| - k && s[k..][j] == dropped;
    assert s[i] == kept && s[k + j] == dropped;
  }

  /** No two different alerts with the same key lie on both sides of the cut. */
  ghost predicate CleanCut(s: seq<Alert>, k: nat) {
    forall i, j :: 0 <= i < k <= j < |s| && KeyOf(s[i]) == KeyOf(s[j]) ==> s[i] == s[j]
  }

  lemma {:induction false} SameCount(s: seq<Alert>, t: seq<Alert>, x: Alert)
    requires |s| == |t| && forall i :: 0 <= i < |s| ==> (s[i] == x <==> t[i] == x)
    ensures multiset(s)[x] == multiset(t)[x]
  {
    if s != [] {
      SameCount(s[1..], t[1..], x);
      assert s == [s[0]] + s[1..] && t == [t[0]] + t[1..];
    }
  }

  /** A key that does not occur behind the cut is counted by the front alone. */
  lemma CountInFront(s: seq<Alert>, k: nat, x: Alert)
    requires k <= |s| && forall j :: k <= j < |s| ==> KeyOf(s[j]) != KeyOf(x)
    ensures multiset(s[..k])[x] == multiset(s)[x]
  {
    assert s == s[..k] + s[k..];
    assert x !in s[k..];
  }

  /** When the key of x lies behind the cut too, a clean cut leaves a single alert with that key in front. */
  lemma CleanCutPositions(s: seq<Alert>, t: seq<Alert>, k: nat, j: nat, x: Alert)
    requires |t| == |s| && multiset(s) == multiset(t) && Keys(s) == Keys(t) && CleanCut(s, k)
    requires k <= j < |s| && KeyOf(s[j]) == KeyOf(x)
    ensures forall i :: 0 <= i < k ==> (s[i] == x <==> t[i] == x)
  {
    forall i | 0 <= i < k && KeyOf(s[i]) == KeyOf(x) ensures s[i] == s[j] == t[i] {
      assert Keys(s)[i] == Keys(t)[i];
      assert t[i] in multiset(s);
      var m :| 0 <= m < |s| && s[m] == t[i];
      assert s[m] == s[j];
    }
    forall i | 0 <= i < k && KeyOf(s[i]) != KeyOf(x) ensures s[i] != x && t[i] != x {
      assert Keys(s)[i] == Keys(t)[i];
    }
  }

  /** With a clean cut, another sorted order keeps as many copies of each alert. */
  lemma CleanCutCount(s: seq<Alert>, t: seq<Alert>, k: nat, x: Alert)
    requires |t| == |s| && multiset(s) == multiset(t) && Keys(s) == Keys(t) && k <= |s| && CleanCut(s, k)
    ensures multiset(t[..k])[x] == multiset(s[..k])[x]
  {
    if j :| k <= j < |s| && KeyOf(s[j]) == KeyOf(x) {
      CleanCutPositions(s, t, k, j, x);
      SameCount(s[..k], t[..k], x);
    } else {
      forall j | k <= j < |t| ensures KeyOf(t[j]) != KeyOf(x) {
        assert Keys(s)[j] == Keys(t)[j];
      }
      CountInFront(s, k, x);
      CountInFront(t, k, x);
    }
  }

  lemma CleanCutKeepsTheSame(s: seq<Alert>, t: seq<Alert>, k: nat)
    requires Sorted(s) && Sorted(t) && multiset(s) == multiset(t) && k <= |s| && CleanCut(s, k)
    ensures |t| == |s| && multiset(t[..k]) == multiset(s[..k])
  {
    SortedAlertsAgreeOnKeys(s, t);
    assert |s| == |Keys(s)| == |t|;
    forall x ensures multiset(t[..k])[x] == multiset(s[..k])[x] {
      CleanCutCount(s, t, k, x);
    }
  }

  /** Swapping two different alerts with equal keys across the cut changes what is kept. */
  lemma SwapAcross(s: seq<Alert>, k: nat, i: nat, j: nat) returns (t: seq<Alert>)
    requires Sorted(s) && i < k <= j < |s| && KeyOf(s[i]) == KeyOf(s[j]) && s[i] != s[j]
    ensures Sorted(t) && multiset(t) == multiset(s) && |t| == |s| && multiset(t[..k]) != multiset(s[..k])
  {
    t := s[i := s[j]][j := s[i]];
    SwapIsSorted(s, t, i, j);
    assert s[..k] == s[..i] + [s[i]] + s[i + 1..k];
    assert t[..k] == s[..i] + [s[j]] + s[i + 1..k];
    assert multiset(s[..k])[s[i]] == multiset(t[..k])[s[i]] + 1;
  }

  /**
    Which alerts are kept (not only their keys) is determined exactly when the cut is clean;
    otherwise some other sorted order keeps a different set.
   */
  lemma KeptAlertsDeterminedIff(s: seq<Alert>, k: nat)
    requires Sorted(s) && k <= |s|
    ensures CleanCut(s, k) <==>
              forall t :: Sorted(t) && multiset(t) == multiset(s) ==> |t| == |s| && multiset(t[..k]) == multiset(s[..k])
  {
    if CleanCut(s, k) {
      forall t | Sorted(t) && multiset(t) == multiset(s) ensures |t| == |s| && multiset(t[..k]) == multiset(s[..k]) {
        CleanCutKeepsTheSame(s, t, k);
      }
    } else {
      var i, j :| 0 <= i < k <= j < |s| && KeyOf(s[i]) == KeyOf(s[j]) && s[i] != s[j];
      var t := SwapAcross(s, k, i, j);
    }
  }

  /** Two alerts that differ in nothing the comparator looks at, and a cut between them. */
  lemma TiedAlertsKeptByChance(a: Alert)
    ensures var b := a.(objectId := a.objectId + "'");
      Sorted([a, b]) && Sorted([b, a]) && multiset([a, b]) == multiset([b, a])
      && multiset(Take([a, b], 1)) != multiset(Take([b, a], 1))
  {
    var b := a.(objectId := a.objectId + "'");
    assert |b.objectId| != |a.objectId|;
    assert Take([a, b], 1) == [a] && Take([b, a], 1) == [b];
    assert multiset([a])[a] == 1 && multiset([b])[a] == 0;
  }

  lemma SwapIsSorted(s: seq<Alert>, t: seq<Alert>, i: nat, j: nat)
    requires Sorted(s) && i < j < |s| && KeyOf(s[i]) == KeyOf(s[j]) && t == s[i := s[j]][j := s[i]]
    ensures Sorted(t) && multiset(t) == multiset(s)
  {
    assert forall m :: 0 <= m < |s| ==> KeyOf(t[m]) == KeyOf(s[m]);
  }

  // ---------------------------------------------------------------- the whole engine

  /** enrichDimAlerts for one alert, given the gmv cell found for it. */
  function Enriched(a: Alert, gmv: Cell): Alert {
    a.(affectedGmv := if gmv.Found? && gmv.value != 0.0 then Some(gmv.value) else None,
       impactScore := SeverityWeight(a.severity) * (a.sampleSize as real))
  }

  type GmvTable = (string, string, string) -> Cell

  function EnrichedBy(gmv: GmvTable): Alert -> Alert {
    (a: Alert) => Enriched(a, gmv(a.date, a.objectType, a.objectId))
  }

  predicate LookupFails(gmv: GmvTable, a: Alert) {
    gmv(a.date, a.objectType, a.objectId).Fails?
  }

  /** Enrichment writes through each element; it succeeds exactly when no lookup fails. */
  method EnrichAlerts(a: array<Alert>, gmv: GmvTable) returns (ok: bool)
    modifies a
    ensures ok ==> a[..] == Image(old(a[..]), EnrichedBy(gmv))
    ensures ok <==> forall x :: x in old(a[..]) ==> !gmv(x.date, x.objectType, x.objectId).Fails?
  {
    ghost var before := a[..];
    for i := 0 to a.Length
      invariant forall j :: 0 <= j < i ==> a[j] == EnrichedBy(gmv)(before[j])
      invariant forall j :: i <= j < a.Length ==> a[j] == before[j]
      invariant forall j :: 0 <= j < i ==> !LookupFails(gmv, before[j])
    {
      var cell := gmv(a[i].date, a[i].objectType, a[i].objectId);
      if cell.Fails? {
        assert before[i] in before && LookupFails(gmv, before[i]);
        return false;
      }
      a[i] := Enriched(a[i], cell);
    }
    return true;
  }

  /** Alert by alert: the gmv found for its date, dimension and value, unless it is zero, and severity times sample. */
  lemma EnrichedWith(a: Alert, gmv: GmvTable)
    ensures var cell, e := gmv(a.date, a.objectType, a.objectId), EnrichedBy(gmv)(a);
      && e.affectedGmv == (if cell.Found? && cell.value != 0.0 then Some(cell.value) else None)
      && (a.severity == "high" ==> e.impactScore == 3.0 * a.sampleSize as real)
      && (a.severity == "medium" ==> e.impactScore == 2.0 * a.sampleSize as real)
      && (a.severity != "high" && a.severity != "medium" ==> e.impactScore == a.sampleSize as real)
      && e == a.(affectedGmv := e.affectedGmv, impactScore := e.impactScore)
  {
  }

  predicate KnownSeverity(severity: string) {
    severity == "high" || severity == "medium" || severity == "low"
  }

  /**
    What an alert of unknown severity gets: it is listed before every medium and low alert, however
    small its sample, but its impact is that of a low alert with the same sample, so with samples it
    comes after a high alert of the same size.
   */
  lemma UnknownSeverity(u: Alert, other: Alert, gmvU: Cell, gmvOther: Cell)
    requires !KnownSeverity(u.severity)
    ensures other.severity == "medium" || other.severity == "low" ==>
              Before(KeyOf(Enriched(u, gmvU)), KeyOf(Enriched(other, gmvOther)))
    ensures other.severity == "low" && other.sampleSize == u.sampleSize ==>
              Enriched(other, gmvOther).impactScore == Enriched(u, gmvU).impactScore
    ensures other.severity == "high" && other.sampleSize == u.sampleSize > 0 ==>
              Before(KeyOf(Enriched(other, gmvOther)), KeyOf(Enriched(u, gmvU)))
  {
  }

  /** The rows each rule's query returns, or its failure. */
  type Query = Rule -> Option<seq<Row>>

  function SumOver<T>(s: seq<T>, f: T -> multiset<Alert>): multiset<Alert> {
    if s == [] then multiset{} else SumOver(s[..|s| - 1], f) + f(s[|s| - 1])
  }

  ghost function FoundBy(query: Query): Rule -> multiset<Alert> {
    (rule: Rule) => if query(rule).Some? then RuleAlerts(rule, query(rule).value) else multiset{}
  }

  ghost function AllAlerts(rules: seq<Rule>, query: Query): multiset<Alert> {
    SumOver(rules, FoundBy(query))
  }

  /** Rule by rule: what its rows give, and nothing for a rule without any. */
  lemma AllAlertsAre(rules: seq<Rule>, rule: Rule, query: Query)
    ensures AllAlerts([], query) == multiset{}
    ensures AllAlerts(rules + [rule], query) == AllAlerts(rules, query) +
              (if query(rule).Some? then RuleAlerts(rule, query(rule).value) else multiset{})
  {
    assert (rules + [rule])[..|rules|] == rules;
  }

  /** The alerts as they were found, in some order, and the enriched alerts sorted, with ties in some order. */
  ghost predicate ArrivedAndSorted(rules: seq<Rule>, query: Query, enrich: Alert -> Alert, found: seq<Alert>,
                                   sorted: seq<Alert>) {
    && multiset(found) == AllAlerts(rules, query)
    && Sorted(sorted) && multiset(sorted) == multiset(Image(found, enrich))
  }

  /** The possible results of an evaluation: some arrival order, some sorted order, then the cut. */
  ghost predicate Outcome(rules: seq<Rule>, query: Query, gmv: GmvTable, maxAlerts: int, kept: seq<Alert>,
                          suppressed: nat) {
    exists found: seq<Alert>, sorted: seq<Alert> ::
      && ArrivedAndSorted(rules, query, EnrichedBy(gmv), found, sorted)
      && kept == Take(sorted, Cap(maxAlerts)) && |kept| + suppressed == |sorted|
  }

  datatype EvaluationError = QueryFailed(rule: Rule) | EnrichmentFailed

  datatype Evaluation = Evaluation(alerts: seq<Alert>, suppressed: nat)

  /** The alerts of the first n rules have been collected, in some order. */
  ghost predicate Collected(rules: seq<Rule>, query: Query, n: nat, all: seq<Alert>) {
    n <= |rules| && multiset(all) == AllAlerts(rules[..n], query)
  }

  lemma NothingCollected(rules: seq<Rule>, query: Query)
    ensures Collected(rules, query, 0, [])
  {
  }

  lemma EverythingCollected(rules: seq<Rule>, query: Query, all: seq<Alert>)
    requires Collected(rules, query, |rules|, all)
    ensures multiset(all) == AllAlerts(rules, query)
  {
    assert rules[..|rules|] == rules;
  }

  lemma OneMoreRule(rules: seq<Rule>, query: Query, n: nat, all: seq<Alert>, found: seq<Alert>)
    requires n < |rules| && Collected(rules, query, n, all)
    requires query(rules[n]).Some? && multiset(found) == RuleAlerts(rules[n], query(rules[n]).value)
    ensures Collected(rules, query, n + 1, all + found)
  {
    assert rules[..n + 1][..n] == rules[..n];
    assert multiset(all + found) == multiset(all) + multiset(found);
  }

  /** Rule i is the first whose query fails. */
  ghost predicate FirstFailing(rules: seq<Rule>, query: Query, i: nat) {
    i < |rules| && query(rules[i]).None? && forall j :: 0 <= j < i ==> query(rules[j]).Some?
  }

  ghost predicate AllQueried(rules: seq<Rule>, query: Query) {
    forall i :: 0 <= i < |rules| ==> query(rules[i]).Some?
  }

  /** Which rule is reported, and what makes an evaluation fail. */
  lemma FailuresAre(rules: seq<Rule>, query: Query, gmv: GmvTable, i: nat)
    ensures FirstFailing(rules, query, i) <==>
              i < |rules| && query(rules[i]).None? && forall j: nat :: j < i ==> query(rules[j]).Some?
    ensures AllQueried(rules, query) <==> forall rule :: rule in rules ==> query(rule).Some?
    ensures SomeLookupFails(rules, query, gmv) <==>
              exists a :: a in AllAlerts(rules, query) && gmv(a.date, a.objectType, a.objectId) == Fails
  {
    assert forall j :: 0 <= j < |rules| ==> rules[j] in rules;
    if a :| a in AllAlerts(rules, query) && gmv(a.date, a.objectType, a.objectId) == Fails {
      assert LookupFails(gmv, a);
    }
  }

  /** The first loop of EvaluateDimensionRules: all alerts, or the first rule whose query fails. */
  method CollectAlerts(rules: seq<Rule>, query: Query) returns (r: Result<seq<Alert>, EvaluationError>)
    ensures r.Ok? <==> AllQueried(rules, query)
    ensures r.Ok? ==> multiset(r.value) == AllAlerts(rules, query)
    ensures r.Err? ==> exists i: nat :: FirstFailing(rules, query, i) && r.error == QueryFailed(rules[i])
  {
    var all, n := CollectUntilFailure(rules, query);
    if n < |rules| {
      assert FirstFailing(rules, query, n);
      return Err(QueryFailed(rules[n]));
    }
    EverythingCollected(rules, query, all);
    return Ok(all);
  }

  /** The loop itself: it ends at the first rule whose query fails, or behind the last. */
  method CollectUntilFailure(rules: seq<Rule>, query: Query) returns (all: seq<Alert>, n: nat)
    ensures Collected(rules, query, n, all)
    ensures forall j :: 0 <= j < n ==> query(rules[j]).Some?
    ensures n < |rules| ==> query(rules[n]).None?
  {
    all := [];
    NothingCollected(rules, query);
    for i := 0 to |rules|
      invariant Collected(rules, query, i, all)
      invariant forall j :: 0 <= j < i ==> query(rules[j]).Some?
    {
      var rows := query(rules[i]);
      if rows.None? {
        return all, i;
      }
      all := AddRule(rules, query, i, rows.value, all);
    }
    return all, |rules|;
  }

  method AddRule(rules: seq<Rule>, ghost query: Query, n: nat, rows: seq<Row>, all: seq<Alert>)
    returns (more: seq<Alert>)
    requires n < |rules| && Collected(rules, query, n, all) && query(rules[n]) == Some(rows)
    ensures Collected(rules, query, n + 1, more)
  {
    var found := ExecuteRule(rules[n], rows);
    OneMoreRule(rules, query, n, all, found);
    more := all + found;
  }

  /** Some alert that was found has no readable gmv. */
  ghost predicate SomeLookupFails(rules: seq<Rule>, query: Query, gmv: GmvTable) {
    exists x :: x in AllAlerts(rules, query) && LookupFails(gmv, x)
  }

  /** EvaluateDimensionRules with its rules given: which result or error there is, and exactly when. */
  method EvaluateDimensionRules(rules: seq<Rule>, query: Query, gmv: GmvTable, maxAlerts: int)
    returns (r: Result<Evaluation, EvaluationError>)
    ensures r.Ok? <==> AllQueried(rules, query) && !SomeLookupFails(rules, query, gmv)
    ensures r.Ok? ==> Outcome(rules, query, gmv, maxAlerts, r.value.alerts, r.value.suppressed)
    ensures !AllQueried(rules, query) ==>
            exists i: nat :: FirstFailing(rules, query, i) && r == Err(QueryFailed(rules[i]))
    ensures r == Err(EnrichmentFailed) <==> AllQueried(rules, query) && SomeLookupFails(rules, query, gmv)
  {
    var collected := CollectAlerts(rules, query);
    if collected.Err? {
      return Err(collected.error);
    }
    var all := collected.value;
    var a := new Alert[|all|](i requires 0 <= i < |all| => all[i]);
    assert a[..] == all;
    var ok := EnrichAlerts(a, gmv);
    assert forall x :: x in all <==> x in AllAlerts(rules, query);
    if !ok {
      return Err(EnrichmentFailed);
    }
    var kept, suppressed := SuppressAlerts(a, maxAlerts);
    assert ArrivedAndSorted(rules, query, EnrichedBy(gmv), all, a[..]);
    return Ok(Evaluation(kept, suppressed));
  }

  /**
    Order independence of the whole engine: two evaluations of the same data, with any map iteration
    orders and any tie-breaking, report the same sequence of keys and the same suppressed count.
   */
  lemma EvaluationIsOrderIndependent(rules: seq<Rule>, query: Query, gmv: GmvTable, maxAlerts: int,
                                     kept1: seq<Alert>, suppressed1: nat, kept2: seq<Alert>, suppressed2: nat)
    requires Outcome(rules, query, gmv, maxAlerts, kept1, suppressed1)
    requires Outcome(rules, query, gmv, maxAlerts, kept2, suppressed2)
    ensures Keys(kept1) == Keys(kept2) && suppressed1 == suppressed2
  {
    var f := EnrichedBy(gmv);
    var found1, sorted1 :| ArrivedAndSorted(rules, query, f, found1, sorted1)
      && kept1 == Take(sorted1, Cap(maxAlerts)) && |kept1| + suppressed1 == |sorted1|;
    var found2, sorted2 :| ArrivedAndSorted(rules, query, f, found2, sorted2)
      && kept2 == Take(sorted2, Cap(maxAlerts)) && |kept2| + suppressed2 == |sorted2|;
    SortedRunsAgree(rules, query, f, found1, sorted1, found2, sorted2);
    forall i | 0 <= i < |kept1| ensures Keys(kept1)[i] == Keys(kept2)[i] {
      assert Keys(sorted1)[i] == Keys(sorted2)[i];
    }
  }

  lemma SortedRunsAgree(rules: seq<Rule>, query: Query, f: Alert -> Alert,
                        found1: seq<Alert>, sorted1: seq<Alert>, found2: seq<Alert>, sorted2: seq<Alert>)
    requires ArrivedAndSorted(rules, query, f, found1, sorted1)
    requires ArrivedAndSorted(rules, query, f, found2, sorted2)
    ensures Keys(sorted1) == Keys(sorted2) && |sorted1| == |sorted2|
  {
    ImagesRearrange(found1, found2, f);
    SortedAlertsAgreeOnKeys(sorted1, sorted2);
    assert |sorted1| == |Keys(sorted1)| == |sorted2|;
  }
}
