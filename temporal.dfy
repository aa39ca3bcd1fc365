/**
 * Temporal pattern analysis: reports are bucketed by (day of week, hour of
 * day, category); each bucket gets its report count, its mean severity and a
 * fixed-threshold risk level, and the buckets replace the
 * `temporal_patterns` table.
 */
module Temporal {
  import opened Order
  import opened Seqs
  import opened Stats
  import opened Reports
  import opened Tables

  datatype Bucket = Bucket(dayOfWeek: int, hourOfDay: int, category: string)

  function BucketOf(r: Report): Bucket
  {
    Bucket(r.dayOfWeek, r.hourOfDay, r.category)
  }

  /** The bucket of every report, in input order. */
  function Buckets(reports: seq<Report>): (bs: seq<Bucket>)
    ensures |bs| == |reports|
    ensures forall i :: 0 <= i < |bs| ==> bs[i] == BucketOf(reports[i])
  {
    seq(|reports|, i requires 0 <= i < |reports| => BucketOf(reports[i]))
  }

  /** The order pandas sorts the group keys in: by day, then hour, then category. */
  predicate BucketLt(a: Bucket, b: Bucket)
  {
    if a.dayOfWeek != b.dayOfWeek then a.dayOfWeek < b.dayOfWeek
    else if a.hourOfDay != b.hourOfDay then a.hourOfDay < b.hourOfDay
    else StrLt(a.category, b.category)
  }

  lemma BucketLtIsStrictTotalOrder()
    ensures StrictTotalOrder(BucketLt)
  {
    StrLtIsStrictTotalOrder();
  }

  /** One row of `temporal_patterns`. */
  datatype Pattern = Pattern(
    dayOfWeek: int,
    hourOfDay: int,
    category: string,
    avgSeverity: real,
    incidentCount: int,
    riskLevel: string,
    lastUpdated: int)

  function KeyOf(p: Pattern): Bucket
  {
    Bucket(p.dayOfWeek, p.hourOfDay, p.category)
  }

  function Keys(ps: seq<Pattern>): (bs: seq<Bucket>)
    ensures |bs| == |ps|
    ensures forall i :: 0 <= i < |ps| ==> bs[i] == KeyOf(ps[i])
  {
    seq(|ps|, i requires 0 <= i < |ps| => KeyOf(ps[i]))
  }

  /** The `incident_count` column, added up. */
  function TotalCount(ps: seq<Pattern>): int
  {
    if ps == [] then 0 else ps[0].incidentCount + TotalCount(ps[1..])
  }

  /**
   * `get_risk_level`: "high" for a severe and repeated bucket, else "medium"
   * for a severe or a busy one, else "low".
   */
  function RiskLevel(avgSeverity: real, incidentCount: int): (level: string)
    ensures level == "high" <==> avgSeverity >= 4.0 && incidentCount >= 3
    ensures level == "medium" <==>
              !(avgSeverity >= 4.0 && incidentCount >= 3) && (avgSeverity >= 3.0 || incidentCount >= 5)
    ensures level == "low" <==> avgSeverity < 3.0 && incidentCount < 5
  {
    if avgSeverity >= 4.0 && incidentCount >= 3 then "high"
    else if avgSeverity >= 3.0 || incidentCount >= 5 then "medium"
    else "low"
  }

  /** The order low < medium < high. */
  function RiskRank(level: string): nat
  {
    if level == "high" then 2 else if level == "medium" then 1 else 0
  }

  /** More incidents or a higher mean severity never lower the risk level. */
  lemma RiskLevelMonotone(avg1: real, count1: int, avg2: real, count2: int)
    requires avg1 <= avg2 && count1 <= count2
    ensures RiskRank(RiskLevel(avg1, count1)) <= RiskRank(RiskLevel(avg2, count2))
  {
  }

  lemma BucketOfMember(reports: seq<Report>, r: Report)
    requires r in reports
    ensures BucketOf(r) in Buckets(reports)
  {
  }

  lemma BucketIsOccupied(reports: seq<Report>, b: Bucket)
    requires b in Buckets(reports)
    ensures |Group(reports, BucketOf, b)| >= 1
  {
  }

  /**
   * The row of one bucket that occurs in the input: its key, the number of
   * reports in it, their mean severity and its risk level.
   */
  function PatternOf(reports: seq<Report>, b: Bucket, now: int): (p: Pattern)
    requires b in Buckets(reports)
    ensures KeyOf(p) == b
    ensures var g := Group(reports, BucketOf, b);
            && p.incidentCount == |g| >= 1
            && p.avgSeverity == Sum(SeverityValues(g)) / p.incidentCount as real
            && MinReal(SeverityValues(g)) <= p.avgSeverity <= MaxReal(SeverityValues(g))
    ensures p.riskLevel == RiskLevel(p.avgSeverity, p.incidentCount)
    ensures p.lastUpdated == now
  {
    var g := Group(reports, BucketOf, b);
    BucketIsOccupied(reports, b);
    var severities := SeverityValues(g);
    MeanWithinRange(severities);
    var avg := Mean(severities);
    Pattern(b.dayOfWeek, b.hourOfDay, b.category, avg, |g|, RiskLevel(avg, |g|), now)
  }

  function PatternsFor(reports: seq<Report>, bs: seq<Bucket>, now: int): (ps: seq<Pattern>)
    requires forall b :: b in bs ==> b in Buckets(reports)
    ensures |ps| == |bs|
    ensures forall i :: 0 <= i < |bs| ==> ps[i] == PatternOf(reports, bs[i], now)
  {
    if bs == [] then [] else [PatternOf(reports, bs[0], now)] + PatternsFor(reports, bs[1..], now)
  }

  lemma {:induction false} TotalCountOfPatterns(reports: seq<Report>, bs: seq<Bucket>, now: int)
    requires forall b :: b in bs ==> b in Buckets(reports)
    ensures TotalCount(PatternsFor(reports, bs, now)) == GroupSizes(reports, BucketOf, bs)
  {
    if bs != [] {
      TotalCountOfPatterns(reports, bs[1..], now);
      assert PatternsFor(reports, bs, now)[1..] == PatternsFor(reports, bs[1..], now);
    }
  }

  /**
   * The group-by (`groupby(["day_of_week", "hour_of_day", "category"])`
   * with mean severity and count) and the risk column: one row per bucket
   * that occurs, in ascending key order, none empty, the counts adding up to
   * the number of reports.
   */
  function TemporalPatterns(reports: seq<Report>, now: int): (ps: seq<Pattern>)
    ensures Increasing(Keys(ps), BucketLt)
    ensures forall b :: b in Keys(ps) <==> b in Buckets(reports)
    ensures forall i :: 0 <= i < |ps| ==> ps[i] == PatternOf(reports, KeyOf(ps[i]), now)
    ensures forall i :: 0 <= i < |ps| ==> ps[i].incidentCount >= 1
    ensures TotalCount(ps) == |reports|
  {
    BucketLtIsStrictTotalOrder();
    var bs := SortedDistinct(Buckets(reports), BucketLt);
    var ps := PatternsFor(reports, bs, now);
    assert Keys(ps) == bs;
    IncreasingIsDistinct(bs, BucketLt);
    forall r | r in reports
      ensures BucketOf(r) in bs
    {
      BucketOfMember(reports, r);
    }
    GroupSizesCover(reports, BucketOf, bs);
    TotalCountOfPatterns(reports, bs, now);
    ps
  }

  /**
   * One run of the analysis against the `temporal_patterns` table: with no
   * reports it returns before touching the table; otherwise the table is
   * truncated and refilled with exactly the computed rows.
   */
  method Run(table: Table<Pattern>, reports: seq<Report>, now: int)
    modifies table
    ensures |reports| == 0 ==> table.rows == old(table.rows)
    ensures |reports| > 0 ==> table.rows == TemporalPatterns(reports, now)
  {
    if |reports| == 0 {
      return;
    }
    var patterns := TemporalPatterns(reports, now);
    table.Truncate();
    table.Append(patterns);
  }
}
