/**
 * Crime correlation analysis after DBSCAN: for each category with enough
 * reports, each cluster DBSCAN found among that category's reports (on
 * location and time of week) becomes a correlation row with its centre,
 * severity, time span, most common day and hour, an "organized" flag and a
 * confidence score. The rows replace the `crime_correlations` table.
 */
module Correlation {
  import opened Order
  import opened Seqs
  import opened Stats
  import opened Reports
  import opened Tables
  import opened Decimal

  /** Fewer reports than this in all: no analysis at all. */
  const MIN_REPORTS: int := 10
  /** Fewer reports than this in a category: the category is not clustered. */
  const MIN_CATEGORY_REPORTS: int := 5
  /** Fewer members than this in a cluster: the cluster is not reported. */
  const MIN_CLUSTER_SIZE: int := 3
  /** The query's look-back window, in days. */
  const WINDOW_DAYS: int := 60

  datatype Option<T> = None | Some(value: T)

  /** One row of `crime_correlations`. */
  datatype Correlation = Correlation(
    clusterId: string,
    category: string,
    incidentCount: int,
    centerLat: real,
    centerLng: real,
    avgSeverity: real,
    timeSpanDays: int,
    mostCommonDay: Option<int>,
    mostCommonHour: Option<int>,
    lastUpdated: int,
    isLikelyOrganized: bool,
    confidenceScore: real)

  /** The `cluster_id` text: the category, an underscore, the label in decimal. */
  function ClusterId(category: string, clusterLabel: int): string
  {
    category + "_" + IntToDecimal(clusterLabel)
  }

  /** The position of the last `ch` in `s`, or -1 when there is none. */
  function LastIndex(s: string, ch: char): (k: int)
    ensures -1 <= k < |s|
    ensures k >= 0 ==> s[k] == ch
    ensures forall i :: k < i < |s| ==> s[i] != ch
  {
    if |s| == 0 then -1
    else if s[|s| - 1] == ch then |s| - 1
    else LastIndex(s[..|s| - 1], ch)
  }

  /** In a cluster id the last underscore is the one after the category. */
  lemma {:induction false} LastUnderscore(category: string, digits: string)
    requires '_' !in digits
    ensures LastIndex(category + "_" + digits, '_') == |category|
  {
    var s := category + "_" + digits;
    if digits != [] {
      var init := digits[..|digits| - 1];
      assert digits[|digits| - 1] in digits;
      assert '_' !in init by {
        forall k | 0 <= k < |init|
          ensures init[k] != '_'
        {
          assert init[k] == digits[k];
        }
      }
      LastUnderscore(category, init);
      assert s[..|s| - 1] == category + "_" + init;
    }
  }

  /**
   * A cluster id names one category and one label: the decimal part holds no
   * underscore, so the last underscore separates the two.
   */
  lemma ClusterIdInjective(c1: string, l1: int, c2: string, l2: int)
    requires ClusterId(c1, l1) == ClusterId(c2, l2)
    ensures c1 == c2 && l1 == l2
  {
    var s := ClusterId(c1, l1);
    var d1, d2 := IntToDecimal(l1), IntToDecimal(l2);
    LastUnderscore(c1, d1);
    LastUnderscore(c2, d2);
    assert c1 == s[..|c1|] == c2;
    assert d1 == s[|c1| + 1..] == d2;
    IntToDecimalInjective(l1, l2);
  }

  /** Different categories or different labels give different cluster ids. */
  lemma ClusterIdsDiffer(c1: string, l1: int, c2: string, l2: int)
    requires c1 != c2 || l1 != l2
    ensures ClusterId(c1, l1) != ClusterId(c2, l2)
  {
    if ClusterId(c1, l1) == ClusterId(c2, l2) {
      ClusterIdInjective(c1, l1, c2, l2);
    }
  }

  /**
   * `(max(created_at) - min(created_at)).days`: the whole days in the
   * cluster's time span, rounded down.
   */
  function TimeSpanDays(g: seq<Report>): (days: int)
    requires |g| > 0
    ensures days >= 0
    ensures forall i, j :: 0 <= i < |g| && 0 <= j < |g| ==>
              g[i].createdAt - g[j].createdAt < (days + 1) * MICROS_PER_DAY
    ensures exists i, j :: 0 <= i < |g| && 0 <= j < |g| &&
              g[i].createdAt - g[j].createdAt >= days * MICROS_PER_DAY
  {
    var ts := Timestamps(g);
    var latest, earliest := MaxInt(ts), MinInt(ts);
    var days := (latest - earliest) / MICROS_PER_DAY;
    assert days * MICROS_PER_DAY <= latest - earliest < (days + 1) * MICROS_PER_DAY;
    var i :| 0 <= i < |g| && ts[i] == latest;
    var j :| 0 <= j < |g| && ts[j] == earliest;
    assert g[i].createdAt - g[j].createdAt >= days * MICROS_PER_DAY;
    days
  }

  /** `int(col.mode()[0]) if len(col.mode()) > 0 else None`. */
  function MostCommon(xs: seq<int>): (m: Option<int>)
    ensures |xs| > 0 ==> m.Some? && IsMode(xs, m.value, IntLt)
    ensures |xs| == 0 ==> m == None
  {
    if |xs| == 0 then None
    else
      IntLtIsStrictTotalOrder();
      Some(Mode(xs, IntLt))
  }

  /** `is_organized`: at least four incidents within 45 days, of mean severity at least 2.5. */
  predicate IsLikelyOrganized(incidentCount: int, timeSpanDays: int, avgSeverity: real)
  {
    incidentCount >= 4 && timeSpanDays <= 45 && avgSeverity >= 2.5
  }

  /**
   * `confidence_score`: 0.4 for each ten incidents, 0.3 for a span of zero
   * days falling to nothing at sixty, 0.3 at a mean severity of five, capped
   * at 1.0.
   */
  function Confidence(incidentCount: int, timeSpanDays: int, avgSeverity: real): (score: real)
    ensures score <= 1.0
  {
    var raw := (incidentCount as real / 10.0) * 0.4
             + (1.0 - timeSpanDays as real / 60.0) * 0.3
             + (avgSeverity / 5.0) * 0.3;
    if raw <= 1.0 then raw else 1.0
  }

  /** Within the sixty-day window, and for non-negative counts and severities, the score is not negative. */
  lemma ConfidenceNonNegative(incidentCount: int, timeSpanDays: int, avgSeverity: real)
    requires incidentCount >= 0 && 0 <= timeSpanDays <= WINDOW_DAYS && avgSeverity >= 0.0
    ensures 0.0 <= Confidence(incidentCount, timeSpanDays, avgSeverity)
  {
  }

  /** More incidents or a higher severity never lower the score; a longer span never raises it. */
  lemma ConfidenceMonotone(n1: int, span1: int, avg1: real, n2: int, span2: int, avg2: real)
    requires n1 <= n2 && span2 <= span1 && avg1 <= avg2
    ensures Confidence(n1, span1, avg1) <= Confidence(n2, span2, avg2)
  {
  }

  /** The statistics of one cluster `g` of `category` with DBSCAN label `clusterLabel`. */
  function ClusterStats(category: string, clusterLabel: int, g: seq<Report>, now: int): (c: Correlation)
    requires |g| > 0
    ensures c.clusterId == ClusterId(category, clusterLabel) && c.category == category
    ensures c.incidentCount == |g| && c.lastUpdated == now
    ensures c.centerLat == Sum(Latitudes(g)) / |g| as real
    ensures c.centerLng == Sum(Longitudes(g)) / |g| as real
    ensures c.avgSeverity == Sum(SeverityValues(g)) / |g| as real
    ensures MinReal(SeverityValues(g)) <= c.avgSeverity <= MaxReal(SeverityValues(g))
    ensures c.timeSpanDays == TimeSpanDays(g)
    ensures c.mostCommonDay.Some? && IsMode(Days(g), c.mostCommonDay.value, IntLt)
    ensures c.mostCommonHour.Some? && IsMode(Hours(g), c.mostCommonHour.value, IntLt)
    ensures c.isLikelyOrganized <==> |g| >= 4 && c.timeSpanDays <= 45 && c.avgSeverity >= 2.5
    ensures c.confidenceScore == Confidence(|g|, c.timeSpanDays, c.avgSeverity)
  {
    var severities := SeverityValues(g);
    MeanWithinRange(severities);
    var avgSeverity := Mean(severities);
    var span := TimeSpanDays(g);
    Correlation(
      ClusterId(category, clusterLabel),
      category,
      |g|,
      Mean(Latitudes(g)),
      Mean(Longitudes(g)),
      avgSeverity,
      span,
      MostCommon(Days(g)),
      MostCommon(Hours(g)),
      now,
      IsLikelyOrganized(|g|, span, avgSeverity),
      Confidence(|g|, span, avgSeverity))
  }

  // The specification of the loops: what each category and each label adds.

  /** `df[df["category"] == category]`, with the labels. */
  function CategoryItems(items: seq<Labelled>, category: string): seq<Labelled>
  {
    Group(items, CategoryOf, category)
  }

  /** `category_df[category_df["correlation_cluster"] == clusterLabel]`. */
  function ClusterMembers(categoryItems: seq<Labelled>, clusterLabel: int): seq<Report>
  {
    ReportsOf(Group(categoryItems, LabelOf, clusterLabel))
  }

  /** The row one label contributes: none for noise or for a cluster of fewer than three. */
  function LabelRows(categoryItems: seq<Labelled>, category: string, clusterLabel: int, now: int): seq<Correlation>
  {
    if clusterLabel == NOISE then []
    else
      var members := ClusterMembers(categoryItems, clusterLabel);
      if |members| < MIN_CLUSTER_SIZE then [] else [ClusterStats(category, clusterLabel, members, now)]
  }

  /** The rows the labels `ls` contribute, in order. */
  function LabelsRows(categoryItems: seq<Labelled>, category: string, ls: seq<int>, now: int): seq<Correlation>
  {
    if ls == [] then []
    else LabelsRows(categoryItems, category, ls[..|ls| - 1], now) + LabelRows(categoryItems, category, ls[|ls| - 1], now)
  }

  /** The rows one category contributes: none under five reports, else one per retained cluster. */
  function CategoryRows(items: seq<Labelled>, category: string, now: int): seq<Correlation>
  {
    var categoryItems := CategoryItems(items, category);
    if |categoryItems| < MIN_CATEGORY_REPORTS then []
    else LabelsRows(categoryItems, category, Unique(LabelsOf(categoryItems)), now)
  }

  /** The rows the categories `cs` contribute, in order. */
  function CategoriesRows(items: seq<Labelled>, cs: seq<string>, now: int): seq<Correlation>
  {
    if cs == [] then []
    else CategoriesRows(items, cs[..|cs| - 1], now) + CategoryRows(items, cs[|cs| - 1], now)
  }

  /** Every correlation of a run, categories in order of first appearance, labels likewise. */
  function Correlations(reports: seq<Report>, labels: seq<int>, now: int): seq<Correlation>
    requires |labels| == |reports|
  {
    CategoriesRows(Zip(reports, labels), Unique(Categories(reports)), now)
  }

  /** No two rows share a `cluster_id`. */
  ghost predicate DistinctIds(rows: seq<Correlation>)
  {
    forall a, b :: 0 <= a < b < |rows| ==> rows[a].clusterId != rows[b].clusterId
  }

  /**
   * `r` is the row of cluster `clusterLabel` of `category`, a cluster that
   * passes every gate: not noise, in a category of at least five reports,
   * with at least three members.
   */
  ghost predicate RowOfCluster(items: seq<Labelled>, r: Correlation, category: string, clusterLabel: int, now: int)
  {
    var categoryItems := CategoryItems(items, category);
    var members := ClusterMembers(categoryItems, clusterLabel);
    && clusterLabel != NOISE
    && |categoryItems| >= MIN_CATEGORY_REPORTS
    && |members| >= MIN_CLUSTER_SIZE
    && r == ClusterStats(category, clusterLabel, members, now)
  }

  /** Each row the labels `ls` contribute is the row of a retained cluster with one of those labels. */
  lemma {:induction false} LabelsRowsSound(categoryItems: seq<Labelled>, category: string, ls: seq<int>, now: int)
    ensures forall r :: r in LabelsRows(categoryItems, category, ls, now) ==>
              exists l :: l in ls && l != NOISE && |ClusterMembers(categoryItems, l)| >= MIN_CLUSTER_SIZE &&
                r == ClusterStats(category, l, ClusterMembers(categoryItems, l), now)
  {
    if ls != [] {
      var init, last := ls[..|ls| - 1], ls[|ls| - 1];
      LabelsRowsSound(categoryItems, category, init, now);
      forall r | r in LabelsRows(categoryItems, category, ls, now)
        ensures exists l :: l in ls && l != NOISE && |ClusterMembers(categoryItems, l)| >= MIN_CLUSTER_SIZE &&
                  r == ClusterStats(category, l, ClusterMembers(categoryItems, l), now)
      {
        if r in LabelsRows(categoryItems, category, init, now) {
          var l :| l in init && l != NOISE && |ClusterMembers(categoryItems, l)| >= MIN_CLUSTER_SIZE &&
                   r == ClusterStats(category, l, ClusterMembers(categoryItems, l), now);
          assert l in ls;
        } else {
          assert r in LabelRows(categoryItems, category, last, now);
          assert last in ls;
        }
      }
    }
  }

  /** The row a label contributes, if any, carries that label's cluster id. */
  lemma LabelRowId(categoryItems: seq<Labelled>, category: string, l: int, now: int)
    ensures forall q :: q in LabelRows(categoryItems, category, l, now) ==> q.clusterId == ClusterId(category, l)
  {
  }

  /** Each row the labels `ls` contribute carries the cluster id of one of them. */
  lemma {:induction false} LabelsRowsIds(categoryItems: seq<Labelled>, category: string, ls: seq<int>, now: int)
    ensures forall r :: r in LabelsRows(categoryItems, category, ls, now) ==>
              exists l :: l in ls && r.clusterId == ClusterId(category, l)
  {
    if ls != [] {
      var init, last := ls[..|ls| - 1], ls[|ls| - 1];
      LabelsRowsIds(categoryItems, category, init, now);
      LabelRowId(categoryItems, category, last, now);
      forall r | r in LabelsRows(categoryItems, category, ls, now)
        ensures exists l :: l in ls && r.clusterId == ClusterId(category, l)
      {
        if r in LabelsRows(categoryItems, category, init, now) {
          var l :| l in init && r.clusterId == ClusterId(category, l);
          assert l in ls;
        } else {
          assert last in ls;
        }
      }
    }
  }

  /** Distinct labels give rows with distinct cluster ids. */
  lemma {:induction false} LabelsRowsDistinct(categoryItems: seq<Labelled>, category: string, ls: seq<int>, now: int)
    requires Distinct(ls)
    ensures DistinctIds(LabelsRows(categoryItems, category, ls, now))
  {
    if ls != [] {
      var init, last := ls[..|ls| - 1], ls[|ls| - 1];
      var before := LabelsRows(categoryItems, category, init, now);
      var added := LabelRows(categoryItems, category, last, now);
      LastIsNew(ls);
      LabelsRowsDistinct(categoryItems, category, init, now);
      LabelsRowsIds(categoryItems, category, init, now);
      LabelRowId(categoryItems, category, last, now);
      forall p, q | p in before && q in added
        ensures p.clusterId != q.clusterId
      {
        var l :| l in init && p.clusterId == ClusterId(category, l);
        ClusterIdsDiffer(category, l, category, last);
      }
      AppendDistinctIds(before, added);
    }
  }

  lemma AppendDistinctIds(xs: seq<Correlation>, ys: seq<Correlation>)
    requires DistinctIds(xs) && DistinctIds(ys)
    requires forall p, q :: p in xs && q in ys ==> p.clusterId != q.clusterId
    ensures DistinctIds(xs + ys)
  {
  }

  /** Each row the categories `cs` contribute is the row of a retained cluster of one of them. */
  lemma {:induction false} CategoriesRowsSound(items: seq<Labelled>, cs: seq<string>, now: int)
    ensures forall r :: r in CategoriesRows(items, cs, now) ==>
              r.category in cs && exists l :: RowOfCluster(items, r, r.category, l, now)
  {
    if cs != [] {
      var init, last := cs[..|cs| - 1], cs[|cs| - 1];
      CategoriesRowsSound(items, init, now);
      var categoryItems := CategoryItems(items, last);
      LabelsRowsSound(categoryItems, last, Unique(LabelsOf(categoryItems)), now);
      forall r | r in CategoriesRows(items, cs, now)
        ensures r.category in cs && exists l :: RowOfCluster(items, r, r.category, l, now)
      {
        if r in CategoriesRows(items, init, now) {
          assert r.category in cs;
        } else {
          assert r in CategoryRows(items, last, now);
          var l :| l in Unique(LabelsOf(categoryItems)) && l != NOISE &&
                   |ClusterMembers(categoryItems, l)| >= MIN_CLUSTER_SIZE &&
                   r == ClusterStats(last, l, ClusterMembers(categoryItems, l), now);
          assert RowOfCluster(items, r, r.category, l, now);
        }
      }
    }
  }

  /** Distinct categories give rows with distinct cluster ids. */
  lemma {:induction false} CategoriesRowsDistinct(items: seq<Labelled>, cs: seq<string>, now: int)
    requires Distinct(cs)
    ensures DistinctIds(CategoriesRows(items, cs, now))
  {
    if cs != [] {
      var init, last := cs[..|cs| - 1], cs[|cs| - 1];
      var before := CategoriesRows(items, init, now);
      var added := CategoryRows(items, last, now);
      var categoryItems := CategoryItems(items, last);
      CategoriesRowsDistinct(items, init, now);
      CategoriesRowsSound(items, init, now);
      LastIsNew(cs);
      LabelsRowsDistinct(categoryItems, last, Unique(LabelsOf(categoryItems)), now);
      LabelsRowsSound(categoryItems, last, Unique(LabelsOf(categoryItems)), now);
      forall p, q | p in before && q in added
        ensures p.clusterId != q.clusterId
      {
        var lp :| RowOfCluster(items, p, p.category, lp, now);
        var lq :| lq in Unique(LabelsOf(categoryItems)) && lq != NOISE &&
                  |ClusterMembers(categoryItems, lq)| >= MIN_CLUSTER_SIZE &&
                  q == ClusterStats(last, lq, ClusterMembers(categoryItems, lq), now);
        ClusterIdsDiffer(p.category, lp, last, lq);
      }
      AppendDistinctIds(before, added);
    }
  }

  /** One more category: its rows follow those of the categories before it. */
  lemma CategoriesRowsStep(items: seq<Labelled>, cs: seq<string>, i: int, now: int)
    requires 0 <= i < |cs|
    ensures CategoriesRows(items, cs[..i + 1], now) == CategoriesRows(items, cs[..i], now) + CategoryRows(items, cs[i], now)
  {
    assert cs[..i + 1][..i] == cs[..i];
  }

  /** One more label: its row, if any, follows those of the labels before it. */
  lemma LabelsRowsStep(categoryItems: seq<Labelled>, category: string, ls: seq<int>, j: int, now: int)
    requires 0 <= j < |ls|
    ensures LabelsRows(categoryItems, category, ls[..j + 1], now) ==
              LabelsRows(categoryItems, category, ls[..j], now) + LabelRows(categoryItems, category, ls[j], now)
  {
    assert ls[..j + 1][..j] == ls[..j];
  }

  /**
   * The inner loop over one category's `correlation_cluster.unique()`: the
   * rows of its clusters that are not noise and have at least three members.
   */
  method ClusterCorrelations(categoryItems: seq<Labelled>, category: string, now: int) returns (rows: seq<Correlation>)
    ensures rows == LabelsRows(categoryItems, category, Unique(LabelsOf(categoryItems)), now)
  {
    var clusterLabels := Unique(LabelsOf(categoryItems));
    rows := [];
    for j := 0 to |clusterLabels|
      invariant rows == LabelsRows(categoryItems, category, clusterLabels[..j], now)
    {
      var clusterLabel := clusterLabels[j];
      LabelsRowsStep(categoryItems, category, clusterLabels, j, now);
      if clusterLabel != NOISE {
        var members := ClusterMembers(categoryItems, clusterLabel);
        if |members| >= MIN_CLUSTER_SIZE {
          rows := rows + [ClusterStats(category, clusterLabel, members, now)];
        }
      }
    }
    assert clusterLabels[..|clusterLabels|] == clusterLabels;
  }

  /**
   * The outer loop over `df["category"].unique()`, skipping categories of
   * fewer than five reports: the rows are the specified ones, and no two
   * share a cluster id.
   */
  method FindCorrelations(reports: seq<Report>, labels: seq<int>, now: int) returns (correlations: seq<Correlation>)
    requires |labels| == |reports|
    ensures correlations == Correlations(reports, labels, now)
    ensures DistinctIds(correlations)
  {
    var items := Zip(reports, labels);
    var categories := Unique(Categories(reports));
    correlations := [];
    for i := 0 to |categories|
      invariant correlations == CategoriesRows(items, categories[..i], now)
    {
      var category := categories[i];
      CategoriesRowsStep(items, categories, i, now);
      var categoryItems := CategoryItems(items, category);
      if |categoryItems| >= MIN_CATEGORY_REPORTS {
        var rows := ClusterCorrelations(categoryItems, category, now);
        correlations := correlations + rows;
      }
    }
    assert categories[..|categories|] == categories;
    CategoriesRowsDistinct(items, categories, now);
  }

  /**
   * Soundness: every correlation is the row of a cluster that passes every
   * gate; in particular no category of fewer than five reports, no noise
   * label and no cluster of fewer than three reports yields a row.
   */
  lemma CorrelationsSound(reports: seq<Report>, labels: seq<int>, now: int)
    requires |labels| == |reports|
    ensures forall r :: r in Correlations(reports, labels, now) ==>
              exists l :: RowOfCluster(Zip(reports, labels), r, r.category, l, now)
  {
    CategoriesRowsSound(Zip(reports, labels), Unique(Categories(reports)), now);
  }

  /** The members of a cluster of `category` all have that category. */
  lemma ClusterMembersShareCategory(items: seq<Labelled>, category: string, clusterLabel: int)
    ensures forall m :: m in ClusterMembers(CategoryItems(items, category), clusterLabel) ==> m.category == category
  {
    var categoryItems := Group(items, CategoryOf, category);
    var g := Group(categoryItems, LabelOf, clusterLabel);
    forall m | m in ClusterMembers(categoryItems, clusterLabel)
      ensures m.category == category
    {
      var k :| 0 <= k < |g| && g[k].report == m;
      assert g[k] in categoryItems;
    }
  }

  /** A category of fewer than five reports yields no row at all. */
  lemma SmallCategoryContributesNothing(reports: seq<Report>, labels: seq<int>, now: int, category: string)
    requires |labels| == |reports|
    requires |CategoryItems(Zip(reports, labels), category)| < MIN_CATEGORY_REPORTS
    ensures forall r :: r in Correlations(reports, labels, now) ==> r.category != category
  {
    CorrelationsSound(reports, labels, now);
  }

  lemma {:induction false} LabelsRowsContain(categoryItems: seq<Labelled>, category: string, ls: seq<int>, l: int, now: int)
    requires l in ls
    ensures forall q :: q in LabelRows(categoryItems, category, l, now) ==> q in LabelsRows(categoryItems, category, ls, now)
  {
    var init := ls[..|ls| - 1];
    if l != ls[|ls| - 1] {
      assert l in init;
      LabelsRowsContain(categoryItems, category, init, l, now);
    }
  }

  lemma {:induction false} CategoriesRowsContain(items: seq<Labelled>, cs: seq<string>, c: string, now: int)
    requires c in cs
    ensures forall q :: q in CategoryRows(items, c, now) ==> q in CategoriesRows(items, cs, now)
  {
    var init := cs[..|cs| - 1];
    if c != cs[|cs| - 1] {
      assert c in init;
      CategoriesRowsContain(items, init, c, now);
    }
  }

  /** A report of `category` among the labelled reports is a report of that category in the input. */
  lemma CategoryOccurs(reports: seq<Report>, labels: seq<int>, category: string)
    requires |labels| == |reports|
    requires |CategoryItems(Zip(reports, labels), category)| > 0
    ensures category in Categories(reports)
  {
    var items := Zip(reports, labels);
    var x := CategoryItems(items, category)[0];
    assert x in Group(items, CategoryOf, category);
    var i :| 0 <= i < |items| && items[i] == x;
    assert Categories(reports)[i] == category;
  }

  /**
   * Completeness: every cluster that passes every gate yields its row; with
   * `CorrelationsSound` and the distinct cluster ids of `FindCorrelations`,
   * the rows are exactly one per such cluster.
   */
  lemma CorrelationsComplete(reports: seq<Report>, labels: seq<int>, now: int, category: string, clusterLabel: int)
    requires |labels| == |reports|
    requires clusterLabel != NOISE
    requires |CategoryItems(Zip(reports, labels), category)| >= MIN_CATEGORY_REPORTS
    requires |ClusterMembers(CategoryItems(Zip(reports, labels), category), clusterLabel)| >= MIN_CLUSTER_SIZE
    ensures var categoryItems := CategoryItems(Zip(reports, labels), category);
            ClusterStats(category, clusterLabel, ClusterMembers(categoryItems, clusterLabel), now) in Correlations(reports, labels, now)
  {
    var items := Zip(reports, labels);
    var categoryItems := CategoryItems(items, category);
    var y := Group(categoryItems, LabelOf, clusterLabel)[0];
    LabelOfMember(categoryItems, y);
    LabelsRowsContain(categoryItems, category, Unique(LabelsOf(categoryItems)), clusterLabel, now);
    CategoryOccurs(reports, labels, category);
    CategoriesRowsContain(items, Unique(Categories(reports)), category, now);
  }

  /** Each member of a cluster is one of the input reports. */
  lemma MemberIsReport(reports: seq<Report>, labels: seq<int>, category: string, clusterLabel: int, m: Report)
    requires |labels| == |reports|
    requires m in ClusterMembers(CategoryItems(Zip(reports, labels), category), clusterLabel)
    ensures m in reports
  {
    var items := Zip(reports, labels);
    var categoryItems := Group(items, CategoryOf, category);
    var g := Group(categoryItems, LabelOf, clusterLabel);
    var k :| 0 <= k < |g| && g[k].report == m;
    assert g[k] in categoryItems;
    var i :| 0 <= i < |items| && items[i] == g[k];
    assert reports[i] == m;
  }

  /** `created_at > NOW() - INTERVAL '60 days'`, and not after the query time. */
  predicate InWindow(r: Report, queryTime: int)
  {
    queryTime - WINDOW_DAYS * MICROS_PER_DAY < r.createdAt <= queryTime
  }

  /** A cluster whose members all lie in the sixty-day window spans at most sixty days. */
  lemma SpanWithinWindow(g: seq<Report>, queryTime: int)
    requires |g| > 0
    requires forall k :: 0 <= k < |g| ==> InWindow(g[k], queryTime)
    ensures TimeSpanDays(g) <= WINDOW_DAYS
  {
  }

  /** A cluster in the window, without negative severities, gets a score between 0 and 1. */
  lemma ClusterConfidenceInRange(category: string, clusterLabel: int, g: seq<Report>, now: int, queryTime: int)
    requires |g| > 0
    requires forall k :: 0 <= k < |g| ==> InWindow(g[k], queryTime) && g[k].severity >= 0
    ensures 0.0 <= ClusterStats(category, clusterLabel, g, now).confidenceScore <= 1.0
  {
  }

  /**
   * When every report lies in the query's sixty-day window and no severity
   * is negative, every confidence score lies between 0 and 1. The query
   * bounds `created_at` only from below: reports dated after the query time
   * are assumed absent.
   */
  lemma ConfidenceWithinWindow(reports: seq<Report>, labels: seq<int>, now: int, queryTime: int)
    requires |labels| == |reports|
    requires forall x :: x in reports ==> InWindow(x, queryTime) && x.severity >= 0
    ensures forall r :: r in Correlations(reports, labels, now) ==> 0.0 <= r.confidenceScore <= 1.0
  {
    CorrelationsSound(reports, labels, now);
    forall r | r in Correlations(reports, labels, now)
      ensures 0.0 <= r.confidenceScore <= 1.0
    {
      var l :| RowOfCluster(Zip(reports, labels), r, r.category, l, now);
      var g := ClusterMembers(CategoryItems(Zip(reports, labels), r.category), l);
      forall k | 0 <= k < |g|
        ensures InWindow(g[k], queryTime) && g[k].severity >= 0
      {
        MemberIsReport(reports, labels, r.category, l, g[k]);
      }
      ClusterConfidenceInRange(r.category, l, g, now, queryTime);
    }
  }

  /**
   * One run against the `crime_correlations` table: with fewer than ten
   * reports, or when no correlation survives the gates, it returns before
   * touching the table; otherwise the table is truncated and refilled with
   * exactly the correlations.
   */
  method Run(table: Table<Correlation>, reports: seq<Report>, labels: seq<int>, now: int)
    requires |labels| == |reports|
    modifies table
    ensures (|reports| < MIN_REPORTS || Correlations(reports, labels, now) == []) ==>
              table.rows == old(table.rows)
    ensures (|reports| >= MIN_REPORTS && Correlations(reports, labels, now) != []) ==>
              table.rows == Correlations(reports, labels, now)
  {
    if |reports| < MIN_REPORTS {
      return;
    }
    var correlations := FindCorrelations(reports, labels, now);
    if |correlations| == 0 {
      return;
    }
    table.Truncate();
    table.Append(correlations);
  }
}
