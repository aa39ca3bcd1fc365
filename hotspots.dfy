/**
 * Hotspot detection after DBSCAN: noise is dropped, the remaining reports are
 * grouped by cluster label, and each cluster is summarised (centre, count,
 * mean and maximum severity, most common category, a constant radius). The
 * summaries replace the `hotspot_analysis` table.
 */
module Hotspots {
  import opened Order
  import opened Seqs
  import opened Stats
  import opened Reports
  import opened Tables

  /** Every hotspot is given the DBSCAN `eps` read as kilometres, whatever its members. */
  const RADIUS_KM: real := 1.0

  /** The category a group with no mode would get; it never applies to a group that has members. */
  const FALLBACK_CATEGORY: string := "other"

  /** One row of `hotspot_analysis`. */
  datatype Hotspot = Hotspot(
    hotspotId: int,
    centerLat: real,
    centerLng: real,
    avgSeverity: real,
    maxSeverity: int,
    incidentCount: int,
    primaryCategory: string,
    radiusKm: real,
    lastUpdated: int)

  function Ids(hs: seq<Hotspot>): (ids: seq<int>)
    ensures |ids| == |hs|
    ensures forall i :: 0 <= i < |hs| ==> ids[i] == hs[i].hotspotId
  {
    seq(|hs|, i requires 0 <= i < |hs| => hs[i].hotspotId)
  }

  /** The `incident_count` column, added up. */
  function TotalCount(hs: seq<Hotspot>): int
  {
    if hs == [] then 0 else hs[0].incidentCount + TotalCount(hs[1..])
  }

  /**
   * `df[df["hotspot_id"] != -1]`: the labelled reports that DBSCAN put in
   * some cluster, as many as there are labels other than noise.
   */
  function NonNoise(items: seq<Labelled>): (kept: seq<Labelled>)
    ensures forall x :: x in kept <==> x in items && x.cluster != NOISE
    ensures forall x :: multiset(kept)[x] == (if x.cluster != NOISE then multiset(items)[x] else 0)
    ensures |kept| == |items| - Count(LabelsOf(items), NOISE)
  {
    if items == [] then []
    else
      assert items == [items[0]] + items[1..];
      var rest := NonNoise(items[1..]);
      assert LabelsOf(items) == [items[0].cluster] + LabelsOf(items[1..]);
      if items[0].cluster != NOISE then [items[0]] + rest else rest
  }

  /** A one-row input keeps its row exactly when it is not noise. */
  lemma NonNoiseSingleton(x: Labelled)
    ensures NonNoise([x]) == if x.cluster != NOISE then [x] else []
  {
  }

  /** Dropping noise from a concatenation drops it from each part and keeps the parts in order. */
  lemma {:induction false} NonNoiseAppend(s: seq<Labelled>, t: seq<Labelled>)
    ensures NonNoise(s + t) == NonNoise(s) + NonNoise(t)
  {
    if s == [] {
      assert s + t == t;
    } else {
      assert (s + t)[0] == s[0] && (s + t)[1..] == s[1..] + t;
      NonNoiseAppend(s[1..], t);
    }
  }

  /** The members of cluster `id`, in input order. */
  function Members(items: seq<Labelled>, id: int): seq<Report>
  {
    ReportsOf(Group(items, LabelOf, id))
  }

  /**
   * The category aggregation: `x.mode()[0]`, the most frequent category,
   * the least one in Python's string order on ties; "other" only for a group
   * without a mode.
   */
  function PrimaryCategory(g: seq<Report>): (c: string)
    ensures |g| > 0 ==> IsMode(Categories(g), c, StrLt)
  {
    if |g| == 0 then FALLBACK_CATEGORY
    else
      StrLtIsStrictTotalOrder();
      Mode(Categories(g), StrLt)
  }

  /** The summary row of one non-empty cluster. */
  function Summarise(id: int, g: seq<Report>, now: int): (h: Hotspot)
    requires |g| > 0
    ensures h.hotspotId == id && h.incidentCount == |g| && h.lastUpdated == now
    ensures h.radiusKm == RADIUS_KM
    ensures h.centerLat == Sum(Latitudes(g)) / |g| as real
    ensures h.centerLng == Sum(Longitudes(g)) / |g| as real
    ensures MinReal(Latitudes(g)) <= h.centerLat <= MaxReal(Latitudes(g))
    ensures MinReal(Longitudes(g)) <= h.centerLng <= MaxReal(Longitudes(g))
    ensures h.maxSeverity in Severities(g)
    ensures forall i :: 0 <= i < |g| ==> g[i].severity <= h.maxSeverity
    ensures h.avgSeverity == Sum(SeverityValues(g)) / |g| as real
    ensures h.avgSeverity <= h.maxSeverity as real
    ensures IsMode(Categories(g), h.primaryCategory, StrLt)
  {
    var lats, lngs, severities := Latitudes(g), Longitudes(g), SeverityValues(g);
    MeanWithinRange(lats);
    MeanWithinRange(lngs);
    var maxSeverity := MaxInt(Severities(g));
    MeanBounded(severities, MinReal(severities), maxSeverity as real);
    Hotspot(id, Mean(lats), Mean(lngs), Mean(severities), maxSeverity, |g|,
            PrimaryCategory(g), RADIUS_KM, now)
  }

  /** Every label that occurs has at least one member. */
  lemma ClustersAreOccupied(items: seq<Labelled>, ids: seq<int>)
    requires forall id :: id in ids ==> id in LabelsOf(items)
    ensures forall i :: 0 <= i < |ids| ==> |Members(items, ids[i])| >= 1
  {
    forall i | 0 <= i < |ids|
      ensures |Members(items, ids[i])| >= 1
    {
      assert ids[i] in ids;
      var j :| 0 <= j < |items| && LabelsOf(items)[j] == ids[i];
      assert items[j] in Group(items, LabelOf, ids[i]);
    }
  }

  /** The summaries of the clusters `ids` names, in that order. */
  function SummariesFor(items: seq<Labelled>, ids: seq<int>, now: int): (hs: seq<Hotspot>)
    requires forall id :: id in ids ==> id in LabelsOf(items)
    ensures |hs| == |ids|
    ensures forall i :: 0 <= i < |ids| ==> |Members(items, ids[i])| > 0
    ensures forall i :: 0 <= i < |ids| ==> hs[i] == Summarise(ids[i], Members(items, ids[i]), now)
    ensures forall i :: 0 <= i < |ids| ==> hs[i].hotspotId == ids[i] && hs[i].incidentCount >= 1
    ensures forall i :: 0 <= i < |ids| ==> hs[i].radiusKm == RADIUS_KM
  {
    ClustersAreOccupied(items, ids);
    seq(|ids|, i requires 0 <= i < |ids| => Summarise(ids[i], Members(items, ids[i]), now))
  }

  lemma {:induction false} TotalCountOfSummaries(items: seq<Labelled>, ids: seq<int>, now: int)
    requires forall id :: id in ids ==> id in LabelsOf(items)
    ensures TotalCount(SummariesFor(items, ids, now)) == GroupSizes(items, LabelOf, ids)
    decreases |ids|
  {
    if ids != [] {
      TotalCountOfSummaries(items, ids[1..], now);
      assert SummariesFor(items, ids, now)[1..] == SummariesFor(items, ids[1..], now);
    }
  }

  /** When `ids` names each label of `items` once, the summaries count every item once. */
  lemma SummariesCoverClusters(items: seq<Labelled>, ids: seq<int>, now: int)
    requires Distinct(ids)
    requires forall id :: id in ids <==> id in LabelsOf(items)
    ensures TotalCount(SummariesFor(items, ids, now)) == |items|
  {
    forall x | x in items
      ensures LabelOf(x) in ids
    {
      LabelOfMember(items, x);
    }
    GroupSizesCover(items, LabelOf, ids);
    TotalCountOfSummaries(items, ids, now);
  }

  /** The labels of the clustered reports are the labels other than noise, one per such report. */
  lemma NonNoiseLabels(reports: seq<Report>, labels: seq<int>)
    requires |labels| == |reports|
    ensures var items := NonNoise(Zip(reports, labels));
            && (forall id :: id in LabelsOf(items) <==> id in labels && id != NOISE)
            && |items| == |reports| - Count(labels, NOISE)
  {
    var all := Zip(reports, labels);
    assert LabelsOf(all) == labels;
    var items := NonNoise(all);
    forall id
      ensures id in LabelsOf(items) <==> id in labels && id != NOISE
    {
      if id in labels && id != NOISE {
        var i :| 0 <= i < |labels| && labels[i] == id;
        assert all[i] in items;
        LabelOfMember(items, all[i]);
      }
      if id in LabelsOf(items) {
        var j :| 0 <= j < |items| && LabelsOf(items)[j] == id;
        assert items[j] in all;
        LabelOfMember(all, items[j]);
      }
    }
  }

  /**
   * The `groupby("hotspot_id")` aggregation merged with the category mode:
   * one row per label other than noise, in ascending label order, each the
   * summary of exactly the reports carrying its label; the counts add up to
   * the number of reports that are not noise.
   */
  function HotspotRows(reports: seq<Report>, labels: seq<int>, now: int): (hs: seq<Hotspot>)
    requires |labels| == |reports|
    ensures Increasing(Ids(hs), IntLt)
    ensures forall id :: id in Ids(hs) <==> id in labels && id != NOISE
    ensures forall i :: 0 <= i < |hs| ==>
              var members := Members(NonNoise(Zip(reports, labels)), hs[i].hotspotId);
              |members| > 0 && hs[i] == Summarise(hs[i].hotspotId, members, now)
    ensures forall i :: 0 <= i < |hs| ==> hs[i].incidentCount >= 1 && hs[i].radiusKm == RADIUS_KM
    ensures TotalCount(hs) == |reports| - Count(labels, NOISE)
  {
    var items := NonNoise(Zip(reports, labels));
    NonNoiseLabels(reports, labels);
    IntLtIsStrictTotalOrder();
    var ids := SortedDistinct(LabelsOf(items), IntLt);
    var hs := SummariesFor(items, ids, now);
    assert Ids(hs) == ids;
    IncreasingIsDistinct(ids, IntLt);
    SummariesCoverClusters(items, ids, now);
    hs
  }

  /** Some report is clustered exactly when some label is not noise. */
  lemma ClusteredIffSomeLabelNotNoise(reports: seq<Report>, labels: seq<int>)
    requires |labels| == |reports|
    ensures |NonNoise(Zip(reports, labels))| > 0 <==> exists i :: 0 <= i < |labels| && labels[i] != NOISE
  {
    var all := Zip(reports, labels);
    var kept := NonNoise(all);
    if |kept| > 0 {
      assert kept[0] in all && kept[0].cluster != NOISE;
      var i :| 0 <= i < |all| && all[i] == kept[0];
      assert labels[i] != NOISE;
    }
    if exists i :: 0 <= i < |labels| && labels[i] != NOISE {
      var i :| 0 <= i < |labels| && labels[i] != NOISE;
      assert all[i] in kept;
    }
  }

  /**
   * One run of the detector against the `hotspot_analysis` table: with no
   * reports, or with every report labelled noise, it returns before touching
   * the table; otherwise the table is truncated and refilled with exactly the
   * computed rows.
   */
  method Run(table: Table<Hotspot>, reports: seq<Report>, labels: seq<int>, now: int)
    requires |labels| == |reports|
    modifies table
    ensures (|reports| == 0 || forall i :: 0 <= i < |labels| ==> labels[i] == NOISE) ==>
              table.rows == old(table.rows)
    ensures (|reports| > 0 && exists i :: 0 <= i < |labels| && labels[i] != NOISE) ==>
              table.rows == HotspotRows(reports, labels, now)
  {
    if |reports| == 0 {
      return;
    }
    var hotspotItems := NonNoise(Zip(reports, labels));
    ClusteredIffSomeLabelNotNoise(reports, labels);
    if |hotspotItems| == 0 {
      return;
    }
    var rows := HotspotRows(reports, labels, now);
    table.Truncate();
    table.Append(rows);
  }
}
