/**
  `filterCounties` and the summary count beside the slider: a merged county
  is drawn as selected when its chosen metric is at least the threshold, and
  the count is the number of counties drawn as selected.
 */
module Classify {
  import opened JsNumbers
  import opened Sequences
  import opened Counties
  import opened Merge
  import opened Reconcile

  /** The metric the summary selector names. */
  datatype MetricKind = Availability | Usage

  const SelectedClass: string := "selected-county"
  const UnselectedClass: string := "unselected-county"

  /** `county.properties[type]`. */
  function MetricOf(props: CountyProps, kind: MetricKind): JsNumber {
    match kind
    case Availability => props.availability
    case Usage => props.usage
  }

  /** The class `filterCounties` gives a merged county. */
  function FilterCounties<G>(county: Feature<G, CountyProps>, threshold: real, kind: MetricKind): (c: string)
    ensures c == SelectedClass || c == UnselectedClass
    ensures c == SelectedClass <==>
              MetricOf(county.properties, kind).Num? && MetricOf(county.properties, kind).value >= threshold
  {
    if Ge(MetricOf(county.properties, kind), Num(threshold)) then SelectedClass else UnselectedClass
  }

  /** Raising the threshold never turns an unselected county into a selected one. */
  lemma ClassifyMonotone<G>(county: Feature<G, CountyProps>, low: real, high: real, kind: MetricKind)
    requires low <= high
    ensures FilterCounties(county, high, kind) == SelectedClass ==> FilterCounties(county, low, kind) == SelectedClass
  {
  }

  /**
    The summary count: the number of counties drawn as selected when the
    slider reads `percent`, which the source divides by 100 to get the
    threshold.
   */
  function SelectedCount<G>(counties: seq<Feature<G, CountyProps>>, percent: real, kind: MetricKind): (n: nat)
    ensures n <= |counties|
  {
    Count(counties, (c: Feature<G, CountyProps>) => FilterCounties(c, percent / 100.0, kind) == SelectedClass)
  }

  /** The counted counties are exactly those whose metric reaches the threshold. */
  lemma SelectedCountIsFilter<G>(counties: seq<Feature<G, CountyProps>>, percent: real, kind: MetricKind)
    ensures SelectedCount(counties, percent, kind)
              == |Filter(counties, (c: Feature<G, CountyProps>) => Ge(MetricOf(c.properties, kind), Num(percent / 100.0)))|
  {
    var selected := (c: Feature<G, CountyProps>) => FilterCounties(c, percent / 100.0, kind) == SelectedClass;
    var reaches := (c: Feature<G, CountyProps>) => Ge(MetricOf(c.properties, kind), Num(percent / 100.0));
    CountIsFilterLength(counties, selected);
    FilterCongruent(counties, selected, reaches);
  }

  /** Moving the slider up never increases the summary count. */
  lemma SelectedCountMonotone<G>(counties: seq<Feature<G, CountyProps>>, low: real, high: real, kind: MetricKind)
    requires low <= high
    ensures SelectedCount(counties, high, kind) <= SelectedCount(counties, low, kind)
  {
    var atLow := (c: Feature<G, CountyProps>) => FilterCounties(c, low / 100.0, kind) == SelectedClass;
    var atHigh := (c: Feature<G, CountyProps>) => FilterCounties(c, high / 100.0, kind) == SelectedClass;
    CountMonotone(counties, atLow, atHigh);
  }

  /** The chosen metric cell of a broadband row. */
  function RowMetric(row: BroadbandRow, kind: MetricKind): JsNumber {
    match kind
    case Availability => row.availability
    case Usage => row.usage
  }

  /**
    Classifying a merged county is classifying its broadband row: each
    record of `generateCountyData` is drawn as selected exactly when the
    first row with its county's id has a chosen metric at least the threshold.
   */
  lemma MergedCountyClassification<G, P>(
    features: seq<Feature<G, P>>, broadband: seq<BroadbandRow>, threshold: real, kind: MetricKind)
    ensures
      var counties := FixDiscrepancies(features, broadband).features;
      var merged := GenerateCountyData(features, broadband).value;
      forall i :: 0 <= i < |counties| ==>
        exists k :: && IsFirstMatch(broadband, k, NumericId(counties[i]))
                    && (FilterCounties(merged[i], threshold, kind) == SelectedClass
                        <==> Ge(RowMetric(broadband[k], kind), Num(threshold)))
  {
    var counties := FixDiscrepancies(features, broadband).features;
    var merged := GenerateCountyData(features, broadband).value;
    forall i | 0 <= i < |counties|
      ensures exists k :: && IsFirstMatch(broadband, k, NumericId(counties[i]))
                          && (FilterCounties(merged[i], threshold, kind) == SelectedClass
                              <==> Ge(RowMetric(broadband[k], kind), Num(threshold)))
    {
      assert MergedFrom(merged[i], counties[i], broadband);
      var k :| IsFirstMatch(broadband, k, NumericId(counties[i])) && merged[i].properties == Project(broadband[k]);
      assert MetricOf(merged[i].properties, kind) == RowMetric(broadband[k], kind);
    }
  }
}
