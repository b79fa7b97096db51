/**
  A worked example, proved on one input: county codes 1, 2, 3,
  57001 and 60010 written as zero-padded five-digit strings, against
  broadband rows with the plain numeric ids 1, 2, 3 and 57001.
 */
module EndToEnd {
  import opened JsNumbers
  import opened Sequences
  import opened Counties
  import opened Reconcile
  import opened Merge

  function County(code: string): Feature<int, ()> {
    Feature(Text(code), 0, ())
  }

  function Row(n: real): BroadbandRow {
    BroadbandRow(Number(Num(n)), "", "", Num(0.5), Num(0.25))
  }

  lemma CodeValues()
    ensures ToNumber(Text("00001")) == Num(1.0)
    ensures ToNumber(Text("00002")) == Num(2.0)
    ensures ToNumber(Text("00003")) == Num(3.0)
    ensures ToNumber(Text("57001")) == Num(57001.0)
    ensures ToNumber(Text("60010")) == Num(60010.0)
  {
    assert "00001"[..4] == "0000" && "0000"[..3] == "000" && "000"[..2] == "00" && "00"[..1] == "0" && "0"[..0] == "";
    assert "00002"[..4] == "0000";
    assert "00003"[..4] == "0000";
    assert "57001"[..4] == "5700" && "5700"[..3] == "570" && "570"[..2] == "57" && "57"[..1] == "5" && "5"[..0] == "";
    assert "60010"[..4] == "6001" && "6001"[..3] == "600" && "600"[..2] == "60" && "60"[..1] == "6" && "6"[..0] == "";
  }

  function Features(): seq<Feature<int, ()>> {
    [County("00001"), County("00002"), County("00003"), County("57001"), County("60010")]
  }

  function Rows(): seq<BroadbandRow> {
    [Row(1.0), Row(2.0), Row(3.0), Row(57001.0)]
  }

  lemma SurvivorsExample()
    ensures Survives(Rows(), Features()[0])
    ensures Survives(Rows(), Features()[1])
    ensures Survives(Rows(), Features()[2])
    ensures !Survives(Rows(), Features()[3])
    ensures !Survives(Rows(), Features()[4])
  {
    var rows := Rows();
    CodeValues();
    assert StrictEq(ToNumber(rows[0].id), Num(1.0));
    assert StrictEq(ToNumber(rows[1].id), Num(2.0));
    assert StrictEq(ToNumber(rows[2].id), Num(3.0));
  }

  /** A filter that keeps the first three of five elements returns those three. */
  lemma {:induction false} FilterFirstThreeOfFive<T>(s: seq<T>, p: T -> bool)
    requires |s| == 5
    requires p(s[0]) && p(s[1]) && p(s[2]) && !p(s[3]) && !p(s[4])
    ensures Filter(s, p) == s[..3]
  {
    assert s[4..][1..] == [];
    assert s[3..][1..] == s[4..];
    assert s[2..][1..] == s[3..];
    assert s[1..][1..] == s[2..];
    assert Filter(s[3..], p) == Filter(s[4..], p) == [];
    assert Filter(s[1..], p) == [s[1]] + Filter(s[2..], p) == [s[1], s[2]];
  }

  /**
    57001 is above the territory cutoff, so it is dropped even though it has
    a broadband row; 60010 is dropped twice over. Counties 1, 2 and 3 survive
    in their original order.
   */
  lemma FixDiscrepanciesExample()
    ensures FixDiscrepancies(Features(), Rows()).features == Features()[..3]
  {
    SurvivorsExample();
    FixDiscrepanciesIsFilter(Features(), Rows());
    FilterFirstThreeOfFive(Features(), (f: Feature<int, ()>) => Survives(Rows(), f));
  }

  /** The merged output has one record each for counties 1, 2 and 3, keeping the padded codes. */
  lemma GenerateCountyDataExample()
    ensures
      var r := GenerateCountyData(Features(), Rows());
      && |r.value| == 3
      && r.value[0].id == Text("00001")
      && r.value[1].id == Text("00002")
      && r.value[2].id == Text("00003")
  {
    FixDiscrepanciesExample();
  }
}
