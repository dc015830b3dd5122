/**
 * The threshold classifier of the /predict handler: the binary decision and
 * the severity band looked up from one of three literal tables, selected by
 * the operating threshold.
 *
 * Probabilities and thresholds are reals. The source compares IEEE doubles;
 * the only boundary where the two disagree is 3 * Delta for the threshold
 * 0.4, which in doubles is 0.6000000000000001, so the double nearest 0.6
 * falls in "Leve" there while the real 0.6 falls in "Moderada" here.
 */
module Classifier {
  import opened Wrappers

  /** A severity level and the interpretation text that goes with it. */
  datatype Band = Band(level: string, interpretation: string)

  const Baixa := Band("Baixa", "improvável")
  const SinalInicial := Band("Sinal Inicial", "recomenda-se observação")
  const BaixaALeve := Band("Baixa a Leve", "possibilidade não descartada")
  const Leve := Band("Leve", "possível")
  const Moderada := Band("Moderada", "provável")
  const Alta := Band("Alta", "muito provável")

  /** The binary decision: class 1 ("TEA") or class 0 ("Não TEA"). */
  datatype Decision = Tea | NotTea {
    function PredictedClass(): int {
      if Tea? then 1 else 0
    }

    function Label(): string {
      if Tea? then "TEA" else "Não TEA"
    }
  }

  /** The decision rule: positive only when the probability is strictly
      above the threshold. */
  function Decide(p: real, t: real): (d: Decision)
    ensures d.PredictedClass() == 1 <==> p > t
    ensures d.Label() == "TEA" <==> d.PredictedClass() == 1
    ensures d.Label() == "Não TEA" <==> d.PredictedClass() == 0
  {
    if p > t then Tea else NotTea
  }

  /** The thresholds for which the source has a band table. */
  predicate Supported(t: real) {
    t == 0.5 || t == 0.45 || t == 0.4
  }

  /**
   * The band chain as the source writes it: Delta is half the threshold and
   * each branch tests a half-open interval, the last one closed at 1. For an
   * unsupported threshold, or a probability outside [0, 1], no branch binds
   * a label (None), and storing the result then raises.
   */
  function Classify(p: real, t: real): (r: Option<Band>)
    ensures r.Some? <==> Supported(t) && 0.0 <= p <= 1.0
  {
    var delta := 0.5 * t;
    if t == 0.5 then
      if 0.0 <= p < delta then Some(Baixa)
      else if delta <= p < 2.0 * delta then Some(Leve)
      else if 2.0 * delta <= p < 3.0 * delta then Some(Moderada)
      else if 3.0 * delta <= p <= 1.0 then Some(Alta)
      else None
    else if t == 0.45 then
      if 0.0 <= p < delta then Some(Baixa)
      else if delta <= p < 2.0 * delta then Some(SinalInicial)
      else if 2.0 * delta <= p < 0.55 then Some(Leve)
      else if 0.55 <= p < 0.775 then Some(Moderada)
      else if 0.775 <= p <= 1.0 then Some(Alta)
      else None
    else if t == 0.4 then
      if 0.0 <= p < delta then Some(Baixa)
      else if delta <= p < 2.0 * delta then Some(BaixaALeve)
      else if 2.0 * delta <= p < 3.0 * delta then Some(Leve)
      else if 3.0 * delta <= p < 4.0 * delta then Some(Moderada)
      else if 4.0 * delta <= p <= 1.0 then Some(Alta)
      else None
    else
      None
  }

  // ---------------------------------------------------------------------
  // The band tables as data: the boundaries the result page prints, each
  // row carrying the band the branch chain assigns there (the page's own
  // labels are worded differently, e.g. "Sinal inicial").
  // ---------------------------------------------------------------------

  /** One row of a band table: probabilities from lo (inclusive) up to hi
      (exclusive, inclusive for the last row) get band. */
  datatype Row = Row(lo: real, hi: real, band: Band)

  /** The band table for each supported threshold: the printed boundaries,
      with the bands of the branch chain. */
  function Table(t: real): (r: Option<seq<Row>>)
    ensures r.Some? <==> Supported(t)
  {
    if t == 0.5 then
      Some([Row(0.0, 0.25, Baixa), Row(0.25, 0.5, Leve), Row(0.5, 0.75, Moderada),
            Row(0.75, 1.0, Alta)])
    else if t == 0.45 then
      Some([Row(0.0, 0.225, Baixa), Row(0.225, 0.45, SinalInicial), Row(0.45, 0.55, Leve),
            Row(0.55, 0.775, Moderada), Row(0.775, 1.0, Alta)])
    else if t == 0.4 then
      Some([Row(0.0, 0.2, Baixa), Row(0.2, 0.4, BaixaALeve), Row(0.4, 0.6, Leve),
            Row(0.6, 0.8, Moderada), Row(0.8, 1.0, Alta)])
    else
      None
  }

  /** p lies in row i: lower bound inclusive, upper bound exclusive except
      for the last row, which is closed. */
  predicate InRow(rows: seq<Row>, i: nat, p: real)
    requires i < |rows|
  {
    rows[i].lo <= p && (p < rows[i].hi || (i == |rows| - 1 && p <= rows[i].hi))
  }

  /** The rows tile [0, 1]: they start at 0, each ends where the next
      begins, each is non-empty, and the last ends at 1. */
  predicate Partition(rows: seq<Row>) {
    && |rows| > 0
    && rows[0].lo == 0.0
    && rows[|rows| - 1].hi == 1.0
    && (forall i :: 0 <= i < |rows| ==> rows[i].lo < rows[i].hi)
    && (forall i :: 0 <= i < |rows| - 1 ==> rows[i].hi == rows[i + 1].lo)
  }

  /** The first row at or after `from` that holds p, as an if/elif chain
      over the rows would find it. */
  function Locate(rows: seq<Row>, p: real, from: nat): (r: Option<nat>)
    decreases |rows| - from
    ensures r.Some? ==> from <= r.value < |rows| && InRow(rows, r.value, p)
    ensures r.Some? ==> forall j :: from <= j < r.value ==> !InRow(rows, j, p)
    ensures r.None? ==> forall j :: from <= j < |rows| ==> !InRow(rows, j, p)
  {
    if from >= |rows| then None
    else if InRow(rows, from, p) then Some(from)
    else Locate(rows, p, from + 1)
  }

  /** Every supported threshold has a table, and it tiles [0, 1]. */
  lemma TablesArePartitions(t: real)
    requires Supported(t)
    ensures Table(t).Some? && Partition(Table(t).value)
  {
  }

  /** In a partition, an earlier row ends no later than a later row starts. */
  lemma {:induction false} PartitionOrdered(rows: seq<Row>, i: nat, j: nat)
    requires Partition(rows) && i < j < |rows|
    ensures rows[i].hi <= rows[j].lo
    decreases j - i
  {
    if i + 1 < j {
      PartitionOrdered(rows, i + 1, j);
    }
  }

  /** Every row of a partition lies within [0, 1]. */
  lemma PartitionRowBounds(rows: seq<Row>, i: nat)
    requires Partition(rows) && i < |rows|
    ensures 0.0 <= rows[i].lo && rows[i].hi <= 1.0
  {
    if 0 < i {
      PartitionOrdered(rows, 0, i);
    }
    if i < |rows| - 1 {
      PartitionOrdered(rows, i, |rows| - 1);
    }
  }

  /** No probability lies in two rows of a partition. */
  lemma PartitionUnique(rows: seq<Row>, p: real, i: nat, j: nat)
    requires Partition(rows) && i < |rows| && j < |rows|
    requires InRow(rows, i, p) && InRow(rows, j, p)
    ensures i == j
  {
    if i < j {
      PartitionOrdered(rows, i, j);
    } else if j < i {
      PartitionOrdered(rows, j, i);
    }
  }

  /** Every probability in [0, 1] from the start of row k onwards lies in
      row k or a later one. */
  lemma {:induction false} PartitionCoversFrom(rows: seq<Row>, p: real, k: nat)
    requires Partition(rows) && k < |rows|
    requires rows[k].lo <= p <= 1.0
    ensures Locate(rows, p, k).Some?
    decreases |rows| - k
  {
    if !InRow(rows, k, p) && k + 1 < |rows| {
      PartitionCoversFrom(rows, p, k + 1);
    }
  }

  /** A partition gives a row to a probability exactly when it is in [0, 1]. */
  lemma LocateTotal(rows: seq<Row>, p: real)
    requires Partition(rows)
    ensures Locate(rows, p, 0).Some? <==> 0.0 <= p <= 1.0
  {
    if 0.0 <= p <= 1.0 {
      PartitionCoversFrom(rows, p, 0);
    } else {
      var r := Locate(rows, p, 0);
      if r.Some? {
        PartitionRowBounds(rows, r.value);
      }
    }
  }

  /** In a partition, the row found for p is the one row that holds it. */
  lemma LocateIs(rows: seq<Row>, p: real, k: nat)
    requires Partition(rows) && k < |rows| && InRow(rows, k, p)
    ensures Locate(rows, p, 0) == Some(k)
  {
    PartitionRowBounds(rows, k);
    LocateTotal(rows, p);
    PartitionUnique(rows, p, k, Locate(rows, p, 0).value);
  }

  /** p is at or above row k exactly when it is at least row k's lower bound. */
  lemma LocateAtLeast(rows: seq<Row>, p: real, k: nat)
    requires Partition(rows) && k < |rows| && 0.0 <= p <= 1.0
    ensures Locate(rows, p, 0).Some?
    ensures Locate(rows, p, 0).value >= k <==> p >= rows[k].lo
  {
    LocateTotal(rows, p);
    var i := Locate(rows, p, 0).value;
    if i < k {
      PartitionOrdered(rows, i, k);
    } else if k < i {
      PartitionOrdered(rows, k, i);
    }
  }

  /** The row index never decreases as the probability grows. */
  lemma LocateMonotone(rows: seq<Row>, p: real, q: real)
    requires Partition(rows) && 0.0 <= p <= q <= 1.0
    ensures Locate(rows, p, 0).Some? && Locate(rows, q, 0).Some?
    ensures Locate(rows, p, 0).value <= Locate(rows, q, 0).value
  {
    LocateTotal(rows, p);
    LocateTotal(rows, q);
    var i := Locate(rows, p, 0).value;
    LocateAtLeast(rows, q, i);
  }

  /** The band index of p under threshold t: its row in t's table. */
  function BandIndex(p: real, t: real): (k: nat)
    requires Supported(t) && 0.0 <= p <= 1.0
    ensures k < |Table(t).value| && InRow(Table(t).value, k, p)
  {
    TablesArePartitions(t);
    LocateTotal(Table(t).value, p);
    Locate(Table(t).value, p, 0).value
  }

  /** The source's branch chain gives exactly the band of the table row
      that holds p, the rows bounded as the result page prints them, and
      nothing when there is no table or no such row. */
  lemma ClassifyMatchesTable(p: real, t: real)
    ensures Classify(p, t) ==
      match Table(t)
      case None => None
      case Some(rows) =>
        match Locate(rows, p, 0)
        case None => None
        case Some(k) => Some(rows[k].band)
  {
    if Supported(t) {
      var rows := Table(t).value;
      TablesArePartitions(t);
      LocateTotal(rows, p);
      if 0.0 <= p <= 1.0 {
        var k :| 0 <= k < |rows| && InRow(rows, k, p) && Classify(p, t) == Some(rows[k].band);
        LocateIs(rows, p, k);
      }
    }
  }

  /** Each supported table assigns exactly one band to each p in [0, 1]. */
  lemma BandsPartitionUnitInterval(p: real, t: real)
    requires Supported(t) && 0.0 <= p <= 1.0
    ensures Classify(p, t) == Some(Table(t).value[BandIndex(p, t)].band)
    ensures forall k :: 0 <= k < |Table(t).value| && InRow(Table(t).value, k, p) ==> k == BandIndex(p, t)
  {
    TablesArePartitions(t);
    ClassifyMatchesTable(p, t);
    LocateIs(Table(t).value, p, BandIndex(p, t));
    forall k | 0 <= k < |Table(t).value| && InRow(Table(t).value, k, p)
      ensures k == BandIndex(p, t)
    {
      PartitionUnique(Table(t).value, p, k, BandIndex(p, t));
    }
  }

  /** Severity never decreases as the probability grows. */
  lemma BandIndexMonotone(p: real, q: real, t: real)
    requires Supported(t) && 0.0 <= p <= q <= 1.0
    ensures BandIndex(p, t) <= BandIndex(q, t)
  {
    TablesArePartitions(t);
    LocateMonotone(Table(t).value, p, q);
  }

  /** In every table the threshold itself starts the third band, so a
      positive decision always comes with one of the upper bands, and an
      upper band comes with a positive decision except at the threshold,
      where the band is upper but the decision is negative. */
  lemma DecisionAgreesWithBands(p: real, t: real)
    requires Supported(t) && 0.0 <= p <= 1.0
    ensures Decide(p, t) == Tea <==> BandIndex(p, t) >= 2 && p != t
  {
    TablesArePartitions(t);
    LocateAtLeast(Table(t).value, p, 2);
  }

  /** Worked boundary cases for the 0.5 and 0.45 tables. */
  lemma BoundaryScenarios()
    ensures Classify(0.24999, 0.5) == Some(Baixa)
    ensures Classify(0.25, 0.5) == Some(Leve)
    ensures Classify(0.5, 0.5) == Some(Moderada)
    ensures Classify(0.75, 0.5) == Some(Alta)
    ensures Classify(1.0, 0.5) == Some(Alta)
    ensures Decide(0.5, 0.5) == NotTea && Decide(0.5000001, 0.5) == Tea
    ensures Classify(0.5, 0.45) == Some(Leve) && Decide(0.5, 0.45) == Tea
    ensures Classify(1.5, 0.5) == None && Classify(0.5, 0.3) == None
  {
  }
}
