/**
 * transform_new: turns the one-row frame of a form submission into the row
 * of features the scorer expects, aligned to the stored feature list.
 *
 * The fitted scaler, the fitted one-hot encoder and the parsing of text as a
 * number are opaque objects loaded at start-up; they enter as the functions
 * of Params. The scaler is taken to keep NaN as NaN, as the library's
 * scalers do.
 */
module Transform {
  import opened Wrappers
  import opened Seqs
  import opened Frames

  /** The yes/no questions. */
  const YesNoCols: seq<string> :=
    ["Col01", "Col02", "Col03", "Col04", "Col05", "Col06", "Col07", "Col08", "Col09", "Col10", "Col14", "Col16"]

  /** The categorical questions, one-hot encoded. */
  const CategoricalCols: seq<string> := ["Col13", "Col15", "Col17"]

  /** How the transformation can raise. */
  datatype Error =
    | DuplicateLabels        // a frame whose columns repeat a label
    | NonFiniteToInt         // astype('int8') of a cell the code map left NaN
    | NotAFloat(text: string) // astype(float) of text that is not a number
    | EncoderFailed          // the fitted encoder raised

  /** The stored transform parameters. */
  datatype Params = Params(
    scale: real -> real,                          // scaler.transform on one value of Col11
    parseNumber: string -> Option<real>,          // text read as a number, or None
    encode: seq<Column> -> Option<seq<Column>>)   // encoder.transform with get_feature_names_out

  // ---------------------------------------------------------------------
  // The steps of transform_new, each as a function of the frame.
  // ---------------------------------------------------------------------

  /** A two-valued answer through a code map: zero maps to 0, one maps to 1,
      anything else (another text, a number, NaN) maps to NaN. */
  function Code(c: Cell, zero: string, one: string): (r: Option<real>)
    ensures r.Some? <==> c == Str(zero) || c == Str(one)
    ensures c == Str(zero) ==> r == Some(0.0)
    ensures r == Some(1.0) <==> c == Str(one) && zero != one
  {
    match c
    case Str(s) => if s == zero then Some(0.0) else if s == one then Some(1.0) else None
    case _ => None
  }

  /** The map {'Sim': 1, 'Não': 0}. */
  function YesNoCode(c: Cell): (r: Option<real>)
    ensures r == Some(0.0) <==> c == Str("Não")
    ensures r == Some(1.0) <==> c == Str("Sim")
    ensures r.None? <==> c != Str("Não") && c != Str("Sim")
  {
    Code(c, "Não", "Sim")
  }

  /** The map {'Masculino': 0, 'Feminino': 1}. */
  function SexCode(c: Cell): (r: Option<real>)
    ensures r == Some(0.0) <==> c == Str("Masculino")
    ensures r == Some(1.0) <==> c == Str("Feminino")
    ensures r.None? <==> c != Str("Masculino") && c != Str("Feminino")
  {
    Code(c, "Masculino", "Feminino")
  }

  /** The cell a code map produces: the code, or NaN. */
  function Coded(o: Option<real>): Cell {
    match o
    case Some(v) => Num(v)
    case None => Missing
  }

  /** Every yes/no question present holds "Sim" or "Não". */
  predicate YesNoAnswered(df: Frame) {
    forall i :: 0 <= i < |df| && df[i].name in YesNoCols ==> YesNoCode(df[i].cell).Some?
  }

  /** Lines 16-18: each yes/no column goes through the code map and then to
      an integer, which raises when the map left a NaN. */
  function EncodeYesNo(df: Frame): (r: Result<Frame, Error>)
    ensures r.Ok? <==> YesNoAnswered(df)
    ensures r.Ok? ==> Names(r.value) == Names(df)
    ensures r.Ok? ==> forall i :: 0 <= i < |df| && df[i].name in YesNoCols ==>
      r.value[i].cell == Num(if df[i].cell == Str("Sim") then 1.0 else 0.0)
    ensures r.Ok? ==> forall i :: 0 <= i < |df| && df[i].name !in YesNoCols ==> r.value[i] == df[i]
    ensures r.Err? ==> r.error == NonFiniteToInt
  {
    var mapped := seq(|df|, i requires 0 <= i < |df| =>
      if df[i].name in YesNoCols then Column(df[i].name, Coded(YesNoCode(df[i].cell))) else df[i]);
    assert Names(mapped) == Names(df);
    if YesNoAnswered(df) then Ok(mapped) else Err(NonFiniteToInt)
  }

  /** Line 19: every cell holding the placeholder "?" becomes NaN. */
  function ReplacePlaceholder(df: Frame): (r: Frame)
    ensures Names(r) == Names(df)
    ensures forall i :: 0 <= i < |r| ==> r[i].cell != Str("?")
    ensures forall i :: 0 <= i < |df| && df[i].cell == Str("?") ==> r[i] == Column(df[i].name, Missing)
    ensures forall i :: 0 <= i < |df| && df[i].cell != Str("?") ==> r[i] == df[i]
  {
    var r := seq(|df|, i requires 0 <= i < |df| =>
      if df[i].cell == Str("?") then Column(df[i].name, Missing) else df[i]);
    assert Names(r) == Names(df);
    r
  }

  /** Line 21: Col12, when present, goes through its code map and to an
      integer. */
  function EncodeSex(df: Frame): (r: Result<Frame, Error>)
    ensures r.Ok? <==> "Col12" !in Names(df) || SexCode(Lookup(df, "Col12")).Some?
    ensures r.Err? ==> r.error == NonFiniteToInt
    ensures "Col12" !in Names(df) ==> r == Ok(df)
    ensures r.Ok? ==> Names(r.value) == Names(df)
    ensures r.Ok? && "Col12" in Names(df) ==> Lookup(r.value, "Col12") == Coded(SexCode(Lookup(df, "Col12")))
    ensures r.Ok? ==> forall i :: 0 <= i < |df| && df[i].name != "Col12" ==> r.value[i] == df[i]
  {
    if "Col12" !in Names(df) then Ok(df)
    else match SexCode(Lookup(df, "Col12"))
      case None => Err(NonFiniteToInt)
      case Some(v) => Ok(SetCell(df, "Col12", Num(v)))
  }

  /** astype(float) of one cell: a number, NaN, or it raises on text that is
      not a number. */
  function AsFloat(c: Cell, p: Params): (r: Result<Option<real>, Error>)
    ensures c.Num? ==> r == Ok(Some(c.value))
    ensures c == Missing ==> r == Ok(None)
    ensures c.Str? ==> (r.Err? <==> p.parseNumber(c.text).None?)
    ensures c.Str? && p.parseNumber(c.text).Some? ==> r == Ok(p.parseNumber(c.text))
    ensures r.Err? ==> c.Str? && r.error == NotAFloat(c.text)
  {
    match c
    case Num(x) => Ok(Some(x))
    case Missing => Ok(None)
    case Str(s) =>
      match p.parseNumber(s)
      case Some(x) => Ok(Some(x))
      case None => Err(NotAFloat(s))
  }

  /** Line 23: Col11, when present, is read as a number and scaled. */
  function ScaleAge(df: Frame, p: Params): (r: Result<Frame, Error>)
    ensures r.Ok? <==> "Col11" !in Names(df) || AsFloat(Lookup(df, "Col11"), p).Ok?
    ensures r.Err? ==> AsFloat(Lookup(df, "Col11"), p) == Err(r.error)
    ensures r.Ok? ==> Names(r.value) == Names(df)
    ensures r.Ok? && "Col11" in Names(df) ==>
      Lookup(r.value, "Col11") ==
        if AsFloat(Lookup(df, "Col11"), p).value.Some? then Num(p.scale(AsFloat(Lookup(df, "Col11"), p).value.value))
        else Missing
    ensures r.Ok? ==> forall i :: 0 <= i < |df| && df[i].name != "Col11" ==> r.value[i] == df[i]
  {
    if "Col11" !in Names(df) then Ok(df)
    else match AsFloat(Lookup(df, "Col11"), p)
      case Err(e) => Err(e)
      case Ok(None) => Ok(df)
      case Ok(Some(x)) => Ok(SetCell(df, "Col11", Num(p.scale(x))))
  }

  /** What a cell adds to the row sum after to_numeric with coercion: its
      number, the number its text reads as, or nothing for NaN and for text
      that is not a number. */
  function Numeric(c: Cell, p: Params): (r: real)
    ensures AsFloat(c, p).Ok? && AsFloat(c, p).value.Some? ==> r == AsFloat(c, p).value.value
    ensures !(AsFloat(c, p).Ok? && AsFloat(c, p).value.Some?) ==> r == 0.0
  {
    match c
    case Num(x) => x
    case Missing => 0.0
    case Str(s) =>
      match p.parseNumber(s)
      case Some(x) => x
      case None => 0.0
  }

  /** Each of the first n cells adds a non-negative amount. */
  predicate NonNegativeSummands(df: Frame, n: nat, p: Params)
    requires n <= |df|
  {
    forall i :: 0 <= i < n ==> Numeric(df[i].cell, p) >= 0.0
  }

  /** Each of the first n cells adds at most 1. */
  predicate SummandsAtMostOne(df: Frame, n: nat, p: Params)
    requires n <= |df|
  {
    forall i :: 0 <= i < n ==> Numeric(df[i].cell, p) <= 1.0
  }

  /** A row of cells added up front to back, each adding its Numeric
      value. */
  function RowSum(cells: seq<Cell>, p: Params): real {
    if cells == [] then 0.0 else Numeric(cells[0], p) + RowSum(cells[1..], p)
  }

  /** Adding one more cell at the back adds its value. */
  lemma {:induction false} RowSumSnoc(cells: seq<Cell>, c: Cell, p: Params)
    ensures RowSum(cells + [c], p) == RowSum(cells, p) + Numeric(c, p)
  {
    if cells != [] {
      assert (cells + [c])[1..] == cells[1..] + [c];
      RowSumSnoc(cells[1..], c, p);
    }
  }

  /** The sum of the first n cells by position, built back to front: the
      row sum of those cells. */
  function PrefixSum(df: Frame, n: nat, p: Params): (r: real)
    requires n <= |df|
    ensures r == RowSum(Cells(df)[..n], p)
  {
    if n == 0 then 0.0
    else
      assert Cells(df)[..n] == Cells(df)[..n - 1] + [df[n - 1].cell];
      RowSumSnoc(Cells(df)[..n - 1], df[n - 1].cell, p);
      PrefixSum(df, n - 1, p) + Numeric(df[n - 1].cell, p)
  }

  /** With every summand non-negative the sum is too, and with every
      summand at most 1 it is at most n. */
  lemma {:induction false} PrefixSumBounds(df: Frame, n: nat, p: Params)
    requires n <= |df|
    ensures NonNegativeSummands(df, n, p) ==> PrefixSum(df, n, p) >= 0.0
    ensures SummandsAtMostOne(df, n, p) ==> PrefixSum(df, n, p) <= n as real
  {
    if n > 0 {
      PrefixSumBounds(df, n - 1, p);
    }
  }

  /** Lines 24-25: the engineered Col18, the sum of the first ten columns,
      is appended when the frame has at least ten columns and no Col18. */
  function AddTotal(df: Frame, p: Params): (r: Frame)
    ensures Distinct(Names(df)) ==> Distinct(Names(r))
    ensures |df| >= 10 && "Col18" !in Names(df) ==>
      |r| == |df| + 1 && r[..|df|] == df && Names(r) == Names(df) + ["Col18"]
    ensures !(|df| >= 10 && "Col18" !in Names(df)) ==> r == df
  {
    if |df| >= 10 && "Col18" !in Names(df) then
      var r := df + [Column("Col18", Num(PrefixSum(df, 10, p)))];
      assert Names(r) == Names(df) + ["Col18"];
      r
    else df
  }

  /** fillna('missing') on one cell. */
  function FillNa(c: Cell): (r: Cell)
    ensures r != Missing
    ensures c == Missing ==> r == Str("missing")
    ensures c != Missing ==> r == c
  {
    if c == Missing then Str("missing") else c
  }

  /** Lines 27-29: NaN in a categorical column becomes the category "missing". */
  function FillCategories(df: Frame): (r: Frame)
    ensures Names(r) == Names(df)
    ensures forall i :: 0 <= i < |df| && df[i].name in CategoricalCols ==>
      r[i].cell != Missing && (df[i].cell != Missing ==> r[i] == df[i])
    ensures forall i :: 0 <= i < |df| && df[i].name in CategoricalCols && df[i].cell == Missing ==>
      r[i] == Column(df[i].name, Str("missing"))
    ensures forall i :: 0 <= i < |df| && df[i].name !in CategoricalCols ==> r[i] == df[i]
  {
    var r := seq(|df|, i requires 0 <= i < |df| =>
      if df[i].name in CategoricalCols then Column(df[i].name, FillNa(df[i].cell)) else df[i]);
    assert Names(r) == Names(df);
    r
  }

  /** Line 30: the categorical columns present, in the order of cats. */
  function Present(df: Frame, cats: seq<string>): (r: seq<string>)
    ensures forall c :: c in r <==> c in cats && c in Names(df)
    ensures Distinct(cats) ==> Distinct(r)
    ensures SubseqOf(r, cats)
  {
    if cats == [] then []
    else
      var rest := Present(df, cats[1..]);
      if cats[0] in Names(df) then
        assert ([cats[0]] + rest)[1..] == rest;
        [cats[0]] + rest
      else
        assert rest != [] ==> rest[0] != cats[0];
        rest
  }

  /** df[names]: the columns with the given labels, in that order. */
  function Select(df: Frame, names: seq<string>): (r: seq<Column>)
    requires forall c :: c in names ==> c in Names(df)
    ensures |r| == |names| && forall i :: 0 <= i < |r| ==> r[i].name == names[i]
    ensures forall i :: 0 <= i < |r| ==> r[i].cell == Lookup(df, names[i])
  {
    seq(|names|, i requires 0 <= i < |names| => Column(names[i], Lookup(df, names[i])))
  }

  /** df.drop(columns=names): the other columns, in their order. */
  function Drop(df: Frame, names: seq<string>): (r: Frame)
    ensures forall c :: c in r <==> c in df && c.name !in names
    ensures |r| <= |df|
    ensures SubseqOf(r, df)
  {
    if df == [] then []
    else
      var rest := Drop(df[1..], names);
      if df[0].name in names then
        assert rest != [] ==> rest[0] in rest && rest[0] != df[0];
        rest
      else
        assert ([df[0]] + rest)[1..] == rest;
        [df[0]] + rest
  }

  /** Lines 30-35: the categorical columns present are replaced by the
      encoder's columns, appended at the end. */
  function EncodeCategories(df: Frame, p: Params): (r: Result<Frame, Error>)
    ensures r.Err? ==> r.error == EncoderFailed
    ensures Present(df, CategoricalCols) == [] ==> r == Ok(df)
    ensures var present := Present(df, CategoricalCols);
      present != [] ==>
        (r.Ok? <==> p.encode(Select(df, present)).Some?)
        && (r.Ok? ==> r.value == Drop(df, present) + p.encode(Select(df, present)).value)
    ensures r.Ok? ==> forall c :: c in df && c.name !in CategoricalCols ==> c in r.value
  {
    var present := Present(df, CategoricalCols);
    if present == [] then Ok(df)
    else match p.encode(Select(df, present))
      case None => Err(EncoderFailed)
      case Some(encoded) => Ok(Drop(df, present) + encoded)
  }

  /** Line 36: reindex to the feature list with fill value 0. Each feature
      takes the cell of the column with its label, or 0 when there is none;
      columns not in the list are dropped. Labels must be unique. */
  function Reindex(df: Frame, cols: seq<string>): (r: Result<seq<Cell>, Error>)
    ensures r.Ok? <==> Distinct(Names(df))
    ensures r.Err? ==> r.error == DuplicateLabels
    ensures r.Ok? ==> |r.value| == |cols|
    ensures r.Ok? ==> forall i :: 0 <= i < |cols| && cols[i] !in Names(df) ==> r.value[i] == Num(0.0)
    ensures r.Ok? ==> forall i, j :: 0 <= i < |cols| && 0 <= j < |df| && cols[i] == df[j].name ==> r.value[i] == df[j].cell
  {
    if !Distinct(Names(df)) then Err(DuplicateLabels)
    else
      var v := seq(|cols|, i requires 0 <= i < |cols| =>
        if cols[i] in Names(df) then Lookup(df, cols[i]) else Num(0.0));
      assert forall j :: 0 <= j < |df| ==> df[j].name in Names(df) && IndexOf(df, df[j].name) == j by {
        forall j | 0 <= j < |df| ensures df[j].name in Names(df) && IndexOf(df, df[j].name) == j {
          IndexOfUnique(df, j);
        }
      }
      Ok(v)
  }

  /** Lines 14-23: the frame once answers are coded and Col11 is scaled.
      A frame with a repeated label fails: pandas raises on it at the
      encoder or the reindex. */
  function Prepared(row: Frame, p: Params): (r: Result<Frame, Error>)
    ensures r.Ok? ==> Distinct(Names(row)) && Names(r.value) == Names(row)
  {
    if !Distinct(Names(row)) then Err(DuplicateLabels)
    else
      var answered :- EncodeYesNo(row);
      var sexed :- EncodeSex(ReplacePlaceholder(answered));
      ScaleAge(sexed, p)
  }

  /** Lines 24-35: Col18, the filled categories and their encoding. */
  function Finished(df: Frame, p: Params): (r: Result<Frame, Error>)
    ensures r.Err? ==> r.error == EncoderFailed
    ensures r.Ok? ==> forall c :: c in df && c.name !in CategoricalCols ==> c in r.value
  {
    var total := AddTotal(df, p);
    var filled := FillCategories(total);
    assert forall j :: 0 <= j < |df| ==> total[j] == df[j];
    assert forall j :: 0 <= j < |df| && df[j].name !in CategoricalCols ==> filled[j] == df[j];
    EncodeCategories(filled, p)
  }

  /** The computed frame before alignment (lines 14-35). */
  function Wide(row: Frame, p: Params): (r: Result<Frame, Error>)
    ensures !Distinct(Names(row)) ==> r == Err(DuplicateLabels)
    ensures r.Ok? ==> Distinct(Names(row))
    ensures Prepared(row, p).Ok? && r.Err? ==> r.error == EncoderFailed
  {
    var prepared :- Prepared(row, p);
    Finished(prepared, p)
  }

  /** transform_new as a whole. */
  function Transformed(row: Frame, p: Params, cols: seq<string>): (r: Result<seq<Cell>, Error>)
    ensures !Distinct(Names(row)) ==> r == Err(DuplicateLabels)
    ensures Distinct(Names(row)) && !YesNoAnswered(row) ==> r == Err(NonFiniteToInt)
    ensures r.Ok? ==> Distinct(Names(row)) && |r.value| == |cols|
  {
    var wide :- Wide(row, p);
    Reindex(wide, cols)
  }

  // ---------------------------------------------------------------------
  // transform_new as the source runs it: a copy of the frame updated step
  // by step, with the two loops over fixed column lists.
  // ---------------------------------------------------------------------

  /** Lines 16-18. */
  method ApplyYesNo(df0: Frame) returns (r: Result<Frame, Error>)
    requires Distinct(Names(df0))
    ensures r == EncodeYesNo(df0)
  {
    var df := df0;
    for k := 0 to |YesNoCols|
      invariant Names(df) == Names(df0)
      invariant forall i :: 0 <= i < |df| ==>
        df[i] == if df0[i].name in YesNoCols[..k] then Column(df0[i].name, Coded(YesNoCode(df0[i].cell))) else df0[i]
      invariant forall i :: 0 <= i < |df| && df0[i].name in YesNoCols[..k] ==> YesNoCode(df0[i].cell).Some?
    {
      var col := YesNoCols[k];
      assert YesNoCols[..k + 1] == YesNoCols[..k] + [col];
      if col in Names(df) {
        var i := IndexOf(df, col);
        assert Names(df)[i] == col && Names(df0)[i] == df0[i].name;
        assert col !in YesNoCols[..k];
        SameLabelSameIndex(df0, i);
        assert df[i] == df0[i];
        var mapped := YesNoCode(df[i].cell);
        if mapped.None? {
          assert df0[i].name in YesNoCols && YesNoCode(df0[i].cell).None?;
          return Err(NonFiniteToInt);
        }
        df := SetCell(df, col, Num(mapped.value));
      } else {
        LabelAbsent(df0, col);
      }
    }
    assert YesNoCols[..|YesNoCols|] == YesNoCols;
    assert YesNoAnswered(df0);
    assert df == EncodeYesNo(df0).value;
    return Ok(df);
  }

  /** Lines 27-29. */
  method FillMissingCategories(df0: Frame) returns (df: Frame)
    requires Distinct(Names(df0))
    ensures df == FillCategories(df0)
  {
    df := df0;
    for k := 0 to |CategoricalCols|
      invariant Names(df) == Names(df0)
      invariant forall i :: 0 <= i < |df| ==>
        df[i] == if df0[i].name in CategoricalCols[..k] then Column(df0[i].name, FillNa(df0[i].cell)) else df0[i]
    {
      var c := CategoricalCols[k];
      assert CategoricalCols[..k + 1] == CategoricalCols[..k] + [c];
      if c in Names(df) {
        var i := IndexOf(df, c);
        assert Names(df)[i] == c && Names(df0)[i] == df0[i].name;
        assert c !in CategoricalCols[..k];
        SameLabelSameIndex(df0, i);
        df := SetCell(df, c, FillNa(Lookup(df, c)));
      } else {
        LabelAbsent(df0, c);
      }
    }
    assert CategoricalCols[..|CategoricalCols|] == CategoricalCols;
  }

  /** transform_new (lines 13-37). */
  method TransformNew(row: Frame, p: Params, featureCols: seq<string>) returns (r: Result<seq<Cell>, Error>)
    ensures r == Transformed(row, p, featureCols)
  {
    if !Distinct(Names(row)) {
      return Err(DuplicateLabels);
    }
    var answered := ApplyYesNo(row);
    if answered.Err? {
      return Err(answered.error);
    }
    var df := ReplacePlaceholder(answered.value);
    if "Col12" in Names(df) {
      var code := SexCode(Lookup(df, "Col12"));
      if code.None? {
        return Err(NonFiniteToInt);
      }
      df := SetCell(df, "Col12", Num(code.value));
    }
    if "Col11" in Names(df) {
      var x := AsFloat(Lookup(df, "Col11"), p);
      if x.Err? {
        return Err(x.error);
      }
      if x.value.Some? {
        df := SetCell(df, "Col11", Num(p.scale(x.value.value)));
      }
    }
    df := AddTotal(df, p);
    df := FillMissingCategories(df);
    var present := Present(df, CategoricalCols);
    if present != [] {
      var encoded := p.encode(Select(df, present));
      if encoded.None? {
        return Err(EncoderFailed);
      }
      df := Drop(df, present) + encoded.value;
    }
    r := Reindex(df, featureCols);
  }

  // ---------------------------------------------------------------------
  // What the transformation promises.
  // ---------------------------------------------------------------------

  /** Schema conformance: a result has exactly the features of the list, in
      its order; a feature the computed frame lacks is 0, and every other
      feature is the cell of the computed column with its label. */
  lemma TransformedConforms(row: Frame, p: Params, cols: seq<string>)
    requires Transformed(row, p, cols).Ok?
    ensures Wide(row, p).Ok?
    ensures |Transformed(row, p, cols).value| == |cols|
    ensures forall i :: 0 <= i < |cols| && cols[i] !in Names(Wide(row, p).value) ==>
      Transformed(row, p, cols).value[i] == Num(0.0)
    ensures forall i :: 0 <= i < |cols| && cols[i] in Names(Wide(row, p).value) ==>
      Transformed(row, p, cols).value[i] == Lookup(Wide(row, p).value, cols[i])
  {
    var w := Wide(row, p).value;
    forall i | 0 <= i < |cols| && cols[i] in Names(w)
      ensures Transformed(row, p, cols).value[i] == Lookup(w, cols[i])
    {
      var j := IndexOf(w, cols[i]);
    }
  }

  /** Reindexing a frame onto its own labels gives back its row. */
  lemma ReindexIdentity(df: Frame)
    requires Distinct(Names(df))
    ensures Reindex(df, Names(df)) == Ok(Cells(df))
  {
    var v := Reindex(df, Names(df)).value;
    forall i | 0 <= i < |df|
      ensures v[i] == Cells(df)[i]
    {
      assert Names(df)[i] == df[i].name;
    }
    assert v == Cells(df);
  }

  /** The aligned row depends only on which labelled cells the computed
      frame holds, not on their order. */
  lemma ReindexIgnoresOrder(a: Frame, b: Frame, cols: seq<string>)
    requires Distinct(Names(a)) && Distinct(Names(b))
    requires forall c :: c in a <==> c in b
    ensures Reindex(a, cols) == Reindex(b, cols)
  {
    var va, vb := Reindex(a, cols).value, Reindex(b, cols).value;
    forall i | 0 <= i < |cols|
      ensures va[i] == vb[i]
    {
      if cols[i] in Names(b) {
        var k := IndexOf(b, cols[i]);
        assert b[k] in a;
        var j :| 0 <= j < |a| && a[j] == b[k];
        assert Names(a)[j] == cols[i];
      }
      if cols[i] in Names(a) {
        var j := IndexOf(a, cols[i]);
        assert a[j] in b;
        var k :| 0 <= k < |b| && b[k] == a[j];
        assert Names(b)[k] == cols[i];
      }
    }
    assert va == vb;
  }

  /** A yes/no question answered with anything but "Sim" or "Não" (another
      text, a number, an empty cell) makes the transformation fail. */
  lemma UnansweredYesNoFails(row: Frame, p: Params, cols: seq<string>, i: nat)
    requires Distinct(Names(row)) && i < |row| && row[i].name in YesNoCols
    requires row[i].cell != Str("Sim") && row[i].cell != Str("Não")
    ensures Transformed(row, p, cols) == Err(NonFiniteToInt)
  {
  }

  /** Col12 holding anything but "Masculino" or "Feminino" makes the
      transformation fail, once the yes/no questions are answered. */
  lemma UnknownSexFails(row: Frame, p: Params, cols: seq<string>)
    requires Distinct(Names(row)) && YesNoAnswered(row) && "Col12" in Names(row)
    requires Lookup(row, "Col12") != Str("Masculino") && Lookup(row, "Col12") != Str("Feminino")
    ensures Transformed(row, p, cols) == Err(NonFiniteToInt)
  {
    var answered := EncodeYesNo(row).value;
    var replaced := ReplacePlaceholder(answered);
    IndexOfByNames(row, answered, "Col12");
    IndexOfByNames(row, replaced, "Col12");
    var k := IndexOf(row, "Col12");
    assert "Col12" !in YesNoCols;
    assert answered[k] == row[k];
  }

  /** The number of "Sim" answers among the first n columns. */
  function CountYes(row: Frame, n: nat): nat
    requires n <= |row|
  {
    if n == 0 then 0 else CountYes(row, n - 1) + (if row[n - 1].cell == Str("Sim") then 1 else 0)
  }

  /** Summing 0/1 codes counts the "Sim" answers they came from. */
  lemma {:induction false} PrefixSumCountsYes(df: Frame, row: Frame, n: nat, p: Params)
    requires n <= |df| && n <= |row|
    requires forall i :: 0 <= i < n ==> df[i].cell == Num(if row[i].cell == Str("Sim") then 1.0 else 0.0)
    ensures PrefixSum(df, n, p) == CountYes(row, n) as real
  {
    if n > 0 {
      PrefixSumCountsYes(df, row, n - 1, p);
    }
  }

  /** A yes/no question keeps its position through lines 14-23 and ends up
      holding its code. */
  lemma PreparedYesNo(row: Frame, p: Params, i: nat)
    requires Prepared(row, p).Ok? && i < |row| && row[i].name in YesNoCols
    ensures Prepared(row, p).value[i].cell == Coded(YesNoCode(row[i].cell))
  {
    var answered := EncodeYesNo(row).value;
    assert answered[i] == Column(row[i].name, Coded(YesNoCode(row[i].cell)));
    assert YesNoCode(row[i].cell).Some?;
    var replaced := ReplacePlaceholder(answered);
    assert replaced[i] == answered[i];
    var sexed := EncodeSex(replaced).value;
    assert Names(replaced)[i] == row[i].name != "Col12";
    assert sexed[i] == replaced[i];
    assert row[i].name != "Col11";
  }

  /** When the first ten columns are the questions Col01 to Col10, coding
      leaves there 1 for each "Sim" and 0 for each "Não". */
  lemma FirstTenCoded(row: Frame, p: Params)
    requires |row| >= 10 && forall i :: 0 <= i < 10 ==> row[i].name == YesNoCols[i]
    requires Prepared(row, p).Ok?
    ensures forall i :: 0 <= i < 10 ==>
      Prepared(row, p).value[i].cell == Num(if row[i].cell == Str("Sim") then 1.0 else 0.0)
  {
    forall i | 0 <= i < 10
      ensures Prepared(row, p).value[i].cell == Num(if row[i].cell == Str("Sim") then 1.0 else 0.0)
    {
      assert row[i].name in YesNoCols;
      PreparedYesNo(row, p, i);
      assert EncodeYesNo(row).Ok?;
      assert YesNoCode(row[i].cell).Some?;
    }
  }

  /** A frame with ten or more columns and no Col18 comes out with Col18
      holding the sum of its first ten columns. */
  lemma FinishedAddsTotal(df: Frame, p: Params)
    requires Distinct(Names(df)) && |df| >= 10 && "Col18" !in Names(df)
    requires Finished(df, p).Ok?
    ensures "Col18" in Names(Finished(df, p).value)
    ensures Lookup(Finished(df, p).value, "Col18") == Num(PrefixSum(df, 10, p))
  {
    var col := Column("Col18", Num(PrefixSum(df, 10, p)));
    var filled := FilledTotal(df, p);
    var r := EncodeCategories(filled, p).value;
    assert "Col18" in Names(r) && Lookup(r, "Col18") == col.cell by {
      EncodingKeeps(filled, p, col);
    }
  }

  /** After lines 24-29, Col18 is the one column with its label and holds
      the sum of the first ten columns. */
  lemma FilledTotal(df: Frame, p: Params) returns (filled: Frame)
    requires Distinct(Names(df)) && |df| >= 10 && "Col18" !in Names(df)
    ensures filled == FillCategories(AddTotal(df, p))
    ensures Finished(df, p) == EncodeCategories(filled, p)
    ensures var col := Column("Col18", Num(PrefixSum(df, 10, p)));
      col in filled && forall c :: c in filled && c.name == "Col18" ==> c == col
  {
    var total := AddTotal(df, p);
    var col := Column("Col18", Num(PrefixSum(df, 10, p)));
    assert total == df + [col];
    filled := FillCategories(total);
    assert filled[|df|] == col;
    forall c | c in filled && c.name == "Col18"
      ensures c == col
    {
      var j :| 0 <= j < |filled| && filled[j] == c;
      assert Names(filled)[j] == Names(filled)[|df|];
    }
  }

  /** A non-categorical column that is the only one with its label comes
      through the one-hot step as what its label finds. */
  lemma EncodingKeeps(f: Frame, p: Params, col: Column)
    requires col in f && col.name !in CategoricalCols
    requires forall c :: c in f && c.name == col.name ==> c == col
    requires EncodeCategories(f, p).Ok?
    ensures col.name in Names(EncodeCategories(f, p).value)
    ensures Lookup(EncodeCategories(f, p).value, col.name) == col.cell
  {
    var present := Present(f, CategoricalCols);
    if present == [] {
      LookupFront(f, [], col);
      assert f + [] == f;
    } else {
      var encoded := p.encode(Select(f, present)).value;
      LookupFront(Drop(f, present), encoded, col);
    }
  }

  /** When the first ten columns are the questions Col01 to Col10 and the
      form has no Col18, the engineered Col18 is the number of "Sim" answers
      among those ten questions. */
  lemma TotalCountsYesAnswers(row: Frame, p: Params)
    requires |row| >= 10 && forall i :: 0 <= i < 10 ==> row[i].name == YesNoCols[i]
    requires "Col18" !in Names(row)
    requires Wide(row, p).Ok?
    ensures "Col18" in Names(Wide(row, p).value)
    ensures Lookup(Wide(row, p).value, "Col18") == Num(CountYes(row, 10) as real)
  {
    var prepared := Prepared(row, p).value;
    FirstTenCoded(row, p);
    PrefixSumCountsYes(prepared, row, 10, p);
    FinishedAddsTotal(prepared, p);
  }
}
