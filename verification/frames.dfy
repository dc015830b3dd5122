/**
 * The one-row data frame the transformer works on: an ordered sequence of
 * labelled cells. A cell holds text, a number, or nothing (NaN).
 */
module Frames {
  import opened Seqs

  datatype Cell = Str(text: string) | Num(value: real) | Missing

  datatype Column = Column(name: string, cell: Cell)

  type Frame = seq<Column>

  /** The column labels, in order. */
  function Names(df: Frame): seq<string> {
    seq(|df|, i requires 0 <= i < |df| => df[i].name)
  }

  /** The cells, in order: the frame's single row of values. */
  function Cells(df: Frame): seq<Cell> {
    seq(|df|, i requires 0 <= i < |df| => df[i].cell)
  }

  /** The position of the first column labelled name. */
  function IndexOf(df: Frame, name: string): (k: nat)
    requires name in Names(df)
    ensures k < |df| && df[k].name == name
    ensures forall j :: 0 <= j < k ==> df[j].name != name
    decreases |df|
  {
    if df[0].name == name then 0
    else
      assert Names(df[1..]) == Names(df)[1..];
      1 + IndexOf(df[1..], name)
  }

  /** With distinct labels, a label finds back the one column it names. */
  lemma IndexOfUnique(df: Frame, i: nat)
    requires Distinct(Names(df)) && i < |df|
    ensures df[i].name in Names(df) && IndexOf(df, df[i].name) == i
  {
    assert Names(df)[i] == df[i].name;
    var k := IndexOf(df, df[i].name);
    assert Names(df)[k] == df[k].name;
  }

  /** With distinct labels, no other column carries the label of column i. */
  lemma SameLabelSameIndex(df: Frame, i: nat)
    requires i < |df|
    ensures Distinct(Names(df)) ==> forall j :: 0 <= j < |df| && df[j].name == df[i].name ==> j == i
  {
    forall j | 0 <= j < |df| && df[j].name == df[i].name && Distinct(Names(df))
      ensures j == i
    {
      assert Names(df)[j] == Names(df)[i];
    }
  }

  /** A label outside Names(df) labels no column. */
  lemma LabelAbsent(df: Frame, name: string)
    requires name !in Names(df)
    ensures forall j :: 0 <= j < |df| ==> df[j].name != name
  {
    forall j | 0 <= j < |df|
      ensures df[j].name != name
    {
      assert Names(df)[j] == df[j].name;
    }
  }

  /** Frames with the same labels find a label at the same position. */
  lemma {:induction false} IndexOfByNames(a: Frame, b: Frame, name: string)
    requires Names(a) == Names(b) && name in Names(a)
    ensures name in Names(b) && IndexOf(a, name) == IndexOf(b, name)
    decreases |a|
  {
    assert |a| == |Names(a)| == |b|;
    assert a[0].name == Names(a)[0] == b[0].name;
    if a[0].name != name {
      assert Names(a[1..]) == Names(a)[1..] == Names(b)[1..] == Names(b[1..]);
      IndexOfByNames(a[1..], b[1..], name);
    }
  }

  /** A column that is the only one with its label in the front part of a
      frame is what its label finds, whatever follows. */
  lemma LookupFront(a: Frame, b: Frame, col: Column)
    requires col in a
    requires forall c :: c in a && c.name == col.name ==> c == col
    ensures col.name in Names(a + b) && Lookup(a + b, col.name) == col.cell
  {
    var j :| 0 <= j < |a| && a[j] == col;
    assert Names(a + b)[j] == col.name;
    var k := IndexOf(a + b, col.name);
    assert k <= j;
    assert (a + b)[k] == a[k];
  }

  /** The cell of the column labelled name (df[name]). */
  function Lookup(df: Frame, name: string): (r: Cell)
    requires name in Names(df)
    ensures Column(name, r) in df
    ensures Distinct(Names(df)) ==> forall j :: 0 <= j < |df| && df[j].name == name ==> df[j].cell == r
  {
    var k := IndexOf(df, name);
    SameLabelSameIndex(df, k);
    df[k].cell
  }

  /** The frame with the column labelled name holding c (df[name] = c). */
  function SetCell(df: Frame, name: string, c: Cell): (r: Frame)
    requires name in Names(df)
    ensures |r| == |df| && Names(r) == Names(df)
    ensures Lookup(r, name) == c
    ensures forall i :: 0 <= i < |df| && df[i].name != name ==> r[i] == df[i]
  {
    IndexOfByNames(df, df[IndexOf(df, name) := Column(name, c)], name);
    df[IndexOf(df, name) := Column(name, c)]
  }
}
