/**
 * The tables a reply describes and the data frames built from them in
 * `extract_tables`: a `page` column put in front, and the CSV file name
 * `{stem}_page{page_num + 1}_table{i}.csv`.
 */
module Tables {
  import opened Strings

  /** One JSON cell value, kept as its JSON text. */
  datatype Cell = Cell(json: string)

  /** A table as the reply gives it: `headers` and `rows`. */
  datatype Table = Table(headers: seq<string>, rows: seq<seq<Cell>>)

  /** A column label: a header text, or pandas' positional label when there are no headers. */
  datatype ColumnName = Named(name: string) | Position(index: nat)

  /** A frame row: the value of the leading `page` column, then the table's own cells. */
  datatype Row = Row(page: int, cells: seq<Cell>)

  datatype Frame = Frame(columns: seq<ColumnName>, rows: seq<Row>)

  const PageColumn := Named("page")

  /** The widest row: pandas' number of positional columns for a table without headers. */
  function Width(rows: seq<seq<Cell>>): (w: nat)
    ensures forall k :: 0 <= k < |rows| ==> |rows[k]| <= w
    ensures rows != [] ==> exists k :: 0 <= k < |rows| && |rows[k]| == w
  {
    if rows == [] then 0
    else
      var w := Width(rows[1..]);
      assert forall k :: 1 <= k < |rows| ==> rows[k] == rows[1..][k - 1];
      if |rows[0]| >= w then |rows[0]| else w
  }

  function Positions(n: nat): (r: seq<ColumnName>)
    ensures |r| == n && forall k :: 0 <= k < n ==> r[k] == Position(k)
  {
    if n == 0 then [] else Positions(n - 1) + [Position(n - 1)]
  }

  function Names(headers: seq<string>): (r: seq<ColumnName>)
    ensures |r| == |headers| && forall k :: 0 <= k < |r| ==> r[k] == Named(headers[k])
  {
    if headers == [] then [] else [Named(headers[0])] + Names(headers[1..])
  }

  /** The columns of `pd.DataFrame(rows, columns=headers)`, or of `pd.DataFrame(rows)` without headers. */
  function TableColumns(t: Table): seq<ColumnName> {
    if t.headers != [] then Names(t.headers) else Positions(Width(t.rows))
  }

  /**
   * The frame of table `t` found on 0-based page `pageNum`, after
   * `df.insert(0, "page", page_num + 1)`.
   */
  function PageFrame(pageNum: int, t: Table): (f: Frame)
    ensures |f.columns| >= 1 && f.columns[0] == PageColumn && f.columns[1..] == TableColumns(t)
    ensures |f.rows| == |t.rows|
    ensures forall k :: 0 <= k < |f.rows| ==> f.rows[k].page == pageNum + 1 && f.rows[k].cells == t.rows[k]
  {
    Frame([PageColumn] + TableColumns(t), seq(|t.rows|, k requires 0 <= k < |t.rows| => Row(pageNum + 1, t.rows[k])))
  }

  /** `f"{stem}_page{page_num + 1}_table{i}.csv"`. */
  function TableFileName(stem: string, pageNum: int, i: nat): (name: string)
    ensures |name| > |stem| + 4 && name[..|stem|] == stem && name[|name| - 4..] == ".csv"
  {
    stem + "_page" + IntToString(pageNum + 1) + "_table" + NatToString(i) + ".csv"
  }

  /** `f"{stem}_merged.csv"`. */
  function MergedFileName(stem: string): (name: string)
    ensures |name| > |stem| + 4 && name[..|stem|] == stem && name[|name| - 4..] == ".csv"
  {
    stem + "_merged.csv"
  }

  /** Two table files of one document share a name only for the same page and table index. */
  lemma {:induction false} TableFileNameInjective(stem: string, p: int, i: nat, q: int, j: nat)
    requires TableFileName(stem, p, i) == TableFileName(stem, q, j)
    ensures p == q && i == j
  {
    var a, b := IntToString(p + 1), IntToString(q + 1);
    var x, y := NatToString(i), NatToString(j);
    NameParts(stem, a, x);
    NameParts(stem, b, y);
    CancelPrefix(stem + "_page", a + ['_'] + ("table" + x + ".csv"), b + ['_'] + ("table" + y + ".csv"));
    NoUnderscore(a);
    NoUnderscore(b);
    SplitAtDelimiter(a, "table" + x + ".csv", b, "table" + y + ".csv", '_');
    IntToStringInjective(p + 1, q + 1);
    CancelPrefix("table", x + ['.'] + "csv", y + ['.'] + "csv");
    NoDot(x);
    NoDot(y);
    SplitAtDelimiter(x, "csv", y, "csv", '.');
    DigitsInjective(i, j);
  }

  lemma {:induction false} NameParts(stem: string, a: string, x: string)
    ensures stem + "_page" + a + "_table" + x + ".csv"
         == (stem + "_page") + (a + ['_'] + ("table" + (x + ['.'] + "csv")))
    ensures "table" + x + ".csv" == "table" + (x + ['.'] + "csv")
  {
  }

  lemma {:induction false} CancelPrefix(p: string, x: string, y: string)
    requires p + x == p + y
    ensures x == y
  {
    assert x == (p + x)[|p|..];
  }

  lemma {:induction false} NoDot(s: string)
    requires IsDigits(s)
    ensures '.' !in s
  {
  }

  lemma {:induction false} NoUnderscore(s: string)
    requires forall k :: 0 <= k < |s| ==> s[k] == '-' || IsDigit(s[k])
    ensures '_' !in s
  {
  }

  lemma {:induction false} DigitsInjective(i: nat, j: nat)
    requires NatToString(i) == NatToString(j)
    ensures i == j
  {
    assert DigitsValue(NatToString(i)) == i;
  }

  /** The merged file never has the name of a table file. */
  lemma {:induction false} MergedNameIsNotATableName(stem: string, p: int, i: nat)
    ensures MergedFileName(stem) != TableFileName(stem, p, i)
  {
    var m, t := MergedFileName(stem), TableFileName(stem, p, i);
    assert m[|stem| + 1] == 'm';
    assert t[|stem| + 1] == 'p';
  }
}
