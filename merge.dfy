/**
 * The merge step of `extract_tables`: column labels have their spaces
 * replaced by underscores, the frames are concatenated in processing
 * order, and the rows are stably sorted by their `page` value.
 */
module Merge {
  import opened Strings
  import opened Tables

  /** `str.replace(" ", "_")` on one label; positional labels are kept. */
  function NormalizeColumn(c: ColumnName): (r: ColumnName)
    ensures r.Named? <==> c.Named?
    ensures c.Position? ==> r == c
    ensures r.Named? ==> |r.name| == |c.name| && ' ' !in r.name
    ensures r.Named? ==> forall k :: 0 <= k < |c.name| && c.name[k] == ' ' ==> r.name[k] == '_'
    ensures r.Named? ==> forall k :: 0 <= k < |c.name| && c.name[k] != ' ' ==> r.name[k] == c.name[k]
  {
    match c
    case Named(name) => Named(Replace(name, ' ', '_'))
    case Position(_) => c
  }

  /** Normalising an already normalised label changes nothing. */
  lemma {:induction false} NormalizeColumnIdempotent(c: ColumnName)
    ensures NormalizeColumn(NormalizeColumn(c)) == NormalizeColumn(c)
  {
    if c.Named? {
      var once := NormalizeColumn(c).name;
      assert Replace(once, ' ', '_') == once;
    }
  }

  function NormalizeColumns(columns: seq<ColumnName>): (r: seq<ColumnName>)
    ensures |r| == |columns| && forall k :: 0 <= k < |r| ==> r[k] == NormalizeColumn(columns[k])
  {
    if columns == [] then [] else [NormalizeColumn(columns[0])] + NormalizeColumns(columns[1..])
  }

  /** `df.columns = df.columns.str.replace(" ", "_")`: the labels change, the rows do not. */
  function NormalizeFrame(f: Frame): (r: Frame)
    ensures r.rows == f.rows && |r.columns| == |f.columns|
    ensures forall k :: 0 <= k < |r.columns| ==> r.columns[k] == NormalizeColumn(f.columns[k])
  {
    Frame(NormalizeColumns(f.columns), f.rows)
  }

  /** A row of the merged table, with the labels of the frame it came from. */
  datatype MergedRow = MergedRow(columns: seq<ColumnName>, row: Row)

  function FrameRows(f: Frame): (r: seq<MergedRow>)
    ensures |r| == |f.rows| && forall k :: 0 <= k < |r| ==> r[k] == MergedRow(f.columns, f.rows[k])
  {
    seq(|f.rows|, k requires 0 <= k < |f.rows| => MergedRow(f.columns, f.rows[k]))
  }

  function TotalRows(frames: seq<Frame>): nat {
    if frames == [] then 0 else |frames[0].rows| + TotalRows(frames[1..])
  }

  /** `pd.concat(frames, ignore_index=True)`: every frame's rows, frame after frame. */
  function Concat(frames: seq<Frame>): (r: seq<MergedRow>)
    ensures |r| == TotalRows(frames)
  {
    if frames == [] then [] else FrameRows(frames[0]) + Concat(frames[1..])
  }

  /** Concatenating one frame gives its rows. */
  lemma {:induction false} ConcatSingle(f: Frame)
    ensures Concat([f]) == FrameRows(f)
  {
    assert [f][1..] == [];
  }

  /** Concatenation keeps the frames' order: the rows of `a` come first, then those of `b`. */
  lemma {:induction false} ConcatAppend(a: seq<Frame>, b: seq<Frame>)
    ensures Concat(a + b) == Concat(a) + Concat(b)
  {
    if a != [] {
      assert (a + b)[0] == a[0];
      assert (a + b)[1..] == a[1..] + b;
      ConcatAppend(a[1..], b);
    } else {
      assert a + b == b;
    }
  }

  function Page(m: MergedRow): int {
    m.row.page
  }

  ghost predicate SortedByPage(rows: seq<MergedRow>) {
    forall i, j :: 0 <= i < j < |rows| ==> Page(rows[i]) <= Page(rows[j])
  }

  /** The rows on page `p`, in their order. */
  function OnPage(rows: seq<MergedRow>, p: int): seq<MergedRow> {
    if rows == [] then []
    else if Page(rows[0]) == p then [rows[0]] + OnPage(rows[1..], p)
    else OnPage(rows[1..], p)
  }

  /** Puts `x` in front of the first row whose page is not smaller. */
  function Insert(x: MergedRow, rows: seq<MergedRow>): (r: seq<MergedRow>)
    ensures multiset(r) == multiset(rows) + multiset{x}
    ensures |r| == |rows| + 1
    ensures r[0] == x || (rows != [] && r[0] == rows[0])
  {
    if rows == [] || Page(x) <= Page(rows[0]) then [x] + rows
    else
      assert rows == [rows[0]] + rows[1..];
      [rows[0]] + Insert(x, rows[1..])
  }

  lemma {:induction false} InsertSorted(x: MergedRow, rows: seq<MergedRow>)
    requires SortedByPage(rows)
    ensures SortedByPage(Insert(x, rows))
  {
    if rows != [] && Page(x) > Page(rows[0]) {
      var rest := Insert(x, rows[1..]);
      InsertSorted(x, rows[1..]);
      assert Page(rows[0]) <= Page(rest[0]);
      var r := [rows[0]] + rest;
      forall i, j | 0 <= i < j < |r| ensures Page(r[i]) <= Page(r[j]) {
        if i == 0 {
          assert Page(rest[0]) <= Page(rest[j - 1]);
        }
      }
    }
  }

  /** `sort_values("page", kind="stable")`: sorted by page, a permutation of its input. */
  function SortByPage(rows: seq<MergedRow>): (r: seq<MergedRow>)
    ensures SortedByPage(r)
    ensures multiset(r) == multiset(rows)
    ensures |r| == |rows|
  {
    if rows == [] then []
    else
      assert rows == [rows[0]] + rows[1..];
      InsertSorted(rows[0], SortByPage(rows[1..]));
      Insert(rows[0], SortByPage(rows[1..]))
  }

  lemma {:induction false} OnPageInsert(x: MergedRow, rows: seq<MergedRow>, p: int)
    ensures OnPage(Insert(x, rows), p) == (if Page(x) == p then [x] else []) + OnPage(rows, p)
  {
    var r := Insert(x, rows);
    if rows == [] || Page(x) <= Page(rows[0]) {
      assert r[1..] == rows;
    } else {
      assert r[1..] == Insert(x, rows[1..]);
      OnPageInsert(x, rows[1..], p);
    }
  }

  /** Rows on the same page keep their relative order. */
  lemma {:induction false} SortByPageStable(rows: seq<MergedRow>, p: int)
    ensures OnPage(SortByPage(rows), p) == OnPage(rows, p)
  {
    if rows != [] {
      SortByPageStable(rows[1..], p);
      OnPageInsert(rows[0], SortByPage(rows[1..]), p);
    }
  }

  ghost predicate SameOnEveryPage(u: seq<MergedRow>, v: seq<MergedRow>) {
    forall p :: OnPage(u, p) == OnPage(v, p)
  }

  lemma {:induction false} OnPageHas(u: seq<MergedRow>, k: nat)
    requires k < |u|
    ensures OnPage(u, Page(u[k])) != []
  {
    if k > 0 && Page(u[0]) != Page(u[k]) {
      OnPageHas(u[1..], k - 1);
    }
  }

  lemma {:induction false} OnPageFrom(u: seq<MergedRow>, p: int)
    requires OnPage(u, p) != []
    ensures exists k :: 0 <= k < |u| && Page(u[k]) == p
  {
    if Page(u[0]) != p {
      OnPageFrom(u[1..], p);
      var k :| 0 <= k < |u[1..]| && Page(u[1..][k]) == p;
      assert Page(u[k + 1]) == p;
    }
  }

  /** The first row of a sorted sequence has the lowest page that occurs in it. */
  lemma {:induction false} SortedFirstPage(u: seq<MergedRow>, p: int)
    requires SortedByPage(u) && OnPage(u, p) != []
    ensures Page(u[0]) <= p
  {
    OnPageFrom(u, p);
  }

  lemma {:induction false} SameOnEveryPageTail(u: seq<MergedRow>, v: seq<MergedRow>)
    requires u != [] && v != [] && u[0] == v[0] && SameOnEveryPage(u, v)
    ensures SameOnEveryPage(u[1..], v[1..])
  {
    forall p ensures OnPage(u[1..], p) == OnPage(v[1..], p) {
      assert OnPage(u, p) == OnPage(v, p);
      if Page(u[0]) == p {
        assert OnPage(u[1..], p) == OnPage(u, p)[1..];
        assert OnPage(v[1..], p) == OnPage(v, p)[1..];
      }
    }
  }

  /** Two sorted sequences with the same rows on every page, in the same order, are equal. */
  lemma {:induction false} SortedSameOnEveryPage(u: seq<MergedRow>, v: seq<MergedRow>)
    requires SortedByPage(u) && SortedByPage(v) && SameOnEveryPage(u, v)
    ensures u == v
    decreases |u|
  {
    if u == [] || v == [] {
      if u != [] {
        OnPageHas(u, 0);
      }
      if v != [] {
        OnPageHas(v, 0);
      }
    } else {
      var pu, pv := Page(u[0]), Page(v[0]);
      OnPageHas(v, 0);
      assert OnPage(u, pv) == OnPage(v, pv);
      SortedFirstPage(u, pv);
      OnPageHas(u, 0);
      assert OnPage(v, pu) == OnPage(u, pu);
      SortedFirstPage(v, pu);
      assert OnPage(u, pu)[0] == u[0] && OnPage(v, pu)[0] == v[0];
      SameOnEveryPageTail(u, v);
      SortedSameOnEveryPage(u[1..], v[1..]);
      assert u == [u[0]] + u[1..] && v == [v[0]] + v[1..];
    }
  }

  /**
   * `SortByPage` is the one stable sort by page: any ordering that is
   * sorted by page and keeps the order of the rows within each page is it.
   */
  lemma {:induction false} SortByPageIsTheStableSort(rows: seq<MergedRow>, sorted: seq<MergedRow>)
    requires SortedByPage(sorted) && SameOnEveryPage(sorted, rows)
    ensures sorted == SortByPage(rows)
  {
    forall p ensures OnPage(sorted, p) == OnPage(SortByPage(rows), p) {
      SortByPageStable(rows, p);
    }
    SortedSameOnEveryPage(sorted, SortByPage(rows));
  }

  /** The merged table has as many rows as all the frames together. */
  lemma {:induction false} MergedRowCount(frames: seq<Frame>)
    ensures |SortByPage(Concat(frames))| == TotalRows(frames)
  {
  }
}
