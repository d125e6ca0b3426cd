/**
 * The body of `extract_tables`: for each entry of the page list, skip it
 * when it is past the last page, otherwise ask the engine for the page's
 * tables, write one CSV file per table that has rows and count it; at the
 * end, when asked to, write one merged file. The engine (rendering, the
 * API call and JSON decoding) is an input: the reply to the k-th entry of
 * the page list, and the decoder.
 */
module Extraction {
  import opened Wrappers
  import opened Tables
  import opened Mistral
  import opened Merge
  import opened PageRange

  /** The reply for the k-th entry of the page list, and `json.loads` with the "tables" lookup. */
  datatype Engine = Engine(replies: nat -> Reply, decode: string -> Option<seq<Table>>)

  /** What one `to_csv` call writes: a page's table, or the merged table. */
  datatype Csv = Single(frame: Frame) | Combined(rows: seq<MergedRow>)

  datatype Written = Written(name: string, content: Csv)

  /** The tables the engine gives for the k-th entry of the page list. */
  function TablesAt(engine: Engine, k: nat): seq<Table> {
    PageTables(engine.replies(k), engine.decode)
  }

  /** Table `i` of page `pageNum`: its file, or nothing when it has no rows. */
  function TableOutput(stem: string, pageNum: int, i: nat, t: Table): seq<Written> {
    if t.rows == [] then [] else [Written(TableFileName(stem, pageNum, i), Single(PageFrame(pageNum, t)))]
  }

  /** The files written for the tables of one page, in table order. */
  function PageOutput(stem: string, pageNum: int, tables: seq<Table>): seq<Written> {
    if tables == [] then []
    else
      var i := |tables| - 1;
      PageOutput(stem, pageNum, tables[..i]) + TableOutput(stem, pageNum, i, tables[i])
  }

  /** The files written for the k-th entry of the page list: none when it is past the last page. */
  function EntryOutput(stem: string, pageList: seq<int>, totalPages: nat, engine: Engine, k: nat): seq<Written>
    requires k < |pageList|
  {
    if pageList[k] >= totalPages then [] else PageOutput(stem, pageList[k], TablesAt(engine, k))
  }

  /** The table files written for the page list, in processing order. */
  function TableFiles(stem: string, pageList: seq<int>, totalPages: nat, engine: Engine): seq<Written> {
    if pageList == [] then []
    else
      var k := |pageList| - 1;
      TableFiles(stem, pageList[..k], totalPages, engine) + EntryOutput(stem, pageList, totalPages, engine, k)
  }

  /** The number of tables with rows. */
  function NonEmpty(tables: seq<Table>): nat {
    if tables == [] then 0
    else NonEmpty(tables[..|tables| - 1]) + (if tables[|tables| - 1].rows == [] then 0 else 1)
  }

  /** The number of tables with rows over the in-range entries of the page list. */
  function TableCount(pageList: seq<int>, totalPages: nat, engine: Engine): nat {
    if pageList == [] then 0
    else
      var k := |pageList| - 1;
      TableCount(pageList[..k], totalPages, engine)
        + (if pageList[k] >= totalPages then 0 else NonEmpty(TablesAt(engine, k)))
  }

  /** The frames of the single-table files, in order: `all_dataframes` when merging. */
  function FramesOf(files: seq<Written>): seq<Frame> {
    if files == [] then []
    else
      var last := files[|files| - 1];
      FramesOf(files[..|files| - 1]) + (if last.content.Single? then [last.content.frame] else [])
  }

  function Normalized(frames: seq<Frame>): (r: seq<Frame>)
    ensures |r| == |frames| && forall k :: 0 <= k < |r| ==> r[k] == NormalizeFrame(frames[k])
  {
    if frames == [] then [] else [NormalizeFrame(frames[0])] + Normalized(frames[1..])
  }

  /** The merged file: written only when merging and some frame was collected. */
  function MergeOutput(stem: string, frames: seq<Frame>, mergeOutput: bool): seq<Written> {
    if mergeOutput && frames != [] then
      [Written(MergedFileName(stem), Combined(SortByPage(Concat(Normalized(frames)))))]
    else []
  }

  /** Everything `extract_tables` writes once the page list is known, in order. */
  function Output(stem: string, pageList: seq<int>, totalPages: nat, engine: Engine, mergeOutput: bool): seq<Written> {
    var files := TableFiles(stem, pageList, totalPages, engine);
    files + MergeOutput(stem, FramesOf(files), mergeOutput)
  }

  lemma {:induction false} FramesOfSnoc(files: seq<Written>, file: Written)
    requires file.content.Single?
    ensures FramesOf(files + [file]) == FramesOf(files) + [file.content.frame]
  {
    assert (files + [file])[..|files|] == files;
  }

  lemma {:induction false} TableFilesStep(stem: string, pageList: seq<int>, totalPages: nat, engine: Engine, k: nat)
    requires k < |pageList|
    ensures TableFiles(stem, pageList[..k + 1], totalPages, engine)
      == TableFiles(stem, pageList[..k], totalPages, engine)
       + (if pageList[k] >= totalPages then [] else PageOutput(stem, pageList[k], TablesAt(engine, k)))
  {
    assert EntryOutput(stem, pageList[..k + 1], totalPages, engine, k) == EntryOutput(stem, pageList, totalPages, engine, k);
    assert pageList[..k + 1][..k] == pageList[..k];
  }

  lemma {:induction false} PageOutputStep(written: seq<Written>, stem: string, pageNum: int, tables: seq<Table>, i: nat)
    requires i < |tables|
    ensures written + PageOutput(stem, pageNum, tables[..i + 1])
      == (written + PageOutput(stem, pageNum, tables[..i])) + TableOutput(stem, pageNum, i, tables[i])
  {
    assert tables[..i + 1][..i] == tables[..i];
  }

  /** The inner loop over one page's tables: files, count and collected frames grow together. */
  method WritePage(stem: string, pageNum: int, tables: seq<Table>, mergeOutput: bool,
                   written0: seq<Written>, count0: nat, frames0: seq<Frame>)
    returns (written: seq<Written>, tableCount: nat, allFrames: seq<Frame>)
    requires mergeOutput ==> frames0 == FramesOf(written0)
    requires !mergeOutput ==> frames0 == []
    ensures written == written0 + PageOutput(stem, pageNum, tables)
    ensures tableCount == count0 + NonEmpty(tables)
    ensures mergeOutput ==> allFrames == FramesOf(written)
    ensures !mergeOutput ==> allFrames == []
  {
    written, tableCount, allFrames := written0, count0, frames0;
    for i := 0 to |tables|
      invariant written == written0 + PageOutput(stem, pageNum, tables[..i])
      invariant tableCount == count0 + NonEmpty(tables[..i])
      invariant mergeOutput ==> allFrames == FramesOf(written)
      invariant !mergeOutput ==> allFrames == []
    {
      PageOutputStep(written0, stem, pageNum, tables, i);
      NonEmptyStep(tables, i);
      var table := tables[i];
      if table.rows == [] {
        continue;
      }
      var df := PageFrame(pageNum, table);
      var file := Written(TableFileName(stem, pageNum, i), Single(df));
      FramesOfSnoc(written, file);
      written := written + [file];
      if mergeOutput {
        allFrames := allFrames + [df];
      }
      tableCount := tableCount + 1;
    }
    assert tables[..|tables|] == tables;
  }

  /** Renames the labels of every collected frame, one frame at a time. */
  method NormalizeAll(frames: seq<Frame>) returns (r: seq<Frame>)
    ensures r == Normalized(frames)
  {
    r := frames;
    for j := 0 to |r|
      invariant |r| == |frames|
      invariant forall m :: 0 <= m < j ==> r[m] == NormalizeFrame(frames[m])
      invariant forall m :: j <= m < |r| ==> r[m] == frames[m]
    {
      r := r[j := NormalizeFrame(r[j])];
    }
  }

  /** The page loop of `extract_tables`, with its table count and the optional merge. */
  method CollectTables(stem: string, pageList: seq<int>, totalPages: nat, engine: Engine, mergeOutput: bool)
    returns (written: seq<Written>, tableCount: nat)
    ensures written == Output(stem, pageList, totalPages, engine, mergeOutput)
    ensures tableCount == TableCount(pageList, totalPages, engine)
  {
    var allFrames: seq<Frame> := [];
    written, tableCount := [], 0;
    for idx := 0 to |pageList|
      invariant written == TableFiles(stem, pageList[..idx], totalPages, engine)
      invariant tableCount == TableCount(pageList[..idx], totalPages, engine)
      invariant mergeOutput ==> allFrames == FramesOf(written)
      invariant !mergeOutput ==> allFrames == []
    {
      var pageNum := pageList[idx];
      TableFilesStep(stem, pageList, totalPages, engine, idx);
      TableCountStep(pageList, totalPages, engine, idx);
      if pageNum >= totalPages {
        continue;
      }
      var tables := TablesAt(engine, idx);
      written, tableCount, allFrames := WritePage(stem, pageNum, tables, mergeOutput, written, tableCount, allFrames);
    }
    assert pageList[..|pageList|] == pageList;
    if mergeOutput && allFrames != [] {
      var normalized := NormalizeAll(allFrames);
      var merged := SortByPage(Concat(normalized));
      written := written + [Written(MergedFileName(stem), Combined(merged))];
    }
  }

  lemma {:induction false} TableCountStep(pageList: seq<int>, totalPages: nat, engine: Engine, k: nat)
    requires k < |pageList|
    ensures TableCount(pageList[..k + 1], totalPages, engine)
      == TableCount(pageList[..k], totalPages, engine)
       + (if pageList[k] >= totalPages then 0 else NonEmpty(TablesAt(engine, k)))
  {
    assert pageList[..k + 1][..k] == pageList[..k];
  }

  lemma {:induction false} NonEmptyStep(tables: seq<Table>, i: nat)
    requires i < |tables|
    ensures NonEmpty(tables[..i + 1]) == NonEmpty(tables[..i]) + (if tables[i].rows == [] then 0 else 1)
  {
    assert tables[..i + 1][..i] == tables[..i];
  }

  /** Reads the page list, then runs the page loop: a bad page list writes nothing. */
  method ExtractTables(stem: string, pages: string, totalPages: nat, engine: Engine, mergeOutput: bool)
    returns (r: Result<(seq<Written>, nat), PageError>)
    ensures r.Failure? <==> PageList(pages, totalPages).Failure?
    ensures r.Failure? ==> r.error == PageList(pages, totalPages).error
    ensures r.Success? ==> r.value == (Output(stem, PageList(pages, totalPages).value, totalPages, engine, mergeOutput),
                                       TableCount(PageList(pages, totalPages).value, totalPages, engine))
  {
    var pageList := ParsePages(pages, totalPages);
    if pageList.Failure? {
      return Failure(pageList.error);
    }
    var written, tableCount := CollectTables(stem, pageList.value, totalPages, engine, mergeOutput);
    r := Success((written, tableCount));
  }

  lemma {:induction false} PageOutputCount(stem: string, pageNum: int, tables: seq<Table>)
    ensures |PageOutput(stem, pageNum, tables)| == NonEmpty(tables)
  {
    if tables != [] {
      PageOutputCount(stem, pageNum, tables[..|tables| - 1]);
    }
  }

  /** The returned count is the number of table files written. */
  lemma {:induction false} TableCountIsFileCount(stem: string, pageList: seq<int>, totalPages: nat, engine: Engine)
    ensures TableCount(pageList, totalPages, engine) == |TableFiles(stem, pageList, totalPages, engine)|
  {
    if pageList != [] {
      var k := |pageList| - 1;
      TableCountIsFileCount(stem, pageList[..k], totalPages, engine);
      PageOutputCount(stem, pageList[k], TablesAt(engine, k));
    }
  }

  ghost predicate AllSingle(files: seq<Written>) {
    forall k :: 0 <= k < |files| ==> files[k].content.Single?
  }

  lemma {:induction false} PageOutputSingle(stem: string, pageNum: int, tables: seq<Table>)
    ensures AllSingle(PageOutput(stem, pageNum, tables))
  {
    if tables != [] {
      PageOutputSingle(stem, pageNum, tables[..|tables| - 1]);
    }
  }

  lemma {:induction false} TableFilesSingle(stem: string, pageList: seq<int>, totalPages: nat, engine: Engine)
    ensures AllSingle(TableFiles(stem, pageList, totalPages, engine))
  {
    if pageList != [] {
      var k := |pageList| - 1;
      TableFilesSingle(stem, pageList[..k], totalPages, engine);
      PageOutputSingle(stem, pageList[k], TablesAt(engine, k));
    }
  }

  lemma {:induction false} FramesOfSingle(files: seq<Written>)
    requires AllSingle(files)
    ensures |FramesOf(files)| == |files|
    ensures forall k :: 0 <= k < |files| ==> FramesOf(files)[k] == files[k].content.frame
  {
    if files != [] {
      FramesOfSingle(files[..|files| - 1]);
    }
  }

  /** The merged file is written exactly when merging was asked for and at least one table was written. */
  lemma {:induction false} MergedIffTables(stem: string, pageList: seq<int>, totalPages: nat, engine: Engine, mergeOutput: bool)
    ensures var files := TableFiles(stem, pageList, totalPages, engine);
      |Output(stem, pageList, totalPages, engine, mergeOutput)|
        == TableCount(pageList, totalPages, engine) + (if mergeOutput && TableCount(pageList, totalPages, engine) > 0 then 1 else 0)
  {
    var files := TableFiles(stem, pageList, totalPages, engine);
    TableCountIsFileCount(stem, pageList, totalPages, engine);
    TableFilesSingle(stem, pageList, totalPages, engine);
    FramesOfSingle(files);
  }

  /** Table `i` of the k-th entry of the page list has rows, its page is in range, and its file is `w`. */
  ghost predicate Produces(stem: string, pageList: seq<int>, totalPages: nat, engine: Engine, k: int, i: int, w: Written) {
    0 <= k < |pageList| && pageList[k] < totalPages
    && 0 <= i < |TablesAt(engine, k)| && TablesAt(engine, k)[i].rows != []
    && w == Written(TableFileName(stem, pageList[k], i), Single(PageFrame(pageList[k], TablesAt(engine, k)[i])))
  }

  /** Every file of a page comes from one of its tables with rows, named after that table's index. */
  lemma {:induction false} PageOutputSound(stem: string, pageNum: int, tables: seq<Table>, w: Written)
    requires w in PageOutput(stem, pageNum, tables)
    ensures exists i :: (0 <= i < |tables| && tables[i].rows != []
      && w == Written(TableFileName(stem, pageNum, i), Single(PageFrame(pageNum, tables[i]))))
  {
    var n := |tables| - 1;
    var front := tables[..n];
    if w in PageOutput(stem, pageNum, front) {
      PageOutputSound(stem, pageNum, front, w);
      var i :| 0 <= i < n && front[i].rows != []
        && w == Written(TableFileName(stem, pageNum, i), Single(PageFrame(pageNum, front[i])));
      assert front[i] == tables[i];
    } else {
      assert w in TableOutput(stem, pageNum, n, tables[n]);
    }
  }

  /** Every table of a page with rows gets its file, named after the table's own index. */
  lemma {:induction false} PageOutputComplete(stem: string, pageNum: int, tables: seq<Table>, i: nat)
    requires i < |tables| && tables[i].rows != []
    ensures Written(TableFileName(stem, pageNum, i), Single(PageFrame(pageNum, tables[i]))) in PageOutput(stem, pageNum, tables)
  {
    var n := |tables| - 1;
    if i < n {
      PageOutputFront(stem, pageNum, tables, i);
      PageOutputComplete(stem, pageNum, tables[..n], i);
    } else {
      PageOutputLast(stem, pageNum, tables);
    }
  }

  lemma {:induction false} PageOutputLast(stem: string, pageNum: int, tables: seq<Table>)
    requires tables != [] && tables[|tables| - 1].rows != []
    ensures var n := |tables| - 1;
      Written(TableFileName(stem, pageNum, n), Single(PageFrame(pageNum, tables[n]))) in PageOutput(stem, pageNum, tables)
  {
    var n := |tables| - 1;
    var w := Written(TableFileName(stem, pageNum, n), Single(PageFrame(pageNum, tables[n])));
    assert TableOutput(stem, pageNum, n, tables[n]) == [w];
  }

  lemma {:induction false} PageOutputFront(stem: string, pageNum: int, tables: seq<Table>, i: nat)
    requires i < |tables| - 1
    ensures tables[..|tables| - 1][i] == tables[i]
    ensures forall w :: w in PageOutput(stem, pageNum, tables[..|tables| - 1]) ==> w in PageOutput(stem, pageNum, tables)
  {
  }

  lemma {:induction false} ProducesPrefix(stem: string, pageList: seq<int>, totalPages: nat, engine: Engine, n: nat, k: int, i: int, w: Written)
    requires k < n <= |pageList|
    ensures Produces(stem, pageList[..n], totalPages, engine, k, i, w) <==> Produces(stem, pageList, totalPages, engine, k, i, w)
  {
  }

  /** Every table file comes from a table with rows on an in-range entry of the page list. */
  lemma {:induction false} TableFilesSound(stem: string, pageList: seq<int>, totalPages: nat, engine: Engine, w: Written)
    requires w in TableFiles(stem, pageList, totalPages, engine)
    ensures exists k, i :: Produces(stem, pageList, totalPages, engine, k, i, w)
  {
    var n := |pageList| - 1;
    if w in TableFiles(stem, pageList[..n], totalPages, engine) {
      TableFilesSound(stem, pageList[..n], totalPages, engine, w);
      var k, i :| Produces(stem, pageList[..n], totalPages, engine, k, i, w);
      ProducesPrefix(stem, pageList, totalPages, engine, n, k, i, w);
    } else {
      PageOutputSound(stem, pageList[n], TablesAt(engine, n), w);
      var i :| 0 <= i < |TablesAt(engine, n)| && TablesAt(engine, n)[i].rows != []
        && w == Written(TableFileName(stem, pageList[n], i), Single(PageFrame(pageList[n], TablesAt(engine, n)[i])));
      assert Produces(stem, pageList, totalPages, engine, n, i, w);
    }
  }

  /** Every table with rows on an in-range entry of the page list gets its file. */
  lemma {:induction false} TableFilesComplete(stem: string, pageList: seq<int>, totalPages: nat, engine: Engine, k: int, i: int, w: Written)
    requires Produces(stem, pageList, totalPages, engine, k, i, w)
    ensures w in TableFiles(stem, pageList, totalPages, engine)
  {
    var n := |pageList| - 1;
    assert TableFiles(stem, pageList, totalPages, engine)
      == TableFiles(stem, pageList[..n], totalPages, engine) + EntryOutput(stem, pageList, totalPages, engine, n);
    if k < n {
      ProducesPrefix(stem, pageList, totalPages, engine, n, k, i, w);
      TableFilesComplete(stem, pageList[..n], totalPages, engine, k, i, w);
    } else {
      assert k == n;
      PageOutputComplete(stem, pageList[n], TablesAt(engine, n), i);
    }
  }

  lemma {:induction false} NormalizedRows(frames: seq<Frame>)
    ensures TotalRows(Normalized(frames)) == TotalRows(frames)
  {
    if frames != [] {
      NormalizedRows(frames[1..]);
      assert Normalized(frames)[1..] == Normalized(frames[1..]);
    }
  }

  /**
   * When merging and some table was written, the last file is the merged
   * one: its rows are those of every written table with normalised labels,
   * sorted by page, in processing order within each page.
   */
  lemma {:induction false} MergedFileContents(stem: string, pageList: seq<int>, totalPages: nat, engine: Engine)
    requires TableCount(pageList, totalPages, engine) > 0
    ensures var files := TableFiles(stem, pageList, totalPages, engine);
      var out := Output(stem, pageList, totalPages, engine, true);
      var collected := Concat(Normalized(FramesOf(files)));
      |out| == |files| + 1 && out[|files|].name == MergedFileName(stem) && out[|files|].content.Combined?
      && SortedByPage(out[|files|].content.rows)
      && multiset(out[|files|].content.rows) == multiset(collected)
      && (forall p :: OnPage(out[|files|].content.rows, p) == OnPage(collected, p))
      && |out[|files|].content.rows| == TotalRows(FramesOf(files))
  {
    var files := TableFiles(stem, pageList, totalPages, engine);
    MergedIffTables(stem, pageList, totalPages, engine, true);
    TableCountIsFileCount(stem, pageList, totalPages, engine);
    TableFilesSingle(stem, pageList, totalPages, engine);
    FramesOfSingle(files);
    var collected := Concat(Normalized(FramesOf(files)));
    forall p ensures OnPage(SortByPage(collected), p) == OnPage(collected, p) {
      SortByPageStable(collected, p);
    }
    NormalizedRows(FramesOf(files));
  }

  /**
   * The page list "0" asks for page index -1, which is below the page count
   * and so is not skipped: its tables are written under page number 0.
   */
  lemma {:induction false} PageZeroIsNotSkipped(stem: string, totalPages: nat, engine: Engine, i: nat)
    requires i < |TablesAt(engine, 0)| && TablesAt(engine, 0)[i].rows != []
    ensures PageList("0", totalPages) == Success([-1])
    ensures Written(TableFileName(stem, -1, i), Single(PageFrame(-1, TablesAt(engine, 0)[i])))
      in Output(stem, [-1], totalPages, engine, false)
  {
    PageZeroIsIndexMinusOne(totalPages);
    var w := Written(TableFileName(stem, -1, i), Single(PageFrame(-1, TablesAt(engine, 0)[i])));
    assert Produces(stem, [-1], totalPages, engine, 0, i, w);
    TableFilesComplete(stem, [-1], totalPages, engine, 0, i, w);
  }
}
