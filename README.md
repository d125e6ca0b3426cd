# alice-pdf: the sequential core, modelled in Dafny

alice-pdf extracts tables from PDF files. It renders each page to an image
and sends it to a Mistral vision model, which answers with JSON. From that
JSON it writes one CSV file per table, and optionally one merged CSV. This
project models the logic between those library calls and proves what it
does:

- **`PageRange`** (`page_range.dfy`) models the `pages` parser of
  `extract_tables`. It turns `"all"` or `"1-3,5"` into 0-based page indices.
  The method `ParsePages`/`ParseParts` follows the source's
  `append`/`extend` loop and is proved equal to the function `PageList`.
- **`Mistral`** (`mistral.dfy`) models three things in
  `extract_tables_with_mistral`:
  - the choice between the custom prompt and the built-in one;
  - the removal of the Markdown code fence around the answer;
  - how a reply becomes the page's list of tables.
- **`Tables`** (`tables.dfy`) holds:
  - a table as the engine returns it;
  - the frame written for it, with the `page` column in front;
  - the file names.
- **`Merge`** (`merge.dfy`) models the merge step:
  - spaces in column labels become underscores;
  - the frames are concatenated;
  - the rows are stably sorted by page. The insertion sort is proved sorted, a permutation and stable. It is also proved to be the only ordering with those properties.
- **`Extraction`** (`extraction.dfy`) models the page loop of
  `extract_tables`. `CollectTables` is an imperative method with the
  source's loops, `continue`s and in-place label rewrite. It is proved
  against the specification functions `Output` and `TableCount`, and lemmas
  about those functions cover:
  - the table count;
  - which files are written;
  - when the merge happens;
  - what the merged file holds.
- **`Cli`** (`cli.dfy`) models the decisions `main` takes:
  - the API-key precedence;
  - the `.env` scan, as a loop with an early exit;
  - prompt versus schema;
  - the exit codes and re-raising in debug mode.
- **`Strings`** and **`Wrappers`** hold the Python string built-ins the core
  uses, with their Python meaning, and the `Option`/`Result` types. The
  built-ins are `in`, `split`, `strip`, `strip(c)`, `startswith`, `replace`,
  `int` and `str`.

What cannot be computed here is passed in as a parameter:
- `Extraction.Engine` stands for the engine: the reply to the k-th entry of the page list, and JSON decoding.
- `Cli.Environment` stands for the environment of `main`: the environment variable, the lines of `.env`, the schema-to-prompt generator and `extract_tables`.

A failure in these parameters stands for a raised exception.

## Model

| member | source | states |
|---|---|---|
| Strings.Split | alice_pdf/extractor.py:186-188 | `str.split(sep)`: at least one piece; exactly one piece iff `sep` does not occur; no piece contains `sep`; joining the pieces with `sep` gives back the text |
| Strings.SplitConcat | alice_pdf/extractor.py:186 | splitting `x + c + y` at the one-character separator `c` gives the pieces of `x` followed by the pieces of `y` |
| Strings.ParseIntAccepts | alice_pdf/extractor.py:188-191 | `int(s)` succeeds exactly when `s`, without the surrounding whitespace `int()` skips (ASCII tab, newline, vertical tab, form feed, carriage return, space, and non-ASCII whitespace, but not U+001C to U+001F), is an optionally signed run of ASCII digits; a text without `-` never reads as a negative number |
| Strings.ParseIntPadded | alice_pdf/extractor.py:188-191 | any run of whitespace that `int()` skips, before and after a digit run, is ignored, so the piece `" 3"` of `"1, 3"` reads as 3 |
| Strings.ParseIntSigned | alice_pdf/extractor.py:188-191 | a numeral with a sign reads as its digits' value, negated after `-`: `"+3"` is 3 and `"-3"` is -3 |
| Strings.SeparatorIsNotIntSpace | alice_pdf/extractor.py:188-191 | the separators U+001C to U+001F are stripped by `strip()` but make `int()` fail: the two whitespace sets differ |
| Strings.Strip | alice_pdf/extractor.py:124-126 | `strip()` never lengthens the text and leaves it neither starting nor ending with whitespace; `Strings.TrimAround` gives its exact result |
| Strings.StripChar | alice_pdf/cli.py:101 | `strip('"')` never lengthens the text and leaves it neither starting nor ending with `"` |
| Strings.ParseInt | alice_pdf/extractor.py:188-191 | `int()` succeeds only on an optionally signed digit run with skippable whitespace around it, and a digit run reads as its decimal value |
| Strings.Replace | alice_pdf/extractor.py:254 | `replace(a, b)` keeps the length and replaces exactly the characters equal to `a` |
| PageRange.Range | alice_pdf/extractor.py:183 | `range(lo, hi)`: `hi - lo` elements (none when `hi <= lo`), the k-th being `lo + k` |
| PageRange.Bounds | alice_pdf/extractor.py:188 | unpacking `start, end` succeeds exactly when the part splits at `-` into two integers, and gives their values |
| PageRange.ParsePages | alice_pdf/extractor.py:182-191 | the parser's result is `PageList(pages, totalPages)`: `"all"`, or the pages of the comma-separated parts |
| PageRange.ParseParts | alice_pdf/extractor.py:185-191 | the append/extend loop over the parts computes `PartsPages(parts)`, stopping at the first bad part with its error |
| PageRange.ParsePart | alice_pdf/extractor.py:187-191 | one loop step: a part with `-` extends the page list with its range, any other part appends its page, and an error stops the step; proved equal to appending the part's pages |
| PageRange.ExtendRange | alice_pdf/extractor.py:187-189 | extending by a part with `-` gives the list followed by `range(start - 1, end)` of its two bounds, or the unpacking's error |
| PageRange.AppendSingle | alice_pdf/extractor.py:190-191 | appending a part gives the list followed by `int(part) - 1`, or the error `int()` raises |
| PageRange.AllIsEveryPage | alice_pdf/extractor.py:182-183 | `"all"` gives exactly `0, 1, ..., total_pages-1` in ascending order |
| PageRange.RangePart | alice_pdf/extractor.py:187-189 | a part `"a-b"` gives `a-1, a, ..., b-1` in ascending order |
| PageRange.ReversedRangeIsEmpty | alice_pdf/extractor.py:189 | `"a-b"` gives no page, and no error, exactly when `b < a` |
| PageRange.SinglePart | alice_pdf/extractor.py:190-191 | a part `"n"` gives the single index `n-1` |
| PageRange.PartPagesSucceeds | alice_pdf/extractor.py:186-191 | a part is accepted exactly when it is a number, or splits at `-` into exactly two numbers; `"1-2-3"`, `"-1"` and `"x"` are errors |
| PageRange.JoinedPages | alice_pdf/extractor.py:186-191 | `"p,q"` gives the pages of `p` followed by those of `q`, or the first error; duplicates are kept in input order |
| PageRange.PrefixFailure | alice_pdf/extractor.py:186-191 | once a part fails, the whole page list fails with that part's error |
| PageRange.PageIndicesFromMinusOne | alice_pdf/extractor.py:186-191 | every parsed index is at least -1, the lower bound being reached by page `"0"` |
| PageRange.PageZeroIsIndexMinusOne | alice_pdf/extractor.py:190-191 | `"0"` is accepted and gives index -1; no lower bound is checked |
| Mistral.ChoosePrompt | alice_pdf/extractor.py:69-91 | a non-empty custom prompt is used as is; an absent or empty one gives the built-in prompt; the prompt is never empty |
| Mistral.StripFence | alice_pdf/extractor.py:122-126 | when the answer has a ```` ``` ```` fence, the result has none; otherwise the answer is kept unchanged |
| Mistral.StripFenceIdempotent | alice_pdf/extractor.py:122-126 | stripping the fence twice gives the same as stripping it once |
| Mistral.StripFencePlain | alice_pdf/extractor.py:125-126 | without ```` ```json ````, the result is the stripped text between the first and the second ```` ``` ```` (or the end) |
| Mistral.StripFenceJson | alice_pdf/extractor.py:123-124 | with ```` ```json ````, the result is the stripped text between it and the next ```` ``` ```` (or the end), unless that fence starts a longer backtick run followed by `json` |
| Mistral.PageTables | alice_pdf/extractor.py:111-133 | a failed request gives no tables; an answer whose fence-free text decodes gives exactly the decoded tables, and one that does not decode gives none |
| Tables.Width | alice_pdf/extractor.py:228 | the number of positional columns of a frame without headers is the length of its longest row |
| Tables.PageFrame | alice_pdf/extractor.py:225-231 | the frame has `page` as column 0, followed by the table's columns; it has one row per table row, each with the table's cells and page value `page_num + 1` |
| Tables.TableFileName | alice_pdf/extractor.py:236-238 | a table file's name starts with the document's stem and ends with `.csv`; `Tables.TableFileNameInjective` shows it names the page and table index |
| Tables.MergedFileName | alice_pdf/extractor.py:259 | the merged file's name starts with the document's stem and ends with `.csv`; `Tables.MergedNameIsNotATableName` shows it is no table file's name |
| Tables.TableFileNameInjective | alice_pdf/extractor.py:236-238 | two table files of one document have the same name only for the same page and table index |
| Tables.MergedNameIsNotATableName | alice_pdf/extractor.py:256 | the merged file never takes the name of a table file |
| Merge.NormalizeColumn | alice_pdf/extractor.py:254 | a label keeps its length, every space becomes `_`, every other character is kept, and no space is left |
| Merge.NormalizeColumnIdempotent | alice_pdf/extractor.py:254 | normalising a label twice is normalising it once |
| Merge.NormalizeFrame | alice_pdf/extractor.py:253-254 | every label of the frame is normalised and the rows are untouched |
| Merge.Concat | alice_pdf/extractor.py:256 | the concatenation has as many rows as all frames together |
| Merge.ConcatSingle | alice_pdf/extractor.py:256 | concatenating one frame gives exactly its rows |
| Merge.ConcatAppend | alice_pdf/extractor.py:256 | concatenation keeps the frames' order: the rows of earlier frames come first, each frame's rows in their own order |
| Merge.SortByPage | alice_pdf/extractor.py:257 | the result is sorted by page and is a permutation of the input |
| Merge.SortByPageStable | alice_pdf/extractor.py:257 | rows sharing a page keep their relative order |
| Merge.SortByPageIsTheStableSort | alice_pdf/extractor.py:257 | any ordering sorted by page that keeps the order within each page equals `SortByPage` |
| Merge.MergedRowCount | alice_pdf/extractor.py:256-257 | the merged table has as many rows as all merged frames together |
| Extraction.CollectTables | alice_pdf/extractor.py:196-263 | the loop writes exactly `Output(...)`, in order, and returns `TableCount(...)` |
| Extraction.WritePage | alice_pdf/extractor.py:216-245 | the loop over one page's tables appends that page's files, adds its non-empty table count, and collects a frame per file when merging |
| Extraction.NormalizeAll | alice_pdf/extractor.py:253-254 | the in-place rewrite of every collected frame's labels yields the normalised frames |
| Extraction.Normalized | alice_pdf/extractor.py:253-254 | one normalised frame for each frame, in order |
| Extraction.ExtractTables | alice_pdf/extractor.py:181-263 | a bad page list ends with its error and writes nothing; otherwise the files and count are those of the page loop |
| Extraction.TableCountIsFileCount | alice_pdf/extractor.py:245-263 | the returned count equals the number of table files written |
| Extraction.MergedIffTables | alice_pdf/extractor.py:250 | the merged file is written exactly when merging is requested and at least one table was written |
| Extraction.MergedFileContents | alice_pdf/extractor.py:250-259 | the merged file comes last; its rows are those of every written table with normalised labels, sorted by page, in processing order within each page, their number being the sum of the parts |
| Extraction.PageOutputSound | alice_pdf/extractor.py:216-240 | every file of a page is the page frame of one of its tables with rows, named with that table's index in the result list |
| Extraction.PageOutputComplete | alice_pdf/extractor.py:216-240 | every table of a page with rows gets a file holding its page frame, named with its own index, skipped tables still taking theirs |
| Extraction.TableFilesSound | alice_pdf/extractor.py:200-240 | every table file comes from a non-empty table on an in-range entry of the page list |
| Extraction.TableFilesComplete | alice_pdf/extractor.py:200-240 | every non-empty table on an in-range entry of the page list gets its file |
| Extraction.PageZeroIsNotSkipped | alice_pdf/extractor.py:190-203 | page `"0"` becomes index -1, which passes the range check: the tables of the reply for that entry are written under page number 0 (which page is rendered for index -1 is left out) |
| Cli.DefaultArgs | alice_pdf/cli.py:45-65 | the options when only the two paths are given keep those paths |
| Cli.KeyPrefix | alice_pdf/cli.py:98-100 | a key line starts with `MISTRAL_API_KEY=` or with `api_key=` |
| Cli.KeyLineFirstEquals | alice_pdf/cli.py:101 | in a key line the first `=` is the one ending the prefix |
| Cli.KeyValue | alice_pdf/cli.py:101 | the value of a key line is the text after its prefix, stripped of whitespace and then of `"` |
| Cli.FirstKeyLine | alice_pdf/cli.py:97-102 | the index of the first key line, with no key line before it; none iff no line is a key line |
| Cli.ScanEnv | alice_pdf/cli.py:96-102 | the scan that stops at the first key line gives the `.env` key |
| Cli.FirstKeyLineWins | alice_pdf/cli.py:97-102 | the first key line decides the key; later lines are ignored |
| Cli.QuotedValueReadsBack | alice_pdf/cli.py:101 | `KEY="value"` followed by a line end reads back as `value`, even when the value holds `=` |
| Cli.ResolveKey | alice_pdf/cli.py:90-104 | a truthy flag wins, then a truthy variable, then the `.env` key; the key is never empty; there is none iff every source is empty or missing |
| Cli.EmptyKeyFallsThrough | alice_pdf/cli.py:90-93 | an empty flag or variable behaves as if it were not given |
| Cli.ResolveApiKey | alice_pdf/cli.py:90-102 | the lookup as `main` runs it gives a usable key exactly when `ResolveKey` finds one, and then the same key |
| Cli.Fail | alice_pdf/cli.py:116-141 | an error re-raises in debug mode, and returns 1 otherwise |
| Cli.Main | alice_pdf/cli.py:90-141 | the exit code is 0 exactly when extraction was called and succeeded; it is otherwise 1, or a re-raise only in debug mode; extraction gets the resolved key and the paths, pages, model, dpi and merge flag unchanged |
| Cli.Extract | alice_pdf/cli.py:122-141 | extraction is always called, with the given key and prompt; the outcome is 0 exactly when it succeeds, a re-raise exactly when it fails in debug mode, and 1 otherwise |
| Cli.NoKeyNoExtraction | alice_pdf/cli.py:104-108 | with no key from any source, `main` returns 1 and extraction is never called |
| Cli.PromptOverridesSchema | alice_pdf/cli.py:111-112 | with a prompt the schema generator is never consulted, and the prompt is passed on |
| Cli.NoSchemaNoGenerator | alice_pdf/cli.py:111-112 | without a schema the generator is not consulted, and the prompt (possibly none) is passed on |
| Cli.SchemaGivesPrompt | alice_pdf/cli.py:112-115 | a schema that loads gives the prompt passed to extraction |
| Cli.SchemaFailureStops | alice_pdf/cli.py:113-120 | a schema that fails to load returns 1, or re-raises in debug mode, without calling extraction |
| Cli.ExtractionDecidesExit | alice_pdf/cli.py:122-141 | once extraction is called, success returns 0 and an exception returns 1, or re-raises in debug mode |
| Cli.DefaultsReachExtraction | alice_pdf/cli.py:50-65 | with a key and no options, extraction runs with pages `"all"`, model `"pixtral-12b-2409"`, dpi 150, no merge and no prompt |

## Left out

- Page rendering (`pdf_page_to_base64`), opening the PDF and counting its pages. These are PyMuPDF and PIL calls; the page count is a parameter. For index -1 (the page list `"0"`) PyMuPDF renders the last page, so in the source the last page's tables are labelled page 0; the model only sees the reply for that entry.
- The Mistral client call, the `time.sleep(1.2)` rate limit and the message layout. The reply to the k-th entry of the page list is an input, and a failed request is `Reply.RequestFailed`. The prompt, model and dpi therefore do not influence the replies in the model.
- `json.loads` and the `"tables"` lookup are one opaque decoder that gives tables or nothing. A JSON value that is not an object, a table that is not an object, and a reply with no text content all make the source raise. They are not modelled.
- Cells are kept as their JSON text; pandas' type inference is not modelled.
- pandas raises on a header/row width mismatch; this is not modelled.
- Tables.PageFrame: when a table's headers already contain `page`, pandas' `insert` raises, which ends `extract_tables` after the earlier files are written and makes `main` return 1. The model builds a frame with two `page` columns instead and writes its file, so `Extraction.TableFilesComplete` and `Extraction.CollectTables` also cover that table.
- `pd.concat`'s alignment of frames with different labels into one table with missing values is not modelled. Each merged row keeps the labels of its own frame, which is what that alignment is computed from.
- Merge.NormalizeColumn: leaves positional (integer) labels of header-less tables unchanged. pandas' `.str.replace` turns a non-string label into a missing label.
- CSV serialisation with the UTF-8 BOM, `shutil.rmtree` and `mkdir` are filesystem behaviour. The directory is emptied before the page list is parsed, so even a bad page list empties it.
- The model lists the files in the order they are written. When the page list names a page twice, the second write of a file name replaces the first on disk.
- Python's `int()` also accepts `_` between digits and non-ASCII digits. Only ASCII digits, one sign and the surrounding whitespace `int()` skips are modelled.
- argparse itself, `--help`/`--version`, the conversion of `--dpi` to an integer, and logging.
- `generate_prompt_from_schema`: its module is not part of this model, so it is an input.
- From `main`'s side, `extract_tables` is an input. Its body is what `Extraction.ExtractTables` models.
- How the `.env` file is split into lines, and errors reading it. The lines are an input, as Python's file iteration yields them.
