/**
 * The page-range parser at the start of `extract_tables`: `"all"` means
 * every page of the document; otherwise a comma-separated list of parts,
 * each a 1-based page `"n"` or an inclusive range `"a-b"`, becomes a list
 * of 0-based page indices in input order, duplicates kept.
 */
module PageRange {
  import opened Wrappers
  import opened Strings

  /** The `ValueError`s the parser raises: a piece `int()` rejects, or a range that is not two bounds. */
  datatype PageError = NotAnInteger(text: string) | NotTwoBounds(part: string)

  /** Python's `range(lo, hi)`. */
  function Range(lo: int, hi: int): (r: seq<int>)
    ensures |r| == if lo < hi then hi - lo else 0
    ensures forall k :: 0 <= k < |r| ==> r[k] == lo + k
    decreases hi - lo
  {
    if lo >= hi then [] else [lo] + Range(lo + 1, hi)
  }

  /**
   * `start, end = map(int, pieces)`: the unpacking converts the first,
   * the second and (to find out there are too many) a third piece before
   * it complains about their number.
   */
  function Bounds(part: string, pieces: seq<string>): (r: Result<(int, int), PageError>)
    requires |pieces| >= 2
    ensures r.Success? <==> |pieces| == 2 && ParseInt(pieces[0]).Some? && ParseInt(pieces[1]).Some?
    ensures r.Success? ==> r.value == (ParseInt(pieces[0]).value, ParseInt(pieces[1]).value)
  {
    if ParseInt(pieces[0]).None? then Failure(NotAnInteger(pieces[0]))
    else if ParseInt(pieces[1]).None? then Failure(NotAnInteger(pieces[1]))
    else if |pieces| > 2 && ParseInt(pieces[2]).None? then Failure(NotAnInteger(pieces[2]))
    else if |pieces| > 2 then Failure(NotTwoBounds(part))
    else Success((ParseInt(pieces[0]).value, ParseInt(pieces[1]).value))
  }

  /** The 0-based indices one comma-separated part stands for. */
  function PartPages(part: string): Result<seq<int>, PageError> {
    if Contains(part, "-") then RangePages(part) else SinglePage(part)
  }

  /** `start, end = map(int, part.split("-"))`, then `range(start - 1, end)`. */
  function RangePages(part: string): Result<seq<int>, PageError>
    requires Contains(part, "-")
  {
    var bounds := Bounds(part, Split(part, "-"));
    if bounds.Failure? then Failure(bounds.error) else Success(Range(bounds.value.0 - 1, bounds.value.1))
  }

  /** `int(part) - 1`. */
  function SinglePage(part: string): Result<seq<int>, PageError> {
    match ParseInt(part)
    case None => Failure(NotAnInteger(part))
    case Some(n) => Success([n - 1])
  }

  /** Appends the pages of one more part, stopping at the first error. */
  function Then(acc: Result<seq<int>, PageError>, next: Result<seq<int>, PageError>): Result<seq<int>, PageError> {
    match acc
    case Failure(e) => Failure(e)
    case Success(pages) =>
      match next
      case Failure(e) => Failure(e)
      case Success(more) => Success(pages + more)
  }

  /** The pages of a list of parts, left to right; the first bad part decides the error. */
  function PartsPages(parts: seq<string>): Result<seq<int>, PageError> {
    if parts == [] then Success([])
    else Then(PartsPages(parts[..|parts| - 1]), PartPages(parts[|parts| - 1]))
  }

  /** The page list `extract_tables` processes for the `pages` argument. */
  function PageList(pages: string, totalPages: nat): Result<seq<int>, PageError> {
    if pages == "all" then Success(Range(0, totalPages))
    else PartsPages(Split(pages, ","))
  }

  /** The parser as the source runs it. */
  method ParsePages(pages: string, totalPages: nat) returns (r: Result<seq<int>, PageError>)
    ensures r == PageList(pages, totalPages)
  {
    if pages == "all" {
      return Success(Range(0, totalPages));
    }
    r := ParseParts(Split(pages, ","));
  }

  /** The loop over `pages.split(",")`: each part extends or appends to the page list. */
  method ParseParts(parts: seq<string>) returns (r: Result<seq<int>, PageError>)
    ensures r == PartsPages(parts)
  {
    var pageList: seq<int> := [];
    for i := 0 to |parts|
      invariant PartsPages(parts[..i]) == Success(pageList)
    {
      var next := ParsePart(pageList, parts[i]);
      PartsAdvance(parts, i, pageList, next);
      if next.Failure? {
        return next;
      }
      pageList := next.value;
    }
    assert parts[..|parts|] == parts;
    r := Success(pageList);
  }

  /** One part: a range when it contains `-`, a single page otherwise. */
  method ParsePart(pageList: seq<int>, part: string) returns (r: Result<seq<int>, PageError>)
    ensures r == Then(Success(pageList), PartPages(part))
  {
    if Contains(part, "-") {
      r := ExtendRange(pageList, part);
    } else {
      r := AppendSingle(pageList, part);
    }
  }

  /** `page_list.extend(range(start - 1, end))` after unpacking the two bounds. */
  method ExtendRange(pageList: seq<int>, part: string) returns (r: Result<seq<int>, PageError>)
    requires Contains(part, "-")
    ensures r == Then(Success(pageList), RangePages(part))
  {
    var bounds := Bounds(part, Split(part, "-"));
    match bounds
    case Failure(e) =>
      r := Failure(e);
    case Success((first, last)) =>
      r := Success(pageList + Range(first - 1, last));
  }

  /** `page_list.append(int(part) - 1)`. */
  method AppendSingle(pageList: seq<int>, part: string) returns (r: Result<seq<int>, PageError>)
    ensures r == Then(Success(pageList), SinglePage(part))
  {
    var n := ParseInt(part);
    if n.None? {
      return Failure(NotAnInteger(part));
    }
    r := Success(pageList + [n.value - 1]);
  }

  lemma {:induction false} PartsStep(parts: seq<string>, i: nat)
    requires i < |parts|
    ensures PartsPages(parts[..i + 1]) == Then(PartsPages(parts[..i]), PartPages(parts[i]))
  {
    assert parts[..i + 1][..i] == parts[..i];
  }

  /** One more part either extends the parsed prefix or decides the whole result. */
  lemma {:induction false} PartsAdvance(parts: seq<string>, i: nat, pageList: seq<int>, next: Result<seq<int>, PageError>)
    requires i < |parts| && PartsPages(parts[..i]) == Success(pageList)
    requires next == Then(Success(pageList), PartPages(parts[i]))
    ensures next.Success? ==> PartsPages(parts[..i + 1]) == next
    ensures next.Failure? ==> PartsPages(parts) == next
  {
    PartsStep(parts, i);
    if next.Failure? {
      PrefixFailure(parts, i + 1, next.error);
    }
  }

  /** Once a prefix of the parts fails, the whole list fails with the same error. */
  lemma {:induction false} PrefixFailure(parts: seq<string>, n: nat, e: PageError)
    requires n <= |parts| && PartsPages(parts[..n]) == Failure(e)
    ensures PartsPages(parts) == Failure(e)
    decreases |parts| - n
  {
    if n < |parts| {
      assert parts[..n + 1][..n] == parts[..n];
      PrefixFailure(parts, n + 1, e);
    } else {
      assert parts[..n] == parts;
    }
  }

  /** `"all"` is every page of the document, in ascending order. */
  lemma {:induction false} AllIsEveryPage(totalPages: nat)
    ensures PageList("all", totalPages).Success?
    ensures var pages := PageList("all", totalPages).value;
      |pages| == totalPages && forall k :: 0 <= k < totalPages ==> pages[k] == k
  {
  }

  lemma {:induction false} DigitsHaveNo(s: string, c: char)
    requires IsDigits(s) && !IsDigit(c)
    ensures c !in s
  {
  }

  lemma {:induction false} SplitWithout(s: string, c: char)
    requires c !in s
    ensures Split(s, [c]) == [s]
  {
    ContainsChar(s, c);
  }

  lemma {:induction false} SplitRangePart(a: string, b: string)
    requires '-' !in a && '-' !in b
    ensures Contains(a + "-" + b, "-") && Split(a + "-" + b, "-") == [a, b]
  {
    SplitConcat(a, '-', b);
    SplitWithout(a, '-');
    SplitWithout(b, '-');
    ContainsChar(a + "-" + b, '-');
  }

  /**
   * A part `"a-b"` stands for the 0-based pages `a-1, a, ..., b-1`, in
   * ascending order, and for no page at all when `b < a`.
   */
  lemma {:induction false} RangePart(a: string, b: string)
    requires '-' !in a && '-' !in b && ParseInt(a).Some? && ParseInt(b).Some?
    ensures PartPages(a + "-" + b) == Success(Range(ParseInt(a).value - 1, ParseInt(b).value))
  {
    var part := a + "-" + b;
    SplitRangePart(a, b);
    var bounds := Bounds(part, Split(part, "-"));
    assert bounds == Success((ParseInt(a).value, ParseInt(b).value));
    assert RangePages(part) == Success(Range(ParseInt(a).value - 1, ParseInt(b).value));
  }

  /** A reversed range such as `"5-3"` names no page, and is not an error. */
  lemma {:induction false} ReversedRangeIsEmpty(a: string, b: string)
    requires '-' !in a && '-' !in b && ParseInt(a).Some? && ParseInt(b).Some?
    ensures PartPages(a + "-" + b) == Success([]) <==> ParseInt(b).value < ParseInt(a).value
  {
    RangePart(a, b);
    var first, last := ParseInt(a).value, ParseInt(b).value;
    if last >= first {
      assert |Range(first - 1, last)| > 0;
    }
  }

  /** A part `"n"` stands for the one 0-based page `n-1`. */
  lemma {:induction false} SinglePart(n: string)
    requires IsDigits(n)
    ensures PartPages(n) == Success([DigitsValue(n) - 1])
  {
    DigitsHaveNo(n, '-');
    ContainsChar(n, '-');
    ParseIntDigits(n);
  }

  /**
   * A part is accepted exactly when it is a number, or splits at `-` into
   * exactly two numbers, whitespace around each number allowed:
   * `"1-2-3"`, `"-1"`, `"1-"` and `"x"` are errors.
   */
  lemma {:induction false} PartPagesSucceeds(part: string)
    ensures PartPages(part).Success? <==>
      ('-' !in part && IsNumeral(IntText(part))) ||
      (|Split(part, "-")| == 2 && IsNumeral(IntText(Split(part, "-")[0])) && IsNumeral(IntText(Split(part, "-")[1])))
  {
    ContainsChar(part, '-');
    ParseIntAccepts(part);
    if Contains(part, "-") {
      ParseIntAccepts(Split(part, "-")[0]);
      ParseIntAccepts(Split(part, "-")[1]);
    }
  }

  lemma {:induction false} ThenAssoc(a: Result<seq<int>, PageError>, b: Result<seq<int>, PageError>, c: Result<seq<int>, PageError>)
    ensures Then(Then(a, b), c) == Then(a, Then(b, c))
  {
    if a.Success? && b.Success? && c.Success? {
      assert (a.value + b.value) + c.value == a.value + (b.value + c.value);
    }
  }

  /** The parts of a concatenated list give the concatenated pages. */
  lemma {:induction false} PartsAppend(ps: seq<string>, qs: seq<string>)
    ensures PartsPages(ps + qs) == Then(PartsPages(ps), PartsPages(qs))
    decreases |qs|
  {
    if qs == [] {
      assert ps + qs == ps;
      if PartsPages(ps).Success? {
        assert PartsPages(ps).value + [] == PartsPages(ps).value;
      }
    } else {
      var front, last := qs[..|qs| - 1], qs[|qs| - 1];
      assert (ps + qs)[..|ps + qs| - 1] == ps + front;
      assert (ps + qs)[|ps + qs| - 1] == last;
      PartsAppend(ps, front);
      ThenAssoc(PartsPages(ps), PartsPages(front), PartPages(last));
    }
  }

  /**
   * Parts are read in input order and their pages concatenated, so a
   * page named twice is processed twice: `"p,q"` gives the pages of `p`
   * followed by the pages of `q`, or the first error among them.
   */
  lemma {:induction false} JoinedPages(p: string, q: string, totalPages: nat)
    requires p != "all" && q != "all"
    ensures PageList(p + "," + q, totalPages) == Then(PageList(p, totalPages), PageList(q, totalPages))
  {
    var pages := p + "," + q;
    assert pages[|p|] == ',';
    assert pages != "all";
    SplitConcat(p, ',', q);
    PartsAppend(Split(p, ","), Split(q, ","));
  }

  /** Parsed page indices are never below -1 (page `"0"` becomes index -1). */
  lemma {:induction false} PageIndicesFromMinusOne(pages: string, totalPages: nat)
    requires PageList(pages, totalPages).Success?
    ensures forall k :: 0 <= k < |PageList(pages, totalPages).value| ==> PageList(pages, totalPages).value[k] >= -1
  {
    if pages != "all" {
      PartsFromMinusOne(Split(pages, ","));
    }
  }

  lemma {:induction false} PartsFromMinusOne(parts: seq<string>)
    requires PartsPages(parts).Success?
    ensures forall k :: 0 <= k < |PartsPages(parts).value| ==> PartsPages(parts).value[k] >= -1
  {
    if parts != [] {
      var front := parts[..|parts| - 1];
      PartsFromMinusOne(front);
      PartFromMinusOne(parts[|parts| - 1]);
      var acc, more := PartsPages(front).value, PartPages(parts[|parts| - 1]).value;
      assert forall k :: 0 <= k < |more| ==> more[k] >= -1;
      assert PartsPages(parts).value == acc + more;
    }
  }

  /** The pieces a part is read from hold no `-`, so their numbers are never negative. */
  lemma {:induction false} PartFromMinusOne(part: string)
    requires PartPages(part).Success?
    ensures forall k :: 0 <= k < |PartPages(part).value| ==> PartPages(part).value[k] >= -1
  {
    if Contains(part, "-") {
      var pieces := Split(part, "-");
      ContainsChar(pieces[0], '-');
      ContainsChar(pieces[1], '-');
      ParseIntAccepts(pieces[0]);
      ParseIntAccepts(pieces[1]);
    } else {
      ContainsChar(part, '-');
      ParseIntAccepts(part);
    }
  }

  /** Page `"0"` is accepted and becomes index -1; no lower bound is checked. */
  lemma {:induction false} PageZeroIsIndexMinusOne(totalPages: nat)
    ensures PageList("0", totalPages) == Success([-1])
  {
    var zero := "0";
    assert zero != "all";
    assert IsDigits(zero) && DigitsValue(zero) == 0;
    SinglePart(zero);
    assert ',' !in zero;
    SplitWithout(zero, ',');
    assert Split(zero, ",") == [zero];
    assert [zero][..0] == [];
    assert PartsPages([zero]) == Then(PartsPages([]), PartPages(zero));
    assert [] + [-1] == [-1];
    assert PageList(zero, totalPages) == PartsPages([zero]);
  }
}
