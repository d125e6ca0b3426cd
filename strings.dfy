/**
 * The few Python string built-ins the core relies on, with their Python
 * meaning: `pat in s`, `s.split(sep)`, `s.strip()`, `s.strip(chars)`,
 * `s.startswith(p)`, `s.replace(a, b)`, `int(s)` on ASCII numerals, and
 * `str(n)`.
 */
module Strings {
  import opened Wrappers

  /** `pat` occurs in `s` at index `i`. */
  predicate OccursAt(s: string, pat: string, i: nat) {
    i + |pat| <= |s| && s[i..i + |pat|] == pat
  }

  lemma {:induction false} OccursAtTail(s: string, pat: string, j: nat)
    requires |s| > 0
    ensures OccursAt(s, pat, j + 1) <==> OccursAt(s[1..], pat, j)
  {
    if j + 1 + |pat| <= |s| {
      assert s[j + 1..j + 1 + |pat|] == s[1..][j..j + |pat|];
    }
  }

  /** Index of the first occurrence of `pat` in `s` (Python's `s.find(pat)`). */
  function FindFirst(s: string, pat: string): (r: Option<nat>)
    requires |pat| > 0
    ensures r.Some? ==> OccursAt(s, pat, r.value)
    ensures r.Some? ==> forall j: nat :: j < r.value ==> !OccursAt(s, pat, j)
    ensures r.None? ==> forall j: nat :: !OccursAt(s, pat, j)
    decreases |s|
  {
    if |s| < |pat| then None
    else if s[..|pat|] == pat then Some(0)
    else
      var rest := FindFirst(s[1..], pat);
      assert !OccursAt(s, pat, 0);
      assert forall j: nat :: 1 <= j ==> (OccursAt(s, pat, j) <==> OccursAt(s[1..], pat, j - 1)) by {
        forall j: nat | 1 <= j ensures OccursAt(s, pat, j) <==> OccursAt(s[1..], pat, j - 1) {
          OccursAtTail(s, pat, j - 1);
        }
      }
      match rest
      case None => None
      case Some(i) => Some(i + 1)
  }

  /** Python's `pat in s`. */
  predicate Contains(s: string, pat: string)
    requires |pat| > 0
  {
    FindFirst(s, pat).Some?
  }

  lemma {:induction false} ContainsAt(s: string, pat: string, i: nat)
    requires |pat| > 0 && OccursAt(s, pat, i)
    ensures Contains(s, pat)
  {
  }

  /** The first occurrence is the one with no occurrence before it. */
  lemma {:induction false} FindFirstUnique(s: string, pat: string, k: nat)
    requires |pat| > 0 && OccursAt(s, pat, k)
    requires forall j: nat :: j < k ==> !OccursAt(s, pat, j)
    ensures FindFirst(s, pat) == Some(k)
  {
  }

  /** Where a longer pattern occurs, so does each of its prefixes. */
  lemma {:induction false} PrefixOccurs(s: string, long: string, short: string, m: nat)
    requires OccursAt(s, long, m) && short <= long
    ensures OccursAt(s, short, m)
  {
    assert s[m..m + |short|] == s[m..m + |long|][..|short|];
  }

  /** Cutting `s` after its first `pat` keeps that occurrence first. */
  lemma {:induction false} FindFirstInPrefix(s: string, pat: string, k: nat, m: nat)
    requires |pat| > 0 && FindFirst(s, pat) == Some(k)
    requires k + |pat| <= m <= |s|
    ensures FindFirst(s[..m], pat) == Some(k)
  {
    var t := s[..m];
    assert t[k..k + |pat|] == s[k..k + |pat|];
    forall j: nat | j < k ensures !OccursAt(t, pat, j) {
      assert !OccursAt(s, pat, j);
      if j + |pat| <= |t| {
        assert t[j..j + |pat|] == s[j..j + |pat|];
      }
    }
    FindFirstUnique(t, pat, k);
  }

  /** Python's `sep.join(parts)`. */
  function Join(parts: seq<string>, sep: string): string {
    if |parts| == 0 then ""
    else if |parts| == 1 then parts[0]
    else parts[0] + sep + Join(parts[1..], sep)
  }

  /** An occurrence inside a prefix of `s` is an occurrence in `s`. */
  lemma {:induction false} NoOccurrenceInPrefix(s: string, pat: string, i: nat)
    requires |pat| > 0 && i <= |s|
    requires forall j: nat :: j < i ==> !OccursAt(s, pat, j)
    ensures !Contains(s[..i], pat)
  {
    var f := FindFirst(s[..i], pat);
    if f.Some? {
      var j := f.value;
      assert s[..i][j..j + |pat|] == s[j..j + |pat|];
      assert OccursAt(s, pat, j);
      assert false;
    }
  }

  /**
   * Python's `s.split(sep)`: the pieces between the non-overlapping
   * occurrences of `sep`, found from the left.
   */
  function Split(s: string, sep: string): (r: seq<string>)
    requires |sep| > 0
    ensures |r| >= 1
    ensures |r| == 1 <==> !Contains(s, sep)
    ensures forall k :: 0 <= k < |r| ==> !Contains(r[k], sep)
    ensures Join(r, sep) == s
    decreases |s|
  {
    match FindFirst(s, sep)
    case None => [s]
    case Some(i) =>
      var rest := Split(s[i + |sep|..], sep);
      SplitStep(s, sep, i, rest);
      [s[..i]] + rest
  }

  /** One step of `Split`: the piece before the first separator, then the rest. */
  lemma {:induction false} SplitStep(s: string, sep: string, i: nat, rest: seq<string>)
    requires |sep| > 0 && FindFirst(s, sep) == Some(i)
    requires |rest| >= 1 && Join(rest, sep) == s[i + |sep|..]
    requires forall k :: 0 <= k < |rest| ==> !Contains(rest[k], sep)
    ensures Join([s[..i]] + rest, sep) == s
    ensures forall k :: 0 <= k < |[s[..i]] + rest| ==> !Contains(([s[..i]] + rest)[k], sep)
  {
    var r := [s[..i]] + rest;
    JoinCons(s[..i], rest, sep);
    assert s == s[..i] + sep + s[i + |sep|..];
    NoOccurrenceInPrefix(s, sep, i);
    assert forall k :: 1 <= k < |r| ==> r[k] == rest[k - 1];
  }

  lemma {:induction false} JoinCons(head: string, rest: seq<string>, sep: string)
    requires |rest| >= 1
    ensures Join([head] + rest, sep) == head + sep + Join(rest, sep)
  {
    assert ([head] + rest)[1..] == rest;
  }

  /** Python's `s.split(sep)[0]`: everything before the first `sep`, or all of `s`. */
  function Before(s: string, sep: string): (r: string)
    requires |sep| > 0
    ensures !Contains(r, sep)
  {
    Split(s, sep)[0]
  }

  /** The text right after the first occurrence of `sep`. */
  function After(s: string, sep: string): (r: string)
    requires |sep| > 0 && Contains(s, sep)
    ensures |r| <= |s| - |sep|
    ensures s == s[..FindFirst(s, sep).value] + sep + r
  {
    var i := FindFirst(s, sep).value;
    s[i + |sep|..]
  }

  /** `Split(s, sep)[1]` is the text between the first and the second `sep` (or the end). */
  lemma {:induction false} SplitSecond(s: string, sep: string)
    requires |sep| > 0 && Contains(s, sep)
    ensures |Split(s, sep)| >= 2 && Split(s, sep)[1] == Before(After(s, sep), sep)
  {
  }

  /** `Before(s, sep)` is the prefix of `s` up to the first `sep`. */
  lemma {:induction false} BeforeIsPrefix(s: string, sep: string)
    requires |sep| > 0
    ensures FindFirst(s, sep).None? ==> Before(s, sep) == s
    ensures FindFirst(s, sep).Some? ==> Before(s, sep) == s[..FindFirst(s, sep).value]
  {
  }

  /** A text without `pat` has no `pat` in any of its slices. */
  lemma {:induction false} NoOccurrenceInSlice(s: string, pat: string, i: nat, j: nat)
    requires |pat| > 0 && i <= j <= |s|
    requires !Contains(s, pat)
    ensures !Contains(s[i..j], pat)
  {
    var t := s[i..j];
    var f := FindFirst(t, pat);
    if f.Some? {
      var k := f.value;
      assert t[k..k + |pat|] == pat;
      forall m | 0 <= m < |pat| ensures s[i + k + m] == pat[m] {
        assert t[k..k + |pat|][m] == t[k + m] == s[i + k + m];
      }
      assert s[i + k..i + k + |pat|] == pat;
      assert OccursAt(s, pat, i + k);
      assert false;
    }
  }

  /** A one-character pattern occurs exactly where that character is. */
  lemma {:induction false} OccursAtChar(s: string, c: char, j: nat)
    ensures OccursAt(s, [c], j) <==> j < |s| && s[j] == c
  {
    if j < |s| {
      assert s[j..j + 1] == [s[j]];
    }
  }

  /** A one-character pattern is contained exactly when that character is. */
  lemma {:induction false} ContainsChar(s: string, c: char)
    ensures Contains(s, [c]) <==> c in s
  {
    if Contains(s, [c]) {
      var j := FindFirst(s, [c]).value;
      OccursAtChar(s, c, j);
    }
    if c in s {
      var j :| 0 <= j < |s| && s[j] == c;
      OccursAtChar(s, c, j);
      ContainsAt(s, [c], j);
    }
  }

  /** Appending text keeps the first occurrence where it was. */
  lemma {:induction false} FindFirstExtend(s: string, pat: string, t: string, i: nat)
    requires |pat| > 0 && FindFirst(s, pat) == Some(i)
    ensures FindFirst(s + t, pat) == Some(i)
  {
    var u := s + t;
    assert u[i..i + |pat|] == s[i..i + |pat|];
    forall j: nat | j < i ensures !OccursAt(u, pat, j) {
      assert !OccursAt(s, pat, j);
      assert u[j..j + |pat|] == s[j..j + |pat|];
    }
    FindFirstUnique(u, pat, i);
  }

  lemma {:induction false} SplitUnfold(s: string, sep: string, i: nat)
    requires |sep| > 0 && FindFirst(s, sep) == Some(i)
    ensures Split(s, sep) == [s[..i]] + Split(s[i + |sep|..], sep)
  {
  }

  /** Splitting at a one-character separator distributes over a join at that separator. */
  lemma {:induction false} SplitConcat(x: string, c: char, y: string)
    ensures Split(x + [c] + y, [c]) == Split(x, [c]) + Split(y, [c])
    decreases |x|
  {
    match FindFirst(x, [c])
    case None => SplitConcatLast(x, c, y);
    case Some(i) =>
      SplitConcat(x[i + 1..], c, y);
      SplitConcatFirst(x, c, y, i);
  }

  lemma {:induction false} SplitConcatFirst(x: string, c: char, y: string, i: nat)
    requires FindFirst(x, [c]) == Some(i)
    requires Split(x[i + 1..] + [c] + y, [c]) == Split(x[i + 1..], [c]) + Split(y, [c])
    ensures Split(x + [c] + y, [c]) == Split(x, [c]) + Split(y, [c])
  {
    FindFirstBeforeSeparator(x, c, y, i);
    SplitUnfoldJoined(x, c, y, i);
    SplitUnfold(x, [c], i);
    ConcatAssoc([x[..i]], Split(x[i + 1..], [c]), Split(y, [c]));
  }

  lemma {:induction false} FindFirstBeforeSeparator(x: string, c: char, y: string, i: nat)
    requires FindFirst(x, [c]) == Some(i)
    ensures FindFirst(x + [c] + y, [c]) == Some(i)
  {
    FindFirstExtend(x, [c], [c] + y, i);
    assert x + [c] + y == x + ([c] + y);
  }

  lemma {:induction false} SplitUnfoldJoined(x: string, c: char, y: string, i: nat)
    requires FindFirst(x + [c] + y, [c]) == Some(i) && i < |x|
    ensures Split(x + [c] + y, [c]) == [x[..i]] + Split(x[i + 1..] + [c] + y, [c])
  {
    var s := x + [c] + y;
    var tail := x[i + 1..] + [c] + y;
    assert s[..i] == x[..i];
    assert s[i + 1..] == tail by {
      assert s == x[..i + 1] + tail;
    }
    SplitUnfold(s, [c], i);
  }

  lemma {:induction false} ConcatAssoc<T>(a: seq<T>, b: seq<T>, c: seq<T>)
    ensures a + (b + c) == (a + b) + c
  {
  }

  lemma {:induction false} SplitConcatLast(x: string, c: char, y: string)
    requires FindFirst(x, [c]).None?
    ensures Split(x + [c] + y, [c]) == Split(x, [c]) + Split(y, [c])
  {
    var s := x + [c] + y;
    OccursAtChar(s, c, |x|);
    forall j: nat | j < |x| ensures !OccursAt(s, [c], j) {
      OccursAtChar(s, c, j);
      OccursAtChar(x, c, j);
    }
    FindFirstUnique(s, [c], |x|);
    assert s[..|x|] == x && s[|x| + 1..] == y;
    SplitUnfold(s, [c], |x|);
  }

  /** Python's `c.isspace()`, by code point. */
  predicate IsSpace(c: char) {
    var n := c as int;
    (9 <= n <= 13) || (28 <= n <= 32) || n == 0x85 || n == 0xA0 || n == 0x1680
    || (0x2000 <= n <= 0x200A) || n == 0x2028 || n == 0x2029 || n == 0x202F
    || n == 0x205F || n == 0x3000
  }

  /** Drops the leading characters satisfying `drop`. */
  function TrimStart(s: string, drop: char -> bool): (r: string)
    ensures |r| <= |s| && r == s[|s| - |r|..]
    ensures forall k :: 0 <= k < |s| - |r| ==> drop(s[k])
    ensures r != [] ==> !drop(r[0])
  {
    if s != [] && drop(s[0]) then
      var r := TrimStart(s[1..], drop);
      assert s[1..][|s| - 1 - |r|..] == s[|s| - |r|..];
      assert forall k :: 0 < k < |s| - |r| ==> s[k] == s[1..][k - 1];
      r
    else s
  }

  /** Drops the trailing characters satisfying `drop`. */
  function TrimEnd(s: string, drop: char -> bool): (r: string)
    ensures |r| <= |s| && r == s[..|r|]
    ensures forall k :: |r| <= k < |s| ==> drop(s[k])
    ensures r != [] ==> !drop(r[|r| - 1])
  {
    if s != [] && drop(s[|s| - 1]) then TrimEnd(s[..|s| - 1], drop) else s
  }

  /** Python's `s.strip(chars)` where `drop` tells the stripped characters. */
  function Trim(s: string, drop: char -> bool): (r: string)
    ensures |r| <= |s|
    ensures r != [] ==> !drop(r[0]) && !drop(r[|r| - 1])
  {
    TrimEnd(TrimStart(s, drop), drop)
  }

  /** Python's `s.strip()`. */
  function Strip(s: string): (r: string)
    ensures |r| <= |s|
    ensures r != [] ==> !IsSpace(r[0]) && !IsSpace(r[|r| - 1])
  {
    Trim(s, IsSpace)
  }

  /** Python's `s.strip(c)` for a one-character `c`. */
  function StripChar(s: string, c: char): (r: string)
    ensures |r| <= |s|
    ensures r != [] ==> r[0] != c && r[|r| - 1] != c
  {
    Trim(s, IsChar(c))
  }

  /** The test "is the character `c`". */
  function IsChar(c: char): char -> bool {
    x => x == c
  }

  lemma {:induction false} TrimStartAround(pre: string, rest: string, drop: char -> bool)
    requires forall k :: 0 <= k < |pre| ==> drop(pre[k])
    requires rest != [] && !drop(rest[0])
    ensures TrimStart(pre + rest, drop) == rest
  {
    if pre != [] {
      assert (pre + rest)[1..] == pre[1..] + rest;
      TrimStartAround(pre[1..], rest, drop);
    }
  }

  lemma {:induction false} TrimEndAround(rest: string, post: string, drop: char -> bool)
    requires forall k :: 0 <= k < |post| ==> drop(post[k])
    requires rest != [] && !drop(rest[|rest| - 1])
    ensures TrimEnd(rest + post, drop) == rest
  {
    if post != [] {
      var n := |post| - 1;
      assert (rest + post)[..|rest + post| - 1] == rest + post[..n];
      TrimEndAround(rest, post[..n], drop);
    }
  }

  /** Stripping removes exactly the stripped characters around a text whose ends stay. */
  lemma {:induction false} TrimAround(pre: string, inner: string, post: string, drop: char -> bool)
    requires forall k :: 0 <= k < |pre| ==> drop(pre[k])
    requires forall k :: 0 <= k < |post| ==> drop(post[k])
    requires inner != [] && !drop(inner[0]) && !drop(inner[|inner| - 1])
    ensures Trim(pre + inner + post, drop) == inner
  {
    assert pre + inner + post == pre + (inner + post);
    TrimStartAround(pre, inner + post, drop);
    TrimEndAround(inner, post, drop);
  }

  /** Stripping keeps a slice of the text, so it adds no occurrence of `pat`. */
  lemma {:induction false} TrimNoOccurrence(s: string, drop: char -> bool, pat: string)
    requires |pat| > 0 && !Contains(s, pat)
    ensures !Contains(Trim(s, drop), pat)
  {
    var t := TrimStart(s, drop);
    NoOccurrenceInSlice(s, pat, |s| - |t|, |s|);
    assert t == s[|s| - |t|..|s|];
    NoOccurrenceInSlice(t, pat, 0, |TrimEnd(t, drop)|);
  }

  /** Stripping changes nothing when neither end can be stripped. */
  lemma {:induction false} TrimUnchanged(s: string, drop: char -> bool)
    requires s != [] ==> !drop(s[0]) && !drop(s[|s| - 1])
    ensures Trim(s, drop) == s
  {
  }

  /** Python's `s.startswith(p)`. */
  predicate StartsWith(s: string, p: string) {
    |p| <= |s| && s[..|p|] == p
  }

  /** Python's `s.replace(a, b)` for one-character `a` and `b`. */
  function Replace(s: string, a: char, b: char): (r: string)
    ensures |r| == |s|
    ensures forall k :: 0 <= k < |s| ==> r[k] == (if s[k] == a then b else s[k])
  {
    if s == [] then [] else [if s[0] == a then b else s[0]] + Replace(s[1..], a, b)
  }

  predicate IsDigit(c: char) {
    '0' <= c <= '9'
  }

  /** A non-empty run of ASCII digits: the strings `int()` is modelled on. */
  predicate IsDigits(s: string) {
    |s| > 0 && forall k :: 0 <= k < |s| ==> IsDigit(s[k])
  }

  /** The decimal value of a string of digits. */
  function DigitsValue(s: string): nat
    requires forall k :: 0 <= k < |s| ==> IsDigit(s[k])
  {
    if s == [] then 0
    else
      assert IsDigit(s[|s| - 1]);
      10 * DigitsValue(s[..|s| - 1]) + (s[|s| - 1] as int - '0' as int)
  }

  /** One optional sign followed by a non-empty run of ASCII digits. */
  predicate IsNumeral(t: string) {
    IsDigits(t) || (|t| > 1 && (t[0] == '+' || t[0] == '-') && IsDigits(t[1..]))
  }

  /** Every character left by stripping was in the text. */
  lemma {:induction false} TrimKeeps(s: string, drop: char -> bool, k: nat)
    requires k < |Trim(s, drop)|
    ensures Trim(s, drop)[k] in s
  {
    var t := TrimStart(s, drop);
    assert Trim(s, drop)[k] == t[k] == s[|s| - |t| + k];
  }

  /**
   * The whitespace `int()` skips around a numeral: the `str.isspace()` set
   * without the ASCII separators U+001C to U+001F, which CPython's `int()`
   * does not skip (it skips ASCII `\t\n\v\f\r`, space and non-ASCII whitespace).
   */
  predicate IsIntSpace(c: char) {
    IsSpace(c) && !(0x1C <= c as int <= 0x1F)
  }

  /** The text `int()` reads: its argument without the surrounding whitespace it skips. */
  function IntText(s: string): string {
    Trim(s, IsIntSpace)
  }

  /**
   * Python's `int(s)` on text: the whitespace `int()` skips is ignored, one sign
   * may lead the ASCII digits; `None` stands for `ValueError`.
   */
  function ParseInt(s: string): (r: Option<int>)
    ensures r.Some? ==> IsNumeral(IntText(s))
    ensures IsDigits(IntText(s)) ==> r == Some(DigitsValue(IntText(s)))
  {
    var t := IntText(s);
    if IsDigits(t) then Some(DigitsValue(t))
    else if |t| > 1 && t[0] == '+' && IsDigits(t[1..]) then Some(DigitsValue(t[1..]))
    else if |t| > 1 && t[0] == '-' && IsDigits(t[1..]) then Some(-(DigitsValue(t[1..]) as int))
    else None
  }

  /** `int(s)` accepts exactly the numerals with skippable whitespace around them; without a `-` the value is not negative. */
  lemma {:induction false} ParseIntAccepts(s: string)
    ensures ParseInt(s).Some? <==> IsNumeral(IntText(s))
    ensures ParseInt(s).Some? && '-' !in s ==> ParseInt(s).value >= 0
  {
    if |IntText(s)| > 0 {
      TrimKeeps(s, IsIntSpace, 0);
    }
  }

  /** A signed numeral reads as its digits' value, negated after `-`: `int("+3")` is 3 and `int("-3")` is -3. */
  lemma {:induction false} ParseIntSigned(s: string)
    requires var t := IntText(s); |t| > 1 && (t[0] == '+' || t[0] == '-') && IsDigits(t[1..])
    ensures var t := IntText(s);
      ParseInt(s) == Some(if t[0] == '+' then DigitsValue(t[1..]) else -(DigitsValue(t[1..]) as int))
  {
    assert !IsDigit(IntText(s)[0]);
  }

  /** A plain run of digits reads as its decimal value. */
  lemma {:induction false} ParseIntDigits(s: string)
    requires IsDigits(s)
    ensures ParseInt(s) == Some(DigitsValue(s))
  {
    TrimUnchanged(s, IsIntSpace);
  }

  /** Whitespace `int()` skips around a run of digits is ignored: `int(" 3")` and `int("3\n")` are 3. */
  lemma {:induction false} ParseIntPadded(pre: string, s: string, post: string)
    requires IsDigits(s)
    requires forall k :: 0 <= k < |pre| ==> IsIntSpace(pre[k])
    requires forall k :: 0 <= k < |post| ==> IsIntSpace(post[k])
    ensures ParseInt(pre + s + post) == Some(DigitsValue(s))
  {
    assert !IsIntSpace(s[0]) && !IsIntSpace(s[|s| - 1]);
    TrimAround(pre, s, post, IsIntSpace);
  }

  /**
   * The separators U+001C to U+001F are whitespace to `str.strip()` but not
   * to `int()`: `int("\x1c3")` fails although `"\x1c3".strip()` is `"3"`.
   */
  lemma {:induction false} SeparatorIsNotIntSpace(c: char, digits: string)
    requires 0x1C <= c as int <= 0x1F && IsDigits(digits)
    ensures Strip([c] + digits) == digits
    ensures ParseInt([c] + digits).None?
  {
    StripSeparator(c, digits);
    IntRejectsSeparator(c, digits);
  }

  lemma {:induction false} StripSeparator(c: char, digits: string)
    requires 0x1C <= c as int <= 0x1F && IsDigits(digits)
    ensures Strip([c] + digits) == digits
  {
    assert IsSpace(c) && !IsSpace(digits[0]) && !IsSpace(digits[|digits| - 1]);
    assert [c] + digits == [c] + digits + [];
    TrimAround([c], digits, [], IsSpace);
  }

  lemma {:induction false} IntRejectsSeparator(c: char, digits: string)
    requires 0x1C <= c as int <= 0x1F && IsDigits(digits)
    ensures ParseInt([c] + digits).None?
  {
    var s := [c] + digits;
    assert s[0] == c && s[|s| - 1] == digits[|digits| - 1];
    assert !IsIntSpace(s[0]) && !IsIntSpace(s[|s| - 1]);
    assert !IsDigit(c) && c != '+' && c != '-';
    TrimUnchanged(s, IsIntSpace);
    NotNumeral(s);
  }

  /** `int()` fails on a text that, once the skipped whitespace is gone, starts with neither a digit nor a sign. */
  lemma {:induction false} NotNumeral(s: string)
    requires IntText(s) != [] && !IsDigit(IntText(s)[0]) && IntText(s)[0] != '+' && IntText(s)[0] != '-'
    ensures ParseInt(s).None?
  {
    assert !IsNumeral(IntText(s));
  }

  function DigitChar(d: nat): (c: char)
    requires d < 10
    ensures IsDigit(c) && c as int - '0' as int == d
  {
    ('0' as int + d) as char
  }

  /** Python's `str(n)` for a natural number; parsing it back gives `n`. */
  function NatToString(n: nat): (s: string)
    ensures IsDigits(s)
    ensures DigitsValue(s) == n
  {
    if n < 10 then [DigitChar(n)]
    else
      var s := NatToString(n / 10) + [DigitChar(n % 10)];
      assert s[..|s| - 1] == NatToString(n / 10);
      s
  }

  /** Python's `str(n)`. */
  function IntToString(n: int): (s: string)
    ensures s != []
    ensures n < 0 <==> s[0] == '-'
    ensures forall k :: 0 <= k < |s| ==> s[k] == '-' || IsDigit(s[k])
  {
    if n < 0 then "-" + NatToString(-n) else NatToString(n)
  }

  /** Different numbers print differently. */
  lemma {:induction false} IntToStringInjective(a: int, b: int)
    requires IntToString(a) == IntToString(b)
    ensures a == b
  {
    if a < 0 {
      assert IntToString(a)[1..] == NatToString(-a);
      assert IntToString(b)[1..] == NatToString(-b);
    }
  }

  lemma {:induction false} DelimiterInHead(a: string, x: string, b: string, y: string, c: char)
    requires |a| < |b| && a + [c] + x == b + [c] + y
    ensures c in b
  {
    assert b[|a|] == (b + [c] + y)[|a|] == (a + [c] + x)[|a|];
  }

  /** A text cut at a delimiter that occurs in neither head is cut at the same place. */
  lemma {:induction false} SplitAtDelimiter(a: string, x: string, b: string, y: string, c: char)
    requires c !in a && c !in b
    requires a + [c] + x == b + [c] + y
    ensures a == b && x == y
  {
    var s := a + [c] + x;
    if |a| < |b| {
      DelimiterInHead(a, x, b, y, c);
    } else if |b| < |a| {
      DelimiterInHead(b, y, a, x, c);
    }
    assert a == s[..|a|] == b;
    assert x == s[|a| + 1..] == y;
  }
}
