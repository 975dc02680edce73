/**
 * The handful of Python string and list primitives the pipeline relies on:
 * `str.strip()`, `pat in s`, `s.split(sep)`, `sep.join(parts)`, `str(n)`
 * and the slice `xs[:n]`.
 */
module Text {
  import opened Wrappers

  // ---------------------------------------------------------------------
  // Whitespace and str.strip()
  // ---------------------------------------------------------------------

  /**
   * The characters Python's `str.isspace()` accepts, which are those
   * `str.strip()` removes: the ASCII controls tab to carriage return and the
   * file, group, record and unit separators, the space, the next-line
   * control, the no-break space, the Ogham space mark, the en quad to the
   * hair space, the line and paragraph separators, the narrow no-break
   * space, the medium mathematical space and the ideographic space.
   */
  predicate IsWhitespace(c: char) {
    || '\U{0009}' <= c <= '\U{000D}'
    || '\U{001C}' <= c <= '\U{0020}'
    || c == '\U{0085}' || c == '\U{00A0}' || c == '\U{1680}'
    || '\U{2000}' <= c <= '\U{200A}'
    || c == '\U{2028}' || c == '\U{2029}' || c == '\U{202F}' || c == '\U{205F}' || c == '\U{3000}'
  }

  predicate AllWhitespace(s: string) {
    forall i :: 0 <= i < |s| ==> IsWhitespace(s[i])
  }

  function TrimLeft(s: string): (r: string)
    ensures |r| <= |s| && r == s[|s| - |r|..]
    ensures AllWhitespace(s[..|s| - |r|])
    ensures r == [] || !IsWhitespace(r[0])
    ensures r == [] <==> AllWhitespace(s)
  {
    if |s| > 0 && IsWhitespace(s[0]) then
      var r := TrimLeft(s[1..]);
      assert s[..|s| - |r|] == [s[0]] + s[1..][..|s| - 1 - |r|];
      r
    else s
  }

  function TrimRight(s: string): (r: string)
    ensures |r| <= |s| && r == s[..|r|]
    ensures AllWhitespace(s[|r|..])
    ensures r == [] || !IsWhitespace(r[|r| - 1])
    ensures r == [] <==> AllWhitespace(s)
  {
    if |s| > 0 && IsWhitespace(s[|s| - 1]) then
      var r := TrimRight(s[..|s| - 1]);
      assert s[|r|..] == s[..|s| - 1][|r|..] + [s[|s| - 1]];
      r
    else s
  }

  /** Python's `s.strip()`: the text between the leading and the trailing whitespace. */
  function Strip(s: string): (r: string)
    ensures |r| <= |s|
    ensures r == [] || (!IsWhitespace(r[0]) && !IsWhitespace(r[|r| - 1]))
    ensures r == [] <==> AllWhitespace(s)
  {
    TrimRight(TrimLeft(s))
  }

  /** Stripping keeps characters of the text only. */
  lemma StripKeepsChars(s: string, c: char)
    requires c !in s
    ensures c !in Strip(s)
  {
    var l := TrimLeft(s);
    assert l == s[|s| - |l|..];
    assert Strip(s) == l[..|Strip(s)|];
  }

  lemma {:induction false} TrimLeftIdle(s: string)
    requires s == [] || !IsWhitespace(s[0])
    ensures TrimLeft(s) == s
  {
  }

  lemma {:induction false} TrimRightIdle(s: string)
    requires s == [] || !IsWhitespace(s[|s| - 1])
    ensures TrimRight(s) == s
  {
  }

  /** A text with no whitespace at either end is its own strip. */
  lemma StripIdle(s: string)
    requires s == [] || (!IsWhitespace(s[0]) && !IsWhitespace(s[|s| - 1]))
    ensures Strip(s) == s
  {
    TrimLeftIdle(s);
    TrimRightIdle(s);
  }

  /** Stripping twice is stripping once. */
  lemma StripIdempotent(s: string)
    ensures Strip(Strip(s)) == Strip(s)
  {
    StripIdle(Strip(s));
  }

  // ---------------------------------------------------------------------
  // Substring search: `pat in s`, and the pieces `s.split(pat)[0]`, `[1]`
  // ---------------------------------------------------------------------

  predicate MatchAt(s: string, pat: string, k: int) {
    0 <= k && k + |pat| <= |s| && s[k..k + |pat|] == pat
  }

  /** The first occurrence of `pat` in `s` at or after `from`. */
  function IndexFrom(s: string, pat: string, from: nat): (r: Option<nat>)
    requires |pat| > 0
    ensures r.Some? ==> from <= r.value && MatchAt(s, pat, r.value)
    ensures r.Some? ==> forall k :: from <= k < r.value ==> !MatchAt(s, pat, k)
    ensures r.None? ==> forall k :: from <= k ==> !MatchAt(s, pat, k)
    decreases |s| - from
  {
    if from + |pat| > |s| then None
    else if s[from..from + |pat|] == pat then Some(from)
    else IndexFrom(s, pat, from + 1)
  }

  /** Python's `s.find(pat)`, with None for -1. */
  function IndexOf(s: string, pat: string): (r: Option<nat>)
    requires |pat| > 0
  {
    IndexFrom(s, pat, 0)
  }

  /** Python's `pat in s`. */
  predicate Contains(s: string, pat: string)
    requires |pat| > 0
  {
    IndexOf(s, pat).Some?
  }

  /** `s.split(pat)[0]`: the text before the first occurrence of `pat`, or all of `s`. */
  function Before(s: string, pat: string): (r: string)
    requires |pat| > 0
    ensures |r| <= |s| && r == s[..|r|]
    ensures !Contains(r, pat)
    ensures r == s || MatchAt(s, pat, |r|)
  {
    match IndexOf(s, pat)
    case None => s
    case Some(i) =>
      PrefixMatches(s, i, pat);
      s[..i]
  }

  /** The text after the first occurrence of `pat`, so that `s.split(pat)[1] == Before(After(s, pat), pat)`. */
  function After(s: string, pat: string): (r: string)
    requires |pat| > 0 && Contains(s, pat)
    ensures |r| + |pat| <= |s| && r == s[|s| - |r|..]
    ensures MatchAt(s, pat, |s| - |r| - |pat|)
    ensures !Contains(s[..|s| - |r| - |pat|], pat)
  {
    var i := IndexOf(s, pat).value;
    PrefixMatches(s, i, pat);
    s[i + |pat|..]
  }

  /** An occurrence in the first `n` characters is an occurrence in `s` that starts before `n`. */
  lemma PrefixMatches(s: string, n: nat, pat: string)
    requires n <= |s|
    ensures forall k :: MatchAt(s[..n], pat, k) ==> k <= n - |pat| && MatchAt(s, pat, k)
  {
    forall k | MatchAt(s[..n], pat, k) ensures k <= n - |pat| && MatchAt(s, pat, k) {
      assert s[..n][k..k + |pat|] == s[k..k + |pat|];
    }
  }

  /** An occurrence of a pattern is also an occurrence of each of its prefixes. */
  lemma MatchPrefix(s: string, pat: string, short: string, k: int)
    requires MatchAt(s, pat, k) && |short| <= |pat| && short == pat[..|short|]
    ensures MatchAt(s, short, k)
  {
    assert s[k..k + |short|] == s[k..k + |pat|][..|short|];
  }

  /** An occurrence inside a prefix of `s` is an occurrence in `s`. */
  lemma MatchInPrefix(s: string, n: nat, pat: string, k: int)
    requires n <= |s| && MatchAt(s[..n], pat, k)
    ensures MatchAt(s, pat, k)
  {
    assert s[..n][k..k + |pat|] == s[k..k + |pat|];
  }

  /** Whatever does not contain `pat` is left whole by `Before`. */
  lemma BeforeNoMatch(s: string, pat: string)
    requires |pat| > 0 && !Contains(s, pat)
    ensures Before(s, pat) == s
  {
  }

  // ---------------------------------------------------------------------
  // s.split(c) for a one-character separator, and sep.join(parts)
  // ---------------------------------------------------------------------

  /** Python's `s.split(c)`. */
  function SplitChar(s: string, c: char): (parts: seq<string>)
    ensures |parts| >= 1
    ensures forall i :: 0 <= i < |parts| ==> c !in parts[i]
    ensures c !in s ==> parts == [s]
    ensures |parts| == 1 <==> c !in s
  {
    if |s| == 0 then [""]
    else
      var rest := SplitChar(s[1..], c);
      if s[0] == c then [""] + rest
      else
        assert c !in s ==> [s[0]] + s[1..] == s;
        [[s[0]] + rest[0]] + rest[1..]
  }

  /** Python's `sep.join(parts)`. */
  function Join(parts: seq<string>, sep: string): string
  {
    if |parts| == 0 then ""
    else if |parts| == 1 then parts[0]
    else parts[0] + sep + Join(parts[1..], sep)
  }

  /** Splitting on a character and joining with it again gives back the text. */
  lemma {:induction false} JoinSplitChar(s: string, c: char)
    ensures Join(SplitChar(s, c), [c]) == s
  {
    if |s| > 0 {
      var rest := SplitChar(s[1..], c);
      JoinSplitChar(s[1..], c);
      assert Join(rest, [c]) == s[1..];
      if s[0] == c {
        assert SplitChar(s, c) == [""] + rest;
        assert Join([""] + rest, [c]) == "" + [c] + Join(rest, [c]);
        assert s == [s[0]] + s[1..];
      } else if |rest| == 1 {
        assert SplitChar(s, c) == [[s[0]] + rest[0]];
        assert s == [s[0]] + s[1..];
      } else {
        var parts := SplitChar(s, c);
        assert parts == [[s[0]] + rest[0]] + rest[1..];
        assert parts[1..] == rest[1..];
        assert Join(rest, [c]) == rest[0] + [c] + Join(rest[1..], [c]);
        assert Join(parts, [c]) == [s[0]] + rest[0] + [c] + Join(rest[1..], [c]);
        assert s == [s[0]] + s[1..];
      }
    }
  }

  /** A piece free of `c`, then `c`: splitting yields the piece, then the split of the rest. */
  lemma {:induction false} SplitAfterPiece(a: string, c: char, rest: string)
    requires c !in a
    ensures SplitChar(a + [c] + rest, c) == [a] + SplitChar(rest, c)
  {
    var s := a + [c] + rest;
    if |a| == 0 {
      assert s[1..] == rest;
    } else {
      assert s[1..] == a[1..] + [c] + rest;
      SplitAfterPiece(a[1..], c, rest);
      assert [a[0]] + a[1..] == a;
    }
  }

  /** Joining pieces free of `c` with `c` and splitting again gives back the pieces. */
  lemma {:induction false} SplitJoinChar(parts: seq<string>, c: char)
    requires |parts| >= 1
    requires forall i :: 0 <= i < |parts| ==> c !in parts[i]
    ensures SplitChar(Join(parts, [c]), c) == parts
  {
    if |parts| > 1 {
      SplitJoinChar(parts[1..], c);
      assert Join(parts, [c]) == parts[0] + [c] + Join(parts[1..], [c]);
      SplitAfterPiece(parts[0], c, Join(parts[1..], [c]));
      assert [parts[0]] + parts[1..] == parts;
    }
  }

  /** `s.split(c)[-1]`. */
  function LastSegment(s: string, c: char): (r: string)
    ensures c !in r
  {
    var parts := SplitChar(s, c);
    parts[|parts| - 1]
  }

  /** The last piece of the split is the text after the last `c`, or all of `s` when there is none. */
  lemma LastSegmentCons(s: string, c: char)
    requires |s| > 0
    ensures LastSegment(s, c) == if s[0] != c && c !in s[1..] then s else LastSegment(s[1..], c)
  {
    if s[0] != c && c !in s[1..] {
      assert s == [s[0]] + s[1..];
    }
  }

  lemma {:induction false} LastSegmentIsSuffix(s: string, c: char)
    ensures var r := LastSegment(s, c);
            |r| <= |s| && r == s[|s| - |r|..] && (r == s || s[|s| - |r| - 1] == c)
  {
    if |s| > 0 {
      LastSegmentCons(s, c);
      if s[0] == c || c in s[1..] {
        var r := LastSegment(s[1..], c);
        LastSegmentIsSuffix(s[1..], c);
        assert s[1..][|s| - 1 - |r|..] == s[|s| - |r|..];
        if r == s[1..] {
          assert s[0] == c;
        } else {
          assert s[1..][|s| - 1 - |r| - 1] == c;
        }
      }
    }
  }

  /** The text after the last separator is the last piece of the split. */
  lemma {:induction false} LastSegmentAfterSep(a: string, c: char, b: string)
    requires c !in b
    ensures LastSegment(a + [c] + b, c) == b
  {
    if |a| == 0 {
      assert [c] + b == a + [c] + b;
      assert ([c] + b)[1..] == b;
    } else {
      LastSegmentAfterSep(a[1..], c, b);
      var s := a + [c] + b;
      assert s[1..] == a[1..] + [c] + b;
      assert c in s[1..] by { assert s[1..][|a| - 1] == c; }
      var rest := SplitChar(s[1..], c);
      assert |rest| >= 2;
    }
  }

  /**
   * `os.path.join(dir, name)` for a relative `name`, which is also
   * `str(Path(dir) / name)` when `dir` needs no normalising.
   */
  function JoinPath(dir: string, name: string): (r: string)
    ensures |name| <= |r| && r[|r| - |name|..] == name
    ensures |r| > |name| ==> r[|r| - |name| - 1] == '/'
  {
    if dir == [] || dir[|dir| - 1] == '/' then dir + name else dir + "/" + name
  }

  /** A name without a slash is the last path component of the joined path. */
  lemma JoinPathLastSegment(dir: string, name: string)
    requires '/' !in name
    ensures LastSegment(JoinPath(dir, name), '/') == name
  {
    if dir == [] {
      assert JoinPath(dir, name) == name;
    } else if dir[|dir| - 1] == '/' {
      assert JoinPath(dir, name) == dir[..|dir| - 1] + ['/'] + name;
      LastSegmentAfterSep(dir[..|dir| - 1], '/', name);
    } else {
      assert JoinPath(dir, name) == dir + ['/'] + name;
      LastSegmentAfterSep(dir, '/', name);
    }
  }

  // ---------------------------------------------------------------------
  // List comprehensions: [x for x in xs if keep(x)]
  // ---------------------------------------------------------------------

  /** `[x for x in xs if keep(x)]`. */
  function Filter<T>(xs: seq<T>, keep: T -> bool): (r: seq<T>)
    ensures |r| <= |xs|
  {
    if |xs| == 0 then [] else (if keep(xs[0]) then [xs[0]] else []) + Filter(xs[1..], keep)
  }

  /** The filtered list holds exactly the elements that pass. */
  lemma {:induction false} FilterMembers<T>(xs: seq<T>, keep: T -> bool)
    ensures forall i :: 0 <= i < |Filter(xs, keep)| ==> Filter(xs, keep)[i] in xs && keep(Filter(xs, keep)[i])
    ensures forall i :: 0 <= i < |xs| && keep(xs[i]) ==> xs[i] in Filter(xs, keep)
  {
    if |xs| > 0 {
      FilterMembers(xs[1..], keep);
      var rest := Filter(xs[1..], keep);
      assert forall x :: x in rest ==> x in xs by {
        forall x | x in rest ensures x in xs {
          var k :| 0 <= k < |xs[1..]| && xs[1..][k] == x;
          assert xs[k + 1] == x;
        }
      }
      forall i | 0 <= i < |xs| && keep(xs[i]) ensures xs[i] in Filter(xs, keep) {
        if i > 0 {
          assert xs[i] == xs[1..][i - 1];
        }
      }
    }
  }

  /** Filtering keeps the order: it distributes over concatenation. */
  lemma {:induction false} FilterAppend<T>(xs: seq<T>, ys: seq<T>, keep: T -> bool)
    ensures Filter(xs + ys, keep) == Filter(xs, keep) + Filter(ys, keep)
  {
    if |xs| > 0 {
      assert (xs + ys)[1..] == xs[1..] + ys;
      FilterAppend(xs[1..], ys, keep);
    } else {
      assert xs + ys == ys;
    }
  }

  lemma TakeSnoc<T>(xs: seq<T>, i: nat)
    requires i < |xs|
    ensures xs[..i + 1] == xs[..i] + [xs[i]]
  {
  }

  /** One more element: the filter of the longer list is the old filter plus that element, if kept. */
  lemma FilterSnoc<T>(xs: seq<T>, x: T, keep: T -> bool)
    ensures Filter(xs + [x], keep) == Filter(xs, keep) + (if keep(x) then [x] else [])
  {
    FilterAppend(xs, [x], keep);
  }

  /** Nothing is dropped when everything passes. */
  lemma {:induction false} FilterAll<T>(xs: seq<T>, keep: T -> bool)
    requires forall i :: 0 <= i < |xs| ==> keep(xs[i])
    ensures Filter(xs, keep) == xs
  {
    if |xs| > 0 {
      FilterAll(xs[1..], keep);
      assert xs == [xs[0]] + xs[1..];
    }
  }

  /** Everything is dropped when nothing passes. */
  lemma {:induction false} FilterNone<T>(xs: seq<T>, keep: T -> bool)
    requires forall i :: 0 <= i < |xs| ==> !keep(xs[i])
    ensures Filter(xs, keep) == []
  {
    if |xs| > 0 {
      FilterNone(xs[1..], keep);
    }
  }

  // ---------------------------------------------------------------------
  // str(n) and xs[:n]
  // ---------------------------------------------------------------------

  function DigitChar(d: nat): (c: char)
    requires d < 10
    ensures '0' <= c <= '9'
  {
    (48 + d) as char
  }

  /** Python's `str(n)` for a natural number. */
  function NatToString(n: nat): (r: string)
    ensures |r| >= 1
    ensures forall i :: 0 <= i < |r| ==> '0' <= r[i] <= '9'
  {
    if n < 10 then [DigitChar(n)] else NatToString(n / 10) + [DigitChar(n % 10)]
  }

  /** The number a string of decimal digits denotes. */
  function DigitsValue(s: string): nat
    requires forall i :: 0 <= i < |s| ==> '0' <= s[i] <= '9'
  {
    if |s| == 0 then 0 else DigitsValue(s[..|s| - 1]) * 10 + ((s[|s| - 1] as int) - 48)
  }

  /** `int(str(n)) == n`. */
  lemma {:induction false} NatToStringValue(n: nat)
    ensures DigitsValue(NatToString(n)) == n
  {
    var s := NatToString(n);
    if n >= 10 {
      NatToStringValue(n / 10);
      assert s[..|s| - 1] == NatToString(n / 10);
    }
  }

  /** Distinct numbers have distinct decimal strings. */
  lemma NatToStringInjective(m: nat, n: nat)
    requires NatToString(m) == NatToString(n)
    ensures m == n
  {
    NatToStringValue(m);
    NatToStringValue(n);
  }

  function Min(a: int, b: int): int { if a <= b then a else b }
  function Max(a: int, b: int): int { if a <= b then b else a }

  /** Python's slice `xs[:n]`, where a negative n drops that many elements from the end. */
  function PyTake<T>(xs: seq<T>, n: int): (r: seq<T>)
    ensures |r| <= |xs| && r == xs[..|r|]
    ensures n >= 0 ==> |r| == Min(n, |xs|)
    ensures n < 0 ==> |r| == Max(0, |xs| + n)
  {
    if n >= 0 then xs[..Min(n, |xs|)] else xs[..Max(0, |xs| + n)]
  }
}
