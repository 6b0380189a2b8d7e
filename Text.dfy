/**
 * The string operations the core relies on, with Python's meaning:
 * `str.split(sep)` on one character, `sep.join(parts)`, `str.strip()`,
 * `str.startswith`, and the `\s` / `\S` / `\d` character classes of `re`.
 */
module Text {

  /** CPython's whitespace set, shared by `str.isspace`, `str.strip()` and `re`'s `\s`. */
  predicate IsSpace(c: char) {
    ('\t' <= c <= '\r') || ('\U{1C}' <= c <= '\U{1F}') || c == ' ' || c == '\U{85}' || c == '\U{A0}'
    || c == '\U{1680}' || ('\U{2000}' <= c <= '\U{200A}') || c == '\U{2028}' || c == '\U{2029}'
    || c == '\U{202F}' || c == '\U{205F}' || c == '\U{3000}'
  }

  /** `\d`, restricted to ASCII digits. */
  predicate IsDigit(c: char) {
    '0' <= c <= '9'
  }

  predicate StartsWith(s: string, p: string) {
    |p| <= |s| && s[..|p|] == p
  }

  predicate NoSpace(s: string) {
    forall i :: 0 <= i < |s| ==> !IsSpace(s[i])
  }

  predicate AllSpace(s: string) {
    forall i :: 0 <= i < |s| ==> IsSpace(s[i])
  }

  /** `s.split(sep)`: the pieces between occurrences of `sep`; "" splits into [""]. */
  function Split(s: string, sep: char): (parts: seq<string>)
    ensures |parts| >= 1
    ensures forall i :: 0 <= i < |parts| ==> sep !in parts[i]
  {
    if |s| == 0 then [""]
    else
      var rest := Split(s[1..], sep);
      if s[0] == sep then [""] + rest
      else [[s[0]] + rest[0]] + rest[1..]
  }

  /** `sep.join(parts)`. */
  function Join(parts: seq<string>, sep: string): string
  {
    if |parts| == 0 then ""
    else if |parts| == 1 then parts[0]
    else parts[0] + sep + Join(parts[1..], sep)
  }

  /** Joining the pieces of a split with the same separator gives back the text. */
  lemma {:induction false} JoinSplit(s: string, sep: char)
    ensures Join(Split(s, sep), [sep]) == s
  {
    if |s| > 0 {
      var rest := Split(s[1..], sep);
      JoinSplit(s[1..], sep);
      if s[0] == sep {
        assert Split(s, sep) == [""] + rest;
        assert s == [sep] + s[1..];
      } else if |rest| == 1 {
        assert Split(s, sep) == [[s[0]] + rest[0]];
        assert s == [s[0]] + s[1..];
      } else {
        var parts := Split(s, sep);
        assert parts == [[s[0]] + rest[0]] + rest[1..];
        assert parts[1..] == rest[1..];
        assert Join(rest, [sep]) == rest[0] + [sep] + Join(rest[1..], [sep]);
        assert s == [s[0]] + s[1..];
      }
    }
  }

  lemma {:induction false} SplitNoSep(a: string, sep: char)
    requires sep !in a
    ensures Split(a, sep) == [a]
  {
    if |a| > 0 {
      SplitNoSep(a[1..], sep);
      assert a == [a[0]] + a[1..];
    }
  }

  lemma {:induction false} SplitAtSep(a: string, b: string, sep: char)
    requires sep !in a
    ensures Split(a + [sep] + b, sep) == [a] + Split(b, sep)
  {
    if |a| == 0 {
      assert a + [sep] + b == [sep] + b;
      assert ([sep] + b)[1..] == b;
    } else {
      var s := a + [sep] + b;
      assert s[1..] == a[1..] + [sep] + b;
      SplitAtSep(a[1..], b, sep);
      assert a == [a[0]] + a[1..];
    }
  }

  /** Splitting a join gives back the pieces when no piece holds the separator. */
  lemma {:induction false} SplitJoin(parts: seq<string>, sep: char)
    requires |parts| >= 1
    requires forall i :: 0 <= i < |parts| ==> sep !in parts[i]
    ensures Split(Join(parts, [sep]), sep) == parts
  {
    if |parts| == 1 {
      SplitNoSep(parts[0], sep);
    } else {
      SplitJoin(parts[1..], sep);
      SplitAtSep(parts[0], Join(parts[1..], [sep]), sep);
      assert parts == [parts[0]] + parts[1..];
    }
  }

  /** A joined text holds the separator's character only where the separator was put. */
  lemma {:induction false} JoinNoChar(parts: seq<string>, sep: string, c: char)
    requires c !in sep
    requires forall i :: 0 <= i < |parts| ==> c !in parts[i]
    ensures c !in Join(parts, sep)
  {
    if |parts| > 1 {
      JoinNoChar(parts[1..], sep, c);
    }
  }

  /** Joining two non-empty lists puts one separator between their joins. */
  lemma {:induction false} JoinConcat(xs: seq<string>, ys: seq<string>, sep: string)
    requires |xs| >= 1 && |ys| >= 1
    ensures Join(xs + ys, sep) == Join(xs, sep) + sep + Join(ys, sep)
  {
    if |xs| > 1 {
      JoinConcat(xs[1..], ys, sep);
      assert (xs + ys)[1..] == xs[1..] + ys;
    }
  }

  /** Appending a piece before a final empty piece appends the piece and a separator. */
  lemma JoinSnocEmpty(xs: seq<string>, x: string, sep: string)
    ensures Join(xs + [x] + [""], sep) == Join(xs + [""], sep) + x + sep
  {
    if |xs| == 0 {
      assert xs + [x] + [""] == [x, ""];
      assert xs + [""] == [""];
    } else {
      JoinConcat(xs, [x, ""], sep);
      JoinConcat(xs, [""], sep);
      assert xs + [x] + [""] == xs + [x, ""];
    }
  }

  /** A join starts with its first piece. */
  lemma JoinStartsWithFirst(xs: seq<string>, sep: string)
    requires |xs| >= 1
    ensures StartsWith(Join(xs, sep), xs[0])
  {
    if |xs| > 1 {
      assert Join(xs, sep)[..|xs[0]|] == xs[0];
    }
  }

  /** Joining whitespace with whitespace gives whitespace. */
  lemma {:induction false} JoinAllSpace(xs: seq<string>, sep: string)
    requires AllSpace(sep)
    requires forall i :: 0 <= i < |xs| ==> AllSpace(xs[i])
    ensures AllSpace(Join(xs, sep))
  {
    if |xs| > 1 {
      JoinAllSpace(xs[1..], sep);
      var j := Join(xs[1..], sep);
      assert Join(xs, sep) == xs[0] + sep + j;
      forall k | 0 <= k < |xs[0] + sep + j|
        ensures IsSpace((xs[0] + sep + j)[k])
      {
        if k >= |xs[0]| + |sep| {
          assert (xs[0] + sep + j)[k] == j[k - |xs[0]| - |sep|];
        }
      }
    }
  }

  /** `s.rstrip()`. */
  function RStrip(s: string): (r: string)
    ensures |r| <= |s| && r == s[..|r|]
    ensures r == [] || !IsSpace(r[|r| - 1])
    ensures AllSpace(s[|r|..])
  {
    if |s| > 0 && IsSpace(s[|s| - 1]) then
      var r := RStrip(s[..|s| - 1]);
      assert s[|r|..] == s[..|s| - 1][|r|..] + [s[|s| - 1]];
      r
    else s
  }

  /** `s.lstrip()`. */
  function LStrip(s: string): (r: string)
    ensures |r| <= |s| && r == s[|s| - |r|..]
    ensures r == [] || !IsSpace(r[0])
    ensures AllSpace(s[..|s| - |r|])
  {
    if |s| > 0 && IsSpace(s[0]) then LStrip(s[1..]) else s
  }

  /** `s.strip()`: no whitespace at either end, and only whitespace removed. */
  function Strip(s: string): (r: string)
    ensures r == [] || (!IsSpace(r[0]) && !IsSpace(r[|r| - 1]))
  {
    LStrip(RStrip(s))
  }

  /** The three properties in the contract of `RStrip` pin its result down. */
  lemma RStripUnique(s: string, r: string)
    requires |r| <= |s| && r == s[..|r|]
    requires r == [] || !IsSpace(r[|r| - 1])
    requires AllSpace(s[|r|..])
    ensures RStrip(s) == r
  {
  }

  /** Trailing whitespace after text with content leaves that text's own stripping. */
  lemma RStripAppendContent(x: string, y: string)
    requires !AllSpace(y)
    ensures RStrip(x + y) == x + RStrip(y)
  {
    var ry := RStrip(y);
    var s := x + y;
    var r := x + ry;
    assert s[|r|..] == y[|ry|..];
    RStripUnique(s, r);
  }

  lemma RStripAppendSpace(x: string, y: string)
    requires AllSpace(y)
    ensures RStrip(x + y) == RStrip(x)
  {
    var rx := RStrip(x);
    var s := x + y;
    assert s[..|rx|] == x[..|rx|];
    assert AllSpace(s[|rx|..]) by {
      forall k | |rx| <= k < |s|
        ensures IsSpace(s[k])
      {
        if k < |x| {
          assert s[k] == x[|rx|..][k - |rx|];
        } else {
          assert s[k] == y[k - |x|];
        }
      }
      assert forall k :: 0 <= k < |s| - |rx| ==> s[|rx|..][k] == s[|rx| + k];
    }
    RStripUnique(s, rx);
  }

  /** Stripping twice strips no more than once. */
  lemma RStripIdempotent(s: string)
    ensures RStrip(RStrip(s)) == RStrip(s)
  {
    var r := RStrip(s);
    RStripUnique(r, r);
  }

  /** A prefix ending in a non-space character survives `rstrip()`. */
  lemma RStripKeepsPrefix(s: string, p: string)
    requires StartsWith(s, p)
    requires |p| >= 1 && !IsSpace(p[|p| - 1])
    ensures StartsWith(RStrip(s), p)
  {
  }

  /** A prefix ending in a non-space character is a prefix before `rstrip()` exactly when it is one after. */
  lemma RStripPrefixIff(s: string, p: string)
    requires |p| >= 1 && !IsSpace(p[|p| - 1])
    ensures StartsWith(RStrip(s), p) <==> StartsWith(s, p)
  {
    if StartsWith(RStrip(s), p) {
      assert RStrip(s)[..|p|] == s[..|p|];
    }
    if StartsWith(s, p) {
      RStripKeepsPrefix(s, p);
    }
  }

  /** `rstrip()` leaves text that already ends in a non-space character alone. */
  lemma RStripNoTrail(s: string)
    requires |s| >= 1 && !IsSpace(s[|s| - 1])
    ensures RStrip(s) == s
  {
  }

  lemma LStripNoLead(s: string)
    requires s == [] || !IsSpace(s[0])
    ensures LStrip(s) == s
  {
  }

  /** The longest prefix of `s` without whitespace: the widest span `\S+` can match at the start. */
  function NonSpacePrefix(s: string): (w: string)
    ensures |w| <= |s| && w == s[..|w|]
    ensures NoSpace(w)
    ensures |w| == |s| || IsSpace(s[|w|])
  {
    if |s| == 0 || IsSpace(s[0]) then ""
    else [s[0]] + NonSpacePrefix(s[1..])
  }

  lemma {:induction false} NonSpacePrefixOf(w: string, rest: string)
    requires NoSpace(w)
    requires rest == [] || IsSpace(rest[0])
    ensures NonSpacePrefix(w + rest) == w
  {
    if |w| > 0 {
      assert (w + rest)[1..] == w[1..] + rest;
      NonSpacePrefixOf(w[1..], rest);
      assert w == [w[0]] + w[1..];
    } else {
      assert w + rest == rest;
    }
  }

  lemma NoSpaceSlice(s: string, lo: int, hi: int)
    requires NoSpace(s) && 0 <= lo <= hi <= |s|
    ensures NoSpace(s[lo..hi])
  {
    assert forall k :: 0 <= k < hi - lo ==> s[lo..hi][k] == s[lo + k];
  }

  /** A prefix followed by a run without whitespace: the line starts with the prefix and its run is found whole. */
  lemma PrefixedRun(p: string, w: string)
    requires NoSpace(w)
    ensures StartsWith(p + w, p) && NonSpacePrefix((p + w)[|p|..]) == w
  {
    assert (p + w)[..|p|] == p;
    assert (p + w)[|p|..] == w + [];
    NonSpacePrefixOf(w, []);
  }

  /** A prefix followed by a prefix of what comes after it is a prefix. */
  lemma StartsWithThen(s: string, p: string, q: string)
    requires StartsWith(s, p) && StartsWith(s[|p|..], q)
    ensures StartsWith(s, p + q)
  {
    assert s[..|p| + |q|] == s[..|p|] + s[|p|..][..|q|];
  }

  /** Length of the run of digits at the start of `s`. */
  function DigitRun(s: string): (n: nat)
    ensures n <= |s|
    ensures forall i :: 0 <= i < n ==> IsDigit(s[i])
    ensures n == |s| || !IsDigit(s[n])
  {
    if |s| == 0 || !IsDigit(s[0]) then 0 else 1 + DigitRun(s[1..])
  }
}
