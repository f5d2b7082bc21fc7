/**
 * The Python `str` operations the alerter relies on: `strip()`, `lower()`,
 * substring `in`, `split(",")` and the truthiness of an optional string.
 */
module Strings {
  import opened Options

  /** `if s:` for an `Optional[str]`: present and not the empty string. */
  predicate Present(s: Option<string>)
  {
    s.Some? && s.value != ""
  }

  /** The characters Python's `str.strip()` removes (`str.isspace`). */
  predicate IsSpace(c: char)
  {
    c == ' ' || ('\t' <= c <= '\r') || ('\U{1C}' <= c <= '\U{1F}')
    || c == '\U{85}' || c == '\U{A0}' || c == '\U{1680}'
    || ('\U{2000}' <= c <= '\U{200A}') || c == '\U{2028}' || c == '\U{2029}'
    || c == '\U{202F}' || c == '\U{205F}' || c == '\U{3000}'
  }

  /**
   * Which whitespace is meant: the set `str.strip()` removes, or the smaller
   * set `int()` skips around its digits, which leaves out the four
   * information separators U+001C..U+001F.
   */
  datatype Whitespace = StrWhitespace | IntWhitespace

  predicate IsSpaceIn(ws: Whitespace, c: char)
  {
    IsSpace(c) && (ws == IntWhitespace ==> !('\U{1C}' <= c <= '\U{1F}'))
  }

  /** Every character is whitespace of the given kind (the empty string included). */
  predicate BlankIn(ws: Whitespace, s: string)
  {
    forall i :: 0 <= i < |s| ==> IsSpaceIn(ws, s[i])
  }

  /** Neither end of `s` is whitespace of the given kind. */
  predicate TrimmedIn(ws: Whitespace, s: string)
  {
    s == [] || (!IsSpaceIn(ws, s[0]) && !IsSpaceIn(ws, s[|s| - 1]))
  }

  /** Every character is whitespace (the empty string included). */
  predicate Blank(s: string)
  {
    BlankIn(StrWhitespace, s)
  }

  /** Neither end of `s` is whitespace: what `strip()` leaves behind. */
  predicate Trimmed(s: string)
  {
    TrimmedIn(StrWhitespace, s)
  }

  /** The first index at or after `i` that does not hold whitespace, or `|s|`. */
  function SkipLeading(ws: Whitespace, s: string, i: nat): (k: nat)
    requires i <= |s|
    ensures i <= k <= |s|
    ensures forall j :: i <= j < k ==> IsSpaceIn(ws, s[j])
    ensures k < |s| ==> !IsSpaceIn(ws, s[k])
    decreases |s| - i
  {
    if i == |s| || !IsSpaceIn(ws, s[i]) then i else SkipLeading(ws, s, i + 1)
  }

  /** The end of `s[..j]` once trailing whitespace is dropped. */
  function SkipTrailing(ws: Whitespace, s: string, j: nat): (m: nat)
    requires j <= |s|
    ensures m <= j
    ensures forall x :: m <= x < j ==> IsSpaceIn(ws, s[x])
    ensures m > 0 ==> !IsSpaceIn(ws, s[m - 1])
    decreases j
  {
    if j == 0 || !IsSpaceIn(ws, s[j - 1]) then j else SkipTrailing(ws, s, j - 1)
  }

  /** Removing leading and trailing whitespace of the given kind. */
  function StripIn(ws: Whitespace, s: string): (r: string)
    ensures TrimmedIn(ws, r)
    ensures |r| <= |s|
    ensures forall c :: c in r ==> c in s
    ensures r == [] <==> BlankIn(ws, s)
  {
    var k := SkipLeading(ws, s, 0);
    var m := SkipTrailing(ws, s, |s|);
    if m <= k then
      assert m == 0;
      []
    else
      assert !IsSpaceIn(ws, s[m - 1]);
      assert forall c :: c in s[k..m] ==> c in s by {
        forall c | c in s[k..m] ensures c in s {
          var i :| 0 <= i < m - k && s[k..m][i] == c;
          assert s[k + i] == c;
        }
      }
      s[k..m]
  }

  /** `s.strip()` */
  function Strip(s: string): (r: string)
    ensures Trimmed(r)
    ensures |r| <= |s|
    ensures forall c :: c in r ==> c in s
    ensures r == [] <==> Blank(s)
  {
    StripIn(StrWhitespace, s)
  }

  /** Stripping a string whose ends are not whitespace changes nothing. */
  lemma StripInTrimmed(ws: Whitespace, s: string)
    requires TrimmedIn(ws, s)
    ensures StripIn(ws, s) == s
  {
    if s != [] {
      assert s[0..|s|] == s;
    }
  }

  /** Stripping a string whose ends are not whitespace changes nothing. */
  lemma StripTrimmed(s: string)
    requires Trimmed(s)
    ensures Strip(s) == s
  {
    StripInTrimmed(StrWhitespace, s);
  }

  /** Leading whitespace is skipped up to the first non-space character. */
  lemma {:induction false} SkipLeadingPadded(ws: Whitespace, s: string, i: nat, n: nat)
    requires i <= n < |s| && !IsSpaceIn(ws, s[n])
    requires forall j :: i <= j < n ==> IsSpaceIn(ws, s[j])
    ensures SkipLeading(ws, s, i) == n
    decreases n - i
  {
    if i < n {
      SkipLeadingPadded(ws, s, i + 1, n);
    }
  }

  /** Trailing whitespace is dropped back to the last non-space character. */
  lemma {:induction false} SkipTrailingPadded(ws: Whitespace, s: string, j: nat, n: nat)
    requires 0 < n <= j <= |s| && !IsSpaceIn(ws, s[n - 1])
    requires forall x :: n <= x < j ==> IsSpaceIn(ws, s[x])
    ensures SkipTrailing(ws, s, j) == n
    decreases j
  {
    if n < j {
      SkipTrailingPadded(ws, s, j - 1, n);
    }
  }

  /** Stripping removes exactly the whitespace padding around a trimmed core. */
  lemma StripInPadded(ws: Whitespace, pre: string, w: string, post: string)
    requires BlankIn(ws, pre) && BlankIn(ws, post) && TrimmedIn(ws, w) && w != []
    ensures StripIn(ws, pre + w + post) == w
  {
    var s := pre + w + post;
    var a, b := |pre|, |pre| + |w|;
    assert forall j :: 0 <= j < a ==> s[j] == pre[j];
    assert forall j :: b <= j < |s| ==> s[j] == post[j - b];
    assert s[a] == w[0] && s[b - 1] == w[|w| - 1];
    SkipLeadingPadded(ws, s, 0, a);
    SkipTrailingPadded(ws, s, |s|, b);
    assert s[a..b] == w;
  }

  /** `strip()` removes exactly the whitespace padding around a trimmed core. */
  lemma StripPadded(pre: string, w: string, post: string)
    requires Blank(pre) && Blank(post) && Trimmed(w) && w != []
    ensures Strip(pre + w + post) == w
  {
    StripInPadded(StrWhitespace, pre, w, post);
  }

  /** ASCII case folding of one character. */
  function LowerChar(c: char): char
  {
    if 'A' <= c <= 'Z' then (c as int + 32) as char else c
  }

  /** `s.lower()`, restricted to ASCII letters. */
  function Lower(s: string): (r: string)
    ensures |r| == |s|
    ensures forall i :: 0 <= i < |s| ==> r[i] == LowerChar(s[i])
    ensures forall i :: 0 <= i < |r| ==> !('A' <= r[i] <= 'Z')
  {
    seq(|s|, i requires 0 <= i < |s| => LowerChar(s[i]))
  }

  /** Lowercasing twice is lowercasing once. */
  lemma LowerIdempotent(s: string)
    ensures Lower(Lower(s)) == Lower(s)
  {
    forall i | 0 <= i < |s| ensures Lower(Lower(s))[i] == Lower(s)[i] {
      assert !('A' <= Lower(s)[i] <= 'Z');
    }
  }

  /** `needle` occurs in `hay` starting at `i`. */
  predicate OccursAt(hay: string, needle: string, i: nat)
  {
    i + |needle| <= |hay| && hay[i..i + |needle|] == needle
  }

  /** Python's `needle in hay` on strings. */
  predicate Contains(hay: string, needle: string): (found: bool)
    ensures found ==> |needle| <= |hay|
  {
    exists i: nat :: i <= |hay| && OccursAt(hay, needle, i)
  }

  /** `"" in hay` holds for every `hay`. */
  lemma ContainsEmpty(hay: string)
    ensures Contains(hay, "")
  {
    assert OccursAt(hay, "", 0);
  }

  /** A needle whose first character does not occur in `hay` is not in `hay`. */
  lemma NotContainsFirstChar(hay: string, needle: string)
    requires needle != [] && needle[0] !in hay
    ensures !Contains(hay, needle)
  {
  }

  /** `s.split(sep)` with an explicit one-character separator. */
  function Split(s: string, sep: char): (pieces: seq<string>)
    ensures |pieces| >= 1
    ensures forall k :: 0 <= k < |pieces| ==> sep !in pieces[k]
  {
    if s == [] then [""]
    else
      var rest := Split(s[1..], sep);
      if s[0] == sep then [""] + rest
      else [[s[0]] + rest[0]] + rest[1..]
  }

  /** `sep.join(pieces)` */
  function Join(pieces: seq<string>, sep: char): string
    requires |pieces| >= 1
  {
    if |pieces| == 1 then pieces[0] else pieces[0] + [sep] + Join(pieces[1..], sep)
  }

  /** Prepending a character to the first piece prepends it to the joined text. */
  lemma JoinPrepend(c: char, pieces: seq<string>, sep: char)
    requires |pieces| >= 1
    ensures Join([[c] + pieces[0]] + pieces[1..], sep) == [c] + Join(pieces, sep)
  {
    var ps := [[c] + pieces[0]] + pieces[1..];
    assert ps[1..] == pieces[1..];
  }

  /** Splitting loses nothing: joining the pieces back gives the original string. */
  lemma {:induction false} JoinSplit(s: string, sep: char)
    ensures Join(Split(s, sep), sep) == s
  {
    if s != [] {
      var rest := Split(s[1..], sep);
      JoinSplit(s[1..], sep);
      if s[0] == sep {
        assert ([""] + rest)[1..] == rest;
        assert s == [sep] + s[1..];
      } else {
        JoinPrepend(s[0], rest, sep);
        assert s == [s[0]] + s[1..];
      }
    }
  }

  /** A string without the separator splits into itself alone. */
  lemma {:induction false} SplitNoSeparator(p: string, sep: char)
    requires sep !in p
    ensures Split(p, sep) == [p]
  {
    if p != [] {
      SplitNoSeparator(p[1..], sep);
      assert [p[0]] + p[1..] == p;
    }
  }

  /** Splitting stops at the first separator. */
  lemma {:induction false} SplitAtSeparator(p: string, sep: char, rest: string)
    requires sep !in p
    ensures Split(p + [sep] + rest, sep) == [p] + Split(rest, sep)
  {
    var s := p + [sep] + rest;
    if p == [] {
      assert s[1..] == rest;
    } else {
      assert s[1..] == p[1..] + [sep] + rest;
      SplitAtSeparator(p[1..], sep, rest);
      assert [p[0]] + p[1..] == p;
    }
  }

  /** Joining pieces that do not contain the separator, then splitting, gives the pieces back. */
  lemma {:induction false} SplitJoin(pieces: seq<string>, sep: char)
    requires |pieces| >= 1
    requires forall k :: 0 <= k < |pieces| ==> sep !in pieces[k]
    ensures Split(Join(pieces, sep), sep) == pieces
  {
    if |pieces| == 1 {
      SplitNoSeparator(pieces[0], sep);
    } else {
      assert Join(pieces, sep) == pieces[0] + [sep] + Join(pieces[1..], sep);
      SplitJoin(pieces[1..], sep);
      SplitAtSeparator(pieces[0], sep, Join(pieces[1..], sep));
      assert [pieces[0]] + pieces[1..] == pieces;
    }
  }
}
