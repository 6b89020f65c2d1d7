/**
 * The JavaScript string operations the orphan-page script relies on, over
 * `string` (a sequence of UTF-16 code units in JavaScript, of `char` here):
 * `indexOf`, `includes`, `startsWith`, `endsWith`, `replace` with a string
 * pattern (first occurrence only), `split` with a string separator, `join`
 * and `substring` with one argument.
 */
module JsStrings {

  datatype Option<+T> = None | Some(value: T)

  /** `p` occurs in `s` starting at index `i`. */
  predicate OccursAt(s: string, p: string, i: nat)
  {
    i + |p| <= |s| && s[i..i + |p|] == p
  }

  /** `s.indexOf(p)`: the first index at which `p` occurs, or None for -1. */
  function IndexOf(s: string, p: string): (r: Option<nat>)
    ensures r.Some? ==> OccursAt(s, p, r.value)
    ensures r.Some? ==> forall j: nat :: j < r.value ==> !OccursAt(s, p, j)
    ensures r.None? ==> forall j: nat :: !OccursAt(s, p, j)
    decreases |s|
  {
    if |s| < |p| then None
    else if s[..|p|] == p then Some(0)
    else
      var rest := IndexOf(s[1..], p);
      ShiftOccurrence(s, p);
      match rest
      case None => None
      case Some(i) => Some(i + 1)
  }

  /** An occurrence at `j + 1` in `s` is an occurrence at `j` in `s[1..]`. */
  lemma ShiftOccurrence(s: string, p: string)
    requires |s| > 0
    ensures forall j: nat :: 1 <= j ==> (OccursAt(s, p, j) <==> OccursAt(s[1..], p, j - 1))
  {
    forall j: nat | 1 <= j
      ensures OccursAt(s, p, j) <==> OccursAt(s[1..], p, j - 1)
    {
      if j + |p| <= |s| {
        SliceOfTail(s, j, |p|);
      }
    }
  }

  /** A slice of the tail is the slice of the whole one position further on. */
  lemma SliceOfTail(s: string, j: nat, n: nat)
    requires 1 <= j && j + n <= |s|
    ensures s[j..j + n] == s[1..][j - 1..j - 1 + n]
  {
  }

  /** An occurrence with none before it is the one `indexOf` finds. */
  lemma IndexOfFirst(s: string, p: string, k: nat)
    requires OccursAt(s, p, k)
    requires forall j: nat :: j < k ==> !OccursAt(s, p, j)
    ensures IndexOf(s, p) == Some(k)
  {
  }

  /** `s.includes(p)`. */
  predicate Contains(s: string, p: string)
  {
    IndexOf(s, p).Some?
  }

  lemma OccursAtContains(s: string, p: string, k: nat)
    requires OccursAt(s, p, k)
    ensures Contains(s, p)
  {
  }

  /** For a one-character pattern `includes` is character membership. */
  lemma ContainsChar(s: string, c: char)
    ensures Contains(s, [c]) <==> c in s
  {
    if c in s {
      var k :| 0 <= k < |s| && s[k] == c;
      assert OccursAt(s, [c], k);
    }
    if Contains(s, [c]) {
      var i := IndexOf(s, [c]).value;
      assert s[i..i + 1][0] == s[i];
    }
  }

  /** `s.startsWith(p)`. */
  predicate StartsWith(s: string, p: string)
  {
    |p| <= |s| && s[..|p|] == p
  }

  /** `s.endsWith(p)`. */
  predicate EndsWith(s: string, p: string)
  {
    |p| <= |s| && s[|s| - |p|..] == p
  }

  /** `s.replace(p, q)` with a string pattern: only the first occurrence is replaced. */
  function ReplaceFirst(s: string, p: string, q: string): string
    decreases |s|
  {
    if |s| < |p| then s
    else if s[..|p|] == p then q + s[|p|..]
    else [s[0]] + ReplaceFirst(s[1..], p, q)
  }

  /** Replacing the first occurrence is cutting the text where `indexOf` finds the pattern. */
  lemma ReplaceFirstByIndex(s: string, p: string, q: string)
    ensures ReplaceFirst(s, p, q) == match IndexOf(s, p)
      case None => s
      case Some(i) => s[..i] + q + s[i + |p|..]
  {
    match IndexOf(s, p)
    case None => ReplaceAbsent(s, p, q);
    case Some(i) => ReplaceAtFirst(s, p, q, i);
  }

  /** A pattern that occurs nowhere leaves the text unchanged. */
  lemma {:induction false} ReplaceAbsent(s: string, p: string, q: string)
    requires forall j: nat :: !OccursAt(s, p, j)
    ensures ReplaceFirst(s, p, q) == s
    decreases |s|
  {
    if |s| >= |p| {
      assert !OccursAt(s, p, 0);
      ShiftOccurrence(s, p);
      forall j: nat
        ensures !OccursAt(s[1..], p, j)
      {
        assert !OccursAt(s, p, j + 1);
      }
      ReplaceAbsent(s[1..], p, q);
      assert s == [s[0]] + s[1..];
    }
  }

  /** The first occurrence, at `k`, is the one cut out. */
  lemma {:induction false} ReplaceAtFirst(s: string, p: string, q: string, k: nat)
    requires OccursAt(s, p, k)
    requires forall j: nat :: j < k ==> !OccursAt(s, p, j)
    ensures ReplaceFirst(s, p, q) == s[..k] + q + s[k + |p|..]
    decreases k
  {
    if k > 0 {
      assert !OccursAt(s, p, 0);
      ShiftOccurrence(s, p);
      assert OccursAt(s[1..], p, k - 1);
      forall j: nat | j < k - 1
        ensures !OccursAt(s[1..], p, j)
      {
        assert !OccursAt(s, p, j + 1);
      }
      ReplaceAtFirst(s[1..], p, q, k - 1);
      CutShift(s, k - 1, |p|, q);
    }
  }

  /** Cutting the tail at `i` and putting the first character back is cutting the whole at `i + 1`. */
  lemma CutShift(s: string, i: nat, n: nat, q: string)
    requires i + 1 + n <= |s|
    ensures [s[0]] + (s[1..][..i] + q + s[1..][i + n..]) == s[..i + 1] + q + s[i + 1 + n..]
  {
    assert s[..i + 1] == [s[0]] + s[1..][..i];
    assert s[i + 1 + n..] == s[1..][i + n..];
  }

  /** `xs.join(sep)`. */
  function Join(xs: seq<string>, sep: string): string
  {
    if |xs| == 0 then ""
    else if |xs| == 1 then xs[0]
    else xs[0] + sep + Join(xs[1..], sep)
  }

  /**
   * `s.split(sep)` for a non-empty separator: the pieces between the
   * occurrences of `sep`, found left to right without overlap. Joining the
   * pieces gives `s` back, and no piece contains the separator.
   */
  function SplitOn(s: string, sep: string): (r: seq<string>)
    requires |sep| > 0
    ensures |r| >= 1
    decreases |s|
  {
    match IndexOf(s, sep)
    case None => [s]
    case Some(i) => [s[..i]] + SplitOn(s[i + |sep|..], sep)
  }

  /** Joining the pieces of a split gives the text back, and no piece holds the separator. */
  lemma {:induction false} SplitOnJoin(s: string, sep: string)
    requires |sep| > 0
    ensures Join(SplitOn(s, sep), sep) == s
    ensures forall k :: 0 <= k < |SplitOn(s, sep)| ==> !Contains(SplitOn(s, sep)[k], sep)
    decreases |s|
  {
    match IndexOf(s, sep)
    case None =>
    case Some(i) =>
      var rest := s[i + |sep|..];
      var r, t := SplitOn(s, sep), SplitOn(rest, sep);
      SplitOnJoin(rest, sep);
      NoEarlierOccurrence(s, sep, i);
      assert r == [s[..i]] + t;
      assert r[1..] == t;
      assert Join(r, sep) == s[..i] + sep + Join(t, sep);
      assert s == s[..i] + sep + rest;
      forall k | 1 <= k < |r|
        ensures !Contains(r[k], sep)
      {
        assert r[k] == t[k - 1];
      }
  }

  /** Before the first occurrence, the prefix holds no occurrence of its own. */
  lemma NoEarlierOccurrence(s: string, p: string, i: nat)
    requires |p| > 0
    requires OccursAt(s, p, i)
    requires forall j: nat :: j < i ==> !OccursAt(s, p, j)
    ensures !Contains(s[..i], p)
  {
    forall j: nat
      ensures !OccursAt(s[..i], p, j)
    {
      if j + |p| <= i {
        assert s[..i][j..j + |p|] == s[j..j + |p|];
        assert !OccursAt(s, p, j);
      }
    }
  }

  /** `s.substring(start)`: a start past the end gives the empty string. */
  function Substring(s: string, start: nat): (r: string)
    ensures start <= |s| ==> s == s[..start] + r
    ensures start >= |s| ==> r == ""
  {
    if start <= |s| then s[start..] else ""
  }

  /** Taking the substring after a prefix gives back what followed it. */
  lemma SubstringAfterPrefix(a: string, b: string)
    ensures Substring(a + b, |a|) == b
  {
    assert (a + b)[..|a|] == a;
  }

  /** Splitting a string that holds the separator gives at least two pieces. */
  lemma SplitWith(s: string, sep: string)
    requires |sep| > 0
    requires Contains(s, sep)
    ensures |SplitOn(s, sep)| >= 2
  {
  }

  /** Splitting a string that lacks the separator gives it back whole. */
  lemma SplitWithout(s: string, sep: string)
    requires |sep| > 0
    requires !Contains(s, sep)
    ensures SplitOn(s, sep) == [s]
  {
  }

  /** Splitting on a one-character separator gives one piece exactly when it is absent. */
  lemma {:induction false} SplitCharCount(s: string, c: char)
    ensures |SplitOn(s, [c])| == 1 <==> c !in s
  {
    ContainsChar(s, c);
    var r := SplitOn(s, [c]);
    if |r| == 1 {
      assert Join(r, [c]) == r[0];
    }
  }

  /**
   * Split on one character is the inverse of join: pieces that lack the
   * character come back unchanged.
   */
  lemma {:induction false} SplitJoinChar(xs: seq<string>, c: char)
    requires |xs| >= 1
    requires forall k :: 0 <= k < |xs| ==> c !in xs[k]
    ensures SplitOn(Join(xs, [c]), [c]) == xs
    decreases |xs|
  {
    if |xs| == 1 {
      ContainsChar(xs[0], c);
      SplitWithout(xs[0], [c]);
    } else {
      var s := Join(xs, [c]);
      var x := xs[0];
      var t := Join(xs[1..], [c]);
      assert s == x + [c] + t;
      assert OccursAt(s, [c], |x|) by {
        assert s[|x|..|x| + 1] == [c];
      }
      forall j: nat | j < |x|
        ensures !OccursAt(s, [c], j)
      {
        assert s[j] == x[j];
      }
      IndexOfFirst(s, [c], |x|);
      assert s[..|x|] == x;
      assert s[|x| + 1..] == t;
      SplitJoinChar(xs[1..], c);
    }
  }

  /** The first position holding `c` is what `indexOf` finds for `[c]`. */
  lemma IndexOfChar(s: string, c: char, i: nat)
    requires i < |s| && s[i] == c
    requires c !in s[..i]
    ensures IndexOf(s, [c]) == Some(i)
  {
    assert s[i..i + 1] == [c];
    forall j: nat | j < i
      ensures !OccursAt(s, [c], j)
    {
      assert s[..i][j] == s[j..j + 1][0];
    }
    IndexOfFirst(s, [c], i);
  }

  /** A text that starts with a piece free of `c`, then `c`, splits into that piece and the split of the rest. */
  lemma SplitCons(head: string, c: char, rest: string)
    requires c !in head
    ensures SplitOn(head + [c] + rest, [c]) == [head] + SplitOn(rest, [c])
  {
    var s := head + [c] + rest;
    assert s[..|head|] == head;
    IndexOfChar(s, c, |head|);
    assert s[|head| + 1..] == rest;
  }

  /** Appending one more piece after the separator adds one more element to the split. */
  lemma {:induction false} SplitAppendChar(a: string, c: char, b: string)
    requires c !in b
    ensures SplitOn(a + [c] + b, [c]) == SplitOn(a, [c]) + [b]
    decreases |a|
  {
    if c !in a {
      SplitAppendFirstChar(a, c, b);
    } else {
      var head, tail := CutAtFirst(a, c);
      assert a + [c] + b == head + [c] + (tail + [c] + b);
      SplitCons(head, c, tail);
      SplitCons(head, c, tail + [c] + b);
      SplitAppendChar(tail, c, b);
    }
  }

  /** With the separator in neither part, the split is the two parts. */
  lemma SplitAppendFirstChar(a: string, c: char, b: string)
    requires c !in a && c !in b
    ensures SplitOn(a + [c] + b, [c]) == [a, b]
    ensures SplitOn(a, [c]) == [a]
  {
    ContainsChar(a, c);
    ContainsChar(b, c);
    SplitWithout(a, [c]);
    SplitWithout(b, [c]);
    SplitCons(a, c, b);
  }

  /** A text holding `c` is a piece free of `c`, then `c`, then the rest. */
  lemma CutAtFirst(a: string, c: char) returns (head: string, tail: string)
    requires c in a
    ensures c !in head && a == head + [c] + tail
  {
    ContainsChar(a, c);
    var i := IndexOf(a, [c]).value;
    head, tail := a[..i], a[i + 1..];
    forall j | 0 <= j < i
      ensures head[j] != c
    {
      assert !OccursAt(a, [c], j);
      assert a[j..j + 1] == [a[j]];
    }
    assert a[i..i + 1] == [c];
    assert a == head + [c] + tail;
  }

  /**
   * An occurrence found within a prefix is still the first one once more
   * text is appended.
   */
  lemma IndexOfPrefix(s: string, t: string, p: string)
    requires IndexOf(s, p).Some?
    ensures IndexOf(s + t, p) == IndexOf(s, p)
  {
    var k := IndexOf(s, p).value;
    assert (s + t)[k..k + |p|] == s[k..k + |p|];
    forall j: nat | j < k
      ensures !OccursAt(s + t, p, j)
    {
      assert (s + t)[j..j + |p|] == s[j..j + |p|];
      assert !OccursAt(s, p, j);
    }
    IndexOfFirst(s + t, p, k);
  }

  /** Every character of a piece is a character of the joined string. */
  lemma {:induction false} JoinKeepsChars(xs: seq<string>, sep: string, k: nat, c: char)
    requires k < |xs|
    requires c in xs[k]
    ensures c in Join(xs, sep)
    decreases |xs|
  {
    if |xs| > 1 && k > 0 {
      JoinKeepsChars(xs[1..], sep, k - 1, c);
    }
  }

  /**
   * An occurrence at `k` is the first one when some character of the
   * pattern, `p[m]`, is absent from the text up to where that character of
   * the occurrence sits.
   */
  lemma IndexOfByChar(s: string, p: string, k: nat, m: nat)
    requires m < |p|
    requires OccursAt(s, p, k)
    requires p[m] !in s[..k + m]
    ensures IndexOf(s, p) == Some(k)
  {
    forall j: nat | j < k
      ensures !OccursAt(s, p, j)
    {
      assert s[..k + m][j + m] == s[j + m];
      assert s[j..j + |p|][m] == s[j + m];
    }
    IndexOfFirst(s, p, k);
  }

  /** A pattern holding a character the text lacks does not occur in it. */
  lemma NotContainsByChar(s: string, p: string, m: nat)
    requires m < |p|
    requires p[m] !in s
    ensures !Contains(s, p)
  {
    forall j: nat
      ensures !OccursAt(s, p, j)
    {
      if j + |p| <= |s| {
        assert s[j..j + |p|][m] == s[j + m];
      }
    }
  }

  /** A text containing `p` contains every prefix of `p`. */
  lemma ContainsPrefixPattern(s: string, p: string, q: string)
    requires Contains(s, p)
    requires StartsWith(p, q)
    ensures Contains(s, q)
  {
    var k := IndexOf(s, p).value;
    assert s[k..k + |q|] == s[k..k + |p|][..|q|];
    OccursAtContains(s, q, k);
  }

  /**
   * When `t` starts with the first character of `p` and that character does
   * not recur in `p`, no occurrence of `p` in `s + t` straddles the seam,
   * and none lies within `s` if `s` lacks `p`.
   */
  lemma NoOccurrenceBeforeSeam(s: string, t: string, p: string)
    requires |t| > 0 && |p| > 0 && t[0] == p[0]
    requires p[0] !in p[1..]
    requires !Contains(s, p)
    ensures forall j: nat :: j < |s| ==> !OccursAt(s + t, p, j)
  {
    forall j: nat | j < |s|
      ensures !OccursAt(s + t, p, j)
    {
      if j + |p| <= |s| {
        assert (s + t)[j..j + |p|] == s[j..j + |p|];
        assert !OccursAt(s, p, j);
      } else if j + |p| <= |s| + |t| {
        assert (s + t)[j..j + |p|][|s| - j] == t[0];
        assert p[|s| - j] == p[1..][|s| - j - 1];
      }
    }
  }

  /**
   * When the last character of `p` occurs nowhere earlier in `p`, no
   * occurrence of `p` in `s + t`, with `t` starting with `p`, begins inside
   * `s` if `s` lacks `p`: an occurrence straddling the seam would end on an
   * earlier character of `p`.
   */
  lemma NoOccurrenceAcrossSeam(s: string, t: string, p: string)
    requires |p| > 0 && StartsWith(t, p)
    requires p[|p| - 1] !in p[..|p| - 1]
    requires !Contains(s, p)
    ensures forall j: nat :: j < |s| ==> !OccursAt(s + t, p, j)
  {
    forall j: nat | j < |s|
      ensures !OccursAt(s + t, p, j)
    {
      if j + |p| <= |s| {
        assert (s + t)[j..j + |p|] == s[j..j + |p|];
        assert !OccursAt(s, p, j);
      } else if j + |p| <= |s| + |t| {
        var m := j + |p| - |s|;
        assert (s + t)[j..j + |p|][|p| - 1] == t[m - 1];
        assert t[m - 1] == p[m - 1];
        assert p[..|p| - 1][m - 1] == p[m - 1];
      }
    }
  }

  /**
   * The first occurrence of `p` in `s + p + t` is the one right after `s`
   * when `s` lacks `p` and the last character of `p` does not recur in it.
   */
  lemma IndexOfAfterPiece(s: string, p: string, t: string)
    requires |p| > 0
    requires p[|p| - 1] !in p[..|p| - 1]
    requires !Contains(s, p)
    ensures IndexOf(s + p + t, p) == Some(|s|)
  {
    assert s + p + t == s + (p + t);
    assert (p + t)[..|p|] == p;
    NoOccurrenceAcrossSeam(s, p + t, p);
    assert (s + (p + t))[|s|..|s| + |p|] == p;
    IndexOfFirst(s + p + t, p, |s|);
  }
}
