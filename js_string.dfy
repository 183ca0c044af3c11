/** The JavaScript string operations the client builds its markup with:
    `indexOf`, `split`, `substring`, `replaceAll`, and `Array.join` as the
    inverse of `split`.  Strings are sequences of characters. */
module JsString {

  /** `pat` occurs in `s` starting at index `i`. */
  predicate OccursAt(s: string, pat: string, i: int)
  {
    0 <= i && i + |pat| <= |s| && s[i..i + |pat|] == pat
  }

  /** The first index at or after `k` where `pat` occurs, or -1. */
  function IndexFrom(s: string, pat: string, k: nat): (r: int)
    decreases |s| - k
    ensures r == -1 || (k <= r && OccursAt(s, pat, r))
    ensures r != -1 ==> forall j :: k <= j < r ==> !OccursAt(s, pat, j)
    ensures r == -1 ==> forall j :: k <= j ==> !OccursAt(s, pat, j)
  {
    if k + |pat| > |s| then -1
    else if s[k..k + |pat|] == pat then k
    else IndexFrom(s, pat, k + 1)
  }

  /** `s.indexOf(pat)`: the first occurrence of `pat` in the whole string, or -1. */
  function IndexOf(s: string, pat: string): (r: int)
    ensures -1 <= r
    ensures r == -1 <==> forall j :: !OccursAt(s, pat, j)
    ensures r >= 0 ==> OccursAt(s, pat, r) && forall j :: 0 <= j < r ==> !OccursAt(s, pat, j)
  {
    IndexFrom(s, pat, 0)
  }

  /** The first position of a character is what `indexOf` finds. */
  lemma IndexOfCharAt(s: string, c: char, i: int)
    requires 0 <= i < |s| && s[i] == c && c !in s[..i]
    ensures IndexOf(s, [c]) == i
  {
    OccursAtChar(s, c, i);
    forall j | 0 <= j < i ensures !OccursAt(s, [c], j) {
      OccursAtChar(s, c, j);
      assert s[..i][j] == s[j];
    }
  }

  /** The first position at or after `k` holding `c`, or -1. */
  function CharIndexFrom(s: string, c: char, k: nat): (r: int)
    decreases |s| - k
    ensures r == -1 || (k <= r < |s| && s[r] == c)
    ensures r == -1 ==> forall j :: k <= j < |s| ==> s[j] != c
    ensures r != -1 ==> forall j :: k <= j < r ==> s[j] != c
  {
    if k >= |s| then -1
    else if s[k] == c then k
    else CharIndexFrom(s, c, k + 1)
  }

  /** `s.indexOf(c)` for a one-character pattern, scanning character by
      character. */
  function CharIndex(s: string, c: char): (r: int)
    ensures -1 <= r < |s|
    ensures r == -1 <==> c !in s
    ensures r >= 0 ==> s[r] == c && forall j :: 0 <= j < r ==> s[j] != c
  {
    CharIndexFrom(s, c, 0)
  }

  /** A position holding `c` with no `c` before it is what the scan finds. */
  lemma CharIndexAt(s: string, c: char, i: int)
    requires 0 <= i < |s| && s[i] == c && c !in s[..i]
    ensures CharIndex(s, c) == i
  {
    forall j | 0 <= j < i ensures s[j] != c {
      assert s[..i][j] == s[j];
    }
  }

  /** The character scan agrees with the general `indexOf`. */
  lemma CharIndexIsIndexOf(s: string, c: char)
    ensures CharIndex(s, c) == IndexOf(s, [c])
  {
    var r := CharIndex(s, c);
    IndexOfChar(s, c);
    if r >= 0 {
      IndexOfCharAt(s, c, r);
    }
  }

  /** No character of `x` is the first character of `pat`, so no occurrence
      of `pat` can start inside `x`. */
  predicate StartsNowhereIn(x: string, pat: string)
    requires |pat| > 0
  {
    pat[0] !in x
  }

  /** A one-character pattern occurs exactly where that character is. */
  lemma OccursAtChar(s: string, c: char, i: int)
    ensures OccursAt(s, [c], i) <==> 0 <= i < |s| && s[i] == c
  {
    if 0 <= i < |s| {
      assert s[i..i + 1] == [s[i]];
    }
  }

  /** `indexOf` of a single character finds it iff the character is in the string. */
  lemma IndexOfChar(s: string, c: char)
    ensures IndexOf(s, [c]) == -1 <==> c !in s
    ensures IndexOf(s, [c]) >= 0 ==> s[IndexOf(s, [c])] == c && c !in s[..IndexOf(s, [c])]
  {
    var r := IndexOf(s, [c]);
    if c in s {
      var i :| 0 <= i < |s| && s[i] == c;
      OccursAtChar(s, c, i);
    } else if r >= 0 {
      OccursAtChar(s, c, r);
    }
    if r >= 0 {
      OccursAtChar(s, c, r);
      forall j | 0 <= j < r ensures s[..r][j] != c {
        OccursAtChar(s, c, j);
      }
    }
  }

  /** When no occurrence of `pat` can start inside `x`, the first occurrence
      in `x + pat + y` is the one right after `x`. */
  lemma IndexOfAfter(x: string, pat: string, y: string)
    requires |pat| > 0 && StartsNowhereIn(x, pat)
    ensures IndexOf(x + pat + y, pat) == |x|
  {
    var s := x + pat + y;
    assert s[|x|..|x| + |pat|] == pat;
    assert OccursAt(s, pat, |x|);
    forall j | 0 <= j < |x| ensures !OccursAt(s, pat, j) {
      if j + |pat| <= |s| {
        assert s[j..j + |pat|][0] == x[j];
      }
    }
  }

  /** No occurrence of `pat` at all when its first character is absent. */
  lemma IndexOfAbsent(x: string, pat: string)
    requires |pat| > 0 && StartsNowhereIn(x, pat)
    ensures IndexOf(x, pat) == -1
  {
    forall j | 0 <= j ensures !OccursAt(x, pat, j) {
      if j + |pat| <= |x| {
        assert x[j..j + |pat|][0] == x[j];
      }
    }
  }

  /** The middle of a three-part concatenation is the slice between the
      lengths of the parts around it. */
  lemma SliceMiddle(x: string, y: string, z: string)
    ensures (x + y + z)[|x|..|x| + |y|] == y
    ensures (x + y + z)[..|x|] == x
    ensures (x + y + z)[|x| + |y|..] == z
  {
  }

  /** `s.split(sep)` for a non-empty separator: the pieces between the
      leftmost non-overlapping occurrences of `sep`. */
  function Split(s: string, sep: string): (pieces: seq<string>)
    requires |sep| > 0
    decreases |s|
    ensures |pieces| >= 1
  {
    var i := IndexOf(s, sep);
    if i < 0 then [s] else [s[..i]] + Split(s[i + |sep|..], sep)
  }

  /** The first piece of a split ends at the first separator. */
  lemma SplitAt(s: string, sep: string)
    requires |sep| > 0 && IndexOf(s, sep) >= 0
    ensures Split(s, sep) == [s[..IndexOf(s, sep)]] + Split(s[IndexOf(s, sep) + |sep|..], sep)
  {
  }

  /** `pieces.join(sep)`. */
  function Join(pieces: seq<string>, sep: string): string
  {
    if |pieces| == 0 then ""
    else if |pieces| == 1 then pieces[0]
    else pieces[0] + sep + Join(pieces[1..], sep)
  }

  lemma JoinCons(head: string, tail: seq<string>, sep: string)
    requires |tail| >= 1
    ensures Join([head] + tail, sep) == head + sep + Join(tail, sep)
  {
    assert ([head] + tail)[1..] == tail;
  }

  /** A string is the text before its first occurrence of `sep`, `sep`, and
      the text after it. */
  lemma AroundFirst(s: string, sep: string)
    requires |sep| > 0 && IndexOf(s, sep) >= 0
    ensures s == s[..IndexOf(s, sep)] + sep + s[IndexOf(s, sep) + |sep|..]
  {
    var i := IndexOf(s, sep);
    assert s[i..i + |sep|] == sep;
    assert s == s[..i] + s[i..i + |sep|] + s[i + |sep|..];
  }

  /** Joining the pieces of a split with the same separator gives back the string. */
  lemma {:induction false} SplitJoin(s: string, sep: string)
    requires |sep| > 0
    decreases |s|
    ensures Join(Split(s, sep), sep) == s
  {
    if IndexOf(s, sep) >= 0 {
      SplitJoin(s[IndexOf(s, sep) + |sep|..], sep);
      SplitAt(s, sep);
      JoinCons(s[..IndexOf(s, sep)], Split(s[IndexOf(s, sep) + |sep|..], sep), sep);
      AroundFirst(s, sep);
    }
  }

  /** An occurrence inside a prefix is an occurrence in the whole string. */
  lemma OccursInPrefix(s: string, pat: string, i: nat, j: int)
    requires i <= |s|
    requires OccursAt(s[..i], pat, j)
    ensures OccursAt(s, pat, j)
  {
    assert s[..i][j..j + |pat|] == s[j..j + |pat|];
  }

  /** No piece of a split contains the separator. */
  lemma {:induction false} SplitPiecesFree(s: string, sep: string)
    requires |sep| > 0
    decreases |s|
    ensures forall k :: 0 <= k < |Split(s, sep)| ==> IndexOf(Split(s, sep)[k], sep) == -1
  {
    var i := IndexOf(s, sep);
    if i >= 0 {
      SplitPiecesFree(s[i + |sep|..], sep);
      forall j | OccursAt(s[..i], sep, j) ensures false {
        OccursInPrefix(s, sep, i, j);
      }
    }
  }

  /** The number of occurrences of `sep` in `s` counted left to right without
      overlap: a match is counted and skipped over, otherwise the count moves
      on by one character. */
  function Occurrences(s: string, sep: string): nat
    requires |sep| > 0
    decreases |s|
  {
    if |s| < |sep| then 0
    else if s[..|sep|] == sep then 1 + Occurrences(s[|sep|..], sep)
    else Occurrences(s[1..], sep)
  }

  /** Skipping a prefix in which no occurrence starts loses no occurrence. */
  lemma {:induction false} OccurrencesSkip(s: string, sep: string, i: nat)
    requires |sep| > 0 && i <= |s|
    requires forall j :: 0 <= j < i ==> !OccursAt(s, sep, j)
    decreases i
    ensures Occurrences(s, sep) == Occurrences(s[i..], sep)
  {
    if i > 0 && |s| >= |sep| {
      assert !OccursAt(s, sep, 0);
      forall j | 0 <= j < i - 1 ensures !OccursAt(s[1..], sep, j) {
        if j + |sep| <= |s| - 1 {
          assert s[1..][j..j + |sep|] == s[j + 1..j + 1 + |sep|];
          assert !OccursAt(s, sep, j + 1);
        }
      }
      OccurrencesSkip(s[1..], sep, i - 1);
      assert s[1..][i - 1..] == s[i..];
    }
  }

  /** `split` cuts at every occurrence: it returns one piece more than there
      are occurrences of the separator. */
  lemma {:induction false} SplitCount(s: string, sep: string)
    requires |sep| > 0
    decreases |s|
    ensures |Split(s, sep)| == Occurrences(s, sep) + 1
  {
    var i := IndexOf(s, sep);
    if i < 0 {
      OccurrencesSkip(s, sep, |s|);
      assert s[|s|..] == [];
    } else {
      OccurrencesSkip(s, sep, i);
      var t := s[i..];
      assert t[..|sep|] == sep;
      assert t[|sep|..] == s[i + |sep|..];
      SplitCount(s[i + |sep|..], sep);
    }
  }

  /** The last piece of a join follows the last separator. */
  lemma {:induction false} JoinLast(pieces: seq<string>, sep: string)
    requires |pieces| >= 2
    decreases |pieces|
    ensures Join(pieces, sep) == Join(pieces[..|pieces| - 1], sep) + sep + pieces[|pieces| - 1]
  {
    var init := pieces[..|pieces| - 1];
    if |pieces| > 2 {
      JoinLast(pieces[1..], sep);
      assert pieces[1..][..|pieces| - 2] == init[1..];
      assert pieces[1..][|pieces| - 2] == pieces[|pieces| - 1];
      assert init[0] == pieces[0];
    } else {
      assert init == [pieces[0]];
    }
  }

  /** A string without the separator splits into itself alone. */
  lemma SplitAbsent(s: string, sep: string)
    requires |sep| > 0 && IndexOf(s, sep) == -1
    ensures Split(s, sep) == [s]
  {
  }

  /** The inverse round trip: pieces in which no separator can start are
      recovered by splitting their join. */
  lemma {:induction false} JoinSplit(pieces: seq<string>, sep: string)
    requires |pieces| >= 1 && |sep| > 0
    requires forall k :: 0 <= k < |pieces| ==> StartsNowhereIn(pieces[k], sep)
    ensures Split(Join(pieces, sep), sep) == pieces
  {
    if |pieces| == 1 {
      IndexOfAbsent(pieces[0], sep);
    } else {
      var rest := Join(pieces[1..], sep);
      var s := pieces[0] + sep + rest;
      IndexOfAfter(pieces[0], sep, rest);
      assert s[..|pieces[0]|] == pieces[0];
      assert s[|pieces[0]| + |sep|..] == rest;
      assert Split(s, sep) == [pieces[0]] + Split(rest, sep);
      JoinSplit(pieces[1..], sep);
      assert pieces == [pieces[0]] + pieces[1..];
    }
  }

  /** The last piece of a split on a one-character separator is the text
      after the last separator. */
  lemma {:induction false} SplitLast(x: string, c: char, y: string)
    requires c !in y
    decreases |x|
    ensures var p := Split(x + [c] + y, [c]); p[|p| - 1] == y
  {
    var s := x + [c] + y;
    IndexOfChar(s, c);
    IndexOfChar(y, c);
    assert s[|x|] == c;
    SplitCharAt(s, c);
    if IndexOf(s, [c]) == |x| {
      assert s[IndexOf(s, [c]) + 1..] == y;
      SplitAbsent(y, [c]);
    } else {
      assert s[IndexOf(s, [c]) + 1..] == x[IndexOf(s, [c]) + 1..] + [c] + y;
      SplitLast(x[IndexOf(s, [c]) + 1..], c, y);
    }
  }

  /** Splitting on one character at its first position. */
  lemma SplitCharAt(s: string, c: char)
    requires IndexOf(s, [c]) >= 0
    ensures Split(s, [c]) == [s[..IndexOf(s, [c])]] + Split(s[IndexOf(s, [c]) + 1..], [c])
  {
    SplitAt(s, [c]);
  }

  /** `s.replaceAll(pat, rep)` for a non-empty pattern: every leftmost
      non-overlapping occurrence replaced, scanning left to right. */
  function ReplaceAll(s: string, pat: string, rep: string): (r: string)
    requires |pat| > 0
    decreases |s|
    ensures IndexOf(s, pat) == -1 ==> r == s
  {
    var i := IndexOf(s, pat);
    if i < 0 then s else s[..i] + rep + ReplaceAll(s[i + |pat|..], pat, rep)
  }

  /** `replaceAll` at the first occurrence of the pattern. */
  lemma ReplaceAllAt(s: string, pat: string, rep: string)
    requires |pat| > 0 && IndexOf(s, pat) >= 0
    ensures ReplaceAll(s, pat, rep)
      == s[..IndexOf(s, pat)] + rep + ReplaceAll(s[IndexOf(s, pat) + |pat|..], pat, rep)
  {
  }

  /** `replaceAll` is the same as splitting on the pattern and joining with
      the replacement. */
  lemma {:induction false} ReplaceAllIsSplitJoin(s: string, pat: string, rep: string)
    requires |pat| > 0
    decreases |s|
    ensures ReplaceAll(s, pat, rep) == Join(Split(s, pat), rep)
  {
    if IndexOf(s, pat) >= 0 {
      ReplaceAllIsSplitJoin(s[IndexOf(s, pat) + |pat|..], pat, rep);
      ReplaceAllAt(s, pat, rep);
      SplitAt(s, pat);
      JoinCons(s[..IndexOf(s, pat)], Split(s[IndexOf(s, pat) + |pat|..], pat), rep);
    } else {
      SplitAbsent(s, pat);
    }
  }

  /** An index argument of `substring`: negative becomes 0, past the end becomes the length. */
  function ClampIndex(x: int, n: nat): (r: nat)
    ensures r <= n
    ensures 0 <= x <= n ==> r == x
    ensures x < 0 ==> r == 0
    ensures x > n ==> r == n
  {
    if x < 0 then 0 else if x > n then n else x
  }

  /** `s.substring(start, end)`: both indices clamped into range, and swapped
      when start is past end. */
  function Substring(s: string, start: int, end: int): (r: string)
    ensures 0 <= start <= end <= |s| ==> r == s[start..end]
    ensures 0 <= end <= start <= |s| ==> r == s[end..start]
    ensures start <= 0 && end <= 0 ==> r == ""
    ensures forall c :: c in r ==> c in s
  {
    var a, b := ClampIndex(start, |s|), ClampIndex(end, |s|);
    if a <= b then s[a..b] else s[b..a]
  }

  /** `s.substring(start)`: from the clamped start to the end. */
  function SubstringFrom(s: string, start: int): (r: string)
    ensures 0 <= start <= |s| ==> r == s[start..]
    ensures start <= 0 ==> r == s
    ensures forall c :: c in r ==> c in s
  {
    s[ClampIndex(start, |s|)..]
  }

  /** `substring` does not care in which order its two indices are given. */
  lemma SubstringSymmetric(s: string, a: int, b: int)
    ensures Substring(s, a, b) == Substring(s, b, a)
  {
  }
}
