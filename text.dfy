/** The JavaScript string operations the email layer relies on, over `seq<char>`:
    `indexOf`, `includes`, `startsWith`, `endsWith` and `split` with a non-empty
    string separator (ECMAScript `String.prototype.split`: the separator is
    searched left to right and matches do not overlap). */
module Text {
  import opened Wrappers

  /** `sep` occurs in `s` starting at index `k`. */
  predicate OccursAt(s: string, sep: string, k: int)
  {
    0 <= k && k + |sep| <= |s| && s[k..k + |sep|] == sep
  }

  /** `sep` occurs in `s` at `k` and nowhere else. */
  ghost predicate SoleOccurrence(s: string, sep: string, k: int)
  {
    OccursAt(s, sep, k) && forall j :: OccursAt(s, sep, j) ==> j == k
  }

  /** Indexing into a slice is indexing into the sequence. */
  lemma SliceIndex(s: string, a: int, n: int, i: int)
    ensures 0 <= a && a + n <= |s| && 0 <= i < n ==> s[a..a + n][i] == s[a + i]
  {
  }

  /** An occurrence in a suffix of `s` is an occurrence in `s`, shifted. */
  lemma OccursInSuffix(s: string, sep: string, a: nat, k: int)
    requires a <= |s|
    ensures OccursAt(s[a..], sep, k) <==> k >= 0 && OccursAt(s, sep, a + k)
  {
    if 0 <= k && k + |sep| <= |s| - a {
      assert s[a..][k..k + |sep|] == s[a + k..a + k + |sep|];
    }
  }

  /** A one-character separator occurs exactly where that character stands. */
  lemma OccursAtChar(s: string, c: char, k: int)
    ensures OccursAt(s, [c], k) <==> 0 <= k < |s| && s[k] == c
  {
    if 0 <= k < |s| {
      assert s[k..k + 1] == [s[k]];
    }
  }

  /** `s.indexOf(sep)`: the leftmost occurrence, `None` for -1. */
  function IndexOf(s: string, sep: string): (r: Option<nat>)
    requires |sep| > 0
    ensures r.Some? ==> OccursAt(s, sep, r.value)
    ensures r.Some? ==> forall k :: 0 <= k < r.value ==> !OccursAt(s, sep, k)
    ensures r.None? ==> forall k :: !OccursAt(s, sep, k)
    decreases |s|
  {
    if |s| < |sep| then None
    else if s[..|sep|] == sep then Some(0)
    else
      var rest := IndexOf(s[1..], sep);
      assert !OccursAt(s, sep, 0) by { assert s[0..|sep|] == s[..|sep|]; }
      forall k | 1 <= k ensures OccursAt(s, sep, k) <==> OccursAt(s[1..], sep, k - 1) {
        OccursInSuffix(s, sep, 1, k - 1);
      }
      match rest
      case None => None
      case Some(k) => Some(k + 1)
  }

  /** `s.includes(sep)`. */
  predicate Contains(s: string, sep: string)
    requires |sep| > 0
  {
    IndexOf(s, sep).Some?
  }

  /** `s.startsWith(p)`. */
  predicate StartsWith(s: string, p: string)
  {
    |p| <= |s| && s[..|p|] == p
  }

  /** `s.endsWith(p)`. */
  predicate EndsWith(s: string, p: string)
  {
    |p| <= |s| && s[|s| - |p|..] == p
  }

  /** `s.split(sep)` for a non-empty separator. */
  function Split(s: string, sep: string): (parts: seq<string>)
    requires |sep| > 0
    ensures |parts| >= 1
    decreases |s|
  {
    match IndexOf(s, sep)
    case None => [s]
    case Some(k) => [s[..k]] + Split(s[k + |sep|..], sep)
  }

  /** `parts.join(sep)`, the inverse of `Split`. */
  function Join(parts: seq<string>, sep: string): string
  {
    if |parts| <= 1 then (if parts == [] then "" else parts[0])
    else parts[0] + sep + Join(parts[1..], sep)
  }

  /** `parts.pop()` on a non-empty array. */
  function Last(parts: seq<string>): string
    requires |parts| > 0
  {
    parts[|parts| - 1]
  }

  /** `parts[i]`, `undefined` past the end. */
  function Piece(parts: seq<string>, i: nat): Option<string>
  {
    if i < |parts| then Some(parts[i]) else None
  }

  /** The text before the first occurrence holds no occurrence. */
  lemma NoneBeforeFirst(s: string, sep: string, k: nat)
    requires |sep| > 0 && IndexOf(s, sep) == Some(k)
    ensures !Contains(s[..k], sep)
  {
    var head := s[..k];
    if IndexOf(head, sep).Some? {
      var m := IndexOf(head, sep).value;
      assert head[m..m + |sep|] == s[m..m + |sep|];
      assert OccursAt(s, sep, m);
    }
  }

  /** Splitting loses nothing: joining the pieces back gives the input, and no
      piece contains the separator. */
  lemma {:induction false} SplitJoin(s: string, sep: string)
    requires |sep| > 0
    ensures Join(Split(s, sep), sep) == s
    ensures forall i :: 0 <= i < |Split(s, sep)| ==> !Contains(Split(s, sep)[i], sep)
    decreases |s|
  {
    match IndexOf(s, sep)
    case None =>
    case Some(k) =>
      var rest := s[k + |sep|..];
      var parts := Split(s, sep);
      assert parts == [s[..k]] + Split(rest, sep);
      SplitJoin(rest, sep);
      NoneBeforeFirst(s, sep, k);
      assert parts[1..] == Split(rest, sep);
      assert Join(parts, sep) == s[..k] + sep + rest;
      assert s == s[..k] + sep + rest;
  }

  /** When `sep` occurs exactly once, at `k`, `split` yields the text before and the
      text after it. */
  lemma SplitAtOnlyOccurrence(s: string, sep: string, k: nat)
    requires |sep| > 0
    requires OccursAt(s, sep, k)
    requires forall j :: OccursAt(s, sep, j) ==> j == k
    ensures Split(s, sep) == [s[..k], s[k + |sep|..]]
  {
    var rest := s[k + |sep|..];
    assert IndexOf(s, sep) == Some(k);
    forall j ensures !OccursAt(rest, sep, j) {
      OccursInSuffix(s, sep, k + |sep|, j);
    }
    assert IndexOf(rest, sep).None?;
  }

  /** When `split` yields exactly two pieces, they are the text before the first
      occurrence of the separator and the text after it, and the text after it holds
      no further occurrence. */
  lemma SplitInTwo(s: string, sep: string) returns (k: nat)
    requires |sep| > 0
    requires |Split(s, sep)| == 2
    ensures IndexOf(s, sep) == Some(k) && k + |sep| <= |s|
    ensures IndexOf(s[k + |sep|..], sep).None?
    ensures Split(s, sep) == [s[..k], s[k + |sep|..]]
  {
    k := IndexOf(s, sep).value;
    assert Split(s, sep) == [s[..k]] + Split(s[k + |sep|..], sep);
  }

  /** A first occurrence at `k` with none from `k + |sep|` on leaves only occurrences
      that overlap the first. */
  lemma OnlyOccurrenceNear(s: string, sep: string, k: nat)
    requires |sep| > 0 && IndexOf(s, sep) == Some(k)
    requires forall j :: j >= k + |sep| ==> !OccursAt(s, sep, j)
    ensures forall j :: OccursAt(s, sep, j) ==> j == k || k < j < k + |sep|
  {
  }

  /** A suffix without occurrences leaves none at or after its start. */
  lemma NoneInSuffix(s: string, sep: string, a: nat)
    requires |sep| > 0 && a <= |s| && IndexOf(s[a..], sep).None?
    ensures forall j :: j >= a ==> !OccursAt(s, sep, j)
  {
    forall j | j >= a ensures !OccursAt(s, sep, j) {
      OccursInSuffix(s, sep, a, j - a);
    }
  }

  /** The last piece of a split on a single character is at least two characters long
      exactly when the text's last two characters are not that character. */
  lemma {:induction false} LastPieceAtLeastTwo(s: string, c: char)
    ensures |Last(Split(s, [c]))| >= 2 <==> |s| >= 2 && s[|s| - 1] != c && s[|s| - 2] != c
    decreases |s|
  {
    match IndexOf(s, [c])
    case None =>
      OccursAtChar(s, c, |s| - 1);
      OccursAtChar(s, c, |s| - 2);
    case Some(k) =>
      OccursAtChar(s, c, k);
      var rest := s[k + 1..];
      LastPieceAtLeastTwo(rest, c);
      assert Last(Split(s, [c])) == Last(Split(rest, [c]));
      if |rest| >= 2 {
        assert rest[|rest| - 1] == s[|s| - 1] && rest[|rest| - 2] == s[|s| - 2];
      }
  }
}
