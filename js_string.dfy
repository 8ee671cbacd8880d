/** The JavaScript string operations the request dispatcher relies on:
    `startsWith`, `includes`, `indexOf`, `split` with a non-empty string
    separator, and `Array.prototype.join`. A JavaScript string is modelled
    as a sequence of characters. */
module JsString {

  /** `p` occurs in `s` starting at index `k`. */
  predicate OccursAt(s: string, p: string, k: nat) {
    k + |p| <= |s| && s[k..k + |p|] == p
  }

  /** `s.startsWith(p)`. */
  predicate StartsWith(s: string, p: string) {
    |p| <= |s| && s[..|p|] == p
  }

  /** `i` is the first index at or after `from` where `p` occurs in `s`. */
  predicate FirstOccurrenceFrom(s: string, p: string, from: nat, i: nat) {
    from <= i && OccursAt(s, p, i) && forall k :: from <= k < i ==> !OccursAt(s, p, k)
  }

  /** `s.indexOf(p, from)`: the first index at or after `from` where `p`
      occurs, or -1 when there is none. */
  function IndexOf(s: string, p: string, from: nat): (r: int)
    requires from <= |s|
    ensures r == -1 || (r >= 0 && FirstOccurrenceFrom(s, p, from, r))
    ensures r == -1 ==> forall k :: from <= k ==> !OccursAt(s, p, k)
    decreases |s| - from
  {
    if |s| < from + |p| then -1
    else if OccursAt(s, p, from) then from
    else IndexOf(s, p, from + 1)
  }

  /** `s.includes(p)`, which ECMAScript defines as `indexOf` not being -1. */
  predicate Includes(s: string, p: string) {
    IndexOf(s, p, 0) != -1
  }

  /** `includes` holds exactly when `p` occurs somewhere in `s`. */
  lemma IncludesIff(s: string, p: string)
    ensures Includes(s, p) <==> exists k: nat :: OccursAt(s, p, k)
  {
  }

  /** The first occurrence at or after `from` is unique, so `indexOf` finds it. */
  lemma IndexOfFindsFirst(s: string, p: string, from: nat, i: nat)
    requires from <= |s|
    requires FirstOccurrenceFrom(s, p, from, i)
    ensures IndexOf(s, p, from) == i
  {
  }

  /** `p` occurs in `s` at `k` exactly when the suffix from `k` starts with it. */
  lemma OccursAtIffSuffixStartsWith(s: string, p: string, k: nat)
    requires k <= |s|
    ensures OccursAt(s, p, k) <==> StartsWith(s[k..], p)
  {
    if k + |p| <= |s| {
      assert s[k..][..|p|] == s[k..k + |p|];
    }
  }

  /** `pieces.join(sep)`. */
  function Join(pieces: seq<string>, sep: string): string {
    if |pieces| == 0 then ""
    else if |pieces| == 1 then pieces[0]
    else pieces[0] + sep + Join(pieces[1..], sep)
  }

  /** `s.slice(from).split(sep)` for a non-empty separator: the pieces between
      successive non-overlapping occurrences of `sep`, found left to right. */
  function SplitFrom(s: string, sep: string, from: nat): (r: seq<string>)
    requires sep != "" && from <= |s|
    ensures |r| >= 1
    ensures |r| >= 2 <==> IndexOf(s, sep, from) != -1
    decreases |s| - from
  {
    var j := IndexOf(s, sep, from);
    if j == -1 then [s[from..]]
    else [s[from..j]] + SplitFrom(s, sep, j + |sep|)
  }

  /** `s.split(sep)` for a non-empty separator. */
  function Split(s: string, sep: string): (r: seq<string>)
    requires sep != ""
    ensures |r| >= 2 <==> Includes(s, sep)
  {
    SplitFrom(s, sep, 0)
  }

  /** A suffix is the slice up to `b` followed by the suffix from `b`. */
  lemma SuffixSplits(s: string, a: nat, b: nat)
    requires a <= b <= |s|
    ensures s[a..] == s[a..b] + s[b..]
  {
  }

  /** Splitting and joining again with the same separator gives back the string. */
  lemma {:induction false} SplitJoinRoundTrip(s: string, sep: string, from: nat)
    requires sep != "" && from <= |s|
    ensures Join(SplitFrom(s, sep, from), sep) == s[from..]
    decreases |s| - from
  {
    var j := IndexOf(s, sep, from);
    if j != -1 {
      var st := j + |sep|;
      var rest := SplitFrom(s, sep, st);
      var r := [s[from..j]] + rest;
      SplitJoinRoundTrip(s, sep, st);
      assert r[0] == s[from..j] && r[1..] == rest;
      assert Join(r, sep) == s[from..j] + sep + s[st..];
      SuffixSplits(s, j, st);
      SuffixSplits(s, from, j);
      assert s[j..st] == sep;
    }
  }

  /** An occurrence inside a slice is an occurrence in the whole string. */
  lemma OccursInSlice(s: string, p: string, lo: nat, hi: nat, k: nat)
    requires lo <= hi <= |s|
    requires OccursAt(s[lo..hi], p, k)
    ensures OccursAt(s, p, lo + k) && lo + k + |p| <= hi
  {
    assert k + |p| <= hi - lo;
    forall t | 0 <= t < |p| ensures s[lo + k + t] == p[t] {
      assert s[lo..hi][k..k + |p|][t] == p[t];
    }
    assert s[lo + k..lo + k + |p|] == p;
  }

  /** No piece of a split contains the separator. */
  lemma {:induction false} SplitPiecesAvoidSeparator(s: string, sep: string, from: nat)
    requires sep != "" && from <= |s|
    ensures forall i, k :: 0 <= i < |SplitFrom(s, sep, from)| ==> !OccursAt(SplitFrom(s, sep, from)[i], sep, k)
    decreases |s| - from
  {
    var r := SplitFrom(s, sep, from);
    var j := IndexOf(s, sep, from);
    if j == -1 {
      forall k | OccursAt(r[0], sep, k) ensures false {
        assert r[0] == s[from..|s|];
        OccursInSlice(s, sep, from, |s|, k);
      }
    } else {
      var rest := SplitFrom(s, sep, j + |sep|);
      SplitPiecesAvoidSeparator(s, sep, j + |sep|);
      assert r == [s[from..j]] + rest;
      forall k | OccursAt(s[from..j], sep, k) ensures false {
        OccursInSlice(s, sep, from, j, k);
      }
    }
  }

  /** `s.split(sep)[1]` is the text after the first occurrence of `sep`, up to
      the next occurrence (or to the end of `s` when there is none). */
  lemma SecondPieceBetweenOccurrences(s: string, sep: string, i: nat)
    requires sep != ""
    requires FirstOccurrenceFrom(s, sep, 0, i)
    ensures |Split(s, sep)| >= 2
    ensures var st := i + |sep|;
      Split(s, sep)[1] == if IndexOf(s, sep, st) == -1 then s[st..] else s[st..IndexOf(s, sep, st)]
  {
    IndexOfFindsFirst(s, sep, 0, i);
    var st := i + |sep|;
    assert Split(s, sep) == [s[0..i]] + SplitFrom(s, sep, st);
  }
  /** When some character of `p` does not appear in `s`, `p` does not occur in `s`. */
  lemma MissingCharExcludes(s: string, p: string, c: nat)
    requires c < |p| && p[c] !in s
    ensures !Includes(s, p)
  {
  }

  /** When the last character of `p` appears neither earlier in `p` nor in `a`
      or `b`, the only occurrence of `p` in `a + p + b` is the one after `a`. */
  lemma OnlyOccurrence(a: string, p: string, b: string)
    requires p != ""
    requires p[|p| - 1] !in a && p[|p| - 1] !in p[..|p| - 1] && p[|p| - 1] !in b
    ensures FirstOccurrenceFrom(a + p + b, p, 0, |a|)
    ensures forall k :: k != |a| ==> !OccursAt(a + p + b, p, k)
  {
    var s := a + p + b;
    assert s[|a|..|a| + |p|] == p;
  }
  /** One step of `split`: the piece up to the next separator, then the rest. */
  lemma SplitFromStep(s: string, sep: string, from: nat)
    requires sep != "" && from <= |s|
    ensures var j := IndexOf(s, sep, from);
      SplitFrom(s, sep, from) == if j == -1 then [s[from..]] else [s[from..j]] + SplitFrom(s, sep, j + |sep|)
  {
  }

  /** The next occurrence of a one-character separator `c` at or after `from`
      is the first index where `c` appears. */
  lemma NextChar(s: string, c: char, from: nat, i: nat)
    requires from <= i < |s| && s[i] == c && c !in s[from..i]
    ensures IndexOf(s, [c], from) == i
  {
    assert OccursAt(s, [c], i);
    forall k | from <= k < i ensures !OccursAt(s, [c], k) {
      assert s[k] == s[from..i][k - from];
    }
    IndexOfFindsFirst(s, [c], from, i);
  }

  /** A one-character separator absent from the rest of `s` is not found. */
  lemma NoNextChar(s: string, c: char, from: nat)
    requires from <= |s| && c !in s[from..]
    ensures IndexOf(s, [c], from) == -1
  {
    forall k: nat | from <= k < |s| ensures !OccursAt(s, [c], k) {
      assert s[from..][k - from] == s[k];
    }
  }

  /** Joining pieces that do not contain the one-character separator `c` and
      splitting again on `c` gives back the pieces (stated for the suffix of
      `s` from `from`). */
  lemma {:induction false} SplitFromJoin(s: string, c: char, from: nat, pieces: seq<string>)
    requires from <= |s| && |pieces| >= 1
    requires forall i :: 0 <= i < |pieces| ==> c !in pieces[i]
    requires s[from..] == Join(pieces, [c])
    ensures SplitFrom(s, [c], from) == pieces
    decreases |pieces|
  {
    SplitFromStep(s, [c], from);
    var p0 := pieces[0];
    if |pieces| == 1 {
      NoNextChar(s, c, from);
    } else {
      var i := from + |p0|;
      var rest := pieces[1..];
      assert s[from..] == p0 + [c] + Join(rest, [c]);
      assert s[from..i] == p0 by {
        assert s[from..][..|p0|] == s[from..i];
      }
      assert s[i] == s[from..][|p0|] == c;
      NextChar(s, c, from, i);
      assert s[i + 1..] == s[from..][|p0| + 1..] == Join(rest, [c]);
      SplitFromJoin(s, c, i + 1, rest);
    }
  }

  /** The same, for the whole string. */
  lemma SplitJoinedPieces(pieces: seq<string>, c: char)
    requires |pieces| >= 1
    requires forall i :: 0 <= i < |pieces| ==> c !in pieces[i]
    ensures Split(Join(pieces, [c]), [c]) == pieces
  {
    var s := Join(pieces, [c]);
    SplitFromJoin(s, c, 0, pieces);
  }
}
