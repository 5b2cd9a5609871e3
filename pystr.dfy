/** The few operations of Python's `str` that spelling extraction relies on:
    `find`, slicing with a possibly negative stop, `split` on one character and
    `join`. Python strings are sequences of code points and `string` here is a
    sequence of Dafny 4 characters, which are Unicode scalar values: the lone
    surrogate code points a Python `str` can hold have no counterpart. The
    integer helpers `Min` and `Max` that the slices clamp with live here too,
    and the edit distance module uses them. */
module PyStr {

  function Min(a: int, b: int): int { if a <= b then a else b }

  function Max(a: int, b: int): int { if a <= b then b else a }

  /** `pat` occurs in `s` starting at index `i`. */
  predicate OccursAt(s: string, pat: string, i: int) {
    0 <= i && i + |pat| <= |s| && s[i..i + |pat|] == pat
  }

  /** `s.find(pat, i)`: the first index at or after `i` where `pat` occurs, or -1. */
  function FindFrom(s: string, pat: string, i: nat): (r: int)
    ensures r == -1 ==> forall k :: i <= k ==> !OccursAt(s, pat, k)
    ensures r != -1 ==> i <= r && OccursAt(s, pat, r)
    ensures r != -1 ==> forall k :: i <= k < r ==> !OccursAt(s, pat, k)
    decreases |s| - i
  {
    if i + |pat| > |s| then -1
    else if s[i..i + |pat|] == pat then i
    else FindFrom(s, pat, i + 1)
  }

  /** `s.find(pat)`: the first index where `pat` occurs, or -1 when it does not occur. */
  function Find(s: string, pat: string): (r: int)
    ensures r == -1 <==> forall k :: !OccursAt(s, pat, k)
    ensures r != -1 ==> OccursAt(s, pat, r) && forall k :: k < r ==> !OccursAt(s, pat, k)
  {
    FindFrom(s, pat, 0)
  }

  /** `s[:stop]`: a negative stop counts from the end, and the result is
      clamped to the string, so it never fails. */
  function SliceTo(s: string, stop: int): (r: string)
    ensures r <= s
    ensures |r| == if stop >= 0 then Min(stop, |s|) else Max(|s| + stop, 0)
  {
    if stop >= 0 then s[..Min(stop, |s|)] else s[..Max(|s| + stop, 0)]
  }

  /** `s.split(sep)` for a one-character separator: the pieces between the
      separators, empty pieces included. */
  function Split(s: string, sep: char): (r: seq<string>)
    ensures |r| >= 1
    ensures forall k :: 0 <= k < |r| ==> sep !in r[k]
    ensures Join(r, sep) == s
    decreases |s|
  {
    if |s| == 0 then [""]
    else
      var rest := Split(s[1..], sep);
      if s[0] == sep then
        assert s == [sep] + s[1..];
        [""] + rest
      else
        assert s == [s[0]] + s[1..];
        JoinCons(rest, sep);
        [[s[0]] + rest[0]] + rest[1..]
  }

  /** `sep.join(ps)`. */
  function Join(ps: seq<string>, sep: char): string
    decreases |ps|
  {
    if |ps| == 0 then ""
    else if |ps| == 1 then ps[0]
    else ps[0] + [sep] + Join(ps[1..], sep)
  }

  /** Prefixing a character to the first piece prefixes it to the joined string. */
  lemma JoinCons(ps: seq<string>, sep: char)
    requires |ps| >= 1
    ensures forall c :: Join([[c] + ps[0]] + ps[1..], sep) == [c] + Join(ps, sep)
  {
    forall c ensures Join([[c] + ps[0]] + ps[1..], sep) == [c] + Join(ps, sep) {
      var qs := [[c] + ps[0]] + ps[1..];
      assert qs[1..] == ps[1..];
    }
  }

  /** Splitting a join gives back the pieces, provided none contains the separator. */
  lemma {:induction false} SplitJoin(ps: seq<string>, sep: char)
    requires |ps| >= 1
    requires forall k :: 0 <= k < |ps| ==> sep !in ps[k]
    ensures Split(Join(ps, sep), sep) == ps
    decreases |Join(ps, sep)|
  {
    var p := ps[0];
    if |p| > 0 {
      var tail := [p[1..]] + ps[1..];
      assert forall k :: 1 <= k < |tail| ==> tail[k] == ps[k];
      SplitJoin(tail, sep);
      JoinCons(tail, sep);
      assert [[p[0]] + tail[0]] + tail[1..] == ps by {
        assert [p[0]] + p[1..] == p;
        assert tail[1..] == ps[1..];
      }
      var s := Join(ps, sep);
      assert s == [p[0]] + Join(tail, sep);
      assert s[1..] == Join(tail, sep);
    } else if |ps| == 1 {
      assert Join(ps, sep) == "";
    } else {
      SplitJoin(ps[1..], sep);
      var s := Join(ps, sep);
      assert s == [sep] + Join(ps[1..], sep);
      assert s[1..] == Join(ps[1..], sep);
      assert [""] + ps[1..] == ps;
    }
  }

  /** Every character of a join is the separator or a character of some piece. */
  lemma {:induction false} JoinChars(ps: seq<string>, sep: char, c: char)
    requires c in Join(ps, sep)
    ensures c == sep || exists k :: 0 <= k < |ps| && c in ps[k]
    decreases |ps|
  {
    if |ps| >= 2 {
      var rest := Join(ps[1..], sep);
      assert Join(ps, sep) == ps[0] + [sep] + rest;
      if c !in ps[0] && c != sep {
        assert c in rest;
        JoinChars(ps[1..], sep, c);
        var k :| 0 <= k < |ps[1..]| && c in ps[1..][k];
        assert c in ps[k + 1];
      }
    }
  }

  /** A join whose last piece is non-empty ends with that piece's last character. */
  lemma {:induction false} JoinLast(ps: seq<string>, sep: char)
    requires |ps| >= 1 && |ps[|ps| - 1]| > 0
    ensures var s := Join(ps, sep); |s| > 0 && s[|s| - 1] == ps[|ps| - 1][|ps[|ps| - 1]| - 1]
    decreases |ps|
  {
    if |ps| >= 2 {
      JoinLast(ps[1..], sep);
    }
  }
}
