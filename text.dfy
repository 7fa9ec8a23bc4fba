/** Optional values and results with an error, as the models use them. */
module Wrappers {
  datatype Option<T> = None | Some(value: T)

  datatype Result<T, E> = Ok(value: T) | Err(error: E)
}

/** The Python string operations the generator relies on, written out on
    `seq<char>`: character classes of the two regular expressions,
    `str.replace`, `str.split` and `".".join`. */
module Text {

  /** `[a-zA-Z0-9]`, the character class of both capture groups. */
  predicate IsAlnum(c: char) {
    ('a' <= c <= 'z') || ('A' <= c <= 'Z') || ('0' <= c <= '9')
  }

  /** `\w`, restricted to ASCII: letters, digits and underscore. */
  predicate IsWordChar(c: char) {
    IsAlnum(c) || c == '_'
  }

  predicate AllAlnum(s: string) {
    forall i :: 0 <= i < |s| ==> IsAlnum(s[i])
  }

  predicate AllWordChars(s: string) {
    forall i :: 0 <= i < |s| ==> IsWordChar(s[i])
  }

  predicate StartsWith(s: string, prefix: string) {
    |prefix| <= |s| && s[..|prefix|] == prefix
  }

  /** `s` occurs in `t` starting at index `k`. */
  predicate OccursAt(s: string, t: string, k: int) {
    0 <= k <= |t| - |s| && t[k..k + |s|] == s
  }

  /** Number of occurrences of `c` in `s`. */
  function CountChar(s: string, c: char): nat {
    if s == [] then 0 else (if s[0] == c then 1 else 0) + CountChar(s[1..], c)
  }

  lemma {:induction false} CountCharAppend(s: string, t: string, c: char)
    ensures CountChar(s + t, c) == CountChar(s, c) + CountChar(t, c)
  {
    if s != [] {
      assert (s + t)[0] == s[0];
      assert (s + t)[1..] == s[1..] + t;
      CountCharAppend(s[1..], t, c);
    } else {
      assert s + t == t;
    }
  }

  /** A character that does not occur is counted zero times. */
  lemma {:induction false} AbsentCount(s: string, c: char)
    requires c !in s
    ensures CountChar(s, c) == 0
  {
    if s != [] {
      assert c !in s[1..];
      AbsentCount(s[1..], c);
    }
  }

  /** Index of the first `c` at or after `i`, or `|s|`. */
  function FindChar(s: string, c: char, i: nat): (k: nat)
    requires i <= |s|
    ensures i <= k <= |s|
    ensures k < |s| ==> s[k] == c
    ensures forall j :: i <= j < k ==> s[j] != c
    decreases |s| - i
  {
    if i == |s| then i else if s[i] == c then i else FindChar(s, c, i + 1)
  }

  /** Python's `s.replace(pat, rep)`: every occurrence of `pat`, scanned left
      to right without overlap, is replaced by `rep`. */
  function ReplaceAll(s: string, pat: string, rep: string): (r: string)
    requires pat != []
    ensures |pat| > |s| ==> r == s
    ensures StartsWith(s, pat) ==> r == rep + ReplaceAll(s[|pat|..], pat, rep)
    decreases |s|
  {
    if |s| < |pat| then s
    else if s[..|pat|] == pat then rep + ReplaceAll(s[|pat|..], pat, rep)
    else [s[0]] + ReplaceAll(s[1..], pat, rep)
  }

  /** Python's `s.split(sep)` for a one-character separator: always at least
      one piece, and an empty piece on each side of every separator that has
      nothing between it and a neighbour. */
  function Split(s: string, sep: char): (r: seq<string>)
    ensures |r| >= 1
    ensures |r| == CountChar(s, sep) + 1
    ensures forall k :: 0 <= k < |r| ==> sep !in r[k]
  {
    if s == [] then [""]
    else if s[0] == sep then [""] + Split(s[1..], sep)
    else
      var rest := Split(s[1..], sep);
      [[s[0]] + rest[0]] + rest[1..]
  }

  /** Python's `sep.join(parts)`. */
  function Join(parts: seq<string>, sep: string): string {
    if parts == [] then ""
    else if |parts| == 1 then parts[0]
    else parts[0] + sep + Join(parts[1..], sep)
  }

  /** Every occurrence of `from` replaced by `to`. */
  function MapChar(s: string, from: char, to: char): (r: string)
    ensures |r| == |s|
    ensures forall i :: 0 <= i < |s| ==> r[i] == (if s[i] == from then to else s[i])
  {
    if s == [] then [] else [if s[0] == from then to else s[0]] + MapChar(s[1..], from, to)
  }

  /** Splitting on one character and joining with another is replacing the
      first character by the second. */
  lemma {:induction false} JoinSplitIsMapChar(s: string, sep: char, dot: char)
    ensures Join(Split(s, sep), [dot]) == MapChar(s, sep, dot)
  {
    if s == [] {
    } else if s[0] == sep {
      JoinSplitIsMapChar(s[1..], sep, dot);
      assert MapChar(s, sep, dot) == [dot] + MapChar(s[1..], sep, dot);
    } else {
      var rest := Split(s[1..], sep);
      JoinSplitIsMapChar(s[1..], sep, dot);
      assert MapChar(s, sep, dot) == [s[0]] + MapChar(s[1..], sep, dot);
      if |rest| > 1 {
        assert ([s[0]] + rest[0]) + [dot] + Join(rest[1..], [dot]) == [s[0]] + (rest[0] + [dot] + Join(rest[1..], [dot]));
      }
    }
  }

  lemma AppendAssoc<T>(a: seq<T>, b: seq<T>, c: seq<T>)
    ensures (a + b) + c == a + (b + c)
  {
  }
}
