/** The two line patterns of `build_all_commands`, written as scanners:

      cmd_pattern    self\._command = \"(![a-zA-Z0-9]*)\"
      class_pattern  class ([a-zA-Z0-9]*)\(

    Both have the shape `lead (sigil [a-zA-Z0-9]*) close`, where `close` is
    not alphanumeric, so at a given position the greedy run of alphanumerics
    is the only one that can be followed by `close`. `Search` is Python's
    `pattern.search(line).group(1)`: the capture of the leftmost match. */
module Patterns {
  import opened Wrappers
  import opened Text

  datatype Pattern = Pattern(lead: string, sigil: string, close: char)

  const CommandPattern := Pattern("self._command = \"", "!", '"')
  const ClassPattern := Pattern("class ", "", '(')

  /** The closing character cannot be part of the capture. */
  predicate ValidPattern(p: Pattern) {
    !IsAlnum(p.close)
  }

  /** Declarative reading of the pattern: it matches `line` at index `i`
      with capture `g` when `g` is the sigil followed by alphanumerics and
      `lead + g + close` occurs at `i`. */
  ghost predicate MatchesAt(p: Pattern, line: string, i: int, g: string) {
    StartsWith(g, p.sigil) && AllAlnum(g[|p.sigil|..])
    && OccursAt(p.lead + g + [p.close], line, i)
  }

  /** A match at `i`, and none further left. */
  ghost predicate IsLeftmostMatch(p: Pattern, line: string, i: int, g: string) {
    MatchesAt(p, line, i, g) && forall k, h :: 0 <= k < i ==> !MatchesAt(p, line, k, h)
  }

  /** Length of the longest run of alphanumerics starting at `j`. */
  function AlnumRun(s: string, j: nat): (n: nat)
    requires j <= |s|
    ensures j + n <= |s|
    ensures AllAlnum(s[j..j + n])
    ensures j + n < |s| ==> !IsAlnum(s[j + n])
    decreases |s| - j
  {
    if j < |s| && IsAlnum(s[j]) then
      var n := 1 + AlnumRun(s, j + 1);
      assert s[j..j + n] == [s[j]] + s[j + 1..j + n];
      n
    else 0
  }

  /** Any run of alphanumerics that is not followed by one is the longest. */
  lemma {:induction false} AlnumRunUnique(s: string, j: nat, m: nat)
    requires j + m <= |s| && AllAlnum(s[j..j + m])
    requires j + m < |s| ==> !IsAlnum(s[j + m])
    ensures AlnumRun(s, j) == m
    decreases m
  {
    if m > 0 {
      assert s[j..j + m][0] == s[j];
      assert s[j + 1..j + m] == s[j..j + m][1..];
      AlnumRunUnique(s, j + 1, m - 1);
    }
  }

  /** The pattern tried at index `i` alone. */
  function MatchAt(p: Pattern, line: string, i: nat): (r: Option<string>)
    requires i <= |line|
    ensures r.Some? ==> StartsWith(r.value, p.sigil) && AllAlnum(r.value[|p.sigil|..])
  {
    var j := i + |p.lead| + |p.sigil|;
    if j <= |line| && line[i..j] == p.lead + p.sigil then
      var n := AlnumRun(line, j);
      if j + n < |line| && line[j + n] == p.close then
        var g := p.sigil + line[j..j + n];
        assert g[|p.sigil|..] == line[j..j + n];
        Some(g)
      else None
    else None
  }

  lemma MatchAtSound(p: Pattern, line: string, i: nat)
    requires i <= |line| && MatchAt(p, line, i).Some?
    ensures MatchesAt(p, line, i, MatchAt(p, line, i).value)
  {
    var g := MatchAt(p, line, i).value;
    var j := i + |p.lead| + |p.sigil|;
    var n := AlnumRun(line, j);
    MatchAtParts(p, line, i, j, n);
    OccursConcat(line, i, p.lead + p.sigil, line[j..j + n], p.close);
    AppendAssoc(p.lead, p.sigil, line[j..j + n]);
  }

  /** What `MatchAt` checked when it found a capture. */
  lemma MatchAtParts(p: Pattern, line: string, i: nat, j: nat, n: nat)
    requires i <= |line| && MatchAt(p, line, i).Some?
    requires j == i + |p.lead| + |p.sigil| && j <= |line| && n == AlnumRun(line, j)
    ensures j + n < |line| && line[j + n] == p.close
    ensures line[i..j] == p.lead + p.sigil
    ensures MatchAt(p, line, i).value == p.sigil + line[j..j + n]
  {
  }

  /** Three adjacent pieces of `line` make one occurrence. */
  lemma OccursConcat(line: string, i: nat, a: string, b: string, c: char)
    requires i + |a| + |b| < |line|
    requires line[i..i + |a|] == a && line[i + |a|..i + |a| + |b|] == b && line[i + |a| + |b|] == c
    ensures OccursAt(a + b + [c], line, i)
  {
    assert line[i..i + |a| + |b| + 1] == line[i..i + |a|] + line[i + |a|..i + |a| + |b|] + [line[i + |a| + |b|]];
  }

  /** Any piece of an occurrence is found at the corresponding offset. */
  lemma OccurrenceSlice(w: string, line: string, i: int, a: int, b: int)
    requires OccursAt(w, line, i) && 0 <= a <= b <= |w|
    ensures line[i + a..i + b] == w[a..b]
  {
    forall k | 0 <= k < b - a ensures line[i + a..i + b][k] == w[a..b][k] {
      assert line[i..i + |w|][a + k] == line[i + a + k];
    }
  }

  lemma MatchAtComplete(p: Pattern, line: string, i: nat, g: string)
    requires ValidPattern(p) && i <= |line| && MatchesAt(p, line, i, g)
    ensures MatchAt(p, line, i) == Some(g)
  {
    var j := i + |p.lead| + |p.sigil|;
    var m := |g| - |p.sigil|;
    MatchPieces(p, line, i, g, j, m);
    AlnumRunUnique(line, j, m);
  }

  /** A match at `i` spelled out: the lead and sigil, then the run of
      alphanumerics of the capture, then the closing character. */
  lemma MatchPieces(p: Pattern, line: string, i: nat, g: string, j: nat, m: nat)
    requires i <= |line| && MatchesAt(p, line, i, g)
    requires j == i + |p.lead| + |p.sigil| && m == |g| - |p.sigil|
    ensures j + m < |line| && line[j + m] == p.close
    ensures line[i..j] == p.lead + p.sigil
    ensures AllAlnum(line[j..j + m]) && g == p.sigil + line[j..j + m]
  {
    var run := g[|p.sigil|..];
    assert g == p.sigil + run;
    AppendAssoc(p.lead, p.sigil, run);
    OccursSplit(line, i, p.lead + p.sigil, run, p.close);
  }

  /** An occurrence of three adjacent pieces, read back piece by piece. */
  lemma OccursSplit(line: string, i: nat, a: string, b: string, c: char)
    requires OccursAt(a + b + [c], line, i)
    ensures i + |a| + |b| < |line| && line[i + |a| + |b|] == c
    ensures line[i..i + |a|] == a && line[i + |a|..i + |a| + |b|] == b
  {
    var w := a + b + [c];
    OccurrenceSlice(w, line, i, 0, |a|);
    OccurrenceSlice(w, line, i, |a|, |a| + |b|);
    assert line[i..i + |w|][|a| + |b|] == w[|a| + |b|];
  }

  /** `MatchAt` finds exactly the matches of the declarative reading. */
  lemma MatchAtSpec(p: Pattern, line: string, i: nat, g: string)
    requires ValidPattern(p) && i <= |line|
    ensures MatchAt(p, line, i) == Some(g) <==> MatchesAt(p, line, i, g)
  {
    if MatchAt(p, line, i) == Some(g) {
      MatchAtSound(p, line, i);
    }
    if MatchesAt(p, line, i, g) {
      MatchAtComplete(p, line, i, g);
    }
  }

  /** Tries indices `i, i + 1, ..., |line|` in turn. */
  function SearchFrom(p: Pattern, line: string, i: nat): (r: Option<string>)
    requires i <= |line| + 1
    ensures r.Some? ==> StartsWith(r.value, p.sigil) && AllAlnum(r.value[|p.sigil|..])
    decreases |line| + 1 - i
  {
    if i > |line| then None
    else match MatchAt(p, line, i)
      case Some(g) => Some(g)
      case None => SearchFrom(p, line, i + 1)
  }

  /** `pattern.search(line)`: the capture of the leftmost match, if any. */
  function Search(p: Pattern, line: string): (r: Option<string>)
    ensures r.Some? ==> StartsWith(r.value, p.sigil) && AllAlnum(r.value[|p.sigil|..])
  {
    SearchFrom(p, line, 0)
  }

  lemma {:induction false} SearchFromSpec(p: Pattern, line: string, i: nat, g: string)
    requires ValidPattern(p) && i <= |line| + 1
    requires forall k, h :: 0 <= k < i ==> !MatchesAt(p, line, k, h)
    ensures SearchFrom(p, line, i) == Some(g) <==> exists k :: IsLeftmostMatch(p, line, k, g)
    decreases |line| + 1 - i
  {
    if i <= |line| {
      match MatchAt(p, line, i)
      case Some(g0) =>
        MatchAtSpec(p, line, i, g0);
        MatchAtSpec(p, line, i, g);
        assert IsLeftmostMatch(p, line, i, g0);
        if exists k :: IsLeftmostMatch(p, line, k, g) {
          var k :| IsLeftmostMatch(p, line, k, g);
          assert k == i;
        }
      case None =>
        forall h ensures !MatchesAt(p, line, i, h) {
          MatchAtSpec(p, line, i, h);
        }
        SearchFromSpec(p, line, i + 1, g);
    }
  }

  /** `Search` returns the capture of the leftmost match. */
  lemma SearchSpec(p: Pattern, line: string, g: string)
    requires ValidPattern(p)
    ensures Search(p, line) == Some(g) <==> exists k :: IsLeftmostMatch(p, line, k, g)
  {
    SearchFromSpec(p, line, 0, g);
  }

  lemma {:induction false} SearchFromNone(p: Pattern, line: string, i: nat)
    requires ValidPattern(p) && i <= |line| + 1
    ensures SearchFrom(p, line, i) == None <==> forall k, h :: i <= k ==> !MatchesAt(p, line, k, h)
    decreases |line| + 1 - i
  {
    if i <= |line| {
      SearchFromNone(p, line, i + 1);
      forall h ensures MatchAt(p, line, i) == Some(h) <==> MatchesAt(p, line, i, h) {
        MatchAtSpec(p, line, i, h);
      }
    }
  }

  /** `Search` finds nothing exactly when the pattern matches nowhere. */
  lemma SearchNone(p: Pattern, line: string)
    requires ValidPattern(p)
    ensures Search(p, line) == None <==> forall k, h :: !MatchesAt(p, line, k, h)
  {
    SearchFromNone(p, line, 0);
  }

  /** The shape of a trigger the command pattern captures: `!` followed by
      ASCII letters and digits. */
  predicate IsTrigger(s: string) {
    |s| >= 1 && s[0] == '!' && AllAlnum(s[1..])
  }

  /** A trigger capture is `!` followed by ASCII letters and digits only. */
  lemma CommandCaptureShape(line: string)
    ensures Search(CommandPattern, line).Some? ==> IsTrigger(Search(CommandPattern, line).value)
  {
  }

  /** A character that every match must contain and the line lacks rules
      out any match. */
  lemma AbsentCharNoMatch(p: Pattern, line: string, c: char)
    requires ValidPattern(p) && (c in p.lead || c in p.sigil || c == p.close) && c !in line
    ensures Search(p, line) == None
  {
    SearchNone(p, line);
    forall k, h ensures !MatchesAt(p, line, k, h) {
      var w := p.lead + h + [p.close];
      if StartsWith(h, p.sigil) && 0 <= k <= |line| - |w| {
        assert h == h[..|p.sigil|] + h[|p.sigil|..];
        assert c in w;
        assert c !in line[k..k + |w|];
      }
    }
  }

  /** A character no match can contain splits the search: a line without a
      match on either side of it has none at all. */
  lemma SearchSplit(p: Pattern, a: string, sep: string, b: string)
    requires |sep| == 1
    requires ValidPattern(p) && sep[0] !in p.lead && sep[0] !in p.sigil && !IsAlnum(sep[0]) && sep[0] != p.close
    requires Search(p, a) == None && Search(p, b) == None
    ensures Search(p, a + sep + b) == None
  {
    var x := sep[0];
    assert sep == [x];
    SearchNone(p, a);
    SearchNone(p, b);
    SearchNone(p, a + [x] + b);
    forall k, h ensures !MatchesAt(p, a + [x] + b, k, h) {
      NoMatchAcross(p, a, x, b, k, h);
    }
  }

  lemma NoMatchAcross(p: Pattern, a: string, x: char, b: string, k: int, h: string)
    requires x !in p.lead && x !in p.sigil && !IsAlnum(x) && x != p.close
    requires forall k, h :: !MatchesAt(p, a, k, h)
    requires forall k, h :: !MatchesAt(p, b, k, h)
    ensures !MatchesAt(p, a + [x] + b, k, h)
  {
    var s := a + [x] + b;
    var w := p.lead + h + [p.close];
    if StartsWith(h, p.sigil) && AllAlnum(h[|p.sigil|..]) && 0 <= k <= |s| - |w| {
      if k + |w| <= |a| {
        assert s[k..k + |w|] == a[k..k + |w|];
        assert !MatchesAt(p, a, k, h);
      } else if k > |a| {
        assert s[k..k + |w|] == b[k - |a| - 1..k - |a| - 1 + |w|];
        assert !MatchesAt(p, b, k - |a| - 1, h);
      } else {
        var d := |a| - k;
        assert s[k..k + |w|][d] == x;
        if d < |p.lead| {
          assert w[d] == p.lead[d];
        } else if d < |p.lead| + |p.sigil| {
          assert w[d] == h[d - |p.lead|] == h[..|p.sigil|][d - |p.lead|];
        } else if d < |p.lead| + |h| {
          assert w[d] == h[|p.sigil|..][d - |p.lead| - |p.sigil|];
        } else {
          assert w[d] == p.close;
        }
      }
    }
  }

  /** A match right after a stretch that cannot start one is the leftmost,
      so `Search` returns its capture. */
  lemma SearchFindsAfter(p: Pattern, pad: string, g: string, rest: string)
    requires ValidPattern(p) && p.lead != [] && p.lead[0] !in pad
    requires StartsWith(g, p.sigil) && AllAlnum(g[|p.sigil|..])
    ensures Search(p, pad + p.lead + g + [p.close] + rest) == Some(g)
  {
    var w := p.lead + g + [p.close];
    var s := pad + w + rest;
    assert s == pad + p.lead + g + [p.close] + rest;
    SearchSpec(p, s, g);
    assert s[|pad|..|pad| + |w|] == w;
    assert MatchesAt(p, s, |pad|, g);
    forall k, h | 0 <= k < |pad| ensures !MatchesAt(p, s, k, h) {
      var w' := p.lead + h + [p.close];
      if 0 <= k <= |s| - |w'| {
        assert s[k..k + |w'|][0] == pad[k] != w'[0];
      }
    }
    assert IsLeftmostMatch(p, s, |pad|, g);
  }

  /** The same, for a match at the start of the line. */
  lemma SearchFindsAtStart(p: Pattern, g: string, rest: string)
    requires ValidPattern(p) && p.lead != []
    requires StartsWith(g, p.sigil) && AllAlnum(g[|p.sigil|..])
    ensures Search(p, p.lead + g + [p.close] + rest) == Some(g)
  {
    SearchFindsAfter(p, [], g, rest);
    assert [] + p.lead == p.lead;
  }
}
