/**
 The glob matcher of the plugin configuration: `*` stands for any run of
 bytes, or, where it may not cross `/`, for any run without one; every other
 byte stands for itself up to ASCII case.
 */
module Glob {
  import opened Common

  const STAR: byte := 0x2A
  const SLASH: byte := 0x2F

  function FoldCase(b: byte): byte {
    if 0x41 <= b <= 0x5A then b + 0x20 else b
  }

  predicate AsciiByteEq(left: byte, right: byte) {
    if left < 0x80 && right < 0x80 then FoldCase(left) == FoldCase(right) else left == right
  }

  /** A star may stand for the bytes `from..to` of the path. */
  ghost predicate Spans(path: seq<byte>, cross: bool, from: nat, to: nat) {
    from <= to <= |path| && (cross || forall j :: from <= j < to ==> path[j] != SLASH)
  }

  /** The pattern from `p` on matches the path from `s` on. */
  ghost predicate MatchesFrom(pattern: seq<byte>, path: seq<byte>, cross: bool, p: nat, s: nat)
    requires p <= |pattern| && s <= |path|
    decreases |pattern| - p
  {
    if p == |pattern| then s == |path|
    else if pattern[p] == STAR then
      exists k: nat :: Spans(path, cross, s, k) && MatchesFrom(pattern, path, cross, p + 1, k)
    else s < |path| && AsciiByteEq(pattern[p], path[s]) && MatchesFrom(pattern, path, cross, p + 1, s + 1)
  }

  ghost predicate Matches(pattern: seq<byte>, path: seq<byte>, cross: bool) {
    MatchesFrom(pattern, path, cross, 0, 0)
  }

  /** The star-free stretch `a..b` of the pattern matches the path at `s`. */
  ghost predicate LiteralAt(pattern: seq<byte>, path: seq<byte>, a: nat, b: nat, s: nat)
    requires a <= b <= |pattern|
  {
    s + (b - a) <= |path|
    && forall i :: a <= i < b ==> AsciiByteEq(pattern[i], path[s + (i - a)])
  }

  ghost predicate StarFree(pattern: seq<byte>, a: nat, b: nat)
    requires a <= b <= |pattern|
  {
    forall i :: a <= i < b ==> pattern[i] != STAR
  }

  lemma {:induction false} LiteralThenRest(pattern: seq<byte>, path: seq<byte>, cross: bool, a: nat, b: nat, s: nat)
    requires a <= b <= |pattern| && s <= |path| && StarFree(pattern, a, b)
    ensures MatchesFrom(pattern, path, cross, a, s)
       <==> LiteralAt(pattern, path, a, b, s) && MatchesFrom(pattern, path, cross, b, s + (b - a))
    decreases b - a
  {
    if a < b {
      if s < |path| && AsciiByteEq(pattern[a], path[s]) {
        LiteralThenRest(pattern, path, cross, a + 1, b, s + 1);
        assert LiteralAt(pattern, path, a, b, s) <==> LiteralAt(pattern, path, a + 1, b, s + 1);
      }
    }
  }

  /**
   Two occurrences of one literal, at `s` and further right at `k`, with no
   `/` between `s` and `k`: then there is none up to the end of the second,
   since each of its bytes is repeated `k - s` earlier.
   */
  lemma {:induction false} NoSlashCarries(pattern: seq<byte>, path: seq<byte>, a: nat, b: nat, s: nat, k: nat, j: nat)
    requires a <= b <= |pattern| && s < k
    requires LiteralAt(pattern, path, a, b, s) && LiteralAt(pattern, path, a, b, k)
    requires Spans(path, false, s, k)
    requires s <= j < k + (b - a)
    ensures path[j] != SLASH
    decreases j
  {
    if j >= k {
      var i := j - k;
      NoSlashCarries(pattern, path, a, b, s, k, s + i);
      assert AsciiByteEq(pattern[a + i], path[s + (a + i - a)]) && AsciiByteEq(pattern[a + i], path[k + (a + i - a)]);
    }
  }

  /**
   Reaching a second star, the first one's earliest choice is as good as any:
   whatever a later choice matches, the second star can absorb.
   */
  lemma {:induction false} LastStarSuffices(
      pattern: seq<byte>, path: seq<byte>, cross: bool, q: nat, m: nat, p: nat)
    requires q < p < |pattern| && pattern[q] == STAR && pattern[p] == STAR && StarFree(pattern, q + 1, p)
    requires LiteralAt(pattern, path, q + 1, p, m)
    ensures MatchesFrom(pattern, path, cross, q, m) <==> MatchesFrom(pattern, path, cross, p, m + (p - (q + 1)))
  {
    var len := p - (q + 1);
    if MatchesFrom(pattern, path, cross, p, m + len) {
      LiteralThenRest(pattern, path, cross, q + 1, p, m);
      assert Spans(path, cross, m, m);
    }
    if MatchesFrom(pattern, path, cross, q, m) {
      var k: nat :| Spans(path, cross, m, k) && MatchesFrom(pattern, path, cross, q + 1, k);
      LiteralThenRest(pattern, path, cross, q + 1, p, k);
      var k': nat :| Spans(path, cross, k + len, k') && MatchesFrom(pattern, path, cross, p + 1, k');
      if !cross && m < k {
        forall j | m + len <= j < k' ensures path[j] != SLASH {
          if j < k + len {
            NoSlashCarries(pattern, path, q + 1, p, m, k, j);
          }
        }
      }
      assert Spans(path, cross, m + len, k');
    }
  }

  /** Once the literal after a star has failed at `m`, the star has to take the byte at `m`. */
  lemma {:induction false} StarTakesOne(pattern: seq<byte>, path: seq<byte>, cross: bool, q: nat, m: nat)
    requires q < |pattern| && pattern[q] == STAR && m < |path|
    requires !MatchesFrom(pattern, path, cross, q + 1, m)
    ensures MatchesFrom(pattern, path, cross, q, m)
       <==> (cross || path[m] != SLASH) && MatchesFrom(pattern, path, cross, q, m + 1)
  {
    if MatchesFrom(pattern, path, cross, q, m) {
      var k: nat :| Spans(path, cross, m, k) && MatchesFrom(pattern, path, cross, q + 1, k);
      assert Spans(path, cross, m + 1, k);
    }
    if (cross || path[m] != SLASH) && MatchesFrom(pattern, path, cross, q, m + 1) {
      var k: nat :| Spans(path, cross, m + 1, k) && MatchesFrom(pattern, path, cross, q + 1, k);
      assert Spans(path, cross, m, k);
    }
  }

  /** When the path ends inside the literal after a star, moving the star further cannot help. */
  lemma {:induction false} PathExhausted(pattern: seq<byte>, path: seq<byte>, cross: bool, q: nat, m: nat, p: nat)
    requires q < p <= |pattern| && pattern[q] == STAR && StarFree(pattern, q + 1, p)
    requires LiteralAt(pattern, path, q + 1, p, m) && m + (p - (q + 1)) == |path|
    ensures MatchesFrom(pattern, path, cross, q, m) <==> MatchesFrom(pattern, path, cross, p, |path|)
  {
    LiteralThenRest(pattern, path, cross, q + 1, p, m);
    assert Spans(path, cross, m, m);
    if MatchesFrom(pattern, path, cross, q, m) {
      var k: nat :| Spans(path, cross, m, k) && MatchesFrom(pattern, path, cross, q + 1, k);
      LiteralThenRest(pattern, path, cross, q + 1, p, k);
    }
  }

  lemma {:induction false} EndMatchesStar(pattern: seq<byte>, path: seq<byte>, cross: bool, p: nat)
    requires p < |pattern| && pattern[p] == STAR
    ensures MatchesFrom(pattern, path, cross, p, |path|) <==> MatchesFrom(pattern, path, cross, p + 1, |path|)
  {
    assert Spans(path, cross, |path|, |path|);
  }

  // ----- what the relation is, without the code's own words -----

  /** The same byte, or the two cases of one ASCII letter. */
  predicate SameLetter(a: byte, b: byte) {
    a == b || (0x41 <= a <= 0x5A && b == a + 0x20) || (0x41 <= b <= 0x5A && a == b + 0x20)
  }

  ghost predicate SameUpToCase(a: seq<byte>, b: seq<byte>) {
    |a| == |b| && forall i :: 0 <= i < |a| ==> SameLetter(a[i], b[i])
  }

  lemma {:induction false} LettersMatch(a: byte, b: byte)
    ensures AsciiByteEq(a, b) <==> SameLetter(a, b)
  {
  }

  lemma {:induction false} CaseFrom(
      pattern: seq<byte>, path: seq<byte>, pattern': seq<byte>, path': seq<byte>, cross: bool, p: nat, s: nat)
    requires SameUpToCase(pattern, pattern') && SameUpToCase(path, path') && p <= |pattern| && s <= |path|
    requires MatchesFrom(pattern, path, cross, p, s)
    ensures MatchesFrom(pattern', path', cross, p, s)
    decreases |pattern| - p
  {
    if p < |pattern| {
      assert SameLetter(pattern[p], pattern'[p]);
      if pattern[p] == STAR {
        var k: nat :| Spans(path, cross, s, k) && MatchesFrom(pattern, path, cross, p + 1, k);
        CaseFrom(pattern, path, pattern', path', cross, p + 1, k);
        forall j | s <= j < k && path'[j] == SLASH ensures path[j] == SLASH { assert SameLetter(path[j], path'[j]); }
        assert Spans(path', cross, s, k);
      } else {
        assert SameLetter(path[s], path'[s]);
        CaseFrom(pattern, path, pattern', path', cross, p + 1, s + 1);
      }
    }
  }

  /** The case of a letter, in the pattern or in the path, makes no difference to any match. */
  lemma {:induction false} CaseDoesNotMatter(
      pattern: seq<byte>, path: seq<byte>, pattern': seq<byte>, path': seq<byte>, cross: bool)
    requires SameUpToCase(pattern, pattern') && SameUpToCase(path, path')
    ensures Matches(pattern, path, cross) <==> Matches(pattern', path', cross)
  {
    forall i | 0 <= i < |pattern| ensures SameLetter(pattern'[i],
      pattern[i]) { assert SameLetter(pattern[i], pattern'[i]); }
    forall i | 0 <= i < |path| ensures SameLetter(path'[i], path[i]) { assert SameLetter(path[i], path'[i]); }
    if Matches(pattern, path, cross) { CaseFrom(pattern, path, pattern', path', cross, 0, 0); }
    if Matches(pattern', path', cross) { CaseFrom(pattern', path', pattern, path, cross, 0, 0); }
  }

  /** What is matched from two positions on is what the rests match. */
  lemma {:induction false} RestMatches(pattern: seq<byte>, path: seq<byte>, cross: bool, p: nat, s: nat, q: nat, t: nat)
    requires p <= q <= |pattern| && s <= t <= |path|
    ensures MatchesFrom(pattern, path, cross, q, t) <==> MatchesFrom(pattern[p..], path[s..], cross, q - p, t - s)
    decreases |pattern| - q
  {
    if q < |pattern| {
      if pattern[q] == STAR {
        forall k: nat | t <= k <= |path|
          ensures Spans(path, cross, t, k) <==> Spans(path[s..], cross, t - s, k - s)
          ensures MatchesFrom(pattern, path, cross, q + 1, k) <==>
            MatchesFrom(pattern[p..], path[s..], cross, q + 1 - p, k - s)
        {
          SpansRest(path, cross, s, t, k);
          RestMatches(pattern, path, cross, p, s, q + 1, k);
        }
        if MatchesFrom(pattern, path, cross, q, t) {
          var k: nat :| Spans(path, cross, t, k) && MatchesFrom(pattern, path, cross, q + 1, k);
          assert Spans(path[s..], cross, t - s, k - s);
        }
        if MatchesFrom(pattern[p..], path[s..], cross, q - p, t - s) {
          var k: nat :|
            Spans(path[s..], cross, t - s, k) && MatchesFrom(pattern[p..], path[s..], cross, q - p + 1, k);
          assert Spans(path, cross, t, k + s);
        }
      } else if t < |path| {
        RestMatches(pattern, path, cross, p, s, q + 1, t + 1);
      }
    }
  }

  lemma {:induction false} SpansRest(path: seq<byte>, cross: bool, s: nat, t: nat, k: nat)
    requires s <= t <= k <= |path|
    ensures Spans(path, cross, t, k) <==> Spans(path[s..], cross, t - s, k - s)
  {
    if Spans(path[s..], cross, t - s, k - s) && !cross {
      forall j | t <= j < k ensures path[j] != SLASH { assert path[s..][j - s] != SLASH; }
    }
  }

  /** A pattern without a star matches the paths that are the same up to case, and no others. */
  lemma {:induction false} LiteralMatches(pattern: seq<byte>, path: seq<byte>, cross: bool)
    requires forall i :: 0 <= i < |pattern| ==> pattern[i] != 0x2A
    ensures Matches(pattern, path, cross) <==> SameUpToCase(pattern, path)
  {
    LiteralThenRest(pattern, path, cross, 0, |pattern|, 0);
    forall i | 0 <= i < |pattern| && i < |path| ensures AsciiByteEq(pattern[i], path[i]) <==>
      SameLetter(pattern[i], path[i]) {
      LettersMatch(pattern[i], path[i]);
    }
    if LiteralAt(pattern, path, 0, |pattern|, 0) {
      assert forall i :: 0 <= i < |pattern| ==> AsciiByteEq(pattern[i], path[0 + (i - 0)]);
    }
  }

  /** The first star of a pattern stands for some stretch of the path, up to which and from which on the rests match. */
  lemma {:induction false} StarMatches(head: seq<byte>, rest: seq<byte>, path: seq<byte>, cross: bool)
    requires forall i :: 0 <= i < |head| ==> head[i] != 0x2A
    ensures Matches(head + [0x2A] + rest, path, cross) <==>
      && |head| <= |path| && SameUpToCase(head, path[..|head|])
      && exists k: nat :: Stands(path, cross, |head|, k) && Matches(rest, path[k..], cross)
  {
    var n, pattern := |head|, head + [0x2A] + rest;
    assert forall i :: 0 <= i < n ==> pattern[i] == head[i];
    LiteralThenRest(pattern, path, cross, 0, n, 0);
    assert pattern[n + 1..] == rest;
    if n <= |path| {
      HeadMatches(head, rest, path);
      forall k: nat | n <= k <= |path|
        ensures MatchesFrom(pattern, path, cross, n + 1, k) <==> Matches(rest, path[k..], cross)
      {
        RestMatches(pattern, path, cross, n + 1, k, n + 1, k);
      }
      forall k: nat ensures Spans(path, cross, n, k) <==> Stands(path, cross, n, k) { }
    }
  }

  /** A star may stand for the bytes `from..to` of the path. */
  ghost predicate Stands(path: seq<byte>, cross: bool, from: nat, to: nat) {
    from <= to <= |path| && (cross || 0x2F !in path[from..to])
  }

  lemma {:induction false} HeadMatches(head: seq<byte>, rest: seq<byte>, path: seq<byte>)
    requires |head| <= |path|
    ensures LiteralAt(head + [0x2A] + rest, path, 0, |head|, 0) <==> SameUpToCase(head, path[..|head|])
  {
    var pattern := head + [0x2A] + rest;
    forall i | 0 <= i < |head| ensures AsciiByteEq(pattern[i], path[0 + (i - 0)]) <==>
      SameLetter(head[i], path[..|head|][i]) {
      LettersMatch(head[i], path[i]);
    }
  }

  /** The matcher decides the glob relation, though it only ever goes back to its last star. */
  method GlobBytesMatch(pattern: seq<byte>, path: seq<byte>, starMatchesSeparator: bool) returns (matched: bool)
    ensures matched <==> Matches(pattern, path, starMatchesSeparator)
  {
    var p: nat, s: nat := 0, 0;
    var star: Option<nat> := None;
    var starMatch: nat := 0;

    while s < |path|
      invariant p <= |pattern| && s <= |path|
      invariant star.None? ==>
        (Matches(pattern, path, starMatchesSeparator) <==> MatchesFrom(pattern, path, starMatchesSeparator, p, s))
      invariant star.Some? ==>
        && star.value < p && pattern[star.value] == STAR && starMatch <= s
        && s == starMatch + (p - (star.value + 1))
        && StarFree(pattern, star.value + 1, p)
        && LiteralAt(pattern, path, star.value + 1, p, starMatch)
        && (Matches(pattern, path, starMatchesSeparator)
            <==> MatchesFrom(pattern, path, starMatchesSeparator, star.value, starMatch))
      decreases |pattern| - (if star.Some? then star.value else -1), |path| - starMatch, |pattern| - p
    {
      if star.Some? {
        LiteralThenRest(pattern, path, starMatchesSeparator, star.value + 1, p, starMatch);
      }
      if p < |pattern| && pattern[p] == STAR {
        if star.Some? {
          LastStarSuffices(pattern, path, starMatchesSeparator, star.value, starMatch, p);
        }
        star := Some(p);
        p := p + 1;
        starMatch := s;
      } else if p < |pattern| && AsciiByteEq(pattern[p], path[s]) {
        p := p + 1;
        s := s + 1;
      } else if star.Some? {
        StarTakesOne(pattern, path, starMatchesSeparator, star.value, starMatch);
        if !starMatchesSeparator && starMatch < |path| && path[starMatch] == SLASH {
          return false;
        }
        p := star.value + 1;
        starMatch := starMatch + 1;
        s := starMatch;
      } else {
        return false;
      }
    }

    if star.Some? {
      PathExhausted(pattern, path, starMatchesSeparator, star.value, starMatch, p);
    }
    while p < |pattern| && pattern[p] == STAR
      invariant p <= |pattern|
      invariant Matches(pattern, path, starMatchesSeparator) <==>
        MatchesFrom(pattern, path, starMatchesSeparator, p, |path|)
    {
      EndMatchesStar(pattern, path, starMatchesSeparator, p);
      p := p + 1;
    }
    matched := p == |pattern|;
  }
}
