/** The wildcard matcher of `internal/engine/pattern.go`, against recursive glob matching. */
module Pattern {
  import opened Bytes

  const STAR: byte := 42

  predicate HasPrefix(s: bytes, p: bytes) {
    p <= s
  }

  predicate HasSuffix(s: bytes, p: bytes) {
    |p| <= |s| && s[|s| - |p|..] == p
  }

  predicate Contains(s: bytes, m: bytes) {
    exists i | 0 <= i <= |s| :: HasPrefix(s[i..], m)
  }

  /** `matchPattern`: only a star at either end is a wildcard. */
  predicate MatchPattern(key: bytes, pattern: bytes) {
    if pattern == [STAR] then true
    else if HasPrefix(pattern, [STAR]) && HasSuffix(pattern, [STAR]) then
      Contains(key, pattern[1..|pattern| - 1])
    else if HasPrefix(pattern, [STAR]) then HasSuffix(key, pattern[1..])
    else if HasSuffix(pattern, [STAR]) then HasPrefix(key, pattern[..|pattern| - 1])
    else key == pattern
  }

  /** The meaning of a pattern: every star stands for any run of bytes. */
  predicate Glob(key: bytes, pattern: bytes)
    decreases |pattern|, |key|
  {
    if pattern == [] then key == []
    else if pattern[0] == STAR then
      Glob(key, pattern[1..]) || (key != [] && Glob(key[1..], pattern))
    else key != [] && key[0] == pattern[0] && Glob(key[1..], pattern[1..])
  }

  predicate StarsOnlyAtEnds(pattern: bytes) {
    forall i | 0 < i < |pattern| - 1 :: pattern[i] != STAR
  }

  lemma {:induction false} GlobOfStar(key: bytes, rest: bytes)
    ensures Glob(key, [STAR] + rest) <==> exists i | 0 <= i <= |key| :: Glob(key[i..], rest)
    decreases |key|
  {
    var p := [STAR] + rest;
    assert p[1..] == rest && key[0..] == key;
    if key != [] {
      GlobOfStar(key[1..], rest);
      if i :| 0 <= i <= |key[1..]| && Glob(key[1..][i..], rest) {
        assert key[1..][i..] == key[i + 1..];
      }
      if i :| 0 < i <= |key| && Glob(key[i..], rest) {
        assert key[1..][i - 1..] == key[i..];
      }
    }
  }

  /** A star-free beginning must stand at the beginning of the key. */
  lemma {:induction false} GlobOfPrefix(key: bytes, p: bytes, rest: bytes)
    requires STAR !in p
    ensures Glob(key, p + rest) <==> HasPrefix(key, p) && Glob(key[|p|..], rest)
  {
    var whole := p + rest;
    if p == [] {
      assert whole == rest && key[0..] == key;
    } else if key != [] && key[0] == p[0] {
      assert whole[1..] == p[1..] + rest;
      GlobOfPrefix(key[1..], p[1..], rest);
      assert HasPrefix(key, p) <==> HasPrefix(key[1..], p[1..]) by {
        assert key == [key[0]] + key[1..] && p == [p[0]] + p[1..];
      }
      if HasPrefix(key, p) {
        assert key[1..][|p| - 1..] == key[|p|..];
      }
    }
  }

  lemma GlobOfLiteral(key: bytes, p: bytes)
    requires STAR !in p
    ensures Glob(key, p) <==> key == p
  {
    assert p + [] == p;
    GlobOfPrefix(key, p, []);
    if HasPrefix(key, p) && key[|p|..] == [] {
      assert key == p + key[|p|..];
    }
  }

  lemma GlobOfAnything(key: bytes)
    ensures Glob(key, [STAR])
  {
    assert [STAR] + [] == [STAR];
    GlobOfStar(key, []);
    assert key[|key|..] == [];
  }

  lemma SuffixMatch(key: bytes, suffix: bytes)
    requires STAR !in suffix
    ensures Glob(key, [STAR] + suffix) <==> HasSuffix(key, suffix)
  {
    GlobOfStar(key, suffix);
    forall i | 0 <= i <= |key| ensures Glob(key[i..], suffix) <==> key[i..] == suffix {
      GlobOfLiteral(key[i..], suffix);
    }
  }

  lemma MiddleMatch(key: bytes, middle: bytes)
    requires STAR !in middle
    ensures Glob(key, [STAR] + (middle + [STAR])) <==> Contains(key, middle)
  {
    GlobOfStar(key, middle + [STAR]);
    forall i | 0 <= i <= |key| ensures Glob(key[i..], middle + [STAR]) <==> HasPrefix(key[i..], middle) {
      PrefixMatch(key[i..], middle);
    }
  }

  lemma PrefixMatch(key: bytes, prefix: bytes)
    requires STAR !in prefix
    ensures Glob(key, prefix + [STAR]) <==> HasPrefix(key, prefix)
  {
    GlobOfPrefix(key, prefix, [STAR]);
    if HasPrefix(key, prefix) {
      GlobOfAnything(key[|prefix|..]);
    }
  }

  lemma FastMatchIsGlob(key: bytes, pattern: bytes)
    requires StarsOnlyAtEnds(pattern)
    ensures MatchPattern(key, pattern) == Glob(key, pattern)
  {
    var n := |pattern|;
    if pattern == [STAR] {
      GlobOfAnything(key);
    } else if HasPrefix(pattern, [STAR]) && HasSuffix(pattern, [STAR]) {
      assert pattern == [STAR] + (pattern[1..n - 1] + [STAR]);
      MiddleMatch(key, pattern[1..n - 1]);
    } else if HasPrefix(pattern, [STAR]) {
      assert pattern == [STAR] + pattern[1..];
      SuffixMatch(key, pattern[1..]);
    } else if HasSuffix(pattern, [STAR]) {
      assert pattern == pattern[..n - 1] + [STAR];
      PrefixMatch(key, pattern[..n - 1]);
    } else {
      GlobOfLiteral(key, pattern);
    }
  }

  function RemoveStars(p: bytes): (r: bytes)
    ensures STAR !in r
  {
    if p == [] then []
    else if p[0] == STAR then RemoveStars(p[1..])
    else [p[0]] + RemoveStars(p[1..])
  }

  lemma {:induction false} GlobWithoutStars(p: bytes)
    ensures Glob(RemoveStars(p), p)
  {
    if p != [] {
      GlobWithoutStars(p[1..]);
      if p[0] != STAR {
        assert RemoveStars(p)[1..] == RemoveStars(p[1..]);
      }
    }
  }

  /** A pattern with a star inside never matches a key without stars. */
  lemma InnerStarIsLiteral(key: bytes, pattern: bytes)
    requires !StarsOnlyAtEnds(pattern) && STAR !in key
    ensures !MatchPattern(key, pattern)
  {
    var n := |pattern|;
    var i :| 0 < i < n - 1 && pattern[i] == STAR;
    assert pattern[1..n - 1][i - 1] == STAR;
    assert pattern[1..][i - 1] == STAR;
    assert pattern[..n - 1][i] == STAR;
    forall j | 0 <= j <= |key| ensures !HasPrefix(key[j..], pattern[1..n - 1]) {
      assert STAR !in key[j..];
    }
  }

  /** The exact domain of the fast matcher: it agrees with glob matching on every key if
      and only if no star stands inside the pattern. */
  lemma FastMatchDomain(pattern: bytes)
    ensures (forall key :: MatchPattern(key, pattern) == Glob(key, pattern))
            <==> StarsOnlyAtEnds(pattern)
  {
    if StarsOnlyAtEnds(pattern) {
      forall key ensures MatchPattern(key, pattern) == Glob(key, pattern) {
        FastMatchIsGlob(key, pattern);
      }
    } else {
      GlobWithoutStars(pattern);
      InnerStarIsLiteral(RemoveStars(pattern), pattern);
    }
  }

  /** What a star means, for patterns of ordinary bytes around it. */
  lemma StarsInWords(key: bytes, p: bytes)
    requires p != [] && Ascii("*")[0] !in p
    ensures MatchPattern(key, Ascii("*"))
    ensures MatchPattern(key, p) <==> key == p
    ensures MatchPattern(key, p + Ascii("*")) <==> p <= key
    ensures MatchPattern(key, Ascii("*") + p) <==> exists a :: key == a + p
    ensures MatchPattern(key, Ascii("*") + p + Ascii("*")) <==> exists a, b :: key == a + p + b
  {
    assert Ascii("*") == [STAR];
    EndStar(key, p);
    FrontStar(key, p);
    BothStars(key, p);
  }

  lemma EndStar(key: bytes, p: bytes)
    requires p != [] && STAR !in p
    ensures MatchPattern(key, p + [STAR]) <==> p <= key
    ensures MatchPattern(key, p) <==> key == p
  {
    assert (p + [STAR])[..|p|] == p && p[0] in p;
  }

  lemma FrontStar(key: bytes, p: bytes)
    requires p != [] && STAR !in p
    ensures MatchPattern(key, [STAR] + p) <==> exists a :: key == a + p
  {
    assert ([STAR] + p)[1..] == p && p[|p| - 1] in p;
    if HasSuffix(key, p) {
      assert key == key[..|key| - |p|] + p;
    }
  }

  lemma ContainsInWords(key: bytes, p: bytes)
    ensures Contains(key, p) <==> exists a, b :: key == a + p + b
  {
    if Contains(key, p) {
      var i :| 0 <= i <= |key| && HasPrefix(key[i..], p);
      assert key == key[..i] + p + key[i + |p|..];
    }
    if a, b :| key == a + p + b {
      assert key[|a|..] == p + b && HasPrefix(key[|a|..], p);
    }
  }

  lemma BothStars(key: bytes, p: bytes)
    requires p != [] && STAR !in p
    ensures MatchPattern(key, [STAR] + p + [STAR]) <==> exists a, b :: key == a + p + b
  {
    var whole := [STAR] + p + [STAR];
    assert whole[1..|whole| - 1] == p;
    assert |whole| >= 3 && whole[0] == STAR && whole[|whole| - 1] == STAR;
    ContainsInWords(key, p);
  }
}
