/**
 * The SQL LIKE operator as the repository queries use it, without an
 * ESCAPE clause: in the pattern '%' matches any run of characters, '_'
 * matches exactly one character, and every other character matches itself.
 */
module SqlLike {
  import opened Text

  predicate IsWildcard(c: char)
  {
    c == '%' || c == '_'
  }

  /** A text in which LIKE sees no wildcard. */
  predicate Literal(k: string)
  {
    forall i :: 0 <= i < |k| ==> !IsWildcard(k[i])
  }

  /** s LIKE pattern. */
  predicate Like(s: string, pattern: string)
    decreases |pattern|, |s|
  {
    if pattern == [] then s == []
    else if pattern[0] == '%' then Like(s, pattern[1..]) || (s != [] && Like(s[1..], pattern))
    else s != [] && (pattern[0] == '_' || pattern[0] == s[0]) && Like(s[1..], pattern[1..])
  }

  /** CONCAT('%', keyword, '%'). */
  function ContainsPattern(keyword: string): (p: string)
    ensures |p| == |keyword| + 2 && p[0] == '%' && p[|p| - 1] == '%'
    ensures p[1..|p| - 1] == keyword
  {
    "%" + keyword + "%"
  }

  /** A lone '%' matches every string. */
  lemma {:induction false} PercentMatchesAll(s: string)
    ensures Like(s, "%")
    decreases |s|
  {
    assert "%"[1..] == "";
    if s != [] {
      PercentMatchesAll(s[1..]);
    }
  }

  /** A wildcard-free text followed by '%' matches exactly the strings that start with that text. */
  lemma {:induction false} LiteralThenPercent(s: string, k: string)
    requires Literal(k)
    ensures Like(s, k + "%") <==> StartsWith(s, k)
    decreases |k|
  {
    if k == [] {
      assert k + "%" == "%";
      PercentMatchesAll(s);
    } else {
      var p := k + "%";
      assert p[0] == k[0] && p[1..] == k[1..] + "%";
      assert !IsWildcard(k[0]);
      if s != [] {
        LiteralThenPercent(s[1..], k[1..]);
        assert StartsWith(s, k) <==> s[0] == k[0] && StartsWith(s[1..], k[1..]) by {
          if StartsWith(s, k) {
            assert s[0] == s[..|k|][0] == k[0];
            assert s[1..][..|k| - 1] == s[..|k|][1..];
          }
          if s[0] == k[0] && StartsWith(s[1..], k[1..]) {
            assert s[..|k|] == [s[0]] + s[1..][..|k| - 1];
            assert k == [k[0]] + k[1..];
          }
        }
      }
    }
  }

  /** A leading '%' lets the rest of the pattern match any suffix. */
  lemma {:induction false} PercentThen(s: string, p: string)
    ensures Like(s, "%" + p) <==> exists i :: 0 <= i <= |s| && Like(s[i..], p)
    decreases |s|
  {
    var q := "%" + p;
    assert q[0] == '%' && q[1..] == p;
    assert s[0..] == s;
    if s != [] {
      PercentThen(s[1..], p);
      assert forall j :: 0 <= j <= |s| - 1 ==> s[1..][j..] == s[j + 1..];
      if Like(s, q) && !Like(s, p) {
        var j :| 0 <= j <= |s[1..]| && Like(s[1..][j..], p);
        assert Like(s[j + 1..], p);
      }
      if !Like(s, q) {
        forall i | 0 <= i <= |s| ensures !Like(s[i..], p) {
          if i > 0 {
            assert s[1..][i - 1..] == s[i..];
          }
        }
      }
    }
  }

  /**
   * For a keyword without wildcards, '%' + keyword + '%' matches exactly
   * the strings that contain the keyword.
   */
  lemma LiteralKeywordMeansContains(s: string, k: string)
    requires Literal(k)
    ensures Like(s, ContainsPattern(k)) <==> Contains(s, k)
  {
    assert ContainsPattern(k) == "%" + (k + "%");
    PercentThen(s, k + "%");
    forall i | 0 <= i <= |s|
      ensures Like(s[i..], k + "%") <==> OccursAt(s, k, i)
    {
      LiteralThenPercent(s[i..], k);
      if StartsWith(s[i..], k) {
        assert s[i..][..|k|] == s[i..i + |k|];
      }
      if OccursAt(s, k, i) {
        assert s[i..][..|k|] == s[i..i + |k|];
      }
    }
  }

  /** The keyword "_" matches every non-empty string: the wildcard is not read as an underscore. */
  lemma UnderscoreMatchesAnyCharacter(s: string)
    ensures Like(s, ContainsPattern("_")) <==> |s| >= 1
  {
    var p := ContainsPattern("_");
    assert p == "%" + ("_" + "%");
    PercentThen(s, "_" + "%");
    if |s| >= 1 {
      assert ("_" + "%")[1..] == "%";
      PercentMatchesAll(s[1..]);
      assert Like(s[0..], "_" + "%");
    }
  }
}
