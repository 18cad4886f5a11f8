/** The key pattern matcher behind KEYS: a single-backtrack loop over `*` and `?`,
    compared with the recursive meaning of a glob pattern. */
module Glob {

  /** The meaning of a pattern: `*` stands for any run of characters, `?` for any one. */
  predicate Means(pattern: string, str: string)
    decreases |pattern| + |str|
  {
    if pattern == [] then str == []
    else if pattern[0] == '*' then
      Means(pattern[1..], str) || (str != [] && Means(pattern, str[1..]))
    else
      str != [] && (pattern[0] == '?' || pattern[0] == str[0]) && Means(pattern[1..], str[1..])
  }

  predicate OnlyStars(s: string) {
    forall i :: 0 <= i < |s| ==> s[i] == '*'
  }

  /** The cursors of the matching loop; `star` is the index of the last `*` tried, -1 before any. */
  datatype Cursor = Cursor(p: nat, s: nat, star: int, matchStart: nat) {
    predicate Within(pattern: string, str: string) {
      && p <= |pattern| && s <= |str| && -1 <= star < p && matchStart <= s
      && (star >= 0 ==> pattern[star] == '*')
    }
  }

  predicate Here(pattern: string, str: string, c: Cursor)
    requires c.Within(pattern, str) && c.s < |str|
  {
    c.p < |pattern| && (pattern[c.p] == '?' || pattern[c.p] == str[c.s])
  }

  /** One pass round the loop, when it does not return early. */
  function Advance(pattern: string, str: string, c: Cursor): (r: Cursor)
    requires c.Within(pattern, str) && c.s < |str|
    requires Here(pattern, str, c) || (c.p < |pattern| && pattern[c.p] == '*') || c.star >= 0
    ensures r.Within(pattern, str)
    ensures r.matchStart >= c.matchStart
    ensures r.matchStart == c.matchStart ==> r.star >= c.star
    ensures r.matchStart == c.matchStart && r.star == c.star ==> r.s > c.s
  {
    if Here(pattern, str, c) then c.(p := c.p + 1, s := c.s + 1)
    else if c.p < |pattern| && pattern[c.p] == '*' then
      Cursor(c.p + 1, c.s, c.p, c.s)
    else
      Cursor(c.star + 1, c.matchStart + 1, c.star, c.matchStart + 1)
  }

  /** What the loop answers from a given cursor. */
  predicate Loop(pattern: string, str: string, c: Cursor)
    requires c.Within(pattern, str)
    decreases |str| - c.matchStart, |pattern| - c.star, |str| - c.s
  {
    if c.s == |str| then OnlyStars(pattern[c.p..])
    else if Here(pattern, str, c) || (c.p < |pattern| && pattern[c.p] == '*') || c.star >= 0 then
      Loop(pattern, str, Advance(pattern, str, c))
    else false
  }

  const START := Cursor(0, 0, -1, 0)

  predicate Matches(pattern: string, str: string) {
    pattern == "*" || Loop(pattern, str, START)
  }

  /** The loop of the source. It never accepts what the pattern does not mean, and on a
      subject without `*` it accepts everything the pattern means. */
  method MatchPattern(pattern: string, str: string) returns (matched: bool)
    ensures matched == Matches(pattern, str)
    ensures matched ==> Means(pattern, str)
    ensures '*' !in str ==> (matched <==> Means(pattern, str))
  {
    Sound(pattern, str);
    if '*' !in str { Complete(pattern, str); }
    if pattern == "*" { return true; }
    var p, s, star, matchStart := 0, 0, -1, 0;
    while s < |str|
      invariant Cursor(p, s, star, matchStart).Within(pattern, str)
      invariant Loop(pattern, str, Cursor(p, s, star, matchStart)) == Loop(pattern, str, START)
      decreases |str| - matchStart, |pattern| - star, |str| - s
    {
      ghost var c := Cursor(p, s, star, matchStart);
      if p < |pattern| && (pattern[p] == '?' || pattern[p] == str[s]) {
        p, s := p + 1, s + 1;
      } else if p < |pattern| && pattern[p] == '*' {
        star, p, matchStart := p, p + 1, s;
      } else if star != -1 {
        p, matchStart := star + 1, matchStart + 1;
        s := matchStart;
      } else {
        return false;
      }
      assert Cursor(p, s, star, matchStart) == Advance(pattern, str, c);
    }
    ghost var tail := pattern[p..];
    ghost var from := p;
    while p < |pattern| && pattern[p] == '*'
      invariant from <= p <= |pattern|
      invariant forall i :: from <= i < p ==> pattern[i] == '*'
      invariant OnlyStars(pattern[p..]) == OnlyStars(tail)
    {
      assert pattern[p..] == ['*'] + pattern[p + 1..];
      p := p + 1;
    }
    matched := p == |pattern|;
    if p < |pattern| { assert pattern[p..][0] != '*'; }
  }

  // ----- soundness -----

  lemma {:induction false} OnlyStarsMeansEmpty(pattern: string)
    ensures OnlyStars(pattern) <==> Means(pattern, [])
  {
    if pattern != [] {
      OnlyStarsMeansEmpty(pattern[1..]);
      assert pattern == [pattern[0]] + pattern[1..];
    }
  }

  lemma {:induction false} LoopSound(pattern: string, str: string, c: Cursor)
    requires c.Within(pattern, str) && Loop(pattern, str, c)
    ensures Means(pattern[c.p..], str[c.s..])
            || (c.star >= 0 && Means(pattern[c.star..], str[c.matchStart..]))
    decreases |str| - c.matchStart, |pattern| - c.star, |str| - c.s
  {
    if c.s == |str| {
      OnlyStarsMeansEmpty(pattern[c.p..]);
    } else {
      LoopSound(pattern, str, Advance(pattern, str, c));
      if Here(pattern, str, c) {
        assert pattern[c.p..][1..] == pattern[c.p + 1..] && str[c.s..][1..] == str[c.s + 1..];
      } else if c.p < |pattern| && pattern[c.p] == '*' {
        assert pattern[c.p..][1..] == pattern[c.p + 1..];
      } else {
        assert pattern[c.star..][1..] == pattern[c.star + 1..];
        assert str[c.matchStart..][1..] == str[c.matchStart + 1..];
      }
    }
  }

  lemma {:induction false} StarMeansAnything(str: string)
    ensures Means("*", str)
  {
    if str == [] {
      assert Means("*"[1..], str);
    } else {
      StarMeansAnything(str[1..]);
    }
  }

  /** Whatever the matcher accepts, the pattern means: for all patterns and subjects. */
  lemma Sound(pattern: string, str: string)
    ensures Matches(pattern, str) ==> Means(pattern, str)
  {
    if pattern == "*" {
      StarMeansAnything(str);
    } else if Matches(pattern, str) {
      LoopSound(pattern, str, START);
      assert pattern[0..] == pattern && str[0..] == str;
    }
  }

  // ----- completeness on subjects without '*' -----

  lemma {:induction false} StarTakesMore(pattern: string, str: string, a: nat, b: nat)
    requires pattern != [] && pattern[0] == '*' && a <= b <= |str| && Means(pattern, str[b..])
    ensures Means(pattern, str[a..])
    decreases b - a
  {
    if a < b {
      StarTakesMore(pattern, str, a + 1, b);
      assert str[a..][1..] == str[a + 1..];
    }
  }

  lemma {:induction false} StarChoice(pattern: string, str: string, a: nat) returns (b: nat)
    requires pattern != [] && pattern[0] == '*' && a <= |str| && Means(pattern, str[a..])
    ensures a <= b <= |str| && Means(pattern[1..], str[b..])
    decreases |str| - a
  {
    if Means(pattern[1..], str[a..]) {
      b := a;
    } else {
      assert str[a..][1..] == str[a + 1..];
      b := StarChoice(pattern, str, a + 1);
    }
  }

  /** A star-free stretch of the pattern consumes exactly its own length. */
  lemma {:induction false} Stretch(pattern: string, str: string, q: nat, p: nat, a: nat)
    requires q <= p <= |pattern| && a <= |str| && Means(pattern[q..], str[a..])
    requires forall i :: q <= i < p ==> pattern[i] != '*'
    ensures a + (p - q) <= |str| && Means(pattern[p..], str[a + (p - q)..])
    decreases p - q
  {
    if q < p {
      assert pattern[q..][1..] == pattern[q + 1..] && str[a..][1..] == str[a + 1..];
      Stretch(pattern, str, q + 1, p, a + 1);
    }
  }

  ghost predicate SinceStar(pattern: string, c: Cursor)
    requires c.p <= |pattern| && c.star < c.p
  {
    c.star >= 0 ==>
      && c.s - c.matchStart == c.p - c.star - 1
      && forall i :: c.star < i < c.p ==> pattern[i] != '*'
  }

  /** The subject can still be matched: from here, or by letting the last star take more. */
  ghost predicate Open(pattern: string, str: string, c: Cursor)
    requires c.Within(pattern, str)
  {
    || Means(pattern[c.p..], str[c.s..])
    || (c.star >= 0 && c.matchStart < |str| && Means(pattern[c.star..], str[c.matchStart + 1..]))
  }

  /** The last star suffices: having reached the next star or the end, no earlier one helps. */
  lemma EarlierStarIsEnough(pattern: string, str: string, c: Cursor)
    requires c.Within(pattern, str) && SinceStar(pattern, c) && c.star >= 0
    requires c.matchStart < |str| && Means(pattern[c.star..], str[c.matchStart + 1..])
    ensures c.s < |str|
    ensures c.p < |pattern| && pattern[c.p] == '*' ==> Means(pattern[c.p..], str[c.s..])
  {
    var b := StarChoice(pattern[c.star..], str, c.matchStart + 1);
    assert pattern[c.star..][1..] == pattern[c.star + 1..];
    Stretch(pattern, str, c.star + 1, c.p, b);
    if c.p < |pattern| && pattern[c.p] == '*' {
      StarTakesMore(pattern[c.p..], str, c.s, b + (c.p - c.star - 1));
    }
  }

  lemma {:induction false} LoopComplete(pattern: string, str: string, c: Cursor)
    requires c.Within(pattern, str) && SinceStar(pattern, c) && Open(pattern, str, c)
    requires '*' !in str
    ensures Loop(pattern, str, c)
    decreases |str| - c.matchStart, |pattern| - c.star, |str| - c.s
  {
    if !Means(pattern[c.p..], str[c.s..]) {
      EarlierStarIsEnough(pattern, str, c);
    }
    if c.s == |str| {
      OnlyStarsMeansEmpty(pattern[c.p..]);
    } else if Here(pattern, str, c) {
      assert str[c.s] in str;
      assert pattern[c.p..][1..] == pattern[c.p + 1..] && str[c.s..][1..] == str[c.s + 1..];
      LoopComplete(pattern, str, Advance(pattern, str, c));
    } else if c.p < |pattern| && pattern[c.p] == '*' {
      assert pattern[c.p..][1..] == pattern[c.p + 1..] && str[c.s..][1..] == str[c.s + 1..];
      LoopComplete(pattern, str, Advance(pattern, str, c));
    } else {
      assert !Means(pattern[c.p..], str[c.s..]);
      assert pattern[c.star..][1..] == pattern[c.star + 1..];
      if c.matchStart + 1 < |str| {
        assert str[c.matchStart + 1..][1..] == str[c.matchStart + 2..];
      }
      LoopComplete(pattern, str, Advance(pattern, str, c));
    }
  }

  lemma Complete(pattern: string, str: string)
    requires '*' !in str
    ensures Means(pattern, str) ==> Matches(pattern, str)
  {
    if Means(pattern, str) {
      assert pattern[0..] == pattern && str[0..] == str;
      LoopComplete(pattern, str, START);
    }
  }

  // ----- exactly when the matcher is right -----

  predicate Literal(pattern: string, str: string, n: nat) {
    n <= |pattern| && n <= |str| && forall j :: 0 <= j < n ==> pattern[j] == '?' || pattern[j] == str[j]
  }

  /** Literal equality is tried before `*`, so a `*` of the subject uses up a `*` of the pattern. */
  lemma {:induction false} LiteralFirst(pattern: string, str: string, k: nat, n: nat)
    requires k <= n && Literal(pattern, str, n)
    ensures Loop(pattern, str, Cursor(k, k, -1, 0)) == Loop(pattern, str, Cursor(n, n, -1, 0))
    decreases n - k
  {
    if k < n { LiteralFirst(pattern, str, k + 1, n); }
  }

  lemma {:induction false} LiteralMeans(pattern: string, str: string, n: nat)
    requires Literal(pattern, str, n) && Means(pattern[n..], str[n..])
    ensures Means(pattern, str)
    decreases n
  {
    if n == 0 {
      assert pattern[0..] == pattern && str[0..] == str;
    } else {
      assert pattern[1..][n - 1..] == pattern[n..] && str[1..][n - 1..] == str[n..];
      LiteralMeans(pattern[1..], str[1..], n - 1);
    }
  }

  lemma {:induction false} StarFreeTooShort(pattern: string, str: string, k: nat)
    requires k <= |pattern| < |str| && forall i :: k <= i < |pattern| ==> pattern[i] != '*'
    ensures forall s: nat :: s <= |str| && |str| - s > |pattern| - k ==> !Loop(pattern, str, Cursor(k, s, -1, 0))
    decreases |pattern| - k
  {
    if k < |pattern| { StarFreeTooShort(pattern, str, k + 1); }
  }

  lemma {:induction false} StarFreeExact(pattern: string, str: string, k: nat)
    requires k <= |pattern| && k <= |str| && '*' !in pattern
    ensures Loop(pattern, str, Cursor(k, k, -1, 0)) <==> Means(pattern[k..], str[k..])
    decreases |str| - k
  {
    if k == |str| {
      OnlyStarsMeansEmpty(pattern[k..]);
    } else if k < |pattern| {
      assert pattern[k] in pattern;
      assert pattern[k..][1..] == pattern[k + 1..] && str[k..][1..] == str[k + 1..];
      StarFreeExact(pattern, str, k + 1);
    }
  }

  /** A pattern the subject satisfies and the matcher refuses, for a subject with `*` at i. */
  lemma RefusedPattern(str: string, i: nat) returns (pattern: string)
    requires i < |str| && str[i] == '*'
    ensures Means(pattern, str) && !Matches(pattern, str)
  {
    pattern := seq(i, _ => '?') + "*?" + seq(|str| - i - 1, _ => '?');
    LiteralFirst(pattern, str, 0, |str|);
    assert pattern[|str|] == '?' && pattern[|str|..][0] != '*';
    var rest, sub := pattern[i..], str[i..];
    assert rest[1..][|sub|..] == [] && sub[|sub|..] == [];
    LiteralMeans(rest[1..], sub, |sub|);
    assert Means(rest, sub);
    LiteralMeans(pattern, str, i);
  }

  /** The matcher agrees with the meaning of every pattern exactly on the subjects without `*`. */
  lemma RightOnSubjectIff(str: string)
    ensures (forall pattern: string :: Matches(pattern, str) <==> Means(pattern, str)) <==> '*' !in str
  {
    if '*' !in str {
      forall pattern: string ensures Matches(pattern, str) <==> Means(pattern, str) {
        Sound(pattern, str);
        Complete(pattern, str);
      }
    } else {
      var i :| 0 <= i < |str| && str[i] == '*';
      var pattern := RefusedPattern(str, i);
    }
  }

  /** A subject the pattern means and the matcher refuses, the last `*` of the pattern being at j. */
  lemma RefusedSubject(pattern: string, j: nat) returns (str: string)
    requires pattern != "*" && j < |pattern| && pattern[j] == '*'
    requires forall i :: j < i < |pattern| ==> pattern[i] != '*'
    ensures Means(pattern, str) && !Matches(pattern, str)
  {
    str := pattern[..j + 1] + "x" + pattern[j + 1..];
    LiteralFirst(pattern, str, 0, j + 1);
    StarFreeTooShort(pattern, str, j + 1);
    var tail := pattern[j + 1..];
    assert tail[|tail|..] == [];
    LiteralMeans(tail, tail, |tail|);
    var star := pattern[j..];
    assert star[1..] == tail && str[j + 2..] == tail;
    StarTakesMore(star, str, j, j + 2);
    LiteralMeans(pattern, str, j);
  }

  lemma {:induction false} LastStar(pattern: string) returns (j: nat)
    requires '*' in pattern
    ensures j < |pattern| && pattern[j] == '*' && forall i :: j < i < |pattern| ==> pattern[i] != '*'
    decreases |pattern|
  {
    var n := |pattern| - 1;
    if pattern[n] == '*' {
      j := n;
    } else {
      assert pattern == pattern[..n] + [pattern[n]];
      j := LastStar(pattern[..n]);
    }
  }

  /** The matcher is right on every subject exactly for the star-free patterns and for "*" itself. */
  lemma RightOnPatternIff(pattern: string)
    ensures (forall str: string :: Matches(pattern, str) <==> Means(pattern, str))
            <==> ('*' !in pattern || pattern == "*")
  {
    if pattern == "*" {
      forall str: string ensures Matches(pattern, str) <==> Means(pattern, str) { StarMeansAnything(str); }
    } else if '*' !in pattern {
      forall str: string ensures Matches(pattern, str) <==> Means(pattern, str) {
        StarFreeExact(pattern, str, 0);
        assert pattern[0..] == pattern && str[0..] == str;
      }
    } else {
      var j := LastStar(pattern);
      var str := RefusedSubject(pattern, j);
    }
  }
}
