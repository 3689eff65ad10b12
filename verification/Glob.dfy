/** The glob matcher behind harness-profile model patterns. */
module Glob {
  import opened Wrappers

  /** The declarative glob relation: `?` stands for one character, `*` for any
      run of characters, anything else for itself. */
  predicate Matches(pattern: string, value: string)
    decreases |pattern| + |value|
  {
    if pattern == [] then
      value == []
    else if pattern[0] == '*' then
      Matches(pattern[1..], value) || (value != [] && Matches(pattern, value[1..]))
    else
      value != [] && (pattern[0] == '?' || pattern[0] == value[0]) && Matches(pattern[1..], value[1..])
  }

  predicate AllStars(pattern: string) {
    forall i | 0 <= i < |pattern| :: pattern[i] == '*'
  }

  /** The state of the backtracking loop: the four indices the source keeps.
      `star` is the last `*` taken as a wildcard, `starValue` where its run
      currently ends. */
  ghost predicate LoopState(pattern: string, value: string, p: nat, v: nat, star: Option<nat>, starValue: nat) {
    && p <= |pattern|
    && starValue <= v <= |value|
    && (star.Some? ==> star.value < p && pattern[star.value] == '*')
  }

  /** The verdict of the greedy loop when it continues from the given indices. */
  ghost predicate Accepts(pattern: string, value: string, p: nat, v: nat, star: Option<nat>, starValue: nat)
    requires LoopState(pattern, value, p, v, star, starValue)
    decreases |value| - starValue, |pattern| - p
  {
    if v == |value| then
      AllStars(pattern[p..])
    else if p < |pattern| && (pattern[p] == '?' || pattern[p] == value[v]) then
      Accepts(pattern, value, p + 1, v + 1, star, starValue)
    else if p < |pattern| && pattern[p] == '*' then
      Accepts(pattern, value, p + 1, v, Some(p), v)
    else if star.Some? then
      Accepts(pattern, value, star.value + 1, starValue + 1, star, starValue + 1)
    else
      false
  }

  /** The verdict of the whole matcher. */
  ghost predicate WildcardAccepts(pattern: string, value: string) {
    Accepts(pattern, value, 0, 0, None, 0)
  }

  method WildcardCharsMatch(pattern: string, value: string) returns (matched: bool)
    ensures matched ==> Matches(pattern, value)
    ensures '*' !in value ==> (matched <==> Matches(pattern, value))
    ensures matched == WildcardAccepts(pattern, value)
  {
    Soundness(pattern, value, 0, 0, None, 0);
    if '*' !in value {
      Completeness(pattern, value, 0, 0, None, 0);
    }
    assert pattern[0..] == pattern && value[0..] == value;
    var p: nat, v: nat := 0, 0;
    var star: Option<nat> := None;
    var starValue: nat := 0;
    while v < |value|
      invariant LoopState(pattern, value, p, v, star, starValue)
      invariant Accepts(pattern, value, p, v, star, starValue) == WildcardAccepts(pattern, value)
      decreases |value| - starValue, |pattern| - p
    {
      if p < |pattern| && (pattern[p] == '?' || pattern[p] == value[v]) {
        p, v := p + 1, v + 1;
      } else if p < |pattern| && pattern[p] == '*' {
        star := Some(p);
        p := p + 1;
        starValue := v;
      } else if star.Some? {
        p := star.value + 1;
        starValue := starValue + 1;
        v := starValue;
      } else {
        return false;
      }
    }
    matched := forall i | p <= i < |pattern| :: pattern[i] == '*';
    assert forall i | p <= i < |pattern| :: pattern[i] == pattern[p..][i - p];
  }

  // ---------------------------------------------------------------- soundness

  lemma {:induction false} AllStarsMatchEmpty(pattern: string)
    ensures AllStars(pattern) <==> Matches(pattern, [])
  {
    if pattern != [] {
      assert AllStars(pattern) <==> pattern[0] == '*' && AllStars(pattern[1..]) by {
        assert forall i | 1 <= i < |pattern| :: pattern[i] == pattern[1..][i - 1];
      }
      AllStarsMatchEmpty(pattern[1..]);
    }
  }

  /** Acceptance from any loop state exhibits a match: of the rest at hand, or
      of the last wildcard stretched at least one character further. Holds
      even where a literal `*` in the value was consumed by a `*` in the
      pattern. */
  lemma {:induction false} Soundness(pattern: string, value: string, p: nat, v: nat, star: Option<nat>, starValue: nat)
    requires LoopState(pattern, value, p, v, star, starValue)
    ensures Accepts(pattern, value, p, v, star, starValue) ==>
              || Matches(pattern[p..], value[v..])
              || (star.Some? && starValue < |value| && Matches(pattern[star.value..], value[starValue + 1..]))
    decreases |value| - starValue, |pattern| - p
  {
    if v == |value| {
      AllStarsMatchEmpty(pattern[p..]);
    } else if p < |pattern| && (pattern[p] == '?' || pattern[p] == value[v]) {
      Soundness(pattern, value, p + 1, v + 1, star, starValue);
      assert pattern[p..][1..] == pattern[p + 1..] && value[v..][1..] == value[v + 1..];
      if pattern[p] == '*' && Matches(pattern[p + 1..], value[v + 1..]) {
        assert Matches(pattern[p..], value[v + 1..]);
      }
    } else if p < |pattern| && pattern[p] == '*' {
      Soundness(pattern, value, p + 1, v, Some(p), v);
      assert pattern[p..][1..] == pattern[p + 1..] && value[v..][1..] == value[v + 1..];
    } else if star.Some? {
      var s := star.value;
      Soundness(pattern, value, s + 1, starValue + 1, star, starValue + 1);
      assert pattern[s..][1..] == pattern[s + 1..];
      if starValue + 1 < |value| {
        assert value[starValue + 1..][1..] == value[starValue + 2..];
      }
    }
  }

  // ------------------------------------------------------------- completeness

  /** A `*` absorbs any longer prefix: the exchange argument's core. */
  lemma {:induction false} StarAbsorbs(pattern: string, value: string, k: nat)
    requires pattern != [] && pattern[0] == '*' && k <= |value|
    requires Matches(pattern, value[k..])
    ensures Matches(pattern, value)
    decreases k
  {
    if k == 0 {
      assert value[0..] == value;
    } else {
      assert value[1..][k - 1..] == value[k..];
      StarAbsorbs(pattern, value[1..], k - 1);
    }
  }

  /** A wildcard's match places what follows it somewhere in the value. */
  lemma {:induction false} StarPlaces(pattern: string, value: string) returns (k: nat)
    requires pattern != [] && pattern[0] == '*' && Matches(pattern, value)
    ensures k <= |value| && Matches(pattern[1..], value[k..])
    decreases |value|
  {
    if Matches(pattern[1..], value) {
      assert value[0..] == value;
      k := 0;
    } else {
      var j := StarPlaces(pattern, value[1..]);
      assert value[1..][j..] == value[j + 1..];
      k := j + 1;
    }
  }

  /** A star-free stretch of the pattern consumes exactly its own length. */
  lemma {:induction false} LiteralsConsume(pattern: string, value: string, n: nat)
    requires n <= |pattern| && '*' !in pattern[..n]
    requires Matches(pattern, value)
    ensures n <= |value| && Matches(pattern[n..], value[n..])
  {
    if n == 0 {
      assert pattern[0..] == pattern && value[0..] == value;
    } else {
      assert pattern[..n][0] == pattern[0];
      assert pattern[1..][..n - 1] == pattern[..n][1..];
      LiteralsConsume(pattern[1..], value[1..], n - 1);
      assert pattern[1..][n - 1..] == pattern[n..] && value[1..][n - 1..] == value[n..];
    }
  }

  /** Where a wildcard's match restarts later than the current attempt, the
      part of the pattern from `p` on matches at or after `v + 1`. */
  lemma {:induction false} LaterAttempt(pattern: string, value: string, s: nat, p: nat, start: nat) returns (k: nat)
    requires s < p <= |pattern| && pattern[s] == '*' && '*' !in pattern[s + 1..p]
    requires start <= |value| && Matches(pattern[s..], value[start..])
    ensures start + (p - s - 1) <= k <= |value| && Matches(pattern[p..], value[k..])
  {
    var j := StarPlaces(pattern[s..], value[start..]);
    assert pattern[s..][1..] == pattern[s + 1..] && value[start..][j..] == value[start + j..];
    var n := p - s - 1;
    assert pattern[s + 1..][..n] == pattern[s + 1..p];
    LiteralsConsume(pattern[s + 1..], value[start + j..], n);
    assert pattern[s + 1..][n..] == pattern[p..] && value[start + j..][n..] == value[start + j + n..];
    k := start + j + n;
  }

  /** Rejection is final for a value without `*`: neither the rest at hand nor
      any longer stretch of the last wildcard matches. Committing to the
      earliest place of each segment loses nothing, because the next wildcard
      can absorb the difference. */
  lemma {:induction false} Completeness(pattern: string, value: string, p: nat, v: nat, star: Option<nat>,
                                        starValue: nat)
    requires LoopState(pattern, value, p, v, star, starValue)
    requires '*' !in value
    requires star.Some? ==> '*' !in pattern[star.value + 1..p] && p - star.value - 1 == v - starValue
    ensures !Accepts(pattern, value, p, v, star, starValue) ==> !Matches(pattern[p..], value[v..])
    ensures !Accepts(pattern, value, p, v, star, starValue) && star.Some? && starValue < |value| ==>
              !Matches(pattern[star.value..], value[starValue + 1..])
    decreases |value| - starValue, |pattern| - p
  {
    if p < |pattern| {
      assert pattern[p..][1..] == pattern[p + 1..];
    }
    if v < |value| {
      assert value[v..][1..] == value[v + 1..];
    }
    if v == |value| {
      AllStarsMatchEmpty(pattern[p..]);
      if star.Some? && starValue < |value| && Matches(pattern[star.value..], value[starValue + 1..]) {
        var k := LaterAttempt(pattern, value, star.value, p, starValue + 1);
        assert false;
      }
    } else if p < |pattern| && (pattern[p] == '?' || pattern[p] == value[v]) {
      assert pattern[p] != '*';
      if star.Some? {
        assert pattern[star.value + 1..p + 1] == pattern[star.value + 1..p] + [pattern[p]];
      }
      Completeness(pattern, value, p + 1, v + 1, star, starValue);
    } else if p < |pattern| && pattern[p] == '*' {
      Completeness(pattern, value, p + 1, v, Some(p), v);
      if star.Some? && starValue < |value| && Matches(pattern[star.value..], value[starValue + 1..]) {
        var k := LaterAttempt(pattern, value, star.value, p, starValue + 1);
        assert value[v..][k - v..] == value[k..];
        StarAbsorbs(pattern[p..], value[v..], k - v);
      }
    } else if star.Some? {
      var s := star.value;
      Completeness(pattern, value, s + 1, starValue + 1, star, starValue + 1);
      assert pattern[s..][1..] == pattern[s + 1..];
      if starValue + 1 < |value| {
        assert value[starValue + 1..][1..] == value[starValue + 2..];
      }
    }
  }

  // ------------------------------------------------- exactly when it is exact

  function Questions(n: nat): (q: string)
    ensures |q| == n
  {
    seq(n, _ => '?')
  }

  lemma {:induction false} QuestionsMatch(value: string)
    ensures Matches(Questions(|value|), value)
  {
    if value != [] {
      assert Questions(|value|)[1..] == Questions(|value[1..]|);
      QuestionsMatch(value[1..]);
    }
  }

  /** Any string, read as a pattern, matches itself. */
  lemma {:induction false} SelfPrefixMatches(value: string, k: nat, rest: string)
    requires k <= |value| && Matches(rest, value[k..])
    ensures Matches(value[..k] + rest, value)
  {
    if k == 0 {
      assert value[..0] + rest == rest && value[0..] == value;
    } else {
      var pattern := value[..k] + rest;
      assert pattern[1..] == value[1..][..k - 1] + rest;
      assert value[1..][k - 1..] == value[k..];
      SelfPrefixMatches(value[1..], k - 1, rest);
      if pattern[0] == '*' {
        var w := value[1..];
        assert Matches(pattern[1..], w);
        assert Matches(pattern, w);
      }
    }
  }

  /** A pattern that agrees with the value position by position is consumed
      literally, without ever remembering a wildcard. */
  lemma {:induction false} ConsumedLiterally(pattern: string, value: string, i: nat)
    requires i <= |value| < |pattern|
    requires forall j | i <= j < |value| :: pattern[j] == '?' || pattern[j] == value[j]
    requires !AllStars(pattern[|value|..])
    ensures !Accepts(pattern, value, i, i, None, 0)
    decreases |value| - i
  {
    if i < |value| {
      ConsumedLiterally(pattern, value, i + 1);
    }
  }

  /** Testing the literal before the wildcard goes wrong for every value that
      holds a `*`: the pattern spends its `*` on it and comes up short. */
  lemma StarInValueIsMisread(value: string, k: nat) returns (pattern: string)
    requires k < |value| && value[k] == '*'
    ensures Matches(pattern, value) && !WildcardAccepts(pattern, value)
  {
    var tail := "*" + Questions(|value| - k);
    pattern := value[..k] + tail;
    QuestionsMatch(value[k..]);
    assert tail[1..] == Questions(|value[k..]|);
    assert Matches(tail, value[k..]);
    SelfPrefixMatches(value, k, tail);
    assert pattern[|value|..][0] == '?';
    ConsumedLiterally(pattern, value, 0);
  }

  /** No pattern is ever accepted without a match, whatever the value. */
  lemma AcceptedMeansMatched(pattern: string, value: string)
    requires WildcardAccepts(pattern, value)
    ensures Matches(pattern, value)
  {
    Soundness(pattern, value, 0, 0, None, 0);
    assert pattern[0..] == pattern && value[0..] == value;
  }

  /** The matcher decides the glob relation for every pattern exactly on the
      values without a `*`. */
  lemma ExactIffNoStar(value: string)
    ensures (forall pattern :: WildcardAccepts(pattern, value) <==> Matches(pattern, value)) <==> '*' !in value
  {
    if '*' !in value {
      forall pattern: string
        ensures WildcardAccepts(pattern, value) <==> Matches(pattern, value)
      {
        if WildcardAccepts(pattern, value) {
          AcceptedMeansMatched(pattern, value);
        } else {
          Completeness(pattern, value, 0, 0, None, 0);
          assert pattern[0..] == pattern && value[0..] == value;
        }
      }
    } else {
      var k :| 0 <= k < |value| && value[k] == '*';
      var pattern := StarInValueIsMisread(value, k);
    }
  }
}
