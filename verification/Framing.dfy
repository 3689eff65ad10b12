/** Searching a buffer for a delimiter, and what a search result promises. */
module Framing {
  import opened Wrappers

  predicate OccursAt<T(==)>(s: seq<T>, d: seq<T>, i: nat) {
    i + |d| <= |s| && s[i..i + |d|] == d
  }

  predicate IsFirst<T(==)>(s: seq<T>, d: seq<T>, i: nat) {
    OccursAt(s, d, i) && forall j: nat | j < i :: !OccursAt(s, d, j)
  }

  /** Where `d` first occurs in `s`. */
  ghost function Find<T>(s: seq<T>, d: seq<T>): (r: Option<nat>)
    ensures r.Some? ==> IsFirst(s, d, r.value)
    ensures r.None? ==> forall i: nat :: !OccursAt(s, d, i)
  {
    if exists i: nat :: IsFirst(s, d, i) then
      var i: nat :| IsFirst(s, d, i);
      Some(i)
    else
      NoFirst(s, d);
      None
  }

  lemma {:induction false} FirstBelow<T>(s: seq<T>, d: seq<T>, i: nat)
    requires OccursAt(s, d, i)
    ensures exists j: nat :: IsFirst(s, d, j)
  {
    if !IsFirst(s, d, i) {
      var j: nat :| j < i && OccursAt(s, d, j);
      FirstBelow(s, d, j);
    }
  }

  lemma NoFirst<T>(s: seq<T>, d: seq<T>)
    requires !exists i: nat :: IsFirst(s, d, i)
    ensures forall i: nat :: !OccursAt(s, d, i)
  {
    forall i: nat
      ensures !OccursAt(s, d, i)
    {
      if OccursAt(s, d, i) {
        FirstBelow(s, d, i);
      }
    }
  }

  lemma FirstIsFind<T>(s: seq<T>, d: seq<T>, i: nat)
    requires IsFirst(s, d, i)
    ensures Find(s, d) == Some(i)
  {
    var r := Find(s, d);
    assert r.Some?;
  }

  lemma FindFits<T>(s: seq<T>, d: seq<T>)
    ensures Find(s, d).Some? ==> Find(s, d).value + |d| <= |s|
  {
  }

  /** Bytes arriving later never move a first occurrence already complete. */
  lemma FindExtends<T>(x: seq<T>, y: seq<T>, d: seq<T>)
    requires Find(x, d).Some?
    ensures Find(x + y, d) == Find(x, d)
  {
    var i := Find(x, d).value;
    forall j: nat | j <= i
      ensures OccursAt(x + y, d, j) <==> OccursAt(x, d, j)
    {
      assert (x + y)[j..j + |d|] == x[j..j + |d|];
    }
    FirstIsFind(x + y, d, i);
  }

  lemma OccursInPart<T>(s: seq<T>, d: seq<T>, lo: nat, hi: nat, i: nat)
    requires lo <= hi <= |s| && OccursAt(s[lo..hi], d, i)
    ensures OccursAt(s, d, lo + i)
  {
    var k := lo + i;
    assert k + |d| <= hi;
    assert s[k..k + |d|] == d by {
      forall n | 0 <= n < |d|
        ensures s[k + n] == d[n]
      {
        assert s[lo..hi][i..i + |d|][n] == s[lo..hi][i + n];
      }
    }
  }

  lemma OccursInside<T>(s: seq<T>, d: seq<T>, lo: nat, hi: nat, i: nat)
    requires lo <= i && i + |d| <= hi <= |s| && OccursAt(s, d, i)
    ensures OccursAt(s[lo..hi], d, i - lo)
  {
    var k := i - lo;
    assert s[lo..hi][k..k + |d|] == d by {
      forall n | 0 <= n < |d|
        ensures s[lo..hi][k + n] == d[n]
      {
        assert s[i..i + |d|][n] == s[i + n];
      }
    }
  }

  /** The linear scan both readers perform. */
  method FindPosition<T(==)>(s: seq<T>, d: seq<T>) returns (r: Option<nat>)
    requires d != []
    ensures r == Find(s, d)
  {
    var i: nat := 0;
    while i + |d| <= |s|
      invariant forall j: nat | j < i :: !OccursAt(s, d, j)
    {
      if s[i..i + |d|] == d {
        FirstIsFind(s, d, i);
        return Some(i);
      }
      i := i + 1;
    }
    assert forall j: nat :: !OccursAt(s, d, j);
    return None;
  }

  function Concat<T>(pieces: seq<seq<T>>): seq<T> {
    if pieces == [] then [] else pieces[0] + Concat(pieces[1..])
  }

  lemma {:induction false} ConcatAppend<T>(a: seq<seq<T>>, b: seq<seq<T>>)
    ensures Concat(a + b) == Concat(a) + Concat(b)
  {
    if a == [] {
      assert a + b == b;
    } else {
      assert (a + b)[1..] == a[1..] + b;
      ConcatAppend(a[1..], b);
    }
  }

  lemma Associative<T>(a: seq<T>, b: seq<T>, c: seq<T>)
    ensures (a + b) + c == a + (b + c)
  {
  }
}
