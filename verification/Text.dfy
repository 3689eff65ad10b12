/** Character and string operations of the source languages' standard
    libraries, as far as the modelled code uses them. */
module Text {
  import opened Wrappers

  /** Unicode `White_Space`, the set Rust's `char::is_whitespace` tests. */
  predicate IsSpace(c: char) {
    || '\U{9}' <= c <= '\U{D}'
    || c == '\U{20}' || c == '\U{85}' || c == '\U{A0}' || c == '\U{1680}'
    || '\U{2000}' <= c <= '\U{200A}'
    || c == '\U{2028}' || c == '\U{2029}' || c == '\U{202F}' || c == '\U{205F}' || c == '\U{3000}'
  }

  /** JavaScript white space, the set `trim` and `trimStart` remove. */
  predicate IsJsSpace(c: char) {
    || '\U{9}' <= c <= '\U{D}'
    || c == '\U{20}' || c == '\U{A0}' || c == '\U{1680}' || c == '\U{FEFF}'
    || '\U{2000}' <= c <= '\U{200A}'
    || c == '\U{2028}' || c == '\U{2029}' || c == '\U{202F}' || c == '\U{205F}' || c == '\U{3000}'
  }

  function JsTrimStart(s: string): string {
    if s != "" && IsJsSpace(s[0]) then JsTrimStart(s[1..]) else s
  }

  function JsTrimEnd(s: string): string {
    if s != "" && IsJsSpace(s[|s| - 1]) then JsTrimEnd(s[..|s| - 1]) else s
  }

  function JsTrim(s: string): string {
    JsTrimEnd(JsTrimStart(s))
  }

  function LowerChar(c: char): (l: char)
    ensures l == c || ('A' <= c <= 'Z' && 'a' <= l <= 'z')
  {
    if 'A' <= c <= 'Z' then (c as int + 32) as char else c
  }

  /** ASCII lower-casing; every other character stays as it is. */
  function Lower(s: string): (l: string)
    ensures |l| == |s|
    ensures forall i | 0 <= i < |s| :: l[i] == LowerChar(s[i])
  {
    seq(|s|, i requires 0 <= i < |s| => LowerChar(s[i]))
  }

  predicate EqIgnoreCase(a: string, b: string) {
    Lower(a) == Lower(b)
  }

  /** The same character, or the two cases of one ASCII letter. */
  predicate SameLetter(c: char, d: char) {
    || c == d
    || ('A' <= c <= 'Z' && d as int == c as int + 32)
    || ('A' <= d <= 'Z' && c as int == d as int + 32)
  }

  lemma LowerCharFoldsCase(c: char, d: char)
    ensures LowerChar(c) == LowerChar(d) <==> SameLetter(c, d)
    ensures !('A' <= LowerChar(c) <= 'Z')
  {
  }

  /** Texts are equal up to case exactly when they are so letter by letter. */
  lemma EqualUpToCaseIff(a: string, b: string)
    ensures EqIgnoreCase(a, b) <==> |a| == |b| && forall i | 0 <= i < |a| :: SameLetter(a[i], b[i])
  {
    forall i | 0 <= i < |a| && i < |b|
      ensures LowerChar(a[i]) == LowerChar(b[i]) <==> SameLetter(a[i], b[i])
    {
      LowerCharFoldsCase(a[i], b[i]);
    }
    if EqIgnoreCase(a, b) {
      assert forall i | 0 <= i < |a| :: Lower(a)[i] == Lower(b)[i];
    }
  }

  function TrimStart(s: string): string {
    if s != [] && IsSpace(s[0]) then TrimStart(s[1..]) else s
  }

  function TrimEnd(s: string): string {
    if s != [] && IsSpace(s[|s| - 1]) then TrimEnd(s[..|s| - 1]) else s
  }

  function Trim(s: string): string {
    TrimEnd(TrimStart(s))
  }

  function TrimEndChar(s: string, c: char): string {
    if s != [] && s[|s| - 1] == c then TrimEndChar(s[..|s| - 1], c) else s
  }

  lemma {:induction false} TrimStartFacts(s: string)
    ensures var t := TrimStart(s);
            && |t| <= |s| && t == s[|s| - |t|..]
            && (t != [] ==> !IsSpace(t[0]))
            && forall i | 0 <= i < |s| - |t| :: IsSpace(s[i])
  {
    if s != [] && IsSpace(s[0]) {
      TrimStartFacts(s[1..]);
      var t := TrimStart(s[1..]);
      assert s[1..][|s| - 1 - |t|..] == s[|s| - |t|..];
      forall i | 0 <= i < |s| - |t|
        ensures IsSpace(s[i])
      {
        if i > 0 {
          assert s[i] == s[1..][i - 1];
        }
      }
    }
  }

  lemma {:induction false} TrimEndFacts(s: string)
    ensures var t := TrimEnd(s);
            && t <= s
            && (t != [] ==> !IsSpace(t[|t| - 1]))
            && forall i | |t| <= i < |s| :: IsSpace(s[i])
  {
    if s != [] && IsSpace(s[|s| - 1]) {
      TrimEndFacts(s[..|s| - 1]);
    }
  }

  lemma {:induction false} TrimEndCharFacts(s: string, c: char)
    ensures var t := TrimEndChar(s, c);
            && t <= s
            && (t != [] ==> t[|t| - 1] != c)
            && forall i | |t| <= i < |s| :: s[i] == c
  {
    if s != [] && s[|s| - 1] == c {
      TrimEndCharFacts(s[..|s| - 1], c);
    }
  }

  lemma {:induction false} JsTrimFacts(s: string) returns (lo: nat, hi: nat)
    ensures lo <= hi <= |s| && JsTrim(s) == s[lo..hi]
    ensures lo < hi ==> !IsJsSpace(s[lo]) && !IsJsSpace(s[hi - 1])
    ensures forall i | 0 <= i < lo || hi <= i < |s| :: IsJsSpace(s[i])
  {
    lo := JsTrimStartFacts(s);
    var k := JsTrimEndFacts(s[lo..]);
    hi := lo + k;
    assert s[lo..][..k] == s[lo..hi];
    assert forall i | lo <= i < |s| :: s[i] == s[lo..][i - lo];
  }

  lemma {:induction false} JsTrimStartFacts(s: string) returns (lo: nat)
    ensures lo <= |s| && JsTrimStart(s) == s[lo..] && (lo < |s| ==> !IsJsSpace(s[lo]))
    ensures forall i | 0 <= i < lo :: IsJsSpace(s[i])
  {
    if s != "" && IsJsSpace(s[0]) {
      var k := JsTrimStartFacts(s[1..]);
      lo := k + 1;
      assert s[1..][k..] == s[lo..];
      assert forall i | 0 < i < lo :: s[i] == s[1..][i - 1];
    } else {
      lo := 0;
    }
  }

  lemma {:induction false} JsTrimEndFacts(s: string) returns (hi: nat)
    ensures hi <= |s| && JsTrimEnd(s) == s[..hi] && (hi > 0 ==> !IsJsSpace(s[hi - 1]))
    ensures forall i | hi <= i < |s| :: IsJsSpace(s[i])
  {
    if s != "" && IsJsSpace(s[|s| - 1]) {
      hi := JsTrimEndFacts(s[..|s| - 1]);
      assert s[..|s| - 1][..hi] == s[..hi];
    } else {
      hi := |s|;
    }
  }

  /** The first position of a character that satisfies `p`. */
  function Position(s: string, p: char -> bool): (r: Option<nat>)
    ensures r.Some? ==> r.value < |s| && p(s[r.value]) && forall i | 0 <= i < r.value :: !p(s[i])
    ensures r.None? ==> forall i | 0 <= i < |s| :: !p(s[i])
  {
    if s == [] then None
    else if p(s[0]) then Some(0)
    else match Position(s[1..], p)
      case None => None
      case Some(i) => Some(i + 1)
  }

  /** The pieces between successive occurrences of `c`; never empty. */
  function Split(s: string, c: char): (pieces: seq<string>)
    ensures pieces != []
  {
    match Position(s, x => x == c)
    case None => [s]
    case Some(i) => [s[..i]] + Split(s[i + 1..], c)
  }

  function Join(pieces: seq<string>, separator: string): string {
    if pieces == [] then ""
    else if |pieces| == 1 then pieces[0]
    else pieces[0] + separator + Join(pieces[1..], separator)
  }

  /** Neither empty nor beginning or ending in white space. */
  predicate Solid(s: string) {
    s != "" && !IsSpace(s[0]) && !IsSpace(s[|s| - 1])
  }

  predicate Trimmed(s: string) {
    s == "" || Solid(s)
  }

  lemma TrimFixed(s: string)
    requires Trimmed(s)
    ensures Trim(s) == s
  {
    assert TrimStart(s) == s;
  }

  /** Trimming leaves nothing to trim. */
  lemma TrimTwice(s: string)
    ensures Trimmed(Trim(s)) && Trim(Trim(s)) == Trim(s)
  {
    var t := Trim(s);
    TrimStartFacts(s);
    TrimEndFacts(TrimStart(s));
    if t != [] {
      assert t[0] == TrimStart(s)[0];
    }
    TrimFixed(t);
  }

  lemma LowerTwice(s: string)
    ensures Lower(Lower(s)) == Lower(s)
  {
  }

  /** A line holding no newline is split off whole. */
  lemma SplitLine(line: string, rest: string, c: char)
    requires c !in line
    ensures Split(line + [c] + rest, c) == [line] + Split(rest, c)
  {
    var s := line + [c] + rest;
    assert s[|line|] == c;
    var i := Position(s, x => x == c).value;
    assert i == |line| && s[..i] == line && s[i + 1..] == rest;
  }
}
