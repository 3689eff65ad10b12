/** Base-URL normalisation and the secret-free input of its fingerprint. */
module BaseUrl {
  import opened Wrappers
  import opened Text
  import opened Framing

  // ----------------------------------------------------------------- helpers

  /** The longest prefix without a stop character. */
  function UpTo(s: string, stops: set<char>): (r: string)
    ensures r <= s && (forall c | c in r :: c !in stops)
    ensures |r| < |s| ==> s[|r|] in stops
  {
    if s == "" || s[0] in stops then "" else
      var rest := UpTo(s[1..], stops);
      assert s == [s[0]] + s[1..];
      [s[0]] + rest
  }

  /** The longest suffix without `@`. */
  function AfterLastAt(s: string): string {
    if s == "" || s[|s| - 1] == '@' then "" else AfterLastAt(s[..|s| - 1]) + [s[|s| - 1]]
  }

  const MARK: string := "://"

  function DefaultPort(scheme: string): string {
    if scheme == "https" then ":443" else if scheme == "http" then ":80" else ""
  }

  predicate EndsWith(s: string, suffix: string) {
    |suffix| <= |s| && s[|s| - |suffix|..] == suffix
  }

  /** Drops the scheme's own default port, once. */
  function StripPort(scheme: string, authority: string): (r: string)
    ensures r <= authority
  {
    var port := DefaultPort(scheme);
    if EndsWith(authority, port) then authority[..|authority| - |port|] else authority
  }

  // ------------------------------------------------------------ modelled code

  /** What is left of a spelling once the outer noise is gone. */
  function Core(url: string): string {
    TrimEndChar(Trim(url), '/')
  }

  function Spell(scheme: string, authority: string, path: string): string {
    scheme + MARK + authority + path
  }

  ghost function NormalizeBaseUrl(url: string): string {
    NormalizeCore(Core(url))
  }

  ghost function NormalizeCore(core: string): string {
    match Find(core, MARK)
    case None => Lower(core)
    case Some(i) =>
      var scheme, rest := Lower(core[..i]), core[i + 3..];
      var authority := UpTo(rest, {'/'});
      Spell(scheme, StripPort(scheme, Lower(authority)), rest[|authority|..])
  }

  const REDACTED: string := "invalid-or-secret-bearing-url"

  ghost function SecretFreeFingerprintInput(url: string): string {
    var trimmed := Trim(url);
    match Find(trimmed, MARK)
    case None => NormalizeBaseUrl(UpTo(trimmed, {'?', '#'}))
    case Some(i) => InputOfParts(Lower(trimmed[..i]), trimmed[i + 3..])
  }

  ghost function InputOfParts(scheme: string, rest: string): string {
    if scheme != "http" && scheme != "https" then REDACTED
    else
      var withUserinfo := UpTo(rest, {'/'});
      var authority := AfterLastAt(withUserinfo);
      if '?' in withUserinfo || '#' in withUserinfo || authority == "" then REDACTED
      else NormalizeBaseUrl(Spell(scheme, authority, UpTo(rest[|withUserinfo|..], {'?', '#'})))
  }

  // ----------------------------------------------------------- helper lemmas

  lemma {:induction false} UpToStops(a: string, b: string, stops: set<char>)
    requires forall c | c in a :: c !in stops
    requires b == "" || b[0] in stops
    ensures UpTo(a + b, stops) == a
  {
    if a == "" {
      assert a + b == b;
    } else {
      assert a[0] in a && (a + b)[1..] == a[1..] + b;
      UpToStops(a[1..], b, stops);
      assert a == [a[0]] + a[1..];
    }
  }

  lemma {:induction false} AfterLastAtSkips(user: string, host: string)
    requires '@' !in host && (user == "" || user[|user| - 1] == '@')
    ensures AfterLastAt(user + host) == host
  {
    if host == "" {
      assert user + host == user;
    } else {
      var n := |host| - 1;
      assert (user + host)[..|user + host| - 1] == user + host[..n];
      assert host[n] in host;
      AfterLastAtSkips(user, host[..n]);
      assert host == host[..n] + [host[n]];
    }
  }

  /** Behind `scheme`, a `://` is the first there is. */
  ghost predicate MarksFirst(scheme: string) {
    IsFirst(scheme + MARK, MARK, |scheme|)
  }

  lemma FoundMarkIsFirst(s: string)
    requires Find(s, MARK).Some?
    ensures var i := Find(s, MARK).value; s == s[..i] + MARK + s[i + 3..] && MarksFirst(s[..i])
  {
    var i := Find(s, MARK).value;
    var head := s[..i] + MARK;
    assert s == s[..i] + s[i..i + 3] + s[i + 3..];
    assert head == s[0..i + 3];
    OccursInside(s, MARK, 0, i + 3, i);
    forall j: nat | j < i
      ensures !OccursAt(head, MARK, j)
    {
      if OccursAt(head, MARK, j) {
        OccursInPart(s, MARK, 0, i + 3, j);
      }
    }
  }

  lemma SameChars(x: string, y: string, j: nat)
    requires |x| == |y| && OccursAt(y, MARK, j)
    requires forall k | 0 <= k < |x| :: y[k] == LowerChar(x[k])
    ensures OccursAt(x, MARK, j)
  {
    forall k | 0 <= k < 3
      ensures x[j + k] == MARK[k]
    {
      assert y[j..j + 3][k] == y[j + k];
    }
    assert x[j..j + 3] == MARK;
  }

  lemma LowerKeepsMarks(scheme: string)
    requires MarksFirst(scheme)
    ensures MarksFirst(Lower(scheme))
  {
    var x, y := scheme + MARK, Lower(scheme) + MARK;
    assert y[|scheme|..|scheme| + 3] == MARK;
    assert LowerChar(':') == ':' && LowerChar('/') == '/';
    forall j: nat | j < |scheme|
      ensures !OccursAt(y, MARK, j)
    {
      if OccursAt(y, MARK, j) {
        SameChars(x, y, j);
      }
    }
  }

  /** The parts of a normalised spelling are read back unchanged. */
  lemma SpellParses(scheme: string, authority: string, path: string)
    requires MarksFirst(scheme) && '/' !in authority && (path == "" || path[0] == '/')
    ensures var s := Spell(scheme, authority, path);
            && Find(s, MARK) == Some(|scheme|)
            && s[..|scheme|] == scheme
            && UpTo(s[|scheme| + 3..], {'/'}) == authority
            && s[|scheme| + 3..][|authority|..] == path
  {
    var s := Spell(scheme, authority, path);
    assert s == scheme + MARK + (authority + path);
    FirstIsFind(scheme + MARK, MARK, |scheme|);
    FindExtends(scheme + MARK, authority + path, MARK);
    assert s[|scheme| + 3..] == authority + path;
    UpToStops(authority, path, {'/'});
  }

  lemma {:induction false} TrimEndConcat(a: string, b: string)
    ensures TrimEnd(a + b) == if TrimEnd(b) == "" then TrimEnd(a) else a + TrimEnd(b)
    decreases |b|
  {
    if b == "" {
      assert a + b == a;
    } else {
      assert (a + b)[..|a + b| - 1] == a + b[..|b| - 1];
      if IsSpace(b[|b| - 1]) {
        TrimEndConcat(a, b[..|b| - 1]);
      }
    }
  }

  lemma {:induction false} TrimSlashes(a: string, slashes: string)
    requires a == "" || a[|a| - 1] != '/'
    requires forall c | c in slashes :: c == '/'
    ensures TrimEndChar(a + slashes, '/') == a
    decreases |slashes|
  {
    if slashes == "" {
      assert a + slashes == a;
    } else {
      var n := |slashes| - 1;
      assert slashes[n] in slashes;
      assert (a + slashes)[..|a + slashes| - 1] == a + slashes[..n];
      assert forall c | c in slashes[..n] :: c in slashes;
      TrimSlashes(a, slashes[..n]);
    }
  }

  // -------------------------------------------------------- normal spellings

  /** A way of writing an http or https endpoint. */
  datatype Spelling = Spelling(scheme: string, host: string, explicitPort: bool, path: string, slashes: nat)

  predicate IsHttp(scheme: string) {
    Lower(scheme) == "http" || Lower(scheme) == "https"
  }

  /** The host may carry a port, but not the default one; the path starts with
      a slash and does not end with one. */
  predicate WellFormed(s: Spelling) {
    && IsHttp(s.scheme)
    && Solid(s.host) && '/' !in s.host && !EndsWith(Lower(s.host), DefaultPort(Lower(s.scheme)))
    && (s.path == "" || (s.path[0] == '/' && Solid(s.path) && s.path[|s.path| - 1] != '/'))
  }

  function Slashes(n: nat): string {
    seq(n, _ => '/')
  }

  function Url(s: Spelling): string {
    Spell(s.scheme, Authority(s), s.path + Slashes(s.slashes))
  }

  lemma HttpSchemesMarkFirst(scheme: string)
    requires IsHttp(scheme)
    ensures MarksFirst(scheme) && Solid(scheme)
  {
    assert |scheme| == |Lower(scheme)|;
    forall i | 0 <= i < |scheme|
      ensures scheme[i] != ':' && !IsSpace(scheme[i])
    {
      assert Lower(scheme)[i] == LowerChar(scheme[i]);
    }
    var x := scheme + MARK;
    assert x[|scheme|..|scheme| + 3] == MARK;
    forall j: nat | j < |scheme|
      ensures !OccursAt(x, MARK, j)
    {
      assert x[j..j + 3][0] == scheme[j];
    }
  }

  function Authority(s: Spelling): string {
    s.host + (if s.explicitPort then DefaultPort(Lower(s.scheme)) else "")
  }

  lemma CoreOfSpelling(s: Spelling)
    requires WellFormed(s)
    ensures Core(Url(s)) == Spell(s.scheme, Authority(s), s.path)
  {
    HttpSchemesMarkFirst(s.scheme);
    var head := Spell(s.scheme, Authority(s), s.path);
    var url := Url(s);
    LastOfSpell(s, Authority(s));
    assert url == head + Slashes(s.slashes);
    assert url[0] == s.scheme[0];
    if s.slashes == 0 {
      assert url == head;
    } else {
      assert url[|url| - 1] == '/' && !IsSpace('/');
    }
    TrimFixed(url);
    TrimSlashes(head, Slashes(s.slashes));
  }

  lemma PortOfSpelling(s: Spelling)
    requires WellFormed(s)
    ensures StripPort(Lower(s.scheme), Lower(Authority(s))) == Lower(s.host) && '/' !in Authority(s)
  {
    if s.explicitPort {
      PortIsStripped(Lower(s.scheme), s.host);
    } else {
      assert Authority(s) == s.host;
    }
  }

  lemma PortIsStripped(scheme: string, host: string)
    requires '/' !in host
    ensures var authority := host + DefaultPort(scheme);
            StripPort(scheme, Lower(authority)) == Lower(host) && '/' !in authority
  {
    var port := DefaultPort(scheme);
    assert '/' !in port && Lower(port) == port;
    assert Lower(host + port) == Lower(host) + port;
    var lowered := Lower(host) + port;
    assert lowered[|host|..] == port && lowered[..|host|] == Lower(host);
  }

  /** Every well-formed spelling normalises to its lower-cased scheme and host,
      without default port and trailing slashes, and its path as it is. */
  lemma NormalForm(s: Spelling)
    requires WellFormed(s)
    ensures NormalizeBaseUrl(Url(s)) == Spell(Lower(s.scheme), Lower(s.host), s.path)
  {
    HttpSchemesMarkFirst(s.scheme);
    CoreOfSpelling(s);
    PortOfSpelling(s);
    SpellParses(s.scheme, Authority(s), s.path);
  }

  lemma LastOfSpell(s: Spelling, authority: string)
    requires WellFormed(s)
    requires authority == s.host + (if s.explicitPort then DefaultPort(Lower(s.scheme)) else "")
    ensures var head := Spell(s.scheme, authority, s.path);
            head != "" && !IsSpace(head[|head| - 1]) && head[|head| - 1] != '/'
  {
    var head := Spell(s.scheme, authority, s.path);
    if s.path != "" {
      assert head[|head| - 1] == s.path[|s.path| - 1];
    } else {
      assert head[|head| - 1] == authority[|authority| - 1];
      if !s.explicitPort {
        assert authority[|authority| - 1] == s.host[|s.host| - 1];
        assert s.host[|s.host| - 1] in s.host;
      }
    }
  }

  /** Two well-formed spellings share a normal form exactly when they differ
      only in letter case of scheme and host, default port or trailing slashes. */
  lemma SameNormalFormIff(a: Spelling, b: Spelling)
    requires WellFormed(a) && WellFormed(b)
    ensures NormalizeBaseUrl(Url(a)) == NormalizeBaseUrl(Url(b)) <==>
              EqIgnoreCase(a.scheme, b.scheme) && EqIgnoreCase(a.host, b.host) && a.path == b.path
  {
    NormalForm(a);
    NormalForm(b);
    HttpSchemesMarkFirst(a.scheme);
    HttpSchemesMarkFirst(b.scheme);
    LowerKeepsMarks(a.scheme);
    LowerKeepsMarks(b.scheme);
    LowerKeepsSlashFree(a.host);
    LowerKeepsSlashFree(b.host);
    SpellParses(Lower(a.scheme), Lower(a.host), a.path);
    SpellParses(Lower(b.scheme), Lower(b.host), b.path);
  }

  lemma LowerKeepsSlashFree(s: string)
    ensures '/' in Lower(s) <==> '/' in s
  {
    forall i | 0 <= i < |s|
      ensures Lower(s)[i] == '/' <==> s[i] == '/'
    {
    }
    if '/' in s {
      var i :| 0 <= i < |s| && s[i] == '/';
      assert Lower(s)[i] == '/';
    }
  }

  // ------------------------------------------------------- no secret matters

  /** Userinfo with its `@`, or none. */
  predicate IsUserinfo(user: string) {
    && (user == "" || user[|user| - 1] == '@')
    && (forall c | c in user :: c != '/' && c != '?' && c != '#')
  }

  /** The parts of a URL that may carry secrets, besides its endpoint: userinfo,
      and query and fragment. */
  predicate Secrets(user: string, tail: string) {
    IsUserinfo(user) && (tail == "" || tail[0] == '?' || tail[0] == '#')
  }

  /** An http or https endpoint; the path may be missing, the host may not. */
  predicate PlainEndpoint(scheme: string, host: string, path: string) {
    && IsHttp(scheme)
    && host != "" && (forall c | c in host :: c != '/' && c != '?' && c != '#' && c != '@')
    && (path == "" ==> TrimEnd(host) != "")
    && (path != "" ==> path[0] == '/') && (forall c | c in path :: c != '?' && c != '#')
  }

  lemma TrimKeepsEndpoint(head: string, path: string, tail: string)
    requires Solid(head) && path != "" && path[0] == '/'
    requires tail == "" || tail[0] == '?' || tail[0] == '#'
    ensures Trim(head + path + tail) == head + (if tail == "" then TrimEnd(path) else path + TrimEnd(tail))
    ensures TrimEnd(path) != "" && TrimEnd(path)[0] == '/' && TrimEnd(path) <= path
    ensures tail != "" ==> TrimEnd(tail) != "" && TrimEnd(tail)[0] == tail[0]
  {
    hide TrimEnd;
    var url := head + path + tail;
    assert url[0] == head[0];
    assert TrimStart(url) == url;
    TrimEndFacts(path);
    TrimEndFacts(tail);
    assert !IsSpace('/') && !IsSpace('?') && !IsSpace('#');
    assert url == head + (path + tail);
    TrimEndConcat(path, tail);
    TrimEndConcat(head, path + tail);
    if tail == "" {
      assert path + tail == path;
    }
  }

  lemma InputOfTrimmed(url: string, scheme: string, user: string, host: string, kept: string)
    requires IsHttp(scheme) && host != "" && '@' !in host && (user == "" || user[|user| - 1] == '@')
    requires forall c | c in user + host :: c != '/' && c != '?' && c != '#'
    requires kept != "" && kept[0] == '/'
    requires Trim(url) == Spell(scheme, user + host, kept)
    ensures SecretFreeFingerprintInput(url) == NormalizeBaseUrl(Spell(Lower(scheme), host, UpTo(kept, {'?', '#'})))
  {
    hide NormalizeBaseUrl, Trim, Spell, InputOfParts, AfterLastAt;
    HttpSchemesMarkFirst(scheme);
    SpellParses(scheme, user + host, kept);
    AfterLastAtSkips(user, host);
    var rest := Trim(url)[|scheme| + 3..];
    InputAtMark(url, |scheme|);
    InputOfEndpoint(Lower(scheme), rest, user + host, host, kept);
  }

  lemma InputAtMark(url: string, i: nat)
    requires Find(Trim(url), MARK) == Some(i)
    ensures i + 3 <= |Trim(url)|
    ensures SecretFreeFingerprintInput(url) == InputOfParts(Lower(Trim(url)[..i]), Trim(url)[i + 3..])
  {
    hide InputOfParts, Trim;
  }

  lemma InputOfEndpoint(scheme: string, rest: string, authority: string, host: string, kept: string)
    requires scheme == "http" || scheme == "https"
    requires UpTo(rest, {'/'}) == authority && rest[|authority|..] == kept
    requires AfterLastAt(authority) == host && host != "" && '?' !in authority && '#' !in authority
    ensures InputOfParts(scheme, rest) == NormalizeBaseUrl(Spell(scheme, host, UpTo(kept, {'?', '#'})))
  {
    hide NormalizeBaseUrl, Spell;
  }

  /** The fingerprint input of a URL is the normal form of its endpoint. */
  lemma FingerprintInputIsEndpoint(scheme: string, user: string, host: string, path: string, tail: string)
    requires PlainEndpoint(scheme, host, path) && Secrets(user, tail)
    requires path == "" ==> tail == ""
    ensures SecretFreeFingerprintInput(Spell(scheme, user + host, path + tail)) ==
              NormalizeBaseUrl(Spell(Lower(scheme), host, path))
  {
    if tail == "" {
      assert path + tail == path;
      if path == "" {
        NoPath(scheme, user, host);
      } else {
        PathWithoutTail(scheme, user, host, path);
      }
    } else {
      PathWithTail(scheme, user, host, path, tail);
    }
  }

  lemma PathWithTail(scheme: string, user: string, host: string, path: string, tail: string)
    requires PlainEndpoint(scheme, host, path) && Secrets(user, tail) && tail != "" && path != ""
    ensures SecretFreeFingerprintInput(Spell(scheme, user + host, path + tail)) ==
              NormalizeBaseUrl(Spell(Lower(scheme), host, path))
  {
    HttpSchemesMarkFirst(scheme);
    TrimOfSpell(scheme, user + host, path, tail);
    TrimKeepsEndpoint(scheme, path, tail);
    var rest := TrimEnd(tail);
    var url := Spell(scheme, user + host, path + tail);
    InputOfTrimmed(url, scheme, user, host, path + rest);
    UpToStops(path, rest, {'?', '#'});
  }

  lemma PathWithoutTail(scheme: string, user: string, host: string, path: string)
    requires PlainEndpoint(scheme, host, path) && Secrets(user, "") && path != ""
    ensures SecretFreeFingerprintInput(Spell(scheme, user + host, path)) ==
              NormalizeBaseUrl(Spell(Lower(scheme), host, path))
  {
    TrimmedPath(scheme, user, host, path);
    LowerTwice(scheme);
    HttpSchemesMarkFirst(Lower(scheme));
    SpacesBehindPath(Lower(scheme), host, path);
  }

  lemma TrimmedPath(scheme: string, user: string, host: string, path: string)
    requires PlainEndpoint(scheme, host, path) && Secrets(user, "") && path != ""
    ensures SecretFreeFingerprintInput(Spell(scheme, user + host, path)) ==
              NormalizeBaseUrl(Spell(Lower(scheme), host, TrimEnd(path)))
  {
    HttpSchemesMarkFirst(scheme);
    assert path + "" == path;
    TrimOfSpell(scheme, user + host, path, "");
    TrimKeepsEndpoint(scheme, path, "");
    TrimmedPathHasNoStops(path);
    InputOfTrimmed(Spell(scheme, user + host, path), scheme, user, host, TrimEnd(path));
  }

  lemma TrimmedPathHasNoStops(path: string)
    requires forall c | c in path :: c != '?' && c != '#'
    ensures UpTo(TrimEnd(path), {'?', '#'}) == TrimEnd(path)
  {
    TrimEndFacts(path);
    var kept := TrimEnd(path);
    forall c | c in kept
      ensures c !in {'?', '#'}
    {
      var i :| 0 <= i < |kept| && kept[i] == c;
      assert path[i] in path;
    }
    NothingStops(kept, {'?', '#'});
  }

  lemma {:induction false} NothingStops(s: string, stops: set<char>)
    requires forall c | c in s :: c !in stops
    ensures UpTo(s, stops) == s
  {
    UpToStops(s, "", stops);
    assert s + "" == s;
  }

  lemma TrimOfSpell(scheme: string, authority: string, path: string, tail: string)
    requires Solid(scheme) && path != "" && path[0] == '/'
    requires tail == "" || tail[0] == '?' || tail[0] == '#'
    ensures Trim(Spell(scheme, authority, path + tail)) ==
              Spell(scheme, authority, if tail == "" then TrimEnd(path) else path + TrimEnd(tail))
  {
    var url := Spell(scheme, authority, path + tail);
    var head := scheme + MARK + authority;
    assert url[0] == scheme[0];
    assert TrimStart(url) == url;
    TrimKeepsEndpoint(scheme, path, tail);
    assert url == head + (path + tail);
    TrimEndConcat(head, path + tail);
    TrimEndConcat(path, tail);
    if tail == "" {
      assert path + tail == path;
    }
  }

  /** White space behind the path is trimmed in normalisation anyway. */
  lemma SpacesBehindPath(scheme: string, host: string, path: string)
    requires Solid(scheme) && path != "" && path[0] == '/'
    ensures NormalizeBaseUrl(Spell(scheme, host, TrimEnd(path))) == NormalizeBaseUrl(Spell(scheme, host, path))
  {
    TrimOfSpell(scheme, host, path, "");
    assert path + "" == path;
    TrimTwice(Spell(scheme, host, path));
  }

  /** With no path a query or fragment falls into the authority, and the whole
      URL is redacted: still nothing of it enters the fingerprint. */
  lemma QueryWithoutPathIsRedacted(scheme: string, authority: string, tail: string)
    requires IsHttp(scheme) && '/' !in authority
    requires tail != "" && (tail[0] == '?' || tail[0] == '#')
    ensures SecretFreeFingerprintInput(scheme + MARK + authority + tail) == REDACTED
  {
    hide NormalizeBaseUrl, Trim, TrimEnd, InputOfParts;
    HttpSchemesMarkFirst(scheme);
    TailIsTrimmed(scheme + MARK + authority, tail);
    var rest := authority + TrimEnd(tail);
    assert scheme + MARK + authority + TrimEnd(tail) == scheme + MARK + rest;
    MarkedParts(scheme, rest);
    InputAtMark(scheme + MARK + authority + tail, |scheme|);
    QueryInAuthority(Lower(scheme), authority, TrimEnd(tail));
  }

  lemma QueryInAuthority(scheme: string, authority: string, tail: string)
    requires '/' !in authority && tail != "" && (tail[0] == '?' || tail[0] == '#')
    ensures InputOfParts(scheme, authority + tail) == REDACTED
  {
    var rest := authority + tail;
    assert forall k | 0 <= k < |authority| :: rest[k] in authority;
    assert rest[|authority|] == tail[0] && UpTo(rest, {'/'})[|authority|] == tail[0];
  }

  lemma TailIsTrimmed(head: string, tail: string)
    requires head != "" && !IsSpace(head[0]) && tail != "" && !IsSpace(tail[0])
    ensures Trim(head + tail) == head + TrimEnd(tail)
    ensures TrimEnd(tail) != "" && TrimEnd(tail)[0] == tail[0]
  {
    TrimEndFacts(tail);
    assert (head + tail)[0] == head[0];
    assert TrimStart(head + tail) == head + tail;
    TrimEndConcat(head, tail);
  }

  lemma MarkedParts(scheme: string, rest: string)
    requires IsFirst(scheme + MARK, MARK, |scheme|)
    ensures var url := scheme + MARK + rest;
            Find(url, MARK) == Some(|scheme|) && url[|scheme| + 3..] == rest && url[..|scheme|] == scheme
  {
    FirstIsFind(scheme + MARK, MARK, |scheme|);
    FindExtends(scheme + MARK, rest, MARK);
  }

  /** The path missing. */
  lemma NoPath(scheme: string, user: string, host: string)
    requires PlainEndpoint(scheme, host, "") && IsUserinfo(user)
    ensures SecretFreeFingerprintInput(Spell(scheme, user + host, "")) ==
              NormalizeBaseUrl(Spell(Lower(scheme), host, ""))
  {
    hide NormalizeBaseUrl, Trim, TrimEnd, InputOfParts;
    HttpSchemesMarkFirst(scheme);
    assert Spell(scheme, user + host, "") == scheme + MARK + user + host;
    assert Spell(scheme, host, "") == scheme + MARK + "" + host;
    MarkedUserinfoIsDropped(scheme, user, host);
    MarkedUserinfoIsDropped(scheme, "", host);
    var kept := TrimEnd(host);
    HostIsTrimmed(scheme, host);
    HostIsKept(host);
    InputAtMark(scheme + MARK + host, |scheme|);
    InputOfEndpoint(Lower(scheme), kept, kept, kept, "");
    LowerTwice(scheme);
    HttpSchemesMarkFirst(Lower(scheme));
    SpacesBehindHost(Lower(scheme), host);
  }

  lemma PrefixChars(t: string, s: string)
    requires t <= s
    ensures forall c | c in t :: c in s
  {
    forall i | 0 <= i < |t|
      ensures t[i] in s
    {
      assert t[i] == s[i];
    }
  }

  lemma HostIsKept(host: string)
    requires forall c | c in host :: c != '/' && c != '?' && c != '#' && c != '@'
    ensures var kept := TrimEnd(host);
            && (forall c | c in kept :: c in host) && kept[|kept|..] == ""
            && UpTo(kept, {'/'}) == kept && AfterLastAt(kept) == kept && UpTo("", {'?', '#'}) == ""
  {
    hide TrimEnd;
    TrimEndFacts(host);
    var kept := TrimEnd(host);
    PrefixChars(kept, host);
    NothingStops(kept, {'/'});
    AfterLastAtSkips("", kept);
    assert "" + kept == kept;
  }

  lemma HostIsTrimmed(scheme: string, host: string)
    requires MarksFirst(scheme) && Solid(scheme)
    ensures var url := scheme + MARK + host;
            && Trim(url) == scheme + MARK + TrimEnd(host)
            && Find(Trim(url), MARK) == Some(|scheme|)
            && Trim(url)[..|scheme|] == scheme && Trim(url)[|scheme| + 3..] == TrimEnd(host)
  {
    hide TrimEnd, Trim;
    MarkedIsTrimmed(scheme, "", host);
    assert scheme + MARK + "" + host == scheme + MARK + host;
    assert "" + TrimEnd(host) == TrimEnd(host);
    MarkedParts(scheme, TrimEnd(host));
  }

  lemma SpacesBehindHost(scheme: string, host: string)
    requires MarksFirst(scheme) && Solid(scheme)
    ensures NormalizeBaseUrl(Spell(scheme, TrimEnd(host), "")) == NormalizeBaseUrl(Spell(scheme, host, ""))
  {
    hide TrimEnd, Trim, NormalizeBaseUrl;
    var kept := TrimEnd(host);
    HostIsTrimmed(scheme, host);
    HostIsTrimmed(scheme, kept);
    TrimEndFixed(host);
    SameWhenTrimmed(scheme + MARK + host, scheme + MARK + kept);
    assert scheme + MARK + host == Spell(scheme, host, "") && scheme + MARK + kept == Spell(scheme, kept, "");
  }

  lemma SameWhenTrimmed(a: string, b: string)
    requires Trim(a) == Trim(b)
    ensures NormalizeBaseUrl(a) == NormalizeBaseUrl(b)
  {
    hide Trim;
  }

  lemma TrimEndFixed(s: string)
    ensures TrimEnd(TrimEnd(s)) == TrimEnd(s)
  {
    TrimEndFacts(s);
  }

  // --------------------------------------------------------- userinfo alone

  lemma {:induction false} UpToSkips(a: string, b: string, stops: set<char>)
    requires forall c | c in a :: c !in stops
    ensures UpTo(a + b, stops) == a + UpTo(b, stops)
  {
    if a == "" {
      assert a + b == b;
    } else {
      var first, rest := a[0], a[1..];
      assert first in a && a == [first] + rest;
      assert forall c | c in rest :: c in a;
      UpToSkips(rest, b, stops);
      Associative([first], rest, b);
      UpToGoesOn(first, rest + b, stops);
      Associative([first], rest, UpTo(b, stops));
    }
  }

  lemma UpToGoesOn(first: char, rest: string, stops: set<char>)
    requires first !in stops
    ensures UpTo([first] + rest, stops) == [first] + UpTo(rest, stops)
  {
    assert ([first] + rest)[1..] == rest;
  }

  lemma {:induction false} LastAtBehindUserinfo(user: string, host: string)
    requires user == "" || user[|user| - 1] == '@'
    ensures AfterLastAt(user + host) == AfterLastAt(host)
    decreases |host|
  {
    if host == "" {
      assert user + host == user;
    } else {
      var n := |host| - 1;
      assert (user + host)[..|user + host| - 1] == user + host[..n];
      LastAtBehindUserinfo(user, host[..n]);
    }
  }

  /** Behind a `://` userinfo is dropped. */
  lemma PartsDropUserinfo(scheme: string, user: string, rest: string)
    requires IsUserinfo(user)
    ensures InputOfParts(scheme, user + rest) == InputOfParts(scheme, rest)
  {
    hide NormalizeBaseUrl, Spell, UpTo, AfterLastAt;
    UpToSkips(user, rest, {'/'});
    var host := UpTo(rest, {'/'});
    LastAtBehindUserinfo(user, host);
    assert (user + rest)[|user + host|..] == rest[|host|..];
    assert forall c | c == '?' || c == '#' :: c in user + host <==> c in host;
  }

  lemma MarkedIsTrimmed(scheme: string, user: string, rest: string)
    requires (scheme == "" || !IsSpace(scheme[0])) && IsUserinfo(user)
    ensures Trim(scheme + MARK + user + rest) == scheme + MARK + (user + TrimEnd(rest))
  {
    hide TrimEnd;
    var head := scheme + MARK + user;
    SolidHead(scheme, user);
    assert (head + rest)[0] == head[0];
    assert TrimStart(head + rest) == head + rest;
    TrimEndConcat(head, rest);
    Associative(scheme + MARK, user, TrimEnd(rest));
  }

  lemma SolidHead(scheme: string, user: string)
    requires (scheme == "" || !IsSpace(scheme[0])) && IsUserinfo(user)
    ensures var head := scheme + MARK + user; Solid(head) && TrimEnd(head) == head
  {
    var head := scheme + MARK + user;
    assert head[0] == (scheme + MARK)[0];
    assert head[|head| - 1] == if user == "" then '/' else '@';
  }

  lemma {:induction false} TrimStartBefore(scheme: string, rest: string)
    ensures TrimStart(scheme + MARK + rest) == TrimStart(scheme) + MARK + rest
  {
    var url := scheme + MARK + rest;
    if scheme != "" && IsSpace(scheme[0]) {
      assert url[1..] == scheme[1..] + MARK + rest;
      TrimStartBefore(scheme[1..], rest);
    } else {
      assert url[0] == (scheme + MARK)[0];
    }
  }

  lemma {:induction false} TrimStartKeepsMark(scheme: string)
    requires MarksFirst(scheme)
    ensures MarksFirst(TrimStart(scheme))
  {
    if scheme != "" && IsSpace(scheme[0]) {
      var x, y := scheme + MARK, scheme[1..] + MARK;
      assert y == x[1..|x|];
      OccursInside(x, MARK, 1, |x|, |scheme|);
      forall j: nat | j < |scheme| - 1
        ensures !OccursAt(y, MARK, j)
      {
        if OccursAt(y, MARK, j) {
          OccursInPart(x, MARK, 1, |x|, j);
        }
      }
      TrimStartKeepsMark(scheme[1..]);
    }
  }

  lemma InputOfMarked(scheme: string, user: string, rest: string)
    requires MarksFirst(scheme) && IsUserinfo(user)
    ensures SecretFreeFingerprintInput(scheme + MARK + user + rest) ==
              InputOfParts(Lower(TrimStart(scheme)), user + TrimEnd(rest))
  {
    hide InputOfParts, TrimEnd, TrimStart, NormalizeBaseUrl;
    var trimmed := TrimStart(scheme);
    var url, short := scheme + MARK + user + rest, trimmed + MARK + user + rest;
    assert url == scheme + MARK + (user + rest) && short == trimmed + MARK + (user + rest);
    TrimStartBefore(scheme, user + rest);
    TrimStartKeepsMark(scheme);
    TrimStartFacts(scheme);
    MarkedIsTrimmed(trimmed, user, rest);
    TrimIgnoresTrimmedStart(url);
    MarkedParts(trimmed, user + TrimEnd(rest));
    InputAtMark(url, |trimmed|);
  }

  lemma TrimIgnoresTrimmedStart(s: string)
    ensures Trim(TrimStart(s)) == Trim(s)
  {
    TrimStartFacts(s);
  }

  /** With a `://` in front, userinfo never enters the fingerprint, whatever the
      scheme and whatever follows. */
  lemma MarkedUserinfoIsDropped(scheme: string, user: string, rest: string)
    requires MarksFirst(scheme) && IsUserinfo(user)
    ensures SecretFreeFingerprintInput(scheme + MARK + user + rest) == SecretFreeFingerprintInput(scheme + MARK + rest)
  {
    hide TrimStart, TrimEnd, InputOfParts, SecretFreeFingerprintInput;
    InputOfMarked(scheme, user, rest);
    InputOfMarked(scheme, "", rest);
    assert scheme + MARK + "" == scheme + MARK && "" + TrimEnd(rest) == TrimEnd(rest);
    PartsDropUserinfo(Lower(TrimStart(scheme)), user, TrimEnd(rest));
  }

  lemma {:induction false} TrimStartOfUserinfo(user: string, rest: string)
    requires user != "" && user[|user| - 1] == '@'
    ensures TrimStart(user + rest) == TrimStart(user) + rest
    ensures TrimStart(user) != "" && TrimStart(user)[|TrimStart(user)| - 1] == '@'
    ensures forall c | c in TrimStart(user) :: c in user
  {
    if IsSpace(user[0]) {
      assert (user + rest)[1..] == user[1..] + rest;
      TrimStartOfUserinfo(user[1..], rest);
    }
  }

  lemma {:induction false} TrimSlashesOfUserinfo(user: string, rest: string)
    requires user != "" && user[|user| - 1] == '@'
    ensures TrimEndChar(user + rest, '/') == user + TrimEndChar(rest, '/')
    decreases |rest|
  {
    if rest == "" {
      assert user + rest == user;
    } else {
      assert (user + rest)[..|user + rest| - 1] == user + rest[..|rest| - 1];
      if rest[|rest| - 1] == '/' {
        TrimSlashesOfUserinfo(user, rest[..|rest| - 1]);
      }
    }
  }

  /** A mark cannot begin in userinfo. */
  lemma MarkIsBehindUserinfo(user: string, rest: string)
    requires IsUserinfo(user) && Find(rest, MARK).None?
    ensures Find(user + rest, MARK).None?
  {
    if Find(user + rest, MARK).Some? {
      var x, i := user + rest, Find(user + rest, MARK).value;
      NoMarkInUserinfo(user, rest, i);
      assert x[|user|..|x|] == rest;
      OccursInside(x, MARK, |user|, |x|, i);
    }
  }

  lemma NoMarkInUserinfo(user: string, rest: string, i: nat)
    requires IsUserinfo(user) && OccursAt(user + rest, MARK, i)
    ensures |user| <= i
  {
    var x := user + rest;
    assert x[i..i + 3][0] == x[i] && x[i..i + 3][1] == x[i + 1];
    assert forall k | 0 <= k < |user| :: x[k] in user;
  }

  lemma PrefixHasNoMark(s: string, t: string)
    requires t <= s && Find(s, MARK).None?
    ensures Find(t, MARK).None?
  {
    if Find(t, MARK).Some? {
      assert s[0..|t|] == t;
      OccursInPart(s, MARK, 0, |t|, Find(t, MARK).value);
    }
  }

  /** What an address without `://` keeps of what follows its userinfo. */
  function Remainder(rest: string): string {
    TrimEndChar(TrimEnd(UpTo(TrimEnd(rest), {'?', '#'})), '/')
  }

  /** Without a `://` userinfo is kept, its letters lower-cased. */
  lemma UnmarkedUserinfoIsKept(user: string, rest: string)
    requires user != "" && IsUserinfo(user) && Find(rest, MARK).None?
    ensures SecretFreeFingerprintInput(user + rest) == Lower(TrimStart(user) + Remainder(rest))
  {
    hide NormalizeBaseUrl, SecretFreeFingerprintInput, TrimEnd, TrimStart, UpTo, Find, Trim;
    var name, kept := TrimStart(user), TrimEnd(rest);
    var short := UpTo(kept, {'?', '#'});
    TrimStartOfUserinfo(user, rest);
    TrimStartFacts(user);
    UserinfoIsTrimmed(user, rest);
    TrimEndFacts(rest);
    PrefixHasNoMark(rest, kept);
    MarkIsBehindUserinfo(name, kept);
    UpToSkips(name, kept, {'?', '#'});
    PrefixHasNoMark(kept, short);
    InputOfUnmarked(user + rest, name, short);
    UserinfoIsInCore(name, short);
    UnmarkedNormalises(name, short);
  }

  lemma UserinfoIsTrimmed(user: string, rest: string)
    requires user != "" && IsUserinfo(user)
    ensures Trim(user + rest) == TrimStart(user) + TrimEnd(rest)
  {
    hide TrimEnd, TrimStart;
    TrimStartOfUserinfo(user, rest);
    TrimEndConcat(TrimStart(user), rest);
    TrimEndOfUserinfo(TrimStart(user));
  }

  lemma TrimEndOfUserinfo(name: string)
    requires name != "" && name[|name| - 1] == '@'
    ensures TrimEnd(name) == name
  {
  }

  lemma InputOfUnmarked(url: string, name: string, short: string)
    requires Find(Trim(url), MARK).None? && UpTo(Trim(url), {'?', '#'}) == name + short
    ensures SecretFreeFingerprintInput(url) == NormalizeBaseUrl(name + short)
  {
    hide Trim, NormalizeBaseUrl;
  }

  lemma UserinfoIsInCore(name: string, short: string)
    requires name != "" && name[|name| - 1] == '@' && !IsSpace(name[0])
    ensures Core(name + short) == name + TrimEndChar(TrimEnd(short), '/')
  {
    assert (name + short)[0] == name[0];
    assert TrimStart(name + short) == name + short;
    TrimEndConcat(name, short);
    TrimEndOfUserinfo(name);
    TrimSlashesOfUserinfo(name, TrimEnd(short));
  }

  lemma UnmarkedNormalises(name: string, short: string)
    requires name != "" && IsUserinfo(name) && !IsSpace(name[0]) && Find(short, MARK).None?
    ensures var end := TrimEndChar(TrimEnd(short), '/');
            Core(name + short) == name + end ==> NormalizeBaseUrl(name + short) == Lower(name + end)
  {
    hide Core, TrimEnd;
    var end := TrimEndChar(TrimEnd(short), '/');
    TrimEndFacts(short);
    TrimEndCharFacts(TrimEnd(short), '/');
    assert end <= short;
    PrefixHasNoMark(short, end);
    MarkIsBehindUserinfo(name, end);
  }

  /** So two userinfos without a `://` give one fingerprint exactly when they
      agree up to letter case and leading white space. */
  lemma UnmarkedUserinfosAlikeIff(user: string, other: string, rest: string)
    requires user != "" && IsUserinfo(user) && other != "" && IsUserinfo(other) && Find(rest, MARK).None?
    ensures SecretFreeFingerprintInput(user + rest) == SecretFreeFingerprintInput(other + rest) <==>
              EqIgnoreCase(TrimStart(user), TrimStart(other))
  {
    hide Remainder, TrimStart;
    UnmarkedUserinfoIsKept(user, rest);
    UnmarkedUserinfoIsKept(other, rest);
    SharedEnd(TrimStart(user), TrimStart(other), Remainder(rest));
  }

  lemma SharedEnd(a: string, b: string, end: string)
    ensures Lower(a + end) == Lower(b + end) <==> Lower(a) == Lower(b)
  {
    assert Lower(a + end) == Lower(a) + Lower(end);
    assert Lower(b + end) == Lower(b) + Lower(end);
    if Lower(a + end) == Lower(b + end) {
      assert Lower(a) == Lower(a + end)[..|a|] && Lower(b) == Lower(b + end)[..|b|];
    }
  }

  /** An address with or without scheme. */
  function Address(scheme: Option<string>, user: string, rest: string): string {
    if scheme.Some? then scheme.value + MARK + user + rest else user + rest
  }

  /** Userinfo in front of a `://` makes an unknown scheme: all is redacted. */
  lemma UserinfoBeforeMarkIsRedacted(user: string, rest: string)
    requires user != "" && IsUserinfo(user) && Find(rest, MARK).Some?
    ensures SecretFreeFingerprintInput(user + rest) == REDACTED
  {
    hide InputOfParts, TrimEnd, TrimStart, Trim;
    var name, kept := TrimStart(user), TrimEnd(rest);
    TrimStartOfUserinfo(user, rest);
    UserinfoIsTrimmed(user, rest);
    MarkSurvivesTrimming(rest);
    var i := MarkBehindUserinfo(name, kept);
    InputAtMark(user + rest, i);
    UserinfoIsNoScheme(name, (name + kept)[..i], (name + kept)[i + 3..]);
  }

  lemma MarkSurvivesTrimming(rest: string)
    requires Find(rest, MARK).Some?
    ensures Find(TrimEnd(rest), MARK).Some?
  {
    var i, kept := Find(rest, MARK).value, TrimEnd(rest);
    TrimEndFacts(rest);
    assert rest[i..i + 3][2] == rest[i + 2];
    assert rest[0..|kept|] == kept;
    OccursInside(rest, MARK, 0, |kept|, i);
  }

  lemma MarkBehindUserinfo(name: string, kept: string) returns (i: nat)
    requires IsUserinfo(name) && Find(kept, MARK).Some?
    ensures Find(name + kept, MARK) == Some(i) && |name| <= i && i + 3 <= |name + kept|
  {
    var url := name + kept;
    assert url[|name|..|url|] == kept;
    OccursInPart(url, MARK, |name|, |url|, Find(kept, MARK).value);
    i := Find(url, MARK).value;
    NoMarkInUserinfo(name, kept, i);
  }

  lemma UserinfoIsNoScheme(name: string, scheme: string, rest: string)
    requires name != "" && name[|name| - 1] == '@' && name <= scheme
    ensures InputOfParts(Lower(scheme), rest) == REDACTED
  {
    hide NormalizeBaseUrl;
    assert scheme[|name| - 1] == '@' && Lower(scheme)[|name| - 1] == '@';
    assert '@' !in "http" && '@' !in "https";
    assert Lower(scheme)[|name| - 1] in Lower(scheme);
  }

  ghost predicate SameInput(scheme: Option<string>, user: string, other: string, rest: string) {
    SecretFreeFingerprintInput(Address(scheme, user, rest)) == SecretFreeFingerprintInput(Address(scheme, other, rest))
  }

  /** What userinfo says never matters exactly when the address holds a `://`:
      in front of it, where it is dropped, or behind it, where all is redacted. */
  lemma UserinfoNeverMattersIff(scheme: Option<string>, rest: string)
    requires scheme.Some? ==> MarksFirst(scheme.value)
    ensures (forall user, other | user != "" && IsUserinfo(user) && other != "" && IsUserinfo(other) ::
               SameInput(scheme, user, other, rest))
            <==> scheme.Some? || Find(rest, MARK).Some?
  {
    if scheme.Some? || Find(rest, MARK).Some? {
      forall user, other | user != "" && IsUserinfo(user) && other != "" && IsUserinfo(other)
        ensures SameInput(scheme, user, other, rest)
      {
        if scheme.Some? {
          MarkedUserinfoIsDropped(scheme.value, user, rest);
          MarkedUserinfoIsDropped(scheme.value, other, rest);
        } else {
          UserinfoBeforeMarkIsRedacted(user, rest);
          UserinfoBeforeMarkIsRedacted(other, rest);
        }
      }
    } else {
      UnmarkedUserinfosAlikeIff("a@", "b@", rest);
      assert Lower("a@")[0] == 'a' && Lower("b@")[0] == 'b';
      assert IsUserinfo("a@") && IsUserinfo("b@");
      assert Address(scheme, "a@", rest) == "a@" + rest && Address(scheme, "b@", rest) == "b@" + rest;
      assert !SameInput(scheme, "a@", "b@", rest);
    }
  }

  // ------------------------------------------------------------- all secrets

  lemma NormalFormIsNotRedacted(scheme: string, host: string)
    requires PlainEndpoint(scheme, host, "")
    ensures NormalizeBaseUrl(Spell(Lower(scheme), host, "")) != REDACTED
  {
    hide TrimEnd;
    var s, kept := Lower(scheme), TrimEnd(host);
    LowerTwice(scheme);
    HttpSchemesMarkFirst(s);
    HostIsTrimmed(s, host);
    HostIsKept(host);
    var core := s + MARK + kept;
    assert Spell(s, host, "") == s + MARK + host;
    assert kept[|kept| - 1] in kept;
    assert core[|core| - 1] == kept[|kept| - 1];
    assert Core(Spell(s, host, "")) == core;
    FirstOfNormal(core, |s|);
    assert core[0] == s[0] == 'h';
  }

  lemma FirstOfNormal(core: string, i: nat)
    requires Find(core, MARK) == Some(i) && 0 < i && core[0] == 'h'
    ensures NormalizeCore(core) != REDACTED
  {
    CoreIsSpelled(core, i);
    assert NormalizeCore(core)[0] == Lower(core[..i])[0] == 'h';
  }

  /** Of an http or https URL neither userinfo nor query nor fragment enters the
      fingerprint: two choices give one input, except that without a path it
      shows whether there was a query or fragment at all. */
  lemma SecretsNeverMatter(scheme: string, host: string, path: string, user: string, tail: string, user': string,
                           tail': string)
    requires PlainEndpoint(scheme, host, path) && Secrets(user, tail) && Secrets(user', tail')
    ensures SecretFreeFingerprintInput(Spell(scheme, user + host, path + tail)) ==
              SecretFreeFingerprintInput(Spell(scheme, user' + host, path + tail'))
            <==> path != "" || (tail == "" <==> tail' == "")
  {
    InputOfSecrets(scheme, host, path, user, tail);
    InputOfSecrets(scheme, host, path, user', tail');
    if path == "" {
      NormalFormIsNotRedacted(scheme, host);
    }
  }

  lemma InputOfSecrets(scheme: string, host: string, path: string, user: string, tail: string)
    requires PlainEndpoint(scheme, host, path) && Secrets(user, tail)
    ensures SecretFreeFingerprintInput(Spell(scheme, user + host, path + tail)) ==
              if path == "" && tail != "" then REDACTED else NormalizeBaseUrl(Spell(Lower(scheme), host, path))
  {
    if path == "" && tail != "" {
      assert "" + tail == tail && Spell(scheme, user + host, tail) == scheme + MARK + (user + host) + tail;
      assert '/' !in user + host;
      QueryWithoutPathIsRedacted(scheme, user + host, tail);
    } else {
      FingerprintInputIsEndpoint(scheme, user, host, path, tail);
    }
  }

  // -------------------------------------------------------------- idempotence

  /** The authority of a core with a `://` at `i`, after normalisation. */
  function NormalAuthority(core: string, i: nat): string
    requires i + 3 <= |core|
  {
    StripPort(Lower(core[..i]), Lower(UpTo(core[i + 3..], {'/'})))
  }

  /** What follows the authority of a core with a `://` at `i`. */
  function PathOf(core: string, i: nat): string
    requires i + 3 <= |core|
  {
    core[i + 3..][|UpTo(core[i + 3..], {'/'})|..]
  }

  predicate EndsInSpace(s: string) {
    s != "" && IsSpace(s[|s| - 1])
  }

  /** Nothing is left for a second normalisation: no second default port behind
      the authority, no white space at the end, and not just a default port
      for an authority without any path. */
  ghost predicate Settled(url: string) {
    var core := Core(url);
    match Find(core, MARK)
    case None => !EndsInSpace(core)
    case Some(i) =>
      var authority := NormalAuthority(core, i);
      && StripPort(Lower(core[..i]), authority) == authority
      && if PathOf(core, i) == "" then authority != "" && !EndsInSpace(authority) else !EndsInSpace(core)
  }

  lemma TrimStartShortens(s: string)
    ensures var t := TrimStart(s); |t| <= |s| && (|t| == |s| ==> t == s)
  {
    hide TrimStart;
    TrimStartFacts(s);
    assert s[0..] == s;
  }

  lemma TrimEndShortens(s: string)
    ensures var t := TrimEnd(s); |t| <= |s| && (|t| == |s| ==> t == s)
  {
    hide TrimEnd;
    TrimEndFacts(s);
  }

  lemma TrimOnlyShortens(s: string)
    ensures |Trim(s)| <= |s| && (Trim(s) == s <==> Trimmed(s))
    ensures |Trim(s)| == |s| ==> Trim(s) == s
  {
    hide TrimStart, TrimEnd, Solid;
    TrimStartShortens(s);
    TrimEndShortens(TrimStart(s));
    if Trimmed(s) {
      TrimFixed(s);
    } else {
      TrimTwice(s);
    }
  }

  lemma CoreFacts(url: string)
    ensures var core := Core(url);
            && |core| <= |url| && (|core| == |url| ==> core == url)
            && (core != "" ==> core[|core| - 1] != '/' && !IsSpace(core[0]))
            && (Trimmed(url) && (url == "" || url[|url| - 1] != '/') <==> core == url)
  {
    TrimOnlyShortens(url);
    TrimTwice(url);
    TrimEndCharFacts(Trim(url), '/');
    var core := Core(url);
    if core != "" {
      assert core[0] == Trim(url)[0];
    }
    if Trimmed(url) && (url == "" || url[|url| - 1] != '/') {
      assert TrimEndChar(url, '/') == url;
    }
  }

  lemma NormalAuthorityHasNoSlash(core: string, i: nat)
    requires i + 3 <= |core|
    ensures '/' !in NormalAuthority(core, i)
  {
    var raw := UpTo(core[i + 3..], {'/'});
    LowerKeepsSlashFree(raw);
    var authority := NormalAuthority(core, i);
    forall k | 0 <= k < |authority|
      ensures authority[k] != '/'
    {
      assert Lower(raw)[k] in Lower(raw);
    }
  }

  lemma CoreDecomposes(core: string, i: nat)
    requires Find(core, MARK) == Some(i)
    ensures core == Spell(core[..i], UpTo(core[i + 3..], {'/'}), PathOf(core, i))
  {
    FoundMarkIsFirst(core);
    var raw, path := UpTo(core[i + 3..], {'/'}), PathOf(core, i);
    assert core[i + 3..] == raw + path;
    Associative(core[..i] + MARK, raw, path);
  }

  /** The normal form of a core with a mark. */
  lemma CoreIsSpelled(core: string, i: nat)
    requires Find(core, MARK) == Some(i)
    ensures && i + 3 <= |core|
            && MarksFirst(Lower(core[..i]))
            && '/' !in NormalAuthority(core, i)
            && NormalizeCore(core) == Spell(Lower(core[..i]), NormalAuthority(core, i), PathOf(core, i))
            && (PathOf(core, i) == "" || PathOf(core, i)[0] == '/')
            && core == Spell(core[..i], UpTo(core[i + 3..], {'/'}), PathOf(core, i))
  {
    FoundMarkIsFirst(core);
    LowerKeepsMarks(core[..i]);
    NormalAuthorityHasNoSlash(core, i);
    CoreDecomposes(core, i);
  }

  lemma NormalIsSpelled(url: string, i: nat)
    requires Find(Core(url), MARK) == Some(i)
    ensures var core := Core(url);
            && i + 3 <= |core|
            && MarksFirst(Lower(core[..i]))
            && '/' !in NormalAuthority(core, i)
            && NormalizeBaseUrl(url) == Spell(Lower(core[..i]), NormalAuthority(core, i), PathOf(core, i))
            && (PathOf(core, i) == "" || PathOf(core, i)[0] == '/')
            && core == Spell(core[..i], UpTo(core[i + 3..], {'/'}), PathOf(core, i))
  {
    CoreIsSpelled(Core(url), i);
  }

  /** Its parts read back. */
  lemma NormalParts(url: string, i: nat)
    requires Find(Core(url), MARK) == Some(i)
    ensures var core := Core(url);
            var n := NormalizeBaseUrl(url);
            && i + 3 <= |core| && i + 3 <= |n|
            && Find(n, MARK) == Some(i)
            && n[..i] == Lower(core[..i])
            && UpTo(n[i + 3..], {'/'}) == NormalAuthority(core, i)
            && PathOf(n, i) == PathOf(core, i)
  {
    var core := Core(url);
    NormalIsSpelled(url, i);
    SpellParses(Lower(core[..i]), NormalAuthority(core, i), PathOf(core, i));
  }

  lemma NormalLength(url: string)
    ensures |NormalizeBaseUrl(url)| <= |Core(url)|
  {
    if Find(Core(url), MARK).Some? {
      NormalIsSpelled(url, Find(Core(url), MARK).value);
    }
  }

  lemma LowerPrefixTwice(raw: string, part: string)
    requires part <= Lower(raw)
    ensures Lower(part) == part
  {
    forall k | 0 <= k < |part|
      ensures LowerChar(part[k]) == part[k]
    {
      assert part[k] == LowerChar(raw[k]);
    }
  }

  /** Where a normal form is its own core, a second normalisation only strips
      another default port. */
  lemma SecondNormalisation(url: string, i: nat)
    requires Find(Core(url), MARK) == Some(i)
    requires Core(NormalizeBaseUrl(url)) == NormalizeBaseUrl(url)
    ensures var n := NormalizeBaseUrl(url);
            var core := Core(url);
            && i + 3 <= |core|
            && var authority := NormalAuthority(core, i);
               NormalizeBaseUrl(n) == Spell(Lower(core[..i]), StripPort(Lower(core[..i]), authority), PathOf(core, i))
  {
    var core := Core(url);
    var n := NormalizeBaseUrl(url);
    NormalParts(url, i);
    LowerTwice(core[..i]);
    LowerPrefixTwice(UpTo(core[i + 3..], {'/'}), NormalAuthority(core, i));
    NormalIsSpelled(n, i);
  }

  lemma UnmarkedTwice(url: string)
    requires Find(Core(url), MARK).None?
    requires Core(NormalizeBaseUrl(url)) == NormalizeBaseUrl(url)
    ensures NormalizeBaseUrl(NormalizeBaseUrl(url)) == NormalizeBaseUrl(url)
  {
    var core := Core(url);
    LowerTwice(core);
    if Find(Lower(core), MARK).Some? {
      SameChars(core, Lower(core), Find(Lower(core), MARK).value);
    }
  }

  lemma SpacesKeepCase(s: string)
    ensures EndsInSpace(Lower(s)) <==> EndsInSpace(s)
  {
  }

  predicate EndsInSlash(s: string) {
    s != "" && s[|s| - 1] == '/'
  }

  lemma EndOfSpell(scheme: string, authority: string, path: string)
    ensures var s := Spell(scheme, authority, path);
            && s != ""
            && (path != "" ==> s[|s| - 1] == path[|path| - 1])
            && (path == "" && authority != "" ==> s[|s| - 1] == authority[|authority| - 1])
            && (path == "" && authority == "" ==> s[|s| - 1] == '/')
            && s[0] == (scheme + MARK)[0]
  {
  }

  /** Two spellings with one path, the first not ending in a slash. */
  lemma EndsAlike(scheme: string, raw: string, scheme': string, authority: string, path: string)
    requires !EndsInSlash(Spell(scheme, raw, path)) && '/' !in authority
    ensures var n := Spell(scheme', authority, path);
            !EndsInSpace(n) && !EndsInSlash(n) <==>
              if path == "" then authority != "" && !EndsInSpace(authority) else !EndsInSpace(Spell(scheme, raw, path))
  {
    EndOfSpell(scheme, raw, path);
    EndOfSpell(scheme', authority, path);
    if authority != "" {
      assert authority[|authority| - 1] in authority;
    }
  }

  lemma EndsOfMarked(core: string, i: nat)
    requires Find(core, MARK) == Some(i) && !EndsInSlash(core) && !IsSpace(core[0])
    ensures var n := NormalizeCore(core);
            && i + 3 <= |core|
            && var authority := NormalAuthority(core, i);
               && n != "" && !IsSpace(n[0])
               && (!EndsInSpace(n) && !EndsInSlash(n) <==>
                    if PathOf(core, i) == "" then authority != "" && !EndsInSpace(authority) else !EndsInSpace(core))
  {
    CoreIsSpelled(core, i);
    var scheme, authority, path := Lower(core[..i]), NormalAuthority(core, i), PathOf(core, i);
    EndsAlike(core[..i], UpTo(core[i + 3..], {'/'}), scheme, authority, path);
    EndOfSpell(scheme, authority, path);
    FirstOfSpell(core, i);
  }

  lemma FirstOfSpell(core: string, i: nat)
    requires i + 3 <= |core| && !IsSpace(core[0])
    ensures !IsSpace((Lower(core[..i]) + MARK)[0])
  {
    if i > 0 {
      assert (Lower(core[..i]) + MARK)[0] == LowerChar(core[0]);
    } else {
      assert (Lower(core[..i]) + MARK)[0] == ':';
    }
  }

  lemma EndsOfUnmarked(core: string)
    requires Find(core, MARK).None? && !EndsInSlash(core) && (core != "" ==> !IsSpace(core[0]))
    ensures var n := NormalizeCore(core);
            && (n != "" ==> !IsSpace(n[0]))
            && !EndsInSlash(n)
            && (EndsInSpace(n) <==> EndsInSpace(core))
  {
    SpacesKeepCase(core);
    if core != "" {
      assert Lower(core)[|core| - 1] == LowerChar(core[|core| - 1]);
      assert Lower(core)[0] == LowerChar(core[0]);
    }
  }

  /** When a normal form is its own core. */
  lemma NormalFormIsCoreIff(url: string)
    ensures var n := NormalizeBaseUrl(url);
            var core := Core(url);
            Core(n) == n <==>
              match Find(core, MARK)
              case None => !EndsInSpace(core)
              case Some(i) =>
                && i + 3 <= |core|
                && var authority := NormalAuthority(core, i);
                   if PathOf(core, i) == "" then authority != "" && !EndsInSpace(authority) else !EndsInSpace(core)
  {
    hide Core, NormalizeCore, NormalAuthority, PathOf;
    var core := Core(url);
    CoreFacts(url);
    CoreFacts(NormalizeBaseUrl(url));
    match Find(core, MARK)
    case None => EndsOfUnmarked(core);
    case Some(i) => EndsOfMarked(core, i);
  }

  /** Normalising twice is normalising once exactly for settled spellings. */
  lemma IdempotentIff(url: string)
    ensures NormalizeBaseUrl(NormalizeBaseUrl(url)) == NormalizeBaseUrl(url) <==> Settled(url)
  {
    var core := Core(url);
    var n := NormalizeBaseUrl(url);
    NormalFormIsCoreIff(url);
    if Core(n) != n {
      CoreFacts(n);
      NormalLength(n);
      assert |NormalizeBaseUrl(n)| < |n|;
    } else if Find(core, MARK).None? {
      UnmarkedTwice(url);
    } else {
      var i := Find(core, MARK).value;
      NormalIsSpelled(url, i);
      SecondNormalisation(url, i);
      var authority := NormalAuthority(core, i);
      assert |n| == i + 3 + |authority| + |PathOf(core, i)|;
      assert |NormalizeBaseUrl(n)| == i + 3 + |StripPort(Lower(core[..i]), authority)| + |PathOf(core, i)|;
    }
  }

  // The spellings a second normalisation changes, one family each.

  /** A default port behind a default port. */
  lemma DoubledPortIsUnsettled(scheme: string, host: string)
    requires IsHttp(scheme) && '/' !in host
    ensures var port := DefaultPort(Lower(scheme));
            var url := scheme + MARK + (host + port + port);
            !Settled(url) && NormalizeBaseUrl(NormalizeBaseUrl(url)) != NormalizeBaseUrl(url)
  {
    hide Settled, NormalizeBaseUrl, DefaultPort, Lower, StripPort, Core, NormalAuthority, PathOf;
    var port := DefaultPort(Lower(scheme));
    var authority := host + port + port;
    PortEnds(Lower(scheme), host + port);
    PortIsStripped(Lower(scheme), host);
    PortIsStripped(Lower(scheme), host + port);
    CoreOfAuthority(scheme, authority);
    LowerOfPort(Lower(scheme), host);
    UnsettledPort(scheme + MARK + authority, |scheme|);
    IdempotentIff(scheme + MARK + authority);
  }

  lemma PortEnds(scheme: string, host: string)
    requires scheme == "http" || scheme == "https"
    ensures var authority := host + DefaultPort(scheme); authority != "" && !IsSpace(authority[|authority| - 1])
  {
  }

  lemma LowerOfPort(scheme: string, host: string)
    requires scheme == "http" || scheme == "https"
    ensures Lower(host + DefaultPort(scheme)) != Lower(host)
  {
    assert |Lower(host + DefaultPort(scheme))| > |Lower(host)|;
  }

  lemma UnsettledPort(url: string, i: nat)
    requires Core(url) == url && Find(url, MARK) == Some(i) && i + 3 <= |url|
    requires var authority := NormalAuthority(url, i); StripPort(Lower(url[..i]), authority) != authority
    ensures !Settled(url)
  {
    hide Core, NormalAuthority, StripPort, PathOf;
  }

  /** An authority that ends in neither slash nor space is its URL's end. */
  lemma CoreOfAuthority(scheme: string, authority: string)
    requires IsHttp(scheme) && authority != "" && !IsSpace(authority[|authority| - 1]) && '/' !in authority
    ensures var url := scheme + MARK + authority;
            && Core(url) == url && Find(url, MARK) == Some(|scheme|)
            && NormalAuthority(url, |scheme|) == StripPort(Lower(scheme), Lower(authority))
            && PathOf(url, |scheme|) == "" && url[..|scheme|] == scheme
  {
    var url := scheme + MARK + authority;
    HttpSchemesMarkFirst(scheme);
    MarkedParts(scheme, authority);
    assert url[0] == scheme[0];
    assert url[|url| - 1] == authority[|authority| - 1];
    assert authority[|authority| - 1] in authority;
    TrimFixed(url);
    NothingStops(authority, {'/'});
  }

  /** Nothing but a default port for an authority, and no path. */
  lemma BarePortIsUnsettled(scheme: string)
    requires IsHttp(scheme)
    ensures var url := scheme + MARK + DefaultPort(Lower(scheme));
            !Settled(url) && NormalizeBaseUrl(NormalizeBaseUrl(url)) != NormalizeBaseUrl(url)
  {
    var port := DefaultPort(Lower(scheme));
    PortIsStripped(Lower(scheme), "");
    assert "" + port == port;
    CoreOfAuthority(scheme, port);
    IdempotentIff(scheme + MARK + port);
  }

  /** White space that only trailing slashes keep from being trimmed. */
  lemma SpaceBehindSlashIsUnsettled(core: string)
    requires EndsInSpace(core) && !IsSpace(core[0])
    ensures var url := core + "/";
            !Settled(url) && NormalizeBaseUrl(NormalizeBaseUrl(url)) != NormalizeBaseUrl(url)
  {
    var url := core + "/";
    assert url[0] == core[0] && url[|url| - 1] == '/';
    TrimFixed(url);
    TrimSlashes(core, "/");
    assert Core(url) == core;
    if Find(core, MARK).Some? {
      SpaceStaysBehindAuthority(core, Find(core, MARK).value);
    }
    IdempotentIff(url);
  }

  lemma SpaceStaysBehindAuthority(core: string, i: nat)
    requires Find(core, MARK) == Some(i) && EndsInSpace(core)
    ensures i + 3 <= |core|
    ensures PathOf(core, i) == "" ==>
              var authority := NormalAuthority(core, i); authority == "" || EndsInSpace(authority)
  {
    CoreIsSpelled(core, i);
    var raw := UpTo(core[i + 3..], {'/'});
    if PathOf(core, i) == "" {
      EndOfSpell(core[..i], raw, "");
      SpacesKeepCase(raw);
      if raw != "" {
        SpaceEndsNoPort(Lower(raw), Lower(core[..i]));
      }
    }
  }

  lemma LastOfSuffix(s: string, suffix: string)
    requires EndsWith(s, suffix) && suffix != ""
    ensures s[|s| - 1] == suffix[|suffix| - 1]
  {
    assert s[|s| - |suffix|..][|suffix| - 1] == s[|s| - 1];
  }

  lemma SpaceEndsNoPort(authority: string, scheme: string)
    requires EndsInSpace(authority)
    ensures StripPort(scheme, authority) == authority
  {
    var port := DefaultPort(scheme);
    if EndsWith(authority, port) && port != "" {
      LastOfSuffix(authority, port);
    }
  }

  // -------------------------------------------------- the parts one at a time

  ghost predicate IsAll(s: string, p: char -> bool) {
    forall i | 0 <= i < |s| :: p(s[i])
  }

  /** The core is what is left between outer white space and, inside it, trailing
      slashes. */
  lemma CoreIsWithoutNoise(url: string) returns (before: string, slashes: string, after: string)
    ensures url == before + (Core(url) + slashes) + after
    ensures IsAll(before, IsSpace) && IsAll(after, IsSpace) && IsAll(slashes, c => c == '/')
    ensures Trimmed(Core(url) + slashes) && (Core(url) != "" ==> Core(url)[|Core(url)| - 1] != '/')
  {
    var inner, core := Trim(url), Core(url);
    TrimTwice(url);
    TrimEndCharFacts(inner, '/');
    before, after := OuterSpace(url);
    slashes := inner[|core|..];
    assert inner == core + slashes;
  }

  lemma OuterSpace(s: string) returns (before: string, after: string)
    ensures s == before + Trim(s) + after && IsAll(before, IsSpace) && IsAll(after, IsSpace)
  {
    hide TrimStart, TrimEnd;
    var t := TrimStart(s);
    TrimStartFacts(s);
    TrimEndFacts(t);
    before, after := s[..|s| - |t|], t[|Trim(s)|..];
    assert t == Trim(s) + after;
    Associative(before, Trim(s), after);
  }

  /** An authority is its host with the default port of its scheme. */
  predicate HasDefaultPort(scheme: string, host: string, authority: string) {
    (scheme == "https" && authority == host + ":443") || (scheme == "http" && authority == host + ":80")
  }

  lemma PortIsDropped(scheme: string, host: string, authority: string)
    requires HasDefaultPort(scheme, host, authority)
    ensures StripPort(scheme, authority) == host
  {
    assert authority[|host|..] == DefaultPort(scheme) && authority[..|host|] == host;
  }

  lemma NoPortIsDropped(scheme: string, authority: string)
    requires forall host :: !HasDefaultPort(scheme, host, authority)
    ensures StripPort(scheme, authority) == authority
  {
    var port := DefaultPort(scheme);
    if EndsWith(authority, port) && port != "" {
      var host := authority[..|authority| - |port|];
      assert authority == host + port;
      assert HasDefaultPort(scheme, host, authority);
    }
  }

  /** The normal form of a core with a mark, whatever its scheme: only the
      letter case of scheme and authority and one default port are lost. */
  lemma MarkedNormalForm(scheme: string, authority: string, path: string)
    requires MarksFirst(scheme) && '/' !in authority && (path == "" || path[0] == '/')
    ensures var normal := NormalizeCore(scheme + "://" + authority + path);
            && (forall host | HasDefaultPort(Lower(scheme), host, Lower(authority)) ::
                  normal == Lower(scheme) + "://" + host + path)
            && ((forall host :: !HasDefaultPort(Lower(scheme), host, Lower(authority))) ==>
                  normal == Lower(scheme) + "://" + Lower(authority) + path)
  {
    SpellParses(scheme, authority, path);
    forall host | HasDefaultPort(Lower(scheme), host, Lower(authority))
      ensures StripPort(Lower(scheme), Lower(authority)) == host
    {
      PortIsDropped(Lower(scheme), host, Lower(authority));
    }
    if forall host :: !HasDefaultPort(Lower(scheme), host, Lower(authority)) {
      NoPortIsDropped(Lower(scheme), Lower(authority));
    }
  }

  /** A core without a mark is only lower-cased. */
  lemma UnmarkedNormalForm(core: string)
    requires forall i: nat :: !OccursAt(core, "://", i)
    ensures NormalizeCore(core) == Lower(core)
  {
    assert MARK == "://";
  }

  lemma NormalFormOfHttp(url: string)
    requires url != "" && url[0] == 'h'
    ensures NormalizeBaseUrl(url) != REDACTED
  {
    hide Find;
    var inner, core := Trim(url), Core(url);
    assert TrimStart(url) == url;
    TrimEndFacts(url);
    assert inner != "" && inner[0] == 'h';
    TrimEndCharFacts(inner, '/');
    assert core != "" && core[0] == 'h';
    match Find(core, MARK)
    case None =>
      assert Lower(core)[0] == 'h';
    case Some(i) =>
      FoundMarkIsFirst(core);
      assert (core[..i] + MARK)[0] == core[0];
      FirstOfNormal(core, i);
  }

  /** A URL with a mark is redacted exactly when its scheme is neither http nor
      https, its authority holds a query or fragment, or it has no host. */
  lemma RedactedIff(url: string, scheme: string, authority: string, path: string)
    requires MarksFirst(scheme) && '/' !in authority && (path == "" || path[0] == '/')
    requires Trim(url) == scheme + "://" + authority + path
    ensures SecretFreeFingerprintInput(url) == "invalid-or-secret-bearing-url" <==>
              || !(EqIgnoreCase(scheme, "http") || EqIgnoreCase(scheme, "https"))
              || '?' in authority || '#' in authority
              || authority == "" || authority[|authority| - 1] == '@'
  {
    hide Trim, NormalizeBaseUrl, Find, UpTo;
    SpellParses(scheme, authority, path);
    InputAtMark(url, |scheme|);
    var host := AfterLastAt(authority);
    var name := Lower(scheme);
    assert Lower("http") == "http" && Lower("https") == "https";
    if name == "http" || name == "https" {
      var short := UpTo(path, {'?', '#'});
      assert Spell(name, host, short)[0] == name[0];
      NormalFormOfHttp(Spell(name, host, short));
    }
  }
}
