/** The cache of live provider catalogs, scoped by provider and base-URL
    fingerprint: successes replace rows, failures only mark them. */
module CatalogCache {
  import opened Wrappers
  import opened Text
  import opened CatalogCompiler

  datatype RefreshError =
    | Unauthorized | Forbidden | NotFound | RateLimited | InvalidResponse | EmptyList | Network

  datatype Status = Fresh | Stale(ageSecs: nat) | Failed(reason: RefreshError) | UnknownStatus

  datatype Entry = Entry(
    provider: string,
    fingerprint: string,
    fetchedAt: nat,
    ttlSecs: nat,
    offerings: seq<Offering>,
    status: Status
  )

  /** Age at `now`, saturating at zero when the clock went back. */
  function AgeSecs(e: Entry, now: nat): nat {
    if now < e.fetchedAt then 0 else now - e.fetchedAt
  }

  predicate IsStale(e: Entry, now: nat) {
    AgeSecs(e, now) >= e.ttlSecs
  }

  predicate IsFresh(e: Entry, now: nat) {
    !IsStale(e, now) && !e.status.Failed?
  }

  const SEPARATOR: char := '\U{1F}'

  function CacheKey(provider: string, fingerprint: string): string {
    Trim(provider) + [SEPARATOR] + Trim(fingerprint)
  }

  type Entries = map<string, Entry>

  /** One refresh of a scope, and how it ended. */
  datatype Refresh =
    | Succeeded(provider: string, fingerprint: string, fetchedAt: nat, offerings: seq<Offering>, ttlSecs: nat)
    | NotRefreshed(provider: string, fingerprint: string, reason: RefreshError)

  function KeyOf(r: Refresh): string {
    CacheKey(r.provider, r.fingerprint)
  }

  /** Rows with their provenance normalised to the refresh they came from. */
  function LiveRows(rows: seq<Offering>, fingerprint: string, fetchedAt: nat): (live: seq<Offering>)
    ensures |live| == |rows|
    ensures forall i | 0 <= i < |rows| :: live[i] == rows[i].(source := Live(fingerprint, fetchedAt))
  {
    seq(|rows|, i requires 0 <= i < |rows| => rows[i].(source := Live(fingerprint, fetchedAt)))
  }

  /** The entry a scope has after one more refresh. */
  function Refreshed(before: Option<Entry>, r: Refresh): Entry {
    match r
    case Succeeded(provider, fingerprint, fetchedAt, offerings, ttlSecs) =>
      Entry(provider, fingerprint, fetchedAt, ttlSecs, LiveRows(offerings, fingerprint, fetchedAt), Fresh)
    case NotRefreshed(provider, fingerprint, reason) =>
      if before.Some? then before.value.(status := Failed(reason))
      else Entry(Trim(provider), Trim(fingerprint), 0, 0, [], Failed(reason))
  }

  function Lookup(entries: Entries, key: string): Option<Entry> {
    if key in entries then Some(entries[key]) else None
  }

  function Record(entries: Entries, r: Refresh): Entries {
    entries[KeyOf(r) := Refreshed(Lookup(entries, KeyOf(r)), r)]
  }

  function RecordAll(entries: Entries, history: seq<Refresh>): Entries
    decreases |history|
  {
    if history == [] then entries else RecordAll(Record(entries, history[0]), history[1..])
  }

  function StatusAt(entry: Option<Entry>, now: nat): Status {
    if entry.None? then UnknownStatus
    else match entry.value.status
      case Failed(reason) => Failed(reason)
      case UnknownStatus => UnknownStatus
      case _ => if IsStale(entry.value, now) then Stale(AgeSecs(entry.value, now)) else Fresh
  }

  class ProviderCatalogCache {
    var entries: Entries

    constructor ()
      ensures entries == map[]
    {
      entries := map[];
    }

    method RecordSuccess(provider: string, fingerprint: string, fetchedAt: nat, offerings: seq<Offering>, ttlSecs: nat)
      modifies this
      ensures entries == Record(old(entries), Succeeded(provider, fingerprint, fetchedAt, offerings, ttlSecs))
    {
      var rows := [];
      for i := 0 to |offerings|
        invariant rows == LiveRows(offerings[..i], fingerprint, fetchedAt)
      {
        rows := rows + [offerings[i].(source := Live(fingerprint, fetchedAt))];
      }
      assert offerings[..|offerings|] == offerings;
      var key := CacheKey(provider, fingerprint);
      entries := entries[key := Entry(provider, fingerprint, fetchedAt, ttlSecs, rows, Fresh)];
    }

    method RecordFailure(provider: string, fingerprint: string, reason: RefreshError)
      modifies this
      ensures entries == Record(old(entries), NotRefreshed(provider, fingerprint, reason))
    {
      var key := CacheKey(provider, fingerprint);
      if key in entries {
        entries := entries[key := entries[key].(status := Failed(reason))];
      } else {
        entries := entries[key := Entry(Trim(provider), Trim(fingerprint), 0, 0, [], Failed(reason))];
      }
    }

    function Get(provider: string, fingerprint: string): Option<Entry>
      reads this
    {
      Lookup(entries, CacheKey(provider, fingerprint))
    }

    function Status(provider: string, fingerprint: string, now: nat): Status
      reads this
    {
      StatusAt(Get(provider, fingerprint), now)
    }

    function FreshOfferings(provider: string, fingerprint: string, now: nat): seq<Offering>
      reads this
    {
      ServedAt(Get(provider, fingerprint), now)
    }
  }

  function ServedAt(entry: Option<Entry>, now: nat): seq<Offering> {
    if entry.Some? && IsFresh(entry.value, now) then entry.value.offerings else []
  }

  // -------------------------------------------------- what a history amounts to

  /** The refreshes of one scope, in order. */
  function OfScope(history: seq<Refresh>, key: string): seq<Refresh> {
    if history == [] then []
    else
      var n := |history| - 1;
      OfScope(history[..n], key) + if KeyOf(history[n]) == key then [history[n]] else []
  }

  /** The last success of a scope's refreshes. */
  function LastSuccess(own: seq<Refresh>): (r: Option<Refresh>)
    ensures r.Some? ==> r.value.Succeeded? && r.value in own
  {
    if own == [] then None
    else
      var n := |own| - 1;
      if own[n].Succeeded? then Some(own[n]) else LastSuccess(own[..n])
  }

  /** The entry a scope should have: the rows of its last success with their
      provenance, and the outcome of its last refresh. */
  function Expected(own: seq<Refresh>): Option<Entry> {
    if own == [] then None
    else
      var last := own[|own| - 1];
      var success := LastSuccess(own);
      var status := if last.Succeeded? then Fresh else Failed(last.reason);
      Some(match success
           case Some(r) =>
             Entry(r.provider, r.fingerprint, r.fetchedAt, r.ttlSecs,
                   LiveRows(r.offerings, r.fingerprint, r.fetchedAt), status)
           case None => Entry(Trim(own[0].provider), Trim(own[0].fingerprint), 0, 0, [], status))
  }

  lemma {:induction false} RecordAllAppend(entries: Entries, history: seq<Refresh>, r: Refresh)
    ensures RecordAll(entries, history + [r]) == Record(RecordAll(entries, history), r)
    decreases |history|
  {
    if history == [] {
      assert [] + [r] == [r] && [r][1..] == [];
    } else {
      assert (history + [r])[1..] == history[1..] + [r];
      RecordAllAppend(Record(entries, history[0]), history[1..], r);
    }
  }

  lemma ExpectedGrows(own: seq<Refresh>, r: Refresh)
    ensures Expected(own + [r]) == Some(Refreshed(Expected(own), r))
  {
    var longer := own + [r];
    assert longer[..|longer| - 1] == own && longer[|longer| - 1] == r;
    if r.NotRefreshed? {
      assert LastSuccess(longer) == LastSuccess(own);
      assert own != [] ==> longer[0] == own[0];
    }
  }

  lemma RecordLookup(entries: Entries, r: Refresh, key: string)
    ensures Lookup(Record(entries, r), key) ==
              if KeyOf(r) == key then Some(Refreshed(Lookup(entries, key), r)) else Lookup(entries, key)
  {
  }

  lemma OfScopeAppend(history: seq<Refresh>, r: Refresh, key: string)
    ensures OfScope(history + [r], key) == OfScope(history, key) + if KeyOf(r) == key then [r] else []
  {
    assert (history + [r])[..|history|] == history;
  }

  /** After any history a scope's entry depends on that scope's refreshes
      alone, and is the one they should give. */
  lemma {:induction false} CacheReflectsHistory(history: seq<Refresh>, key: string)
    ensures Lookup(RecordAll(map[], history), key) == Expected(OfScope(history, key))
    decreases |history|
  {
    if history != [] {
      var before, r := history[..|history| - 1], history[|history| - 1];
      assert history == before + [r];
      CacheReflectsHistory(before, key);
      RecordAllAppend(map[], before, r);
      RecordLookup(RecordAll(map[], before), r, key);
      OfScopeAppend(before, r, key);
      var own := OfScope(before, key);
      if KeyOf(r) == key {
        ExpectedGrows(own, r);
      } else {
        assert own + [] == own;
      }
    }
  }

  lemma {:induction false} ScopeKeys(history: seq<Refresh>, key: string)
    ensures forall r | r in OfScope(history, key) :: KeyOf(r) == key
  {
    if history != [] {
      ScopeKeys(history[..|history| - 1], key);
    }
  }

  /** In every reachable cache an entry sits under the key of its own fields,
      its rows carry its own fingerprint and fetch time, and it reports fresh
      exactly when its rows may be served as fresh. */
  lemma EntriesAreHonest(history: seq<Refresh>, key: string, now: nat)
    requires key in RecordAll(map[], history)
    ensures var e := RecordAll(map[], history)[key];
            && key == CacheKey(e.provider, e.fingerprint)
            && (forall i | 0 <= i < |e.offerings| :: e.offerings[i].source == Live(e.fingerprint, e.fetchedAt))
            && (StatusAt(Some(e), now) == Fresh <==> IsFresh(e, now))
            && (e.status.Failed? <==> StatusAt(Some(e), now).Failed?)
  {
    var own := OfScope(history, key);
    CacheReflectsHistory(history, key);
    ScopeKeys(history, key);
    assert own[0] in own;
    TrimTwice(own[0].provider);
    TrimTwice(own[0].fingerprint);
  }

  /** The rows of a scope's last refresh, if that succeeded within its time to
      live, and otherwise nothing. */
  function FreshRows(own: seq<Refresh>, now: nat): seq<Offering> {
    if own == [] || !own[|own| - 1].Succeeded? then []
    else
      var r := own[|own| - 1];
      if 0 < r.ttlSecs && now < r.fetchedAt + r.ttlSecs then LiveRows(r.offerings, r.fingerprint, r.fetchedAt) else []
  }

  /** What a cache with this history serves for a scope. */
  lemma FreshOfferingsAreServed(cache: ProviderCatalogCache, history: seq<Refresh>, provider: string,
                                fingerprint: string, now: nat)
    requires cache.entries == RecordAll(map[], history)
    ensures cache.FreshOfferings(provider, fingerprint, now) ==
              FreshRows(OfScope(history, CacheKey(provider, fingerprint)), now)
  {
    ServedRows(history, CacheKey(provider, fingerprint), now);
  }

  /** A failure keeps the rows of the last success but serves none. */
  lemma ServedRows(history: seq<Refresh>, key: string, now: nat)
    ensures var own := OfScope(history, key);
            var entry := Lookup(RecordAll(map[], history), key);
            && ServedAt(entry, now) == FreshRows(own, now)
            && (own == [] <==> entry.None?)
            && (own != [] && own[|own| - 1].NotRefreshed? ==>
                  && entry.Some?
                  && entry.value.offerings == match LastSuccess(own)
                                              case None => []
                                              case Some(r) => LiveRows(r.offerings, r.fingerprint, r.fetchedAt))
  {
    CacheReflectsHistory(history, key);
  }

  /** The status a scope reports: nothing before its first refresh, the reason
      of a failed last one, and otherwise fresh within the time to live of the
      last success, and its age from then on. */
  lemma StatusIsOfLastRefresh(cache: ProviderCatalogCache, history: seq<Refresh>, provider: string,
                              fingerprint: string, now: nat)
    requires cache.entries == RecordAll(map[], history)
    ensures var own := OfScope(history, CacheKey(provider, fingerprint));
            cache.Status(provider, fingerprint, now) ==
              if own == [] then UnknownStatus
              else match own[|own| - 1]
                   case NotRefreshed(_, _, reason) => Failed(reason)
                   case Succeeded(_, _, fetchedAt, _, ttlSecs) =>
                     if 0 < ttlSecs && now < fetchedAt + ttlSecs then Fresh
                     else Stale(if now < fetchedAt then 0 else now - fetchedAt)
  {
    CacheReflectsHistory(history, CacheKey(provider, fingerprint));
  }

  // ------------------------------------------------------------------ scoping

  predicate SameScope(provider: string, fingerprint: string, provider': string, fingerprint': string) {
    Trim(provider) == Trim(provider') && Trim(fingerprint) == Trim(fingerprint')
  }

  /** Scopes whose fingerprints hold no separator never share a key. */
  lemma KeysSeparateScopes(p: string, f: string, p': string, f': string)
    requires SEPARATOR !in f && SEPARATOR !in f'
    ensures CacheKey(p, f) == CacheKey(p', f') <==> SameScope(p, f, p', f')
  {
    TrimIsPart(f);
    TrimIsPart(f');
    var a, b, a', b' := Trim(p), Trim(f), Trim(p'), Trim(f');
    var k := CacheKey(p, f);
    if k == CacheKey(p', f') {
      assert forall i | |a| < i < |k| :: k[i] == b[i - |a| - 1];
      assert forall i | |a'| < i < |k| :: k[i] == b'[i - |a'| - 1];
      assert k[|a|] == SEPARATOR && k[|a'|] == SEPARATOR;
      assert a == k[..|a|] && a' == k[..|a'|];
      assert b == k[|a| + 1..] && b' == k[|a'| + 1..];
    }
  }

  lemma TrimIsPart(s: string)
    ensures forall c | c in Trim(s) :: c in s
  {
    TrimStartFacts(s);
    TrimEndFacts(TrimStart(s));
  }

  /** Hence a refresh leaves every other scope as it was. */
  lemma RefreshesStayInScope(entries: Entries, r: Refresh, provider: string, fingerprint: string)
    requires SEPARATOR !in r.fingerprint && SEPARATOR !in fingerprint
    requires !SameScope(r.provider, r.fingerprint, provider, fingerprint)
    ensures Lookup(Record(entries, r), CacheKey(provider, fingerprint)) ==
              Lookup(entries, CacheKey(provider, fingerprint))
  {
    KeysSeparateScopes(r.provider, r.fingerprint, provider, fingerprint);
  }

  /** A position where a key can be read as provider, separator, fingerprint. */
  predicate Splits(key: string, i: nat) {
    i < |key| && key[i] == SEPARATOR && Trimmed(key[..i]) && Trimmed(key[i + 1..])
  }

  lemma KeySplitsAtSeparator(p: string, f: string)
    ensures var key := CacheKey(p, f);
            Splits(key, |Trim(p)|) && key[..|Trim(p)|] == Trim(p) && key[|Trim(p)| + 1..] == Trim(f)
  {
    TrimTwice(p);
    TrimTwice(f);
    var key := CacheKey(p, f);
    assert key[..|Trim(p)|] == Trim(p) && key[|Trim(p)| + 1..] == Trim(f);
  }

  lemma EverySplitIsAKey(key: string, i: nat)
    requires Splits(key, i)
    ensures Trim(key[..i]) == key[..i] && CacheKey(key[..i], key[i + 1..]) == key
  {
    TrimFixed(key[..i]);
    TrimFixed(key[i + 1..]);
    assert key == key[..i] + [SEPARATOR] + key[i + 1..];
  }

  /** A scope shares its key with no other scope exactly when its key can be
      split in one place only. */
  lemma ScopeIsPrivateIff(provider: string, fingerprint: string)
    ensures (forall p, f | CacheKey(p, f) == CacheKey(provider, fingerprint) ::
               SameScope(p, f, provider, fingerprint)) <==>
              (forall i: nat | Splits(CacheKey(provider, fingerprint), i) :: i == |Trim(provider)|)
  {
    var key := CacheKey(provider, fingerprint);
    KeySplitsAtSeparator(provider, fingerprint);
    if forall i: nat | Splits(key, i) :: i == |Trim(provider)| {
      forall p, f | CacheKey(p, f) == key
        ensures SameScope(p, f, provider, fingerprint)
      {
        KeySplitsAtSeparator(p, f);
      }
    } else {
      var i: nat :| Splits(key, i) && i != |Trim(provider)|;
      EverySplitIsAKey(key, i);
      assert !SameScope(key[..i], key[i + 1..], provider, fingerprint);
    }
  }
}
