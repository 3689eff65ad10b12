/** The model registry: its alias index, its resolver, and the provider
    inference built on it. */
module ModelRegistry {
  import opened Wrappers
  import opened Text

  /** The providers the resolver treats apart, and all the others. */
  datatype Provider =
    | Deepseek | Ollama | OpencodeGo | Atlascloud | Arcee | XiaomiMimo
    | OtherProvider(name: string)

  datatype ModelInfo = ModelInfo(id: string, provider: Provider, aliases: seq<string>, tools: bool, reasoning: bool)

  datatype Registry = Registry(models: seq<ModelInfo>, aliasMap: map<string, nat>)

  /** OpenCode Go's chat allowlist, given by the configuration crate. */
  type Allowlist = string -> Option<string>

  function Normalize(s: string): string {
    Lower(Trim(s))
  }

  /** The model goes by a normalised name. */
  predicate GoesBy(m: ModelInfo, key: string) {
    Normalize(m.id) == key || exists i | 0 <= i < |m.aliases| :: Normalize(m.aliases[i]) == key
  }

  predicate ModelMatches(m: ModelInfo, requested: string) {
    GoesBy(m, Normalize(requested))
  }

  // -------------------------------------------------------------- alias index

  /** `i` is the first model that goes by `key`. */
  ghost predicate IsFirstBy(models: seq<ModelInfo>, key: string, i: nat) {
    i < |models| && GoesBy(models[i], key) && forall j | 0 <= j < i :: !GoesBy(models[j], key)
  }

  /** The index holds, for every name, what a linear scan of the models finds. */
  ghost predicate IndexesScan(models: seq<ModelInfo>, aliasMap: map<string, nat>) {
    && (forall key | key in aliasMap :: IsFirstBy(models, key, aliasMap[key]))
    && (forall key, i | 0 <= i < |models| && GoesBy(models[i], key) :: key in aliasMap)
  }

  /** Every entry is the first of the models below `bound` under its name. */
  ghost predicate EntriesAreFirst(models: seq<ModelInfo>, bound: nat, index: map<string, nat>) {
    forall key | key in index :: index[key] < bound && IsFirstBy(models, key, index[key])
  }

  ghost predicate CoversModels(models: seq<ModelInfo>, k: nat, index: map<string, nat>)
    requires k <= |models|
  {
    forall key, i | 0 <= i < k && GoesBy(models[i], key) :: key in index
  }

  /** Enters a name of model `k` unless an earlier one holds it. */
  function OrInsert(index: map<string, nat>, key: string, k: nat): map<string, nat> {
    if key in index then index else index[key := k]
  }

  lemma OrInsertKeepsFirst(models: seq<ModelInfo>, k: nat, index: map<string, nat>, key: string)
    requires k < |models| && GoesBy(models[k], key)
    requires EntriesAreFirst(models, k + 1, index) && CoversModels(models, k, index)
    ensures var next := OrInsert(index, key, k);
            EntriesAreFirst(models, k + 1, next) && CoversModels(models, k, next)
  {
  }

  /** The names one model goes by: its id first, then its aliases. */
  function Names(m: ModelInfo): (names: seq<string>)
    ensures |names| == |m.aliases| + 1
  {
    [Normalize(m.id)] + seq(|m.aliases|, i requires 0 <= i < |m.aliases| => Normalize(m.aliases[i]))
  }

  lemma NamesAreTheNames(m: ModelInfo, key: string)
    ensures key in Names(m) <==> GoesBy(m, key)
  {
    var names := Names(m);
    if GoesBy(m, key) && Normalize(m.id) != key {
      var i :| 0 <= i < |m.aliases| && Normalize(m.aliases[i]) == key;
      assert names[i + 1] == key;
    } else if GoesBy(m, key) {
      assert names[0] == key;
    }
  }

  /** One model's turn in the index: the inner loop over its names. */
  method EnterNames(index: map<string, nat>, models: seq<ModelInfo>, k: nat) returns (next: map<string, nat>)
    requires k < |models| && EntriesAreFirst(models, k, index) && CoversModels(models, k, index)
    ensures EntriesAreFirst(models, k + 1, next) && CoversModels(models, k + 1, next)
  {
    hide GoesBy, Normalize, Names;
    next := index;
    var names := Names(models[k]);
    for n := 0 to |names|
      invariant EntriesAreFirst(models, k + 1, next) && CoversModels(models, k, next)
      invariant forall j | 0 <= j < n :: names[j] in next
    {
      NamesAreTheNames(models[k], names[n]);
      OrInsertKeepsFirst(models, k, next, names[n]);
      next := OrInsert(next, names[n], k);
    }
    forall key | GoesBy(models[k], key)
      ensures key in next
    {
      NamesAreTheNames(models[k], key);
    }
  }

  method New(models: seq<ModelInfo>) returns (r: Registry)
    ensures r.models == models
    ensures IndexesScan(models, r.aliasMap)
  {
    var index: map<string, nat> := map[];
    for k := 0 to |models|
      invariant EntriesAreFirst(models, k, index) && CoversModels(models, k, index)
    {
      index := EnterNames(index, models, k);
    }
    r := Registry(models, index);
  }

  ghost predicate Built(r: Registry) {
    IndexesScan(r.models, r.aliasMap)
  }

  // ---------------------------------------------------------------- resolver

  /** The scans the resolver makes over the models. */
  datatype Query =
    | OfProvider(provider: Provider)
    | Matching(name: string)
    | ScopedTo(provider: Provider, name: string)
    | GoModel(canonical: string)

  predicate Satisfies(m: ModelInfo, q: Query) {
    match q
    case OfProvider(p) => m.provider == p
    case Matching(name) => ModelMatches(m, name)
    case ScopedTo(p, name) => m.provider == p && ModelMatches(m, name)
    case GoModel(canonical) => m.provider == OpencodeGo && EqIgnoreCase(m.id, canonical)
  }

  /** The source's scan over the models, for every query. */
  function FindModel(models: seq<ModelInfo>, q: Query): Option<ModelInfo> {
    if models == [] then None
    else if Satisfies(models[0], q) then Some(models[0])
    else FindModel(models[1..], q)
  }

  ghost predicate IsFirstFor(models: seq<ModelInfo>, q: Query, i: nat) {
    i < |models| && Satisfies(models[i], q) && forall j | 0 <= j < i :: !Satisfies(models[j], q)
  }

  /** It finds the first model that satisfies the query, or there is none. */
  lemma {:induction false} FindIsFirst(models: seq<ModelInfo>, q: Query)
    ensures FindModel(models, q).Some? ==>
              exists i: nat :: IsFirstFor(models, q, i) && models[i] == FindModel(models, q).value
    ensures FindModel(models, q).None? <==> forall i | 0 <= i < |models| :: !Satisfies(models[i], q)
  {
    hide Satisfies;
    if models != [] && !Satisfies(models[0], q) {
      var tail := models[1..];
      FindIsFirst(tail, q);
      assert forall j | 0 < j < |models| :: models[j] == tail[j - 1];
      if FindModel(tail, q).Some? {
        var k: nat :| IsFirstFor(tail, q, k) && tail[k] == FindModel(tail, q).value;
        assert models[k + 1] == tail[k];
        assert IsFirstFor(models, q, k + 1);
      }
    } else if models != [] {
      assert IsFirstFor(models, q, 0);
    }
  }

  /** The strategies a resolution went through. */
  datatype Attempt = Requested(name: string) | ProviderDefault(provider: Provider) | GlobalDefault

  datatype Resolution = Resolution(requested: Option<string>, resolved: ModelInfo, usedFallback: bool,
                                   attempts: seq<Attempt>)

  function PreserveRequestedCase(m: ModelInfo, requested: string): ModelInfo {
    if EqIgnoreCase(m.id, Trim(requested)) then m.(id := Trim(requested)) else m
  }

  function AtlascloudPassthrough(requested: string): Option<ModelInfo> {
    var id := Trim(requested);
    if '/' !in id then None else Some(ModelInfo(id, Atlascloud, [], true, true))
  }

  predicate Contains(s: string, part: string) {
    exists i | 0 <= i <= |s| :: part <= s[i..]
  }

  function ArceePassthrough(requested: string): Option<ModelInfo> {
    var id := Trim(requested);
    if id == "" then None else Some(ModelInfo(id, Arcee, [], true, Contains(Lower(id), "thinking")))
  }

  predicate IsControl(c: char) {
    c < '\U{20}' || '\U{7F}' <= c <= '\U{9F}'
  }

  function XiaomiMimoPassthrough(requested: string): Option<ModelInfo> {
    var id := Trim(requested);
    if id == "" || (exists i | 0 <= i < |id| :: IsControl(id[i])) then None
    else Some(ModelInfo(id, XiaomiMimo, [], true, true))
  }

  /** OpenCode Go: only models of its own on the chat allowlist. */
  function FindGo(models: seq<ModelInfo>, allow: Allowlist, name: string): Option<ModelInfo> {
    match allow(name)
    case None => None
    case Some(canonical) => FindModel(models, GoModel(canonical))
  }

  function FindScoped(models: seq<ModelInfo>, provider: Provider, name: string): Option<ModelInfo> {
    FindModel(models, ScopedTo(provider, name))
  }

  /** The answer to a named request, in the source's order of strategies. */
  function ResolveName(r: Registry, allow: Allowlist, name: string, hint: Option<Provider>): Option<ModelInfo>
    requires Built(r)
  {
    if hint == Some(Ollama) then
      Some(ModelInfo(Trim(name), Ollama, [], true, false))
    else if hint == Some(OpencodeGo) && FindGo(r.models, allow, name).Some? then
      FindGo(r.models, allow, name)
    else if hint != Some(OpencodeGo) && hint.Some? && FindScoped(r.models, hint.value, name).Some? then
      FindScoped(r.models, hint.value, name)
    else if hint == Some(Atlascloud) && AtlascloudPassthrough(name).Some? then
      AtlascloudPassthrough(name)
    else if hint == Some(Arcee) && ArceePassthrough(name).Some? then
      ArceePassthrough(name)
    else if hint == Some(XiaomiMimo) && XiaomiMimoPassthrough(name).Some? then
      XiaomiMimoPassthrough(name)
    else if AliasBranch(r, name, hint) then
      Some(PreserveRequestedCase(r.models[r.aliasMap[Normalize(name)]], name))
    else
      None
  }

  /** The guard of the alias-map strategy. */
  predicate AliasBranch(r: Registry, name: string, hint: Option<Provider>)
    requires Built(r)
  {
    && hint != Some(OpencodeGo)
    && Normalize(name) in r.aliasMap
    && (hint.None? || r.models[r.aliasMap[Normalize(name)]].provider == hint.value)
  }

  const BUILT_IN_DEFAULT := ModelInfo("deepseek-v4-pro", Deepseek, [], true, true)

  function Resolve(r: Registry, allow: Allowlist, requested: Option<string>, hint: Option<Provider>): Resolution
    requires Built(r)
  {
    var asked := if requested.Some? then [Requested(requested.value)] else [];
    var named := if requested.Some? then ResolveName(r, allow, requested.value, hint) else None;
    if named.Some? then
      Resolution(requested, named.value, false, asked)
    else
      var provider := if hint.Some? then hint.value else Deepseek;
      var attempts := asked + [ProviderDefault(provider)];
      match FindModel(r.models, OfProvider(provider))
      case Some(m) => Resolution(requested, m, true, attempts)
      case None =>
        var default := if r.models == [] then BUILT_IN_DEFAULT else r.models[0];
        Resolution(requested, default, true, attempts + [GlobalDefault])
  }

  function InferredProvider(r: Registry, allow: Allowlist, configured: Provider, name: string): Option<Provider>
    requires Built(r)
  {
    if configured == OpencodeGo then
      Some(configured)
    else
      var scoped := Resolve(r, allow, Some(name), Some(configured));
      if !scoped.usedFallback && scoped.resolved.provider == configured then
        Some(configured)
      else
        var global := Resolve(r, allow, Some(name), None);
        if global.usedFallback then None else Some(global.resolved.provider)
  }

  // ---------------------------------------------------------------- promises

  lemma FirstIsUnique(models: seq<ModelInfo>, name: string, i: nat, j: nat)
    requires IsFirstBy(models, Normalize(name), i) && IsFirstFor(models, Matching(name), j)
    ensures i == j
  {
    hide GoesBy, Normalize;
    assert Satisfies(models[i], Matching(name)) && GoesBy(models[j], Normalize(name));
  }

  /** The index and the scan agree on every name: a hit is the first model that
      goes by it, a miss means none does. */
  lemma IndexIsTheScan(r: Registry, name: string)
    requires Built(r)
    ensures Normalize(name) in r.aliasMap <==> exists i :: 0 <= i < |r.models| && ModelMatches(r.models[i], name)
    ensures Normalize(name) in r.aliasMap ==>
              FindModel(r.models, Matching(name)) == Some(r.models[r.aliasMap[Normalize(name)]])
  {
    hide GoesBy, Normalize, FindModel;
    var key := Normalize(name);
    if key in r.aliasMap {
      var i := r.aliasMap[key];
      assert IsFirstBy(r.models, key, i);
      FindIsFirst(r.models, Matching(name));
      assert Satisfies(r.models[i], Matching(name));
      var j: nat :| IsFirstFor(r.models, Matching(name), j) && r.models[j] == FindModel(r.models, Matching(name)).value;
      FirstIsUnique(r.models, name, i, j);
    }
  }

  /** With a hint the alias-map strategy never decides: where its guard holds,
      the scoped scan before it has already answered. */
  lemma AliasBranchIsDeadUnderAHint(r: Registry, name: string, hint: Provider)
    requires Built(r) && AliasBranch(r, name, Some(hint))
    ensures FindScoped(r.models, hint, name).Some?
  {
    var i := r.aliasMap[Normalize(name)];
    assert IsFirstBy(r.models, Normalize(name), i);
    FindIsFirst(r.models, ScopedTo(hint, name));
    assert Satisfies(r.models[i], ScopedTo(hint, name));
  }

  ghost predicate Holds(models: seq<ModelInfo>, provider: Provider) {
    exists i :: 0 <= i < |models| && models[i].provider == provider
  }

  /** An answer that is no fallback stays with the hinted provider. */
  lemma NamedAnswerStaysInScope(r: Registry, allow: Allowlist, name: string, hint: Provider)
    requires Built(r) && ResolveName(r, allow, name, Some(hint)).Some?
    ensures ResolveName(r, allow, name, Some(hint)).value.provider == hint
  {
    FindIsFirst(r.models, ScopedTo(hint, name));
    if allow(name).Some? {
      FindIsFirst(r.models, GoModel(allow(name).value));
    }
    if AliasBranch(r, name, Some(hint)) {
      AliasBranchIsDeadUnderAHint(r, name, hint);
    }
  }

  /** Under a hint the answer is the hinted provider's exactly when a named
      strategy answered, or the registry holds a model of that provider, or
      the built-in default happens to be its. */
  lemma HintedAnswerIsInScopeIff(r: Registry, allow: Allowlist, requested: Option<string>, hint: Provider)
    requires Built(r)
    ensures var a := Resolve(r, allow, requested, Some(hint));
            && (!a.usedFallback ==> a.resolved.provider == hint)
            && (a.resolved.provider == hint <==>
                  !a.usedFallback || Holds(r.models, hint) || (r.models == [] && hint == Deepseek))
  {
    if requested.Some? && ResolveName(r, allow, requested.value, Some(hint)).Some? {
      NamedAnswerStaysInScope(r, allow, requested.value, hint);
    }
    FindIsFirst(r.models, OfProvider(hint));
    assert forall i | 0 <= i < |r.models| :: Satisfies(r.models[i], OfProvider(hint)) <==> r.models[i].provider == hint;
  }

  /** The recorded attempts tell how the answer came about: the request alone
      when it was answered by name, then the provider's default, and the global
      default last, exactly when the registry holds no model of the provider. */
  lemma AttemptsTellTheAnswer(r: Registry, allow: Allowlist, requested: Option<string>, hint: Option<Provider>)
    requires Built(r)
    ensures var a := Resolve(r, allow, requested, hint);
            var provider := if hint.Some? then hint.value else Deepseek;
            && a.attempts ==
                 (if requested.Some? then [Requested(requested.value)] else [])
                 + (if a.usedFallback then [ProviderDefault(provider)] else [])
                 + (if a.usedFallback && !Holds(r.models, provider) then [GlobalDefault] else [])
            && (a.usedFallback && Holds(r.models, provider) ==> a.resolved.provider == provider)
  {
    var provider := if hint.Some? then hint.value else Deepseek;
    FindIsFirst(r.models, OfProvider(provider));
    assert forall i | 0 <= i < |r.models| ::
        Satisfies(r.models[i], OfProvider(provider)) <==> r.models[i].provider == provider;
    var asked := if requested.Some? then [Requested(requested.value)] else [];
    assert asked + [] == asked && asked + [ProviderDefault(provider)] + [] == asked + [ProviderDefault(provider)];
  }

  /** For a provider with no strategy of its own, a hinted name is answered
      without fallback exactly when that provider has a model that matches it,
      and then by the first such. */
  lemma OrdinaryHintResolvesIff(r: Registry, allow: Allowlist, name: string, hint: Provider)
    requires Built(r) && (hint.Deepseek? || hint.OtherProvider?)
    ensures !Resolve(r, allow, Some(name), Some(hint)).usedFallback <==>
              exists i :: 0 <= i < |r.models| && r.models[i].provider == hint && ModelMatches(r.models[i], name)
    ensures forall i: nat | IsFirstCalled(r.models, hint, name, i) ::
              Resolve(r, allow, Some(name), Some(hint)).resolved == r.models[i]
  {
    hide FindModel, IsCalled, ModelMatches;
    FindIsFirst(r.models, ScopedTo(hint, name));
    FirstCalledIsFound(r.models, hint, name);
    OrdinaryHintIsScoped(r, allow, name, hint);
    assert forall i | 0 <= i < |r.models| ::
        Satisfies(r.models[i], ScopedTo(hint, name)) <==>
            r.models[i].provider == hint && ModelMatches(r.models[i], name);
  }

  lemma OrdinaryHintIsScoped(r: Registry, allow: Allowlist, name: string, hint: Provider)
    requires Built(r) && (hint.Deepseek? || hint.OtherProvider?)
    ensures !Resolve(r, allow, Some(name), Some(hint)).usedFallback <==> FindModel(r.models, ScopedTo(hint, name)).Some?
  {
    hide FindModel;
    if AliasBranch(r, name, Some(hint)) {
      AliasBranchIsDeadUnderAHint(r, name, hint);
    }
  }

  /** Without a hint a request is answered exactly when some model matches it:
      by the first that does, its id changed at most in letter case. */
  lemma UnhintedAnswerIsFirstMatch(r: Registry, allow: Allowlist, name: string)
    requires Built(r)
    ensures var a := Resolve(r, allow, Some(name), None);
            && (!a.usedFallback <==> exists i :: 0 <= i < |r.models| && ModelMatches(r.models[i], name))
            && (!a.usedFallback ==>
                  var i := r.aliasMap[Normalize(name)];
                  && IsFirstBy(r.models, Normalize(name), i)
                  && EqIgnoreCase(a.resolved.id, r.models[i].id)
                  && a.resolved == r.models[i].(id := a.resolved.id))
  {
    IndexIsTheScan(r, name);
  }

  /** Where inference leads it stays: the configured provider when it serves
      the name, and from any inferred provider that provider again. */
  lemma InferenceIsStable(r: Registry, allow: Allowlist, configured: Provider, name: string)
    requires Built(r)
    ensures !Resolve(r, allow, Some(name), Some(configured)).usedFallback ==>
              InferredProvider(r, allow, configured, name) == Some(configured)
    ensures var inferred := InferredProvider(r, allow, configured, name);
            inferred.Some? ==> InferredProvider(r, allow, inferred.value, name) == inferred
  {
    HintedAnswerIsInScopeIff(r, allow, Some(name), configured);
    var inferred := InferredProvider(r, allow, configured, name);
    if inferred.Some? && inferred.value != configured {
      UnhintedAnswerIsFirstMatch(r, allow, name);
      var q := inferred.value;
      var i := r.aliasMap[Normalize(name)];
      assert r.models[i].provider == q && ModelMatches(r.models[i], name);
      HintedAnswerIsInScopeIff(r, allow, Some(name), q);
      if q != Ollama && q != OpencodeGo {
        FindIsFirst(r.models, ScopedTo(q, name));
        assert Satisfies(r.models[i], ScopedTo(q, name));
      }
    }
  }

  /** Nothing is inferred exactly when neither the configured provider serves
      the name nor any registered model matches it. */
  lemma NothingInferredIff(r: Registry, allow: Allowlist, configured: Provider, name: string)
    requires Built(r)
    ensures InferredProvider(r, allow, configured, name).None? <==>
              && configured != OpencodeGo
              && Resolve(r, allow, Some(name), Some(configured)).usedFallback
              && forall i | 0 <= i < |r.models| :: !ModelMatches(r.models[i], name)
  {
    HintedAnswerIsInScopeIff(r, allow, Some(name), configured);
    UnhintedAnswerIsFirstMatch(r, allow, name);
  }

  // --------------------------------------------------- which model answers

  /** The model's id or one of its aliases is the name, up to letter case and
      surrounding white space. */
  predicate IsCalled(m: ModelInfo, name: string) {
    || EqIgnoreCase(Trim(m.id), Trim(name))
    || exists i | 0 <= i < |m.aliases| :: EqIgnoreCase(Trim(m.aliases[i]), Trim(name))
  }

  lemma MatchingIsBeingCalled(m: ModelInfo, name: string)
    ensures ModelMatches(m, name) <==> IsCalled(m, name)
  {
    hide Trim;
    forall i | 0 <= i < |m.aliases|
      ensures Normalize(m.aliases[i]) == Normalize(name) <==> EqIgnoreCase(Trim(m.aliases[i]), Trim(name))
    {
    }
  }

  /** The first model of a provider that is called by the name. */
  ghost predicate IsFirstCalled(models: seq<ModelInfo>, provider: Provider, name: string, i: nat) {
    && i < |models| && models[i].provider == provider && IsCalled(models[i], name)
    && forall j | 0 <= j < i :: !(models[j].provider == provider && IsCalled(models[j], name))
  }

  /** The first OpenCode Go model with an id, up to letter case. */
  ghost predicate IsFirstGo(models: seq<ModelInfo>, id: string, i: nat) {
    && i < |models| && models[i].provider == OpencodeGo && EqIgnoreCase(models[i].id, id)
    && forall j | 0 <= j < i :: !(models[j].provider == OpencodeGo && EqIgnoreCase(models[j].id, id))
  }

  ghost predicate IsFirstOfProvider(models: seq<ModelInfo>, provider: Provider, i: nat) {
    && i < |models| && models[i].provider == provider && forall j | 0 <= j < i :: models[j].provider != provider
  }

  lemma FirstCalledIsFound(models: seq<ModelInfo>, provider: Provider, name: string)
    ensures forall i: nat | IsFirstCalled(models, provider, name, i) ::
              FindScoped(models, provider, name) == Some(models[i])
    ensures FindScoped(models, provider, name).Some? ==> exists i: nat :: IsFirstCalled(models, provider, name, i)
  {
    hide IsCalled, ModelMatches, FindModel;
    var q := ScopedTo(provider, name);
    forall i | 0 <= i < |models|
      ensures Satisfies(models[i], q) <==> models[i].provider == provider && IsCalled(models[i], name)
    {
      MatchingIsBeingCalled(models[i], name);
    }
    FindIsFirst(models, q);
    if FindModel(models, q).Some? {
      var k: nat :| IsFirstFor(models, q, k) && models[k] == FindModel(models, q).value;
      assert IsFirstCalled(models, provider, name, k);
      forall i: nat | IsFirstCalled(models, provider, name, i)
        ensures i == k
      {
        assert Satisfies(models[i], q) && Satisfies(models[k], q);
      }
    } else {
      forall i: nat
        ensures !IsFirstCalled(models, provider, name, i)
      {
        assert i < |models| ==> !Satisfies(models[i], q);
      }
    }
  }

  lemma FirstGoIsFound(models: seq<ModelInfo>, id: string)
    ensures forall i: nat | IsFirstGo(models, id, i) :: FindModel(models, GoModel(id)) == Some(models[i])
    ensures FindModel(models, GoModel(id)).Some? ==> exists i: nat :: IsFirstGo(models, id, i)
  {
    hide FindModel, EqIgnoreCase;
    var q := GoModel(id);
    FindIsFirst(models, q);
    assert forall i | 0 <= i < |models| ::
        Satisfies(models[i], q) <==> models[i].provider == OpencodeGo && EqIgnoreCase(models[i].id, id);
    if FindModel(models, q).Some? {
      var k: nat :| IsFirstFor(models, q, k) && models[k] == FindModel(models, q).value;
      assert IsFirstGo(models, id, k);
      assert forall i: nat | IsFirstGo(models, id, i) :: !(i < k) && !(k < i);
    }
  }

  lemma FirstOfProviderIsFound(models: seq<ModelInfo>, provider: Provider)
    ensures forall i: nat | IsFirstOfProvider(models, provider, i) ::
              FindModel(models, OfProvider(provider)) == Some(models[i])
    ensures FindModel(models, OfProvider(provider)).Some? ==> Holds(models, provider)
    ensures Holds(models, provider) ==> exists i: nat :: IsFirstOfProvider(models, provider, i)
  {
    hide FindModel;
    var q := OfProvider(provider);
    FindIsFirst(models, q);
    assert forall i | 0 <= i < |models| :: Satisfies(models[i], q) <==> models[i].provider == provider;
    if FindModel(models, q).Some? {
      var k: nat :| IsFirstFor(models, q, k) && models[k] == FindModel(models, q).value;
      assert IsFirstOfProvider(models, provider, k);
      assert forall i: nat | IsFirstOfProvider(models, provider, i) :: !(i < k) && !(k < i);
    }
  }

  /** What the three providers that pass unknown ids through make of a name. */
  ghost predicate PassesThrough(name: string, hint: Provider, m: ModelInfo) {
    var id := Trim(name);
    match hint
    case Atlascloud => '/' in id && m == ModelInfo(id, Atlascloud, [], true, true)
    case Arcee =>
      id != "" && m == ModelInfo(id, Arcee, [], true, exists i | 0 <= i <= |id| :: "thinking" <= Lower(id)[i..])
    case XiaomiMimo =>
      && id != "" && (forall i | 0 <= i < |id| :: !('\0' <= id[i] < ' ') && !('\U{7F}' <= id[i] <= '\U{9F}'))
      && m == ModelInfo(id, XiaomiMimo, [], true, true)
    case _ => false
  }

  /** The answer to a name without fallback under a hint. Ollama takes any name
      as it is; OpenCode Go has its allowlist only; any other provider answers
      with its first model of that name, and only then with a passthrough. */
  ghost predicate IsNamedAnswer(
    models: seq<ModelInfo>, allow: Allowlist, name: string, hint: Provider, m: ModelInfo)
  {
    if hint == Ollama then
      m == ModelInfo(Trim(name), Ollama, [], true, false)
    else if hint == OpencodeGo then
      allow(name).Some? && exists i: nat :: IsFirstGo(models, allow(name).value, i) && m == models[i]
    else
      || (exists i: nat :: IsFirstCalled(models, hint, name, i) && m == models[i])
      || ((forall i: nat :: !IsFirstCalled(models, hint, name, i)) && PassesThrough(name, hint, m))
  }

  /** The answer when no name decides: the provider's first model, else the
      registry's first, else the built-in default. */
  ghost predicate IsFallback(models: seq<ModelInfo>, provider: Provider, m: ModelInfo) {
    || (exists i: nat :: IsFirstOfProvider(models, provider, i) && m == models[i])
    || (!Holds(models, provider) && models != [] && m == models[0])
    || (models == [] && m == ModelInfo("deepseek-v4-pro", Deepseek, [], true, true))
  }

  /** The passthrough of a provider, if it has one. */
  function Passthrough(name: string, hint: Provider): Option<ModelInfo> {
    match hint
    case Atlascloud => AtlascloudPassthrough(name)
    case Arcee => ArceePassthrough(name)
    case XiaomiMimo => XiaomiMimoPassthrough(name)
    case _ => None
  }

  lemma PassingThrough(name: string, hint: Provider, m: ModelInfo)
    ensures PassesThrough(name, hint, m) <==> Passthrough(name, hint) == Some(m)
  {
    var id := Trim(name);
    assert forall i | 0 <= i < |id| ::
        IsControl(id[i]) <==> ('\0' <= id[i] < ' ') || ('\U{7F}' <= id[i] <= '\U{9F}');
  }

  /** Which model answers a hinted name, and exactly when none does. */
  lemma HintedNameIsAnswered(r: Registry, allow: Allowlist, name: string, hint: Provider)
    requires Built(r)
    ensures var answer := ResolveName(r, allow, name, Some(hint));
            && (answer.Some? ==> IsNamedAnswer(r.models, allow, name, hint, answer.value))
            && (answer.None? ==> forall m :: !IsNamedAnswer(r.models, allow, name, hint, m))
  {
    hide Built, FindScoped, FindModel, IsFirstCalled, IsFirstGo, PassesThrough;
    hide AtlascloudPassthrough, ArceePassthrough, XiaomiMimoPassthrough;
    FirstCalledIsFound(r.models, hint, name);
    forall m
      ensures PassesThrough(name, hint, m) <==> Passthrough(name, hint) == Some(m)
    {
      PassingThrough(name, hint, m);
    }
    if allow(name).Some? {
      FirstGoIsFound(r.models, allow(name).value);
    }
    if AliasBranch(r, name, Some(hint)) {
      AliasBranchIsDeadUnderAHint(r, name, hint);
    }
  }

  /** Which model answers a request under a hint. */
  lemma HintedAnswerIs(r: Registry, allow: Allowlist, requested: Option<string>, hint: Provider)
    requires Built(r)
    ensures var a := Resolve(r, allow, requested, Some(hint));
            && (!a.usedFallback ==>
                  requested.Some? && IsNamedAnswer(r.models, allow, requested.value, hint, a.resolved))
            && (a.usedFallback ==>
                  && IsFallback(r.models, hint, a.resolved)
                  && (requested.Some? ==> forall m :: !IsNamedAnswer(r.models, allow, requested.value, hint, m)))
  {
    hide ResolveName, FindModel, IsNamedAnswer;
    if requested.Some? {
      HintedNameIsAnswered(r, allow, requested.value, hint);
    }
    FirstOfProviderIsFound(r.models, hint);
  }

  /** Which model answers a request without a hint: the first of all that is
      called by the name, under the id as requested if that is its id up to
      letter case; and otherwise Deepseek's fallback. */
  lemma UnhintedAnswerIs(r: Registry, allow: Allowlist, requested: Option<string>)
    requires Built(r)
    ensures var a := Resolve(r, allow, requested, None);
            && (!a.usedFallback ==> requested.Some? && exists i: nat ::
                  && i < |r.models| && IsCalled(r.models[i], requested.value)
                  && (forall j | 0 <= j < i :: !IsCalled(r.models[j], requested.value))
                  && a.resolved == r.models[i].(id :=
                       if EqIgnoreCase(r.models[i].id, Trim(requested.value)) then Trim(requested.value)
                       else r.models[i].id))
            && (a.usedFallback ==>
                  && IsFallback(r.models, Deepseek, a.resolved)
                  && (requested.Some? ==> forall i | 0 <= i < |r.models| :: !IsCalled(r.models[i], requested.value)))
  {
    hide FindModel, IsCalled, Trim, EqIgnoreCase;
    if requested.Some? {
      var name := requested.value;
      forall i | 0 <= i < |r.models|
        ensures ModelMatches(r.models[i], name) <==> IsCalled(r.models[i], name)
      {
        MatchingIsBeingCalled(r.models[i], name);
      }
      IndexIsTheScan(r, name);
      if Normalize(name) in r.aliasMap {
        var i := r.aliasMap[Normalize(name)];
        assert IsFirstBy(r.models, Normalize(name), i);
      }
    }
    FirstOfProviderIsFound(r.models, Deepseek);
  }

  /** Which provider is inferred: the configured one if it serves the name, or
      is OpenCode Go; else the provider of the first model called by it. */
  lemma InferredProviderIs(r: Registry, allow: Allowlist, configured: Provider, name: string)
    requires Built(r)
    ensures var inferred := InferredProvider(r, allow, configured, name);
            var serves := exists m :: IsNamedAnswer(r.models, allow, name, configured, m);
            && (configured == OpencodeGo || serves ==> inferred == Some(configured))
            && (configured != OpencodeGo && !serves ==>
                  && (inferred.Some? ==> exists i: nat ::
                        && i < |r.models| && IsCalled(r.models[i], name) && r.models[i].provider == inferred.value
                        && forall j | 0 <= j < i :: !IsCalled(r.models[j], name))
                  && (inferred.None? ==> forall i | 0 <= i < |r.models| :: !IsCalled(r.models[i], name)))
  {
    hide Resolve, IsNamedAnswer, IsCalled, IsFallback;
    HintedAnswerIs(r, allow, Some(name), configured);
    HintedAnswerIsInScopeIff(r, allow, Some(name), configured);
    UnhintedAnswerIs(r, allow, Some(name));
  }
}
