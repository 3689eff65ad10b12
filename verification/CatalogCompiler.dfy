/** Merging catalog layers into one sorted, duplicate-free snapshot. */
module CatalogCompiler {
  import opened Wrappers

  /** Where a row came from. */
  datatype Source = Bundled | Live(fingerprint: string, fetchedAt: nat) | UserOverride

  /** A catalog row: its identity, its source, and the facts it carries along. */
  datatype Offering = Offering(provider: string, wireModelId: string, facts: string, source: Source)

  datatype Key = Key(provider: string, wireModelId: string)

  function MergeKey(row: Offering): Key {
    Key(row.provider, row.wireModelId)
  }

  // ---------------------------------------------------------------- ordering

  /** String order by character, a proper prefix first. */
  predicate Before(a: string, b: string) {
    b != "" && (a == "" || a[0] < b[0] || (a[0] == b[0] && Before(a[1..], b[1..])))
  }

  predicate KeyBefore(a: Key, b: Key) {
    Before(a.provider, b.provider) || (a.provider == b.provider && Before(a.wireModelId, b.wireModelId))
  }

  /** `a` is a proper prefix of `b`, or smaller where they first differ. */
  ghost predicate SortsBefore(a: string, b: string) {
    || a < b
    || exists k: nat :: DiffersAt(a, b, k) && a[k] < b[k]
  }

  ghost predicate DiffersAt(a: string, b: string, k: nat) {
    k < |a| && k < |b| && a[..k] == b[..k] && a[k] != b[k]
  }

  lemma {:induction false} BeforeMeaning(a: string, b: string)
    ensures Before(a, b) <==> SortsBefore(a, b)
  {
    if a == "" || b == "" {
    } else if a[0] != b[0] {
      DifferAtOnce(a, b);
    } else {
      BeforeMeaning(a[1..], b[1..]);
      DifferLater(a, b);
    }
  }

  lemma CommonStart(a: string, b: string, k: nat)
    requires k < |a| && k < |b|
    ensures k > 0 && a[..k] == b[..k] ==> a[0] == b[0]
  {
    if k > 0 && a[..k] == b[..k] {
      assert a[..k][0] == a[0] && b[..k][0] == b[0];
    }
  }

  lemma DifferAtOnce(a: string, b: string)
    requires a != "" && b != "" && a[0] != b[0]
    ensures SortsBefore(a, b) <==> a[0] < b[0]
  {
    assert DiffersAt(a, b, 0);
    forall k: nat | DiffersAt(a, b, k)
      ensures k == 0
    {
      CommonStart(a, b, k);
    }
  }

  lemma DifferLater(a: string, b: string)
    requires a != "" && b != "" && a[0] == b[0]
    ensures SortsBefore(a, b) <==> SortsBefore(a[1..], b[1..])
  {
    var x, y := a[1..], b[1..];
    assert a == [a[0]] + x && b == [a[0]] + y;
    assert a < b <==> x < y;
    forall k: nat
      ensures DiffersAt(a, b, k + 1) <==> DiffersAt(x, y, k)
    {
      if k < |x| && k < |y| {
        assert a[..k + 1] == [a[0]] + x[..k] && b[..k + 1] == [a[0]] + y[..k];
        assert a[..k + 1][1..] == x[..k] && b[..k + 1][1..] == y[..k];
      }
    }
    if exists k: nat :: DiffersAt(a, b, k) && a[k] < b[k] {
      var k: nat :| DiffersAt(a, b, k) && a[k] < b[k];
      assert k > 0 && DiffersAt(x, y, k - 1);
    }
    if exists k: nat :: DiffersAt(x, y, k) && x[k] < y[k] {
      var k: nat :| DiffersAt(x, y, k) && x[k] < y[k];
      assert DiffersAt(a, b, k + 1);
    }
  }

  lemma {:induction false} BeforeIsStrict(a: string)
    ensures !Before(a, a)
  {
    if a != "" {
      BeforeIsStrict(a[1..]);
    }
  }

  lemma {:induction false} BeforeIsTransitive(a: string, b: string, c: string)
    requires Before(a, b) && Before(b, c)
    ensures Before(a, c)
  {
    if a != "" && a[0] == b[0] && b[0] == c[0] {
      BeforeIsTransitive(a[1..], b[1..], c[1..]);
    }
  }

  lemma {:induction false} BeforeIsTotal(a: string, b: string)
    ensures a == b || Before(a, b) || Before(b, a)
  {
    if a != "" && b != "" && a[0] == b[0] {
      BeforeIsTotal(a[1..], b[1..]);
      assert a == [a[0]] + a[1..] && b == [b[0]] + b[1..];
    }
  }

  lemma KeyOrder(a: Key, b: Key, c: Key)
    ensures !KeyBefore(a, a)
    ensures a == b || KeyBefore(a, b) || KeyBefore(b, a)
    ensures KeyBefore(a, b) && KeyBefore(b, c) ==> KeyBefore(a, c)
  {
    BeforeIsStrict(a.provider);
    BeforeIsStrict(a.wireModelId);
    BeforeIsTotal(a.provider, b.provider);
    BeforeIsTotal(a.wireModelId, b.wireModelId);
    if Before(a.provider, b.provider) && Before(b.provider, c.provider) {
      BeforeIsTransitive(a.provider, b.provider, c.provider);
    }
    if Before(a.wireModelId, b.wireModelId) && Before(b.wireModelId, c.wireModelId) {
      BeforeIsTransitive(a.wireModelId, b.wireModelId, c.wireModelId);
    }
  }

  // ------------------------------------------------------------- sorted rows

  ghost predicate Sorted(rows: seq<Offering>) {
    forall i, j | 0 <= i < j < |rows| :: KeyBefore(MergeKey(rows[i]), MergeKey(rows[j]))
  }

  /** Insertion into a sorted map from merge keys to rows; an equal key's row
      is replaced. */
  function Insert(rows: seq<Offering>, row: Offering): seq<Offering> {
    if rows == [] then [row]
    else if KeyBefore(MergeKey(row), MergeKey(rows[0])) then [row] + rows
    else if MergeKey(row) == MergeKey(rows[0]) then [row] + rows[1..]
    else [rows[0]] + Insert(rows[1..], row)
  }

  function Merge(rows: seq<Offering>, more: seq<Offering>): seq<Offering>
    decreases |more|
  {
    if more == [] then rows else Merge(Insert(rows, more[0]), more[1..])
  }

  /** The last row of a list under a key. */
  function LastOf(rows: seq<Offering>, key: Key): Option<Offering> {
    if rows == [] then None
    else
      var n := |rows| - 1;
      if MergeKey(rows[n]) == key then Some(rows[n]) else LastOf(rows[..n], key)
  }

  /** What a later layer leaves of an earlier one under a key. */
  function Override(earlier: Option<Offering>, later: Option<Offering>): Option<Offering> {
    if later.Some? then later else earlier
  }

  lemma {:induction false} LastOfAppend(a: seq<Offering>, b: seq<Offering>, key: Key)
    ensures LastOf(a + b, key) == Override(LastOf(a, key), LastOf(b, key))
    decreases |b|
  {
    if b == [] {
      assert a + b == a;
    } else {
      var n := |b| - 1;
      assert (a + b)[..|a + b| - 1] == a + b[..n];
      LastOfAppend(a, b[..n], key);
    }
  }

  lemma {:induction false} LastOfHasKey(rows: seq<Offering>, key: Key)
    ensures LastOf(rows, key).Some? ==> LastOf(rows, key).value in rows && MergeKey(LastOf(rows, key).value) == key
    ensures LastOf(rows, key).None? <==> forall r | r in rows :: MergeKey(r) != key
  {
    if rows != [] {
      var n := |rows| - 1;
      LastOfHasKey(rows[..n], key);
      assert rows == rows[..n] + [rows[n]];
    }
  }

  /** In a sorted list a row is its key's only one. */
  lemma LastOfSorted(rows: seq<Offering>, i: nat)
    requires Sorted(rows) && i < |rows|
    ensures LastOf(rows, MergeKey(rows[i])) == Some(rows[i])
  {
    var key := MergeKey(rows[i]);
    LastOfHasKey(rows, key);
    assert rows[i] in rows;
    var r := LastOf(rows, key).value;
    var j :| 0 <= j < |rows| && rows[j] == r;
    KeyOrder(key, key, key);
  }

  lemma {:induction false} InsertKeepsSorted(rows: seq<Offering>, row: Offering)
    requires Sorted(rows)
    ensures Sorted(Insert(rows, row))
    ensures forall r | r in Insert(rows, row) :: r == row || r in rows
    ensures forall key ::
              LastOf(Insert(rows, row), key) == if key == MergeKey(row) then Some(row) else LastOf(rows, key)
  {
    hide MergeKey, KeyBefore, Before;
    if rows != [] && !KeyBefore(MergeKey(row), MergeKey(rows[0])) && MergeKey(row) != MergeKey(rows[0]) {
      var tail := Insert(rows[1..], row);
      InsertKeepsSorted(rows[1..], row);
      KeyOrder(MergeKey(row), MergeKey(rows[0]), MergeKey(row));
      forall j | 0 <= j < |tail|
        ensures KeyBefore(MergeKey(rows[0]), MergeKey(tail[j]))
      {
        assert tail[j] in tail;
        if tail[j] != row {
          var k :| 0 <= k < |rows[1..]| && rows[1..][k] == tail[j];
          assert rows[k + 1] == tail[j];
        }
      }
      forall key
        ensures LastOf([rows[0]] + tail, key) == if key == MergeKey(row) then Some(row) else LastOf(rows, key)
      {
        LastOfAppend([rows[0]], tail, key);
        LastOfAppend([rows[0]], rows[1..], key);
        assert [rows[0]] + rows[1..] == rows;
      }
    } else if rows != [] && MergeKey(row) == MergeKey(rows[0]) {
      KeyOrder(MergeKey(row), MergeKey(row), MergeKey(row));
      OnlyFirstHasItsKey(rows);
      forall key
        ensures LastOf([row] + rows[1..], key) == if key == MergeKey(row) then Some(row) else LastOf(rows, key)
      {
        LastOfAppend([row], rows[1..], key);
        LastOfAppend([rows[0]], rows[1..], key);
        assert [rows[0]] + rows[1..] == rows;
      }
    } else {
      forall key
        ensures LastOf([row] + rows, key) == if key == MergeKey(row) then Some(row) else LastOf(rows, key)
      {
        LastOfAppend([row], rows, key);
        if rows != [] {
          KeyBeforeAllIsAbsent(rows, MergeKey(row));
        }
      }
      forall j | 0 <= j < |rows|
        ensures KeyBefore(MergeKey(row), MergeKey(rows[j]))
      {
        KeyOrder(MergeKey(row), MergeKey(rows[0]), MergeKey(rows[j]));
      }
    }
  }

  lemma OnlyFirstHasItsKey(rows: seq<Offering>)
    requires Sorted(rows) && rows != []
    ensures LastOf(rows[1..], MergeKey(rows[0])).None?
  {
    var key := MergeKey(rows[0]);
    LastOfHasKey(rows[1..], key);
    forall r | r in rows[1..]
      ensures MergeKey(r) != key
    {
      var k :| 0 <= k < |rows[1..]| && rows[1..][k] == r;
      assert rows[k + 1] == r;
      KeyOrder(key, key, key);
    }
  }

  lemma KeyBeforeAllIsAbsent(rows: seq<Offering>, key: Key)
    requires Sorted(rows) && rows != [] && KeyBefore(key, MergeKey(rows[0]))
    ensures LastOf(rows, key).None?
  {
    LastOfHasKey(rows, key);
    forall r | r in rows
      ensures MergeKey(r) != key
    {
      var k :| 0 <= k < |rows| && rows[k] == r;
      KeyOrder(key, MergeKey(rows[0]), MergeKey(rows[k]));
    }
  }

  /** Merging keeps the rows sorted, and under each key the later row wins. */
  lemma {:induction false} MergeMeaning(rows: seq<Offering>, more: seq<Offering>)
    requires Sorted(rows)
    ensures Sorted(Merge(rows, more))
    ensures forall key :: LastOf(Merge(rows, more), key) == Override(LastOf(rows, key), LastOf(more, key))
    decreases |more|
  {
    if more != [] {
      InsertKeepsSorted(rows, more[0]);
      MergeMeaning(Insert(rows, more[0]), more[1..]);
      forall key
        ensures LastOf(Merge(rows, more), key) == Override(LastOf(rows, key), LastOf(more, key))
      {
        LastOfAppend([more[0]], more[1..], key);
        assert [more[0]] + more[1..] == more;
      }
    }
  }

  /** Sorted lists with the same row under every key are the same list. */
  lemma {:induction false} SortedIsDetermined(a: seq<Offering>, b: seq<Offering>)
    requires Sorted(a) && Sorted(b)
    requires forall key :: LastOf(a, key) == LastOf(b, key)
    ensures a == b
    decreases |a|
  {
    if a == [] || b == [] {
      if a != [] {
        LastOfSorted(a, 0);
      }
      if b != [] {
        LastOfSorted(b, 0);
      }
    } else {
      SameFirst(a, b);
      forall key
        ensures LastOf(a[1..], key) == LastOf(b[1..], key)
      {
        LastOfAppend([a[0]], a[1..], key);
        LastOfAppend([b[0]], b[1..], key);
        assert [a[0]] + a[1..] == a && [b[0]] + b[1..] == b;
        OnlyFirstHasItsKey(a);
        OnlyFirstHasItsKey(b);
      }
      SortedIsDetermined(a[1..], b[1..]);
      assert a == [a[0]] + a[1..] && b == [b[0]] + b[1..];
    }
  }

  lemma SameFirst(a: seq<Offering>, b: seq<Offering>)
    requires Sorted(a) && Sorted(b) && a != [] && b != []
    requires forall key :: LastOf(a, key) == LastOf(b, key)
    ensures a[0] == b[0]
  {
    LastOfSorted(a, 0);
    LastOfSorted(b, 0);
    var x, y := MergeKey(a[0]), MergeKey(b[0]);
    LastOfHasKey(b, x);
    LastOfHasKey(a, y);
    var i :| 0 <= i < |b| && b[i] == a[0];
    var j :| 0 <= j < |a| && a[j] == b[0];
    KeyOrder(x, y, x);
    KeyOrder(y, x, y);
  }

  // ---------------------------------------------------------------- compiler

  /** The layers in precedence order. */
  function Layers(bundled: seq<Offering>, live: seq<Offering>, overrides: seq<Offering>): seq<Offering> {
    bundled + live + overrides
  }

  function Compiled(rows: seq<Offering>): seq<Offering> {
    Merge([], rows)
  }

  lemma {:induction false} MergeAppend(rows: seq<Offering>, a: seq<Offering>, b: seq<Offering>)
    ensures Merge(rows, a + b) == Merge(Merge(rows, a), b)
    decreases |a|
  {
    if a == [] {
      assert a + b == b;
    } else {
      assert (a + b)[1..] == a[1..] + b;
      MergeAppend(Insert(rows, a[0]), a[1..], b);
    }
  }

  // ------------------------------------------------------ on the rows' fields

  predicate SameModel(a: Offering, b: Offering) {
    a.provider == b.provider && a.wireModelId == b.wireModelId
  }

  /** Row `i` has no later row of its provider and wire id behind it. */
  predicate IsLastOfModel(rows: seq<Offering>, i: nat) {
    i < |rows| && forall j | i < j < |rows| :: !SameModel(rows[j], rows[i])
  }

  ghost predicate OrderedByFields(rows: seq<Offering>) {
    forall i, j | 0 <= i < j < |rows| ::
      || SortsBefore(rows[i].provider, rows[j].provider)
      || (rows[i].provider == rows[j].provider && SortsBefore(rows[i].wireModelId, rows[j].wireModelId))
  }

  /** Exactly the rows with no later row of the same provider and wire id. */
  ghost predicate KeepsLastRows(offerings: seq<Offering>, layers: seq<Offering>) {
    forall row :: row in offerings <==> exists i: nat :: IsLastOfModel(layers, i) && layers[i] == row
  }

  /** Every provider and wire id of the layers has exactly one row. */
  ghost predicate OneRowEach(offerings: seq<Offering>, layers: seq<Offering>) {
    && (forall r | r in layers :: exists k :: 0 <= k < |offerings| && SameModel(offerings[k], r))
    && (forall i, j | 0 <= i < j < |offerings| :: !SameModel(offerings[i], offerings[j]))
  }

  lemma SortedMeaning(rows: seq<Offering>)
    requires Sorted(rows)
    ensures OrderedByFields(rows)
  {
    forall i, j | 0 <= i < j < |rows|
      ensures || SortsBefore(rows[i].provider, rows[j].provider)
              || (rows[i].provider == rows[j].provider && SortsBefore(rows[i].wireModelId, rows[j].wireModelId))
    {
      assert KeyBefore(MergeKey(rows[i]), MergeKey(rows[j]));
      BeforeMeaning(rows[i].provider, rows[j].provider);
      BeforeMeaning(rows[i].wireModelId, rows[j].wireModelId);
    }
  }

  lemma {:induction false} LastOfMeaning(rows: seq<Offering>, row: Offering)
    ensures LastOf(rows, MergeKey(row)) == Some(row) <==> exists i: nat :: IsLastOfModel(rows, i) && rows[i] == row
    decreases |rows|
  {
    if rows != [] {
      var n := |rows| - 1;
      var before := rows[..n];
      LastOfMeaning(before, row);
      assert IsLastOfModel(rows, n);
      if SameModel(rows[n], row) {
        assert forall i: nat | IsLastOfModel(rows, i) && rows[i] == row :: i == n;
      } else {
        forall i: nat | i < n && rows[i] == row
          ensures IsLastOfModel(rows, i) <==> IsLastOfModel(before, i)
        {
          assert forall j | i < j < n :: before[j] == rows[j];
        }
        if exists i: nat :: IsLastOfModel(before, i) && before[i] == row {
          var i: nat :| IsLastOfModel(before, i) && before[i] == row;
          assert IsLastOfModel(rows, i) && rows[i] == row;
        }
        if exists i: nat :: IsLastOfModel(rows, i) && rows[i] == row {
          var i: nat :| IsLastOfModel(rows, i) && rows[i] == row;
          assert i < n && IsLastOfModel(before, i) && before[i] == row;
        }
      }
    }
  }

  /** What compiling means, on the fields of the rows alone. */
  lemma CompiledMeaning(layers: seq<Offering>)
    ensures var rows := Compiled(layers);
            OrderedByFields(rows) && KeepsLastRows(rows, layers) && OneRowEach(rows, layers)
  {
    hide Compiled, LastOf;
    var rows := Compiled(layers);
    CompiledKeepsLast(layers, Key("", ""));
    SortedMeaning(rows);
    forall row
      ensures row in rows <==> exists i: nat :: IsLastOfModel(layers, i) && layers[i] == row
    {
      CompiledKeepsLast(layers, MergeKey(row));
      LastOfMeaning(layers, row);
      LastOfHasKey(rows, MergeKey(row));
      if row in rows {
        var k: nat :| k < |rows| && rows[k] == row;
        LastOfSorted(rows, k);
      }
    }
    forall r | r in layers
      ensures exists k :: 0 <= k < |rows| && SameModel(rows[k], r)
    {
      CompiledKeepsLast(layers, MergeKey(r));
      LastOfHasKey(layers, MergeKey(r));
      LastOfHasKey(rows, MergeKey(r));
      var last := LastOf(rows, MergeKey(r)).value;
      var k: nat :| k < |rows| && rows[k] == last;
      assert SameModel(rows[k], r);
    }
    forall i, j | 0 <= i < j < |rows|
      ensures !SameModel(rows[i], rows[j])
    {
      KeyOrder(MergeKey(rows[i]), MergeKey(rows[i]), MergeKey(rows[j]));
    }
  }

  /** The source's insertion loop over the chained layers. */
  method Compile(bundled: seq<Offering>, live: seq<Offering>, overrides: seq<Offering>)
    returns (offerings: seq<Offering>)
    ensures offerings == Compiled(Layers(bundled, live, overrides))
    ensures OrderedByFields(offerings)
    ensures KeepsLastRows(offerings, bundled + live + overrides)
    ensures OneRowEach(offerings, bundled + live + overrides)
    ensures Sorted(offerings)
    ensures forall key :: LastOf(offerings, key) == LastOf(Layers(bundled, live, overrides), key)
  {
    var rows := Layers(bundled, live, overrides);
    offerings := [];
    for i := 0 to |rows|
      invariant offerings == Compiled(rows[..i])
    {
      MergeAppend([], rows[..i], [rows[i]]);
      assert rows[..i + 1] == rows[..i] + [rows[i]];
      assert [rows[i]][1..] == [];
      assert Merge(Compiled(rows[..i]), [rows[i]]) == Insert(Compiled(rows[..i]), rows[i]);
      offerings := Insert(offerings, rows[i]);
    }
    assert rows[..|rows|] == rows;
    MergeMeaning([], rows);
    CompiledMeaning(rows);
  }

  /** A row is compiled exactly when it is the last of its provider and wire id
      in the layers: none is lost, none is invented, overrides beat live beats
      bundled. */
  lemma CompiledRows(bundled: seq<Offering>, live: seq<Offering>, overrides: seq<Offering>, row: Offering)
    ensures var rows := Compiled(Layers(bundled, live, overrides));
            var key := MergeKey(row);
            && OrderedByFields(rows) && OneRowEach(rows, bundled + live + overrides)
            && (row in rows <==> exists i: nat ::
                  IsLastOfModel(bundled + live + overrides, i) && (bundled + live + overrides)[i] == row)
            && Sorted(rows)
            && (row in rows <==>
                  Override(LastOf(bundled, key), Override(LastOf(live, key), LastOf(overrides, key))) == Some(row))
  {
    var layers := Layers(bundled, live, overrides);
    var rows := Compiled(layers);
    var key := MergeKey(row);
    CompiledMeaning(layers);
    MergeMeaning([], layers);
    LastOfAppend(bundled + live, overrides, key);
    LastOfAppend(bundled, live, key);
    LastOfHasKey(rows, key);
    if row in rows {
      var i :| 0 <= i < |rows| && rows[i] == row;
      LastOfSorted(rows, i);
    }
  }

  /** Compiling is incremental: a compiled catalog fed back as the bundled
      layer gives what compiling everything at once gives. */
  lemma CompilingIsIncremental(earlier: seq<Offering>, later: seq<Offering>)
    ensures Compiled(Compiled(earlier) + later) == Compiled(earlier + later)
  {
    MergeMeaning([], earlier);
    MergeMeaning([], Compiled(earlier) + later);
    MergeMeaning([], earlier + later);
    forall key
      ensures LastOf(Compiled(Compiled(earlier) + later), key) == LastOf(Compiled(earlier + later), key)
    {
      LastOfAppend(Compiled(earlier), later, key);
      LastOfAppend(earlier, later, key);
    }
    SortedIsDetermined(Compiled(Compiled(earlier) + later), Compiled(earlier + later));
  }

  /** Compiling a compiled catalog changes nothing. */
  lemma CompilingTwice(rows: seq<Offering>)
    ensures Compiled(Compiled(rows)) == Compiled(rows)
  {
    CompilingIsIncremental(rows, []);
    assert Compiled(rows) + [] == Compiled(rows) && rows + [] == rows;
  }

  lemma CompiledKeepsLast(rows: seq<Offering>, key: Key)
    ensures Sorted(Compiled(rows)) && LastOf(Compiled(rows), key) == LastOf(rows, key)
  {
    MergeMeaning([], rows);
    assert LastOf([], key) == None;
  }

  ghost predicate SameLast(a: seq<Offering>, b: seq<Offering>) {
    forall key :: LastOf(a, key) == LastOf(b, key)
  }

  lemma SameLastCompilesAlike(a: seq<Offering>, b: seq<Offering>)
    requires SameLast(a, b)
    ensures Compiled(a) == Compiled(b)
  {
    hide Compiled, Sorted;
    forall key
      ensures LastOf(Compiled(a), key) == LastOf(Compiled(b), key)
    {
      CompiledKeepsLast(a, key);
      CompiledKeepsLast(b, key);
    }
    CompiledKeepsLast(a, Key("", ""));
    CompiledKeepsLast(b, Key("", ""));
    SortedIsDetermined(Compiled(a), Compiled(b));
  }

  lemma CompiledAlikeHasSameLast(a: seq<Offering>, b: seq<Offering>)
    requires Compiled(a) == Compiled(b)
    ensures SameLast(a, b)
  {
    hide Compiled, Sorted;
    forall key
      ensures LastOf(a, key) == LastOf(b, key)
    {
      CompiledKeepsLast(a, key);
      CompiledKeepsLast(b, key);
    }
  }

  /** Two row lists compile alike exactly when they agree on every key's last row. */
  lemma CompiledAlikeIff(a: seq<Offering>, b: seq<Offering>)
    ensures Compiled(a) == Compiled(b) <==> SameLast(a, b)
  {
    hide Compiled, SameLast;
    if Compiled(a) == Compiled(b) {
      CompiledAlikeHasSameLast(a, b);
    } else if SameLast(a, b) {
      SameLastCompilesAlike(a, b);
    }
  }

  /** A list's rows under one key, in order. */
  function RowsOf(rows: seq<Offering>, key: Key): seq<Offering> {
    if rows == [] then []
    else
      var n := |rows| - 1;
      RowsOf(rows[..n], key) + if MergeKey(rows[n]) == key then [rows[n]] else []
  }

  lemma {:induction false} LastOfRows(rows: seq<Offering>, key: Key)
    ensures var own := RowsOf(rows, key);
            LastOf(rows, key) == if own == [] then None else Some(own[|own| - 1])
  {
    if rows != [] {
      LastOfRows(rows[..|rows| - 1], key);
    }
  }

  /** Reordering that keeps the rows of each key in order changes nothing. */
  lemma ReorderingAcrossKeysIsHarmless(a: seq<Offering>, b: seq<Offering>)
    requires forall key :: RowsOf(a, key) == RowsOf(b, key)
    ensures Compiled(a) == Compiled(b)
  {
    forall key
      ensures LastOf(a, key) == LastOf(b, key)
    {
      LastOfRows(a, key);
      LastOfRows(b, key);
    }
    SameLastCompilesAlike(a, b);
  }
}
