/** internal/bot/command.go: the registry of chat commands with its three indexes.

    How a name becomes a key is left open: any function will do, and names it gives no key are invalid. */
module CommandRegistry {
  import opened Wrappers

  datatype Source = BuiltinSource | PluginSource(name: Name) | UnknownSource(name: Name) | BlankSource

  datatype Permission = GlobalAdmin | OtherPermission(level: nat)

  /** `wellFormed` stands for the checks of validate that concern one descriptor alone. */
  datatype Descriptor = Descriptor(id: Name, name: Name, aliases: seq<Name>, source: Source, permission: Permission, wellFormed: bool)

  type Keys = Name -> Option<Name>

  function Names(d: Descriptor): seq<Name> {
    [d.name] + d.aliases
  }

  predicate HasKeys(keyOf: Keys, d: Descriptor) {
    forall n | n in Names(d) :: keyOf(n).Some?
  }

  function KeysOf(keyOf: Keys, d: Descriptor): set<Name> {
    set n | n in Names(d) && keyOf(n).Some? :: keyOf(n).value
  }

  /** The keys of the first names. */
  function FirstKeys(keyOf: Keys, d: Descriptor, n: nat): set<Name>
    requires n <= |Names(d)|
  {
    set i | 0 <= i < n && keyOf(Names(d)[i]).Some? :: keyOf(Names(d)[i]).value
  }

  lemma AllFirstKeys(keyOf: Keys, d: Descriptor)
    ensures FirstKeys(keyOf, d, |Names(d)|) == KeysOf(keyOf, d)
  {
    var names := Names(d);
    forall k | k in KeysOf(keyOf, d) ensures k in FirstKeys(keyOf, d, |names|) {
      var n :| n in names && keyOf(n).Some? && keyOf(n).value == k;
      var i :| 0 <= i < |names| && names[i] == n;
      assert keyOf(names[i]).value == k;
    }
    forall k | k in FirstKeys(keyOf, d, |names|) ensures k in KeysOf(keyOf, d) {
      var i :| 0 <= i < |names| && keyOf(names[i]).Some? && keyOf(names[i]).value == k;
      assert names[i] in names;
    }
  }

  lemma FirstKeysNext(keyOf: Keys, d: Descriptor, n: nat)
    requires n < |Names(d)|
    ensures FirstKeys(keyOf, d, n + 1)
      == FirstKeys(keyOf, d, n) + if keyOf(Names(d)[n]).Some? then {keyOf(Names(d)[n]).value} else {}
  {
    forall k | k in FirstKeys(keyOf, d, n + 1)
      ensures k in FirstKeys(keyOf, d, n) || (keyOf(Names(d)[n]).Some? && k == keyOf(Names(d)[n]).value)
    {
      var i :| 0 <= i < n + 1 && keyOf(Names(d)[i]).Some? && keyOf(Names(d)[i]).value == k;
    }
    forall k | k in FirstKeys(keyOf, d, n) ensures k in FirstKeys(keyOf, d, n + 1) {
      var i :| 0 <= i < n && keyOf(Names(d)[i]).Some? && keyOf(Names(d)[i]).value == k;
    }
    if keyOf(Names(d)[n]).Some? {
      assert keyOf(Names(d)[n]).value in FirstKeys(keyOf, d, n + 1);
    }
  }

  // ----- The indexes as values -----

  datatype Indexes = Indexes(byName: map<Name, Descriptor>, ordered: seq<Descriptor>, bySource: map<Source, seq<Name>>)

  /** The identifiers of a source's commands, in the order of registration. */
  function IdsOf(ordered: seq<Descriptor>, source: Source): seq<Name> {
    if ordered == [] then [] else
    IdsOf(ordered[..|ordered| - 1], source)
    + if ordered[|ordered| - 1].source == source then [ordered[|ordered| - 1].id] else []
  }

  function Without(ordered: seq<Descriptor>, source: Source): seq<Descriptor> {
    if ordered == [] then [] else
    Without(ordered[..|ordered| - 1], source)
    + if ordered[|ordered| - 1].source != source then [ordered[|ordered| - 1]] else []
  }

  /** Each listed descriptor owns all its keys, which no other position shares. */
  ghost predicate Owned(keyOf: Keys, x: Indexes) {
    && (forall i | 0 <= i < |x.ordered| :: HasKeys(keyOf, x.ordered[i]))
    && (forall i, k | 0 <= i < |x.ordered| && k in KeysOf(keyOf, x.ordered[i]) :: k in x.byName && x.byName[k] == x.ordered[i])
    && (forall i, j | 0 <= i < j < |x.ordered| :: KeysOf(keyOf, x.ordered[i]) !! KeysOf(keyOf, x.ordered[j]))
  }

  /** Every key belongs to a listed descriptor. */
  ghost predicate Known(keyOf: Keys, x: Indexes) {
    forall k | k in x.byName :: x.byName[k] in x.ordered && k in KeysOf(keyOf, x.byName[k])
  }

  /** The third index groups the identifiers by source, and holds no source without commands. */
  ghost predicate Grouped(x: Indexes) {
    forall s :: if s in x.bySource then x.bySource[s] == IdsOf(x.ordered, s) != [] else IdsOf(x.ordered, s) == []
  }

  ghost predicate Consistent(keyOf: Keys, x: Indexes) {
    Owned(keyOf, x) && Known(keyOf, x) && Grouped(x)
  }

  /** The name table with some keys given to a descriptor. */
  function Granted(m: map<Name, Descriptor>, keys: set<Name>, d: Descriptor): map<Name, Descriptor> {
    m + map k | k in keys :: d
  }

  lemma GrantOne(m: map<Name, Descriptor>, keys: set<Name>, k: Name, d: Descriptor)
    ensures Granted(m, keys, d)[k := d] == Granted(m, keys + {k}, d)
  {
  }

  function Added(keyOf: Keys, x: Indexes, d: Descriptor): Indexes {
    Indexes(Granted(x.byName, KeysOf(keyOf, d), d), x.ordered + [d],
      x.bySource[d.source := (if d.source in x.bySource then x.bySource[d.source] else []) + [d.id]])
  }

  lemma IdsAppend(ordered: seq<Descriptor>, d: Descriptor, source: Source)
    ensures IdsOf(ordered + [d], source) == IdsOf(ordered, source) + if d.source == source then [d.id] else []
  {
    assert (ordered + [d])[..|ordered|] == ordered;
  }

  lemma AddKnown(keyOf: Keys, x: Indexes, d: Descriptor)
    requires Known(keyOf, x)
    ensures Known(keyOf, Added(keyOf, x, d))
  {
    var y := Added(keyOf, x, d);
    forall k | k in y.byName ensures y.byName[k] in y.ordered && k in KeysOf(keyOf, y.byName[k]) {
      assert y.ordered[|x.ordered|] == d;
    }
  }

  lemma AddOwned(keyOf: Keys, x: Indexes, d: Descriptor)
    requires Owned(keyOf, x) && HasKeys(keyOf, d) && KeysOf(keyOf, d) !! x.byName.Keys
    ensures Owned(keyOf, Added(keyOf, x, d))
  {
    forall i | 0 <= i < |x.ordered| ensures KeysOf(keyOf, x.ordered[i]) !! KeysOf(keyOf, d) {
      assert KeysOf(keyOf, x.ordered[i]) <= x.byName.Keys;
    }
  }

  lemma AddGrouped(keyOf: Keys, x: Indexes, d: Descriptor)
    requires Grouped(x)
    ensures Grouped(Added(keyOf, x, d))
  {
    forall s {
      IdsAppend(x.ordered, d, s);
    }
  }

  function Removed(x: Indexes, source: Source): Indexes {
    Indexes(map k | k in x.byName && x.byName[k].source != source :: x.byName[k], Without(x.ordered, source), x.bySource - {source})
  }

  /** Where a kept descriptor stood before. */
  lemma {:induction false} KeptPosition(ordered: seq<Descriptor>, source: Source, i: nat) returns (p: nat)
    requires i < |Without(ordered, source)|
    ensures p < |ordered| && ordered[p] == Without(ordered, source)[i] && ordered[p].source != source
    ensures i == |Without(ordered[..p], source)|
  {
    var n := |ordered| - 1;
    var front := Without(ordered[..n], source);
    if i < |front| {
      p := KeptPosition(ordered[..n], source, i);
      assert ordered[..n][..p] == ordered[..p];
    } else {
      p := n;
    }
  }

  lemma {:induction false} WithoutGrows(ordered: seq<Descriptor>, source: Source, p: nat, q: nat)
    requires p <= q <= |ordered|
    ensures |Without(ordered[..p], source)| <= |Without(ordered[..q], source)|
  {
    if p < q {
      WithoutGrows(ordered, source, p, q - 1);
      assert ordered[..q][..q - 1] == ordered[..q - 1];
    }
  }

  lemma {:induction false} KeptHas(ordered: seq<Descriptor>, source: Source, d: Descriptor)
    ensures d in Without(ordered, source) <==> d in ordered && d.source != source
  {
    if ordered != [] {
      KeptHas(ordered[..|ordered| - 1], source, d);
      assert ordered == ordered[..|ordered| - 1] + [ordered[|ordered| - 1]];
    }
  }

  lemma {:induction false} IdsOfKept(ordered: seq<Descriptor>, source: Source, other: Source)
    ensures IdsOf(Without(ordered, source), other) == if other == source then [] else IdsOf(ordered, other)
  {
    if ordered != [] {
      var front, last := ordered[..|ordered| - 1], ordered[|ordered| - 1];
      IdsOfKept(front, source, other);
      if last.source != source {
        IdsAppend(Without(front, source), last, other);
      } else {
        assert Without(front, source) + [] == Without(front, source);
      }
    }
  }

  lemma KeptDisjoint(keyOf: Keys, x: Indexes, source: Source, i: nat, j: nat)
    requires Owned(keyOf, x) && i < j < |Without(x.ordered, source)|
    ensures KeysOf(keyOf, Without(x.ordered, source)[i]) !! KeysOf(keyOf, Without(x.ordered, source)[j])
  {
    var p := KeptPosition(x.ordered, source, i);
    var q := KeptPosition(x.ordered, source, j);
    if q <= p {
      WithoutGrows(x.ordered, source, q, p);
    }
  }

  lemma RemoveOwned(keyOf: Keys, x: Indexes, source: Source)
    requires Owned(keyOf, x) && Known(keyOf, x)
    ensures Owned(keyOf, Removed(x, source)) && Known(keyOf, Removed(x, source))
  {
    var y := Removed(x, source);
    forall i | 0 <= i < |y.ordered|
      ensures HasKeys(keyOf, y.ordered[i]) && forall k | k in KeysOf(keyOf, y.ordered[i]) :: k in y.byName && y.byName[k] == y.ordered[i]
    {
      var p := KeptPosition(x.ordered, source, i);
    }
    forall i, j | 0 <= i < j < |y.ordered| ensures KeysOf(keyOf, y.ordered[i]) !! KeysOf(keyOf, y.ordered[j]) {
      KeptDisjoint(keyOf, x, source, i, j);
    }
    forall k | k in y.byName ensures y.byName[k] in y.ordered && k in KeysOf(keyOf, y.byName[k]) {
      KeptHas(x.ordered, source, x.byName[k]);
    }
  }

  lemma RemoveGrouped(x: Indexes, source: Source)
    requires Grouped(x)
    ensures Grouped(Removed(x, source))
  {
    forall s {
      IdsOfKept(x.ordered, source, s);
    }
  }

  /** The keys of a source's commands. */
  function Gone(keyOf: Keys, ordered: seq<Descriptor>, source: Source): set<Name> {
    if ordered == [] then {} else
    Gone(keyOf, ordered[..|ordered| - 1], source)
    + if ordered[|ordered| - 1].source == source then KeysOf(keyOf, ordered[|ordered| - 1]) else {}
  }

  lemma MinusBoth(m: map<Name, Descriptor>, a: set<Name>, b: set<Name>)
    ensures m - a - b == m - (a + b)
  {
  }

  lemma SweepNext(keyOf: Keys, ordered: seq<Descriptor>, i: nat, source: Source)
    requires i < |ordered|
    ensures Without(ordered[..i + 1], source) == Without(ordered[..i], source) + if ordered[i].source != source then [ordered[i]] else []
    ensures Gone(keyOf, ordered[..i + 1], source)
      == Gone(keyOf, ordered[..i], source) + if ordered[i].source == source then KeysOf(keyOf, ordered[i]) else {}
  {
    assert ordered[..i + 1][..i] == ordered[..i];
  }

  lemma {:induction false} GoneHas(keyOf: Keys, ordered: seq<Descriptor>, source: Source, k: Name)
    ensures k in Gone(keyOf, ordered, source) <==> exists d :: d in ordered && d.source == source && k in KeysOf(keyOf, d)
  {
    if ordered != [] {
      var front, last := ordered[..|ordered| - 1], ordered[|ordered| - 1];
      GoneHas(keyOf, front, source, k);
      assert ordered == front + [last];
    }
  }

  /** The removed keys are those whose owner is of the source. */
  lemma GoneIsOwned(keyOf: Keys, x: Indexes, source: Source)
    requires Owned(keyOf, x) && Known(keyOf, x)
    ensures x.byName - Gone(keyOf, x.ordered, source) == Removed(x, source).byName
  {
    forall k | k in x.byName ensures k in Gone(keyOf, x.ordered, source) <==> x.byName[k].source == source {
      GoneHas(keyOf, x.ordered, source, k);
      if k in Gone(keyOf, x.ordered, source) {
        var d :| d in x.ordered && d.source == source && k in KeysOf(keyOf, d);
        var i :| 0 <= i < |x.ordered| && x.ordered[i] == d;
      }
    }
  }

  predicate NoneOf(ordered: seq<Descriptor>, source: Source) {
    forall i | 0 <= i < |ordered| :: ordered[i].source != source
  }

  lemma {:induction false} NoIds(ordered: seq<Descriptor>, source: Source)
    requires IdsOf(ordered, source) == []
    ensures NoneOf(ordered, source)
  {
    if ordered != [] {
      var front, last := ordered[..|ordered| - 1], ordered[|ordered| - 1];
      assert |IdsOf(ordered, source)| == |IdsOf(front, source)| + if last.source == source then 1 else 0;
      NoIds(front, source);
    }
  }

  lemma {:induction false} NothingWithout(ordered: seq<Descriptor>, source: Source)
    requires NoneOf(ordered, source)
    ensures Without(ordered, source) == ordered
  {
    if ordered != [] {
      NothingWithout(ordered[..|ordered| - 1], source);
    }
  }

  /** A source without commands has nothing to remove. */
  lemma NoCommands(x: Indexes, source: Source)
    requires Grouped(x) && source !in x.bySource
    ensures Without(x.ordered, source) == x.ordered && NoneOf(x.ordered, source)
  {
    NoIds(x.ordered, source);
    NothingWithout(x.ordered, source);
  }

  lemma NoneOfNames(keyOf: Keys, x: Indexes, source: Source)
    requires Known(keyOf, x) && NoneOf(x.ordered, source)
    ensures forall k | k in x.byName :: x.byName[k].source != source
  {
    forall k | k in x.byName ensures x.byName[k].source != source {
      var i :| 0 <= i < |x.ordered| && x.ordered[i] == x.byName[k];
    }
  }

  lemma NothingToRemove(keyOf: Keys, x: Indexes, source: Source)
    requires Consistent(keyOf, x) && source !in x.bySource
    ensures Removed(x, source) == x
  {
    NoCommands(x, source);
    NoneOfNames(keyOf, x, source);
    assert x.ordered + [] == x.ordered;
    NamesAreRestored(x, x, source, []);
    GroupsAreRestored(x, x, source);
  }

  /** What registering some commands of a source does: no existing name changes its owner, every new one belongs to one
      of the commands, and only the source's own group changes. */
  ghost predicate Extends(x: Indexes, y: Indexes, source: Source, added: seq<Descriptor>) {
    && y.ordered == x.ordered + added
    && (forall i | 0 <= i < |added| :: added[i].source == source && added[i].permission == GlobalAdmin)
    && (forall k | k in x.byName :: k in y.byName && y.byName[k] == x.byName[k])
    && (forall k | k in y.byName && k !in x.byName :: y.byName[k] in added)
    && y.bySource - {source} == x.bySource - {source}
  }

  lemma ExtendsNext(keyOf: Keys, x: Indexes, y: Indexes, source: Source, added: seq<Descriptor>, d: Descriptor)
    requires Extends(x, y, source, added) && d.source == source && d.permission == GlobalAdmin
    requires KeysOf(keyOf, d) !! y.byName.Keys
    ensures Extends(x, Added(keyOf, y, d), source, added + [d])
  {
    var z := Added(keyOf, y, d);
    assert z.bySource - {source} == y.bySource - {source};
    forall k | k in z.byName && k !in x.byName ensures z.byName[k] in added + [d] {
      if k in KeysOf(keyOf, d) {
        assert (added + [d])[|added|] == d;
      }
    }
  }

  lemma {:induction false} WithoutAdded(ordered: seq<Descriptor>, added: seq<Descriptor>, source: Source)
    requires forall i | 0 <= i < |added| :: added[i].source == source
    ensures Without(ordered + added, source) == Without(ordered, source)
  {
    if added == [] {
      assert ordered + added == ordered;
    } else {
      WithoutAdded(ordered, added[..|added| - 1], source);
      assert (ordered + added)[..|ordered + added| - 1] == ordered + added[..|added| - 1];
    }
  }

  lemma NamesAreRestored(x: Indexes, y: Indexes, source: Source, added: seq<Descriptor>)
    requires Extends(x, y, source, added)
    requires forall k | k in x.byName :: x.byName[k].source != source
    ensures Removed(y, source).byName == x.byName
  {
    forall k | k in y.byName && k !in x.byName ensures y.byName[k].source == source {
      assert y.byName[k] in added;
    }
  }

  lemma GroupsAreRestored(x: Indexes, y: Indexes, source: Source)
    requires source !in x.bySource && y.bySource - {source} == x.bySource - {source}
    ensures y.bySource - {source} == x.bySource
  {
    assert x.bySource - {source} == x.bySource;
  }

  lemma RemoveUndoes(keyOf: Keys, x: Indexes, y: Indexes, source: Source, added: seq<Descriptor>)
    requires Consistent(keyOf, x) && source !in x.bySource && Extends(x, y, source, added)
    ensures Removed(y, source) == x
  {
    NoCommands(x, source);
    NoneOfNames(keyOf, x, source);
    WithoutAdded(x.ordered, added, source);
    NamesAreRestored(x, y, source, added);
    GroupsAreRestored(x, y, source);
  }

  // ----- The code -----

  class Registry {
    const keyOf: Keys
    var byName: map<Name, Descriptor>
    var ordered: seq<Descriptor>
    var bySource: map<Source, seq<Name>>

    constructor (keyOf: Keys)
      ensures Valid() && this.keyOf == keyOf && Contents() == Indexes(map[], [], map[])
    {
      this.keyOf, byName, ordered, bySource := keyOf, map[], [], map[];
    }

    function Contents(): Indexes
      reads this
    {
      Indexes(byName, ordered, bySource)
    }

    ghost predicate Valid()
      reads this
    {
      Consistent(keyOf, Contents())
    }

    /** Lookup: a name resolves exactly to the listed descriptor that owns its key. */
    method Lookup(name: Name) returns (found: Option<Descriptor>)
      requires Valid()
      ensures found.Some? ==> found.value in ordered && keyOf(name).Some? && keyOf(name).value in KeysOf(keyOf, found.value)
      ensures found.None? && keyOf(name).Some? ==> forall d | d in ordered :: keyOf(name).value !in KeysOf(keyOf, d)
    {
      var key := keyOf(name);
      found := if key.Some? && key.value in byName then Some(byName[key.value]) else None;
      if found.None? && key.Some? {
        forall d | d in ordered ensures key.value !in KeysOf(keyOf, d) {
          var i :| 0 <= i < |ordered| && ordered[i] == d;
        }
      }
    }

    /** register: a descriptor is added under all its names, or not at all. */
    method Register(source: Source, descriptor: Descriptor) returns (ok: bool)
      requires Valid()
      modifies this
      ensures Valid()
      ensures var d := descriptor.(source := source);
        && (ok <==> d.wellFormed && HasKeys(keyOf, d) && KeysOf(keyOf, d) !! old(byName).Keys)
        && Contents() == if ok then Added(keyOf, old(Contents()), d) else old(Contents())
    {
      var d := descriptor.(source := source);
      if !d.wellFormed {
        return false;
      }
      ok := NamesAreFree(d);
      if ok {
        AddOwned(keyOf, Contents(), d);
        AddKnown(keyOf, Contents(), d);
        AddGrouped(keyOf, Contents(), d);
        AddNames(d);
        ordered := ordered + [d];
        bySource := bySource[d.source := (if d.source in bySource then bySource[d.source] else []) + [d.id]];
      }
    }

    /** The first loop of register. */
    method NamesAreFree(d: Descriptor) returns (free: bool)
      ensures free <==> HasKeys(keyOf, d) && KeysOf(keyOf, d) !! byName.Keys
    {
      var names := Names(d);
      for i := 0 to |names|
        invariant forall j | 0 <= j < i :: keyOf(names[j]).Some?
        invariant FirstKeys(keyOf, d, i) !! byName.Keys
      {
        FirstKeysNext(keyOf, d, i);
        assert names[i] in names;
        var key := keyOf(names[i]);
        if key.None? {
          return false;
        }
        if key.value in byName {
          assert key.value in KeysOf(keyOf, d);
          return false;
        }
      }
      AllFirstKeys(keyOf, d);
      return true;
    }

    /** The second loop of register. */
    method AddNames(d: Descriptor)
      requires HasKeys(keyOf, d)
      modifies this`byName
      ensures byName == Granted(old(byName), KeysOf(keyOf, d), d)
    {
      var names := Names(d);
      for i := 0 to |names|
        invariant byName == Granted(old(byName), FirstKeys(keyOf, d, i), d)
      {
        FirstKeysNext(keyOf, d, i);
        assert names[i] in names;
        GrantOne(old(byName), FirstKeys(keyOf, d, i), keyOf(names[i]).value, d);
        byName := byName[keyOf(names[i]).value := d];
      }
      AllFirstKeys(keyOf, d);
    }

    /** UnregisterSource: everything of the source goes from all three indexes, and nothing else. */
    method UnregisterSource(source: Source) returns (ok: bool)
      requires Valid()
      modifies this
      ensures Valid()
      ensures ok <==> source != BlankSource
      ensures Contents() == if ok then Removed(old(Contents()), source) else old(Contents())
    {
      if source == BlankSource {
        return false;
      }
      if source !in bySource {
        NothingToRemove(keyOf, Contents(), source);
        return true;
      }
      RemoveOwned(keyOf, Contents(), source);
      RemoveGrouped(Contents(), source);
      ordered := Sweep(source);
      bySource := bySource - {source};
      return true;
    }

    /** The loop over the listed descriptors. */
    method Sweep(source: Source) returns (kept: seq<Descriptor>)
      requires Valid()
      modifies this`byName
      ensures kept == Without(ordered, source) && byName == Removed(old(Contents()), source).byName
    {
      kept := [];
      ghost var names := byName;
      for i := 0 to |ordered|
        invariant kept == Without(ordered[..i], source)
        invariant byName == names - Gone(keyOf, ordered[..i], source)
      {
        SweepNext(keyOf, ordered, i, source);
        var one := SweepOne(ordered[i], source);
        kept := kept + one;
        MinusBoth(names, Gone(keyOf, ordered[..i], source), if ordered[i].source == source then KeysOf(keyOf, ordered[i]) else {});
      }
      assert ordered[..|ordered|] == ordered;
      GoneIsOwned(keyOf, old(Contents()), source);
    }

    method SweepOne(d: Descriptor, source: Source) returns (kept: seq<Descriptor>)
      modifies this`byName
      ensures kept == if d.source != source then [d] else []
      ensures byName == old(byName) - if d.source == source then KeysOf(keyOf, d) else {}
    {
      kept := [];
      if d.source != source {
        kept := [d];
        assert byName - {} == byName;
      } else {
        DeleteNames(d);
      }
    }

    method DeleteNames(d: Descriptor)
      modifies this`byName
      ensures byName == old(byName) - KeysOf(keyOf, d)
    {
      var names := Names(d);
      for i := 0 to |names|
        invariant byName == old(byName) - FirstKeys(keyOf, d, i)
      {
        FirstKeysNext(keyOf, d, i);
        if keyOf(names[i]).Some? {
          byName := byName - {keyOf(names[i]).value};
        }
      }
      AllFirstKeys(keyOf, d);
    }

    /** RegisterFrom: the commands of a plugin, up to the first one that is refused.  Whatever happens, no existing name
        changes its owner, and every new one belongs to the plugin and is for administrators only. */
    method RegisterFrom(source: Source, descriptors: seq<Descriptor>) returns (ok: bool, ghost added: seq<Descriptor>)
      requires Valid()
      modifies this
      ensures Valid() && Extends(old(Contents()), Contents(), source, added)
      ensures |added| <= |descriptors| && (ok ==> source.PluginSource? && |added| == |descriptors|)
      ensures forall i | 0 <= i < |added| :: added[i] == descriptors[i].(source := source, permission := GlobalAdmin)
    {
      added, ok := [], false;
      if !source.PluginSource? {
        return;
      }
      for i := 0 to |descriptors|
        invariant Valid() && Extends(old(Contents()), Contents(), source, added) && |added| == i
        invariant forall j | 0 <= j < i :: added[j] == descriptors[j].(source := source, permission := GlobalAdmin)
      {
        var d := descriptors[i].(permission := GlobalAdmin);
        ghost var before := Contents();
        ok := Register(source, d);
        if !ok {
          return;
        }
        ExtendsNext(keyOf, old(Contents()), before, source, added, d.(source := source));
        added := added + [d.(source := source)];
      }
      ok := true;
    }

    /** A plugin leaves no trace: for a source without commands, registering any commands, whether that succeeds or fails
        midway, and then unregistering the source restores all three indexes exactly. */
    method RegisterThenUnregister(source: Source, descriptors: seq<Descriptor>)
      requires Valid() && source !in bySource && source != BlankSource
      modifies this
      ensures Valid() && Contents() == old(Contents())
    {
      var ok;
      ghost var added;
      ok, added := RegisterFrom(source, descriptors);
      RemoveUndoes(keyOf, old(Contents()), Contents(), source, added);
      ok := UnregisterSource(source);
    }
  }
}
