/** internal/agent/tool_registry.go: the catalogue of tools with its name index, and the selection of tools for one model
    request within a schema budget. */
module ToolRegistry {
  import opened Ordering
  import opened Wrappers

  datatype Source = Builtin | Workspace | Memory | OtherSource(id: nat)

  /** A normalised descriptor; `tokens` is the estimate of its schema. */
  datatype Descriptor = Descriptor(id: Name, version: Name, modelName: Name, source: Source, schemaDigest: Name, ready: bool,
    phases: set<Name>, tokens: nat)

  /** The catalogue key, the identifier and the version. */
  datatype Key = Key(id: Name, version: Name)

  function KeyOf(d: Descriptor): Key {
    Key(d.id, d.version)
  }

  // ----- The catalogue -----

  class Registry {
    var entries: map<Key, Descriptor>
    var byName: map<Name, Key>

    constructor ()
      ensures Valid() && Exact() && entries == map[]
    {
      entries, byName := map[], map[];
    }

    /** Every entry is found under its name, and every name leads to an entry. */
    ghost predicate Valid()
      reads this
    {
      && (forall k | k in entries :: KeyOf(entries[k]) == k && entries[k].modelName in byName && byName[entries[k].modelName] == k)
      && (forall n | n in byName :: byName[n] in entries)
    }

    /** The name index holds no names but those of the entries. */
    ghost predicate Exact()
      reads this
    {
      forall n | n in byName :: byName[n] in entries && entries[byName[n]].modelName == n
    }

    predicate Conflicts(d: Descriptor)
      reads this
    {
      || (d.modelName in byName && byName[d.modelName] != KeyOf(d))
      || (KeyOf(d) in entries && entries[KeyOf(d)].schemaDigest != d.schemaDigest)
      || (KeyOf(d) in entries && entries[KeyOf(d)].source == Builtin && d.source != Builtin)
    }

    predicate Renames(d: Descriptor)
      reads this
    {
      KeyOf(d) in entries && entries[KeyOf(d)].modelName != d.modelName
    }

    /** Register.  No two entries ever share a name.  The index stays exact unless an entry is registered again under a
        new name: then, and only then, the old name stays behind. */
    method Register(d: Descriptor) returns (ok: bool)
      requires Valid()
      modifies this
      ensures Valid()
      ensures ok <==> !old(Conflicts(d))
      ensures entries == if ok then old(entries)[KeyOf(d) := d] else old(entries)
      ensures ok ==> byName == old(byName)[d.modelName := KeyOf(d)]
      ensures !ok ==> byName == old(byName)
      ensures forall n | n in old(byName) :: n in byName && byName[n] == old(byName[n])
      ensures old(Exact()) && ok ==> (Exact() <==> !old(Renames(d)))
    {
      var key := KeyOf(d);
      if d.modelName in byName && byName[d.modelName] != key {
        return false;
      }
      if key in entries {
        if entries[key].schemaDigest != d.schemaDigest {
          return false;
        }
        if entries[key].source == Builtin && d.source != Builtin {
          return false;
        }
      }
      ghost var before := entries;
      entries := entries[key := d];
      byName := byName[d.modelName := key];
      if key in before && before[key].modelName != d.modelName {
        assert byName[before[key].modelName] == key && entries[key].modelName != before[key].modelName;
      }
      return true;
    }

    /** A series of registrations, of which some may be refused: no name changes hands, and no entry changes but by a
        registration of its own key. */
    method RegisterAll(ds: seq<Descriptor>)
      requires Valid()
      modifies this
      ensures Valid()
      ensures forall n | n in old(byName) :: n in byName && byName[n] == old(byName[n])
      ensures forall k | k in old(entries) && (forall i | 0 <= i < |ds| :: KeyOf(ds[i]) != k) ::
        k in entries && entries[k] == old(entries[k])
    {
      for i := 0 to |ds|
        invariant Valid()
        invariant forall n | n in old(byName) :: n in byName && byName[n] == old(byName[n])
        invariant forall k | k in old(entries) && (forall j | 0 <= j < |ds| :: KeyOf(ds[j]) != k) ::
          k in entries && entries[k] == old(entries[k])
      {
        var _ := Register(ds[i]);
      }
    }

    /** Registering a tool and then again under another name, followed by any registrations at all.  Both are accepted
        exactly when neither name belongs to another tool and nothing speaks against the first one.  The old name is
        then held by no entry, and yet stays out of reach of every other tool, for good. */
    method Rename(d: Descriptor, n: Name, later: seq<Descriptor>) returns (ok: bool)
      requires Valid() && n != d.modelName
      modifies this
      ensures Valid()
      ensures ok <==> !old(Conflicts(d)) && !(n in old(byName) && old(byName[n]) != KeyOf(d))
      ensures ok ==> forall e: Descriptor | KeyOf(e) != KeyOf(d) && e.modelName == d.modelName :: Conflicts(e)
      ensures ok && (forall i | 0 <= i < |later| :: KeyOf(later[i]) != KeyOf(d)) ==>
        !Exact() && forall k | k in entries :: entries[k].modelName != d.modelName
    {
      ok := RegisterTwice(d, n);
      RegisterAll(later);
      if ok && forall i | 0 <= i < |later| :: KeyOf(later[i]) != KeyOf(d) {
        NobodyCarries(d, n);
      }
    }

    method RegisterTwice(d: Descriptor, n: Name) returns (ok: bool)
      requires Valid() && n != d.modelName
      modifies this
      ensures Valid()
      ensures ok <==> !old(Conflicts(d)) && !(n in old(byName) && old(byName[n]) != KeyOf(d))
      ensures ok ==> Holds(d, n)
    {
      ok := Register(d);
      if ok {
        assert entries[KeyOf(d)] == d;
        ok := Register(d.(modelName := n));
      }
    }

    /** The first name belongs to the tool, whose entry carries the second one. */
    ghost predicate Holds(d: Descriptor, n: Name)
      reads this
    {
      d.modelName in byName && byName[d.modelName] == KeyOf(d) && KeyOf(d) in entries && entries[KeyOf(d)].modelName == n
    }

    lemma NobodyCarries(d: Descriptor, n: Name)
      requires Valid() && n != d.modelName && Holds(d, n)
      ensures !Exact() && forall k | k in entries :: entries[k].modelName != d.modelName
    {
    }
  }

  // ----- Selection -----

  datatype Request = Request(allowed: set<Name>, denied: set<Name>, required: set<Name>, phase: Option<Name>,
    maxSchemaTokens: nat, scores: Descriptor -> int, policyDenies: Descriptor -> bool, compatible: Descriptor -> bool)

  datatype Reason = SourceUnhealthy | PolicyDenied | PhaseIrrelevant | ModelUnsupported | OverSchemaBudget | RequiredOverSchemaBudget

  datatype Exclusion = Exclusion(tool: Descriptor, reason: Reason)

  datatype Selection = Selection(included: seq<Descriptor>, excluded: seq<Exclusion>, missingRequired: seq<Name>, schemaTokens: nat)

  predicate ContainsTool(values: set<Name>, d: Descriptor) {
    d.id in values || d.modelName in values
  }

  /** Why a tool is out before the budget is looked at. */
  function Refusal(request: Request, d: Descriptor): Option<Reason> {
    if !d.ready then Some(SourceUnhealthy)
    else if request.allowed != {} && !ContainsTool(request.allowed, d) then Some(PolicyDenied)
    else if ContainsTool(request.denied, d) then Some(PolicyDenied)
    else if d.phases != {} && request.phase.Some? && request.phase.value !in d.phases then Some(PhaseIrrelevant)
    else if request.policyDenies(d) then Some(PolicyDenied)
    else if !request.compatible(d) then Some(ModelUnsupported)
    else None
  }

  /** The lists of the request let the tool through, by its identifier or by its name. */
  ghost predicate IsListed(request: Request, d: Descriptor) {
    && (request.allowed == {} || d.id in request.allowed || d.modelName in request.allowed)
    && d.id !in request.denied && d.modelName !in request.denied
  }

  /** A tool without phases suits every phase, and a request without a phase every tool. */
  ghost predicate SuitsPhase(request: Request, d: Descriptor) {
    d.phases == {} || request.phase.None? || request.phase.value in d.phases
  }

  /** Nothing speaks against the tool. */
  ghost predicate IsEligible(request: Request, d: Descriptor) {
    d.ready && IsListed(request, d) && SuitsPhase(request, d) && !request.policyDenies(d) && request.compatible(d)
  }

  /** The reason names the first thing that speaks against the tool, in the order of these conditions. */
  ghost predicate IsFirstReason(request: Request, d: Descriptor, reason: Reason) {
    if !d.ready then reason == SourceUnhealthy
    else if !IsListed(request, d) then reason == PolicyDenied
    else if !SuitsPhase(request, d) then reason == PhaseIrrelevant
    else if request.policyDenies(d) then reason == PolicyDenied
    else !request.compatible(d) && reason == ModelUnsupported
  }

  lemma RefusalIsFirstReason(request: Request, d: Descriptor)
    ensures Refusal(request, d).None? <==> IsEligible(request, d)
    ensures Refusal(request, d).Some? ==> IsFirstReason(request, d, Refusal(request, d).value)
  {
  }

  predicate IsRequired(request: Request, d: Descriptor) {
    ContainsTool(request.required, d)
  }

  ghost predicate Requires(request: Request, d: Descriptor) {
    d.id in request.required || d.modelName in request.required
  }

  function SourcePriority(source: Source): nat {
    match source
    case Builtin => 0
    case Workspace => 1
    case Memory => 2
    case OtherSource(_) => 3
  }

  /** What the comparison looks at first: required tools before others, then the better score. */
  predicate Outranks(request: Request, a: Descriptor, b: Descriptor) {
    if IsRequired(request, a) != IsRequired(request, b) then IsRequired(request, a) else request.scores(a) > request.scores(b)
  }

  /** The comparison that candidates are sorted by. */
  predicate Precedes(request: Request, a: Descriptor, b: Descriptor) {
    if IsRequired(request, a) != IsRequired(request, b) then IsRequired(request, a)
    else if request.scores(a) != request.scores(b) then request.scores(a) > request.scores(b)
    else if a.source != b.source then SourcePriority(a.source) < SourcePriority(b.source)
    else Less(a.id.text, b.id.text)
  }

  function Rank(request: Request): (Descriptor, Descriptor) -> bool {
    (a, b) => Outranks(request, a, b)
  }

  function Before(request: Request): (Descriptor, Descriptor) -> bool {
    (a, b) => Precedes(request, a, b)
  }

  lemma RankIsWeak(request: Request, domain: set<Descriptor>)
    ensures WeakOrder(Rank(request), domain) && Refines(Before(request), Rank(request), domain)
  {
  }

  /** Two tools of sources without a priority of their own, alike in everything that is compared before. */
  predicate Tied(request: Request, a: Descriptor, b: Descriptor) {
    && IsRequired(request, a) == IsRequired(request, b) && request.scores(a) == request.scores(b)
    && a.source.OtherSource? && b.source.OtherSource?
  }

  /** Wherever tools of two such sources are tied, each source is there with a single identifier. */
  ghost predicate TiesAreSimple(request: Request, domain: set<Descriptor>) {
    forall a, b, c | a in domain && b in domain && c in domain && Tied(request, a, b) && Tied(request, a, c) ::
      a.source == c.source != b.source ==> a.id == c.id
  }

  lemma IdsAreOrdered(a: Name, b: Name)
    requires a != b
    ensures Less(a.text, b.text) || Less(b.text, a.text)
  {
    assert a == Name(a.text) && b == Name(b.text);
    LessIsTotal(a.text, b.text);
  }

  lemma LevelIsTransitive(request: Request, a: Descriptor, b: Descriptor, c: Descriptor)
    requires !Precedes(request, a, b) && !Precedes(request, b, c)
    requires Tied(request, a, b) && Tied(request, a, c) && a.source == c.source != b.source ==> a.id == c.id
    ensures !Precedes(request, a, c)
  {
    LessIsWeak(a.id.text, b.id.text, c.id.text);
    LessIsStrict(a.id.text);
  }

  /** The comparison is a sorting order on a list of candidates if and only if no tie between two foreign sources involves
      two tools of one of them: these two are ordered by their identifiers, but both are level with the third. */
  lemma WeakOrderIffTiesAreSimple(request: Request, domain: set<Descriptor>)
    ensures WeakOrder(Before(request), domain) <==> TiesAreSimple(request, domain)
  {
    if TiesAreSimple(request, domain) {
      forall a, b, c | a in domain && b in domain && c in domain && !Before(request)(a, b) && !Before(request)(b, c)
        ensures !Before(request)(a, c)
      {
        LevelIsTransitive(request, a, b, c);
      }
      forall a, b | a in domain && b in domain && Before(request)(a, b) ensures !Before(request)(b, a) {
        LessIsWeak(a.id.text, b.id.text, a.id.text);
      }
    } else {
      var a, b, c :| a in domain && b in domain && c in domain && Tied(request, a, b) && Tied(request, a, c)
        && a.source == c.source != b.source && a.id != c.id;
      TieBreaksOrder(request, domain, a, b, c);
    }
  }

  lemma TieBreaksOrder(request: Request, domain: set<Descriptor>, a: Descriptor, b: Descriptor, c: Descriptor)
    requires a in domain && b in domain && c in domain && Tied(request, a, b) && Tied(request, a, c)
    requires a.source == c.source != b.source && a.id != c.id
    ensures !WeakOrder(Before(request), domain)
  {
    var before := Before(request);
    IdsAreOrdered(a.id, c.id);
    assert !before(a, b) && !before(b, a) && !before(b, c) && !before(c, b);
    assert before(a, c) || before(c, a);
  }

  function Example(id: string, source: Source): Descriptor {
    Descriptor(Name(id), Name("1"), Name(id), source, Name(""), true, {}, 1)
  }

  function EvenRequest(): Request {
    Request({}, {}, {}, None, 0, _ => 0, _ => false, _ => true)
  }

  /** Three tools of two foreign sources, registered in one version each, are enough. */
  lemma LevelIsNotTransitive()
    ensures var a, b, c, request := Example("a", OtherSource(0)), Example("b", OtherSource(1)), Example("c", OtherSource(0)), EvenRequest();
      !WeakOrder(Before(request), {a, b, c})
  {
    var a, b, c, request := Example("a", OtherSource(0)), Example("b", OtherSource(1)), Example("c", OtherSource(0)), EvenRequest();
    assert "a"[0] != "c"[0];
    assert Tied(request, a, b) && Tied(request, a, c) && a.id != c.id;
    WeakOrderIffTiesAreSimple(request, {a, b, c});
  }

  /** All that the budget relies on: required tools come first. */
  predicate RequiredFirst(request: Request, ordered: seq<Descriptor>) {
    forall i, j | 0 <= i < j < |ordered| && IsRequired(request, ordered[j]) :: IsRequired(request, ordered[i])
  }

  function SumTokens(tools: seq<Descriptor>): nat {
    if tools == [] then 0 else SumTokens(tools[..|tools| - 1]) + tools[|tools| - 1].tokens
  }

  function Tools(exclusions: seq<Exclusion>): seq<Descriptor> {
    seq(|exclusions|, i requires 0 <= i < |exclusions| => exclusions[i].tool)
  }

  lemma ToolsAppend(exclusions: seq<Exclusion>, e: Exclusion)
    ensures Tools(exclusions + [e]) == Tools(exclusions) + [e.tool]
  {
  }

  /** Every tool looked at so far is included or excluded, once; and what is missing are the excluded tools that are
      required. */
  ghost predicate Splits(request: Request, s: Selection, seen: multiset<Descriptor>) {
    && multiset(s.included) + multiset(Tools(s.excluded)) == seen
    && s.schemaTokens == SumTokens(s.included)
    && s.missingRequired == RequiredIds(request, Tools(s.excluded))
  }

  /** The identifiers of the required tools of a list. */
  function RequiredIds(request: Request, tools: seq<Descriptor>): seq<Name> {
    if tools == [] then []
    else RequiredIds(request, tools[..|tools| - 1]) + if IsRequired(request, tools[|tools| - 1]) then [tools[|tools| - 1].id] else []
  }

  lemma {:induction false} RequiredIdsAre(request: Request, tools: seq<Descriptor>, name: Name)
    ensures name in RequiredIds(request, tools) <==> exists i :: 0 <= i < |tools| && Requires(request, tools[i]) && tools[i].id == name
  {
    if tools != [] {
      var last := |tools| - 1;
      RequiredIdsAre(request, tools[..last], name);
      assert forall i | 0 <= i < last :: tools[..last][i] == tools[i];
    }
  }

  /** A required name is missing if and only if a required tool of that identifier is among the excluded ones. */
  lemma MissingAreRequired(request: Request, s: Selection)
    requires s.missingRequired == RequiredIds(request, Tools(s.excluded))
    ensures forall name :: name in s.missingRequired <==> exists i :: 0 <= i < |s.excluded| && Misses(request, s.excluded[i], name)
    ensures s.missingRequired == [] <==> forall i | 0 <= i < |s.excluded| :: !Requires(request, s.excluded[i].tool)
  {
    var tools := Tools(s.excluded);
    assert |tools| == |s.excluded| && forall i | 0 <= i < |tools| :: tools[i] == s.excluded[i].tool;
    forall name ensures name in s.missingRequired <==> exists i :: 0 <= i < |s.excluded| && Misses(request, s.excluded[i], name) {
      RequiredIdsAre(request, tools, name);
      if i :| 0 <= i < |tools| && Requires(request, tools[i]) && tools[i].id == name {
        assert Misses(request, s.excluded[i], name);
      }
    }
    if i :| 0 <= i < |s.excluded| && Requires(request, s.excluded[i].tool) {
      assert Misses(request, s.excluded[i], s.excluded[i].tool.id);
      assert s.excluded[i].tool.id in s.missingRequired;
    }
    if s.missingRequired != [] {
      assert s.missingRequired[0] in s.missingRequired;
    }
  }

  ghost predicate Misses(request: Request, e: Exclusion, name: Name) {
    Requires(request, e.tool) && e.tool.id == name
  }

  /** The tools that were refused, and for what reason. */
  ghost predicate Refused(request: Request, s: Selection) {
    forall i | 0 <= i < |s.excluded| :: Refusal(request, s.excluded[i].tool) == Some(s.excluded[i].reason)
  }

  function Exclude(request: Request, s: Selection, d: Descriptor, reason: Reason): Selection {
    s.(excluded := s.excluded + [Exclusion(d, reason)],
       missingRequired := if IsRequired(request, d) then s.missingRequired + [d.id] else s.missingRequired)
  }

  function Include(s: Selection, d: Descriptor): Selection {
    s.(included := s.included + [d], schemaTokens := s.schemaTokens + d.tokens)
  }

  lemma ExcludeSplits(request: Request, s: Selection, d: Descriptor, reason: Reason, seen: multiset<Descriptor>)
    requires Splits(request, s, seen)
    ensures Splits(request, Exclude(request, s, d, reason), seen + multiset{d})
  {
    ToolsAppend(s.excluded, Exclusion(d, reason));
    assert (Tools(s.excluded) + [d])[..|s.excluded|] == Tools(s.excluded);
  }

  lemma IncludeSplits(request: Request, s: Selection, d: Descriptor, seen: multiset<Descriptor>)
    requires Splits(request, s, seen)
    ensures Splits(request, Include(s, d), seen + multiset{d})
  {
    assert (s.included + [d])[..|s.included|] == s.included;
  }

  function RequiredSum(request: Request, tools: seq<Descriptor>): nat {
    if tools == [] then 0
    else RequiredSum(request, tools[..|tools| - 1]) + if IsRequired(request, tools[|tools| - 1]) then tools[|tools| - 1].tokens else 0
  }

  /** What the required tools that nothing speaks against would take together. */
  function EligibleSum(request: Request, tools: seq<Descriptor>): nat {
    if tools == [] then 0 else
    var last := tools[|tools| - 1];
    EligibleSum(request, tools[..|tools| - 1]) + if Refusal(request, last).None? && IsRequired(request, last) then last.tokens else 0
  }

  /** The first loop of Select: tools that are refused whatever the budget. */
  method Filter(request: Request, items: seq<Descriptor>)
    returns (s: Selection, candidates: seq<Descriptor>, ghost refused: multiset<Descriptor>)
    ensures Splits(request, s, refused) && refused + multiset(candidates) == multiset(items)
    ensures s.included == [] && s.schemaTokens == 0 && Refused(request, s)
    ensures AllEligible(request, candidates)
    ensures RequiredSum(request, candidates) == EligibleSum(request, items)
  {
    s, candidates, refused := Selection([], [], [], 0), [], multiset{};
    for i := 0 to |items|
      invariant Filtered(request, s, candidates, refused) && refused + multiset(candidates) == multiset(items[..i])
      invariant RequiredSum(request, candidates) == EligibleSum(request, items[..i])
    {
      SumNext(items, i);
      EligibleNext(request, items, i);
      s, candidates, refused := FilterOne(request, s, candidates, items[i], refused);
    }
    assert items[..|items|] == items;
  }

  /** What the first loop keeps. */
  ghost predicate Filtered(request: Request, s: Selection, candidates: seq<Descriptor>, refused: multiset<Descriptor>) {
    Splits(request, s, refused) && s.included == [] && s.schemaTokens == 0 && Refused(request, s) && AllEligible(request, candidates)
  }

  method FilterOne(request: Request, s: Selection, candidates: seq<Descriptor>, d: Descriptor, ghost refused: multiset<Descriptor>)
    returns (t: Selection, more: seq<Descriptor>, ghost out: multiset<Descriptor>)
    requires Filtered(request, s, candidates, refused)
    ensures Filtered(request, t, more, out) && out + multiset(more) == refused + multiset(candidates) + multiset{d}
    ensures RequiredSum(request, more)
      == RequiredSum(request, candidates) + if Refusal(request, d).None? && IsRequired(request, d) then d.tokens else 0
  {
    t, more, out := s, candidates, refused;
    var reason := Refusal(request, d);
    if reason.Some? {
      ExcludeSplits(request, s, d, reason.value, refused);
      RefusedNext(request, s, d);
      t := Exclude(request, s, d, reason.value);
      out := refused + multiset{d};
    } else {
      RequiredAppend(request, candidates, d);
      EligibleAppend(request, candidates, d);
      more := candidates + [d];
    }
  }

  lemma EligibleNext(request: Request, tools: seq<Descriptor>, i: nat)
    requires i < |tools|
    ensures EligibleSum(request, tools[..i + 1]) == EligibleSum(request, tools[..i])
      + if Refusal(request, tools[i]).None? && IsRequired(request, tools[i]) then tools[i].tokens else 0
  {
    assert tools[..i + 1][..i] == tools[..i];
  }

  lemma RequiredAppend(request: Request, tools: seq<Descriptor>, d: Descriptor)
    ensures RequiredSum(request, tools + [d]) == RequiredSum(request, tools) + if IsRequired(request, d) then d.tokens else 0
  {
    assert (tools + [d])[..|tools|] == tools;
  }

  predicate AllEligible(request: Request, tools: seq<Descriptor>) {
    forall i | 0 <= i < |tools| :: Refusal(request, tools[i]).None?
  }

  lemma EligibleReordered(request: Request, tools: seq<Descriptor>, ordered: seq<Descriptor>)
    requires AllEligible(request, tools) && Elements(tools) == Elements(ordered)
    ensures AllEligible(request, ordered)
  {
    forall i | 0 <= i < |ordered| ensures Refusal(request, ordered[i]).None? {
      assert ordered[i] in Elements(ordered) && ordered[i] in Elements(tools);
    }
  }

  lemma EligibleAppend(request: Request, tools: seq<Descriptor>, d: Descriptor)
    requires AllEligible(request, tools) && Refusal(request, d).None?
    ensures AllEligible(request, tools + [d])
  {
  }

  lemma RefusedNext(request: Request, s: Selection, d: Descriptor)
    requires Refused(request, s) && Refusal(request, d).Some?
    ensures Refused(request, Exclude(request, s, d, Refusal(request, d).value))
  {
  }

  /** The sort.  Whatever it makes of the ties, the candidates end up by requiredness and score; and by the whole comparison
      when its ties are simple. */
  method SortCandidates(request: Request, candidates: seq<Descriptor>) returns (ordered: seq<Descriptor>)
    ensures multiset(ordered) == multiset(candidates)
    ensures InOrder(ordered, Rank(request)) && RequiredFirst(request, ordered)
    ensures TiesAreSimple(request, Elements(candidates)) ==> InOrder(ordered, Before(request))
  {
    ghost var domain := Elements(candidates);
    ordered := StableSort(candidates, Before(request));
    RankIsWeak(request, domain);
    StableSortOrders(candidates, Before(request), Rank(request), domain);
    RankedIsRequiredFirst(request, ordered);
    WeakOrderIffTiesAreSimple(request, domain);
    if TiesAreSimple(request, domain) {
      StableSortOrders(candidates, Before(request), Before(request), domain);
    }
  }

  lemma RankedIsRequiredFirst(request: Request, ordered: seq<Descriptor>)
    requires InOrder(ordered, Rank(request))
    ensures RequiredFirst(request, ordered)
  {
    forall i, j | 0 <= i < j < |ordered| && IsRequired(request, ordered[j]) ensures IsRequired(request, ordered[i]) {
      assert !Rank(request)(ordered[j], ordered[i]);
    }
  }

  // ----- The budget -----

  lemma {:induction false} RequiredSumRemove(request: Request, tools: seq<Descriptor>, i: nat)
    requires i < |tools|
    ensures RequiredSum(request, tools)
      == RequiredSum(request, tools[..i] + tools[i + 1..]) + if IsRequired(request, tools[i]) then tools[i].tokens else 0
  {
    var n := |tools| - 1;
    var rest := tools[..i] + tools[i + 1..];
    if i == n {
      assert rest == tools[..n];
    } else {
      RequiredSumRemove(request, tools[..n], i);
      assert rest[..|rest| - 1] == tools[..n][..i] + tools[..n][i + 1..];
    }
  }

  lemma TakeOut(front: seq<Descriptor>, last: Descriptor, t: seq<Descriptor>) returns (i: nat)
    requires multiset(front + [last]) == multiset(t)
    ensures i < |t| && t[i] == last && multiset(front) == multiset(t[..i] + t[i + 1..])
  {
    assert last in multiset(t);
    i :| 0 <= i < |t| && t[i] == last;
    assert t == t[..i] + [t[i]] + t[i + 1..];
    var other := t[..i] + t[i + 1..];
    assert multiset(other + [last]) == multiset(t);
    FrontsAgree(front, other, last);
  }

  lemma {:induction false} RequiredSumOfReordering(request: Request, s: seq<Descriptor>, t: seq<Descriptor>)
    requires multiset(s) == multiset(t)
    ensures RequiredSum(request, s) == RequiredSum(request, t)
  {
    if s == [] {
      SameElements(s, t);
      assert t == [];
    } else {
      var front, last := s[..|s| - 1], s[|s| - 1];
      assert s == front + [last];
      var i := TakeOut(front, last, t);
      RequiredSumOfReordering(request, front, t[..i] + t[i + 1..]);
      RequiredSumRemove(request, t, i);
    }
  }

  lemma {:induction false} RequiredSumGrows(request: Request, tools: seq<Descriptor>, k: nat)
    requires k <= |tools|
    ensures RequiredSum(request, tools[..k]) <= RequiredSum(request, tools)
  {
    if k == |tools| {
      assert tools[..k] == tools;
    } else {
      RequiredSumGrows(request, tools[..|tools| - 1], k);
      assert tools[..|tools| - 1][..k] == tools[..k];
    }
  }

  lemma {:induction false} AllRequiredSum(request: Request, tools: seq<Descriptor>)
    requires forall i | 0 <= i < |tools| :: IsRequired(request, tools[i])
    ensures RequiredSum(request, tools) == SumTokens(tools)
  {
    if tools != [] {
      AllRequiredSum(request, tools[..|tools| - 1]);
    }
  }

  /** Whether a tool was excluded for the budget. */
  predicate ForBudget(e: Exclusion) {
    e.reason == OverSchemaBudget || e.reason == RequiredOverSchemaBudget
  }

  /** The tokens of the tools that `d` does not outrank. */
  function SumAhead(request: Request, tools: seq<Descriptor>, d: Descriptor): nat {
    if tools == [] then 0 else
    var last := tools[|tools| - 1];
    SumAhead(request, tools[..|tools| - 1], d) + if Outranks(request, d, last) then 0 else last.tokens
  }

  lemma AheadAppend(request: Request, tools: seq<Descriptor>, last: Descriptor, d: Descriptor)
    ensures SumAhead(request, tools + [last], d) == SumAhead(request, tools, d) + if Outranks(request, d, last) then 0 else last.tokens
  {
    assert (tools + [last])[..|tools|] == tools;
  }

  /** A tool that outranks none of them has all of them ahead. */
  lemma {:induction false} AllAhead(request: Request, tools: seq<Descriptor>, d: Descriptor)
    requires forall i | 0 <= i < |tools| :: !Outranks(request, d, tools[i])
    ensures SumAhead(request, tools, d) == SumTokens(tools)
  {
    if tools != [] {
      AllAhead(request, tools[..|tools| - 1], d);
    }
  }

  lemma {:induction false} AheadIsPart(request: Request, tools: seq<Descriptor>, d: Descriptor)
    ensures SumAhead(request, tools, d) <= SumTokens(tools)
  {
    if tools != [] {
      AheadIsPart(request, tools[..|tools| - 1], d);
    }
  }

  /** What the budget has decided: nothing beyond it is included; a tool that is out for the budget does not fit on top of
      those included tools that it does not outrank, so that it never gave way to a tool of lower rank; and it is
      required exactly when its reason says so. */
  ghost predicate WithinBudget(request: Request, s: Selection) {
    && (request.maxSchemaTokens > 0 ==> s.schemaTokens <= request.maxSchemaTokens)
    && forall i | 0 <= i < |s.excluded| && ForBudget(s.excluded[i]) ::
         && 0 < request.maxSchemaTokens < SumAhead(request, s.included, s.excluded[i].tool) + s.excluded[i].tool.tokens
         && (s.excluded[i].reason == RequiredOverSchemaBudget <==> IsRequired(request, s.excluded[i].tool))
  }

  /** Tools refused before the budget, and included ones that nothing speaks against. */
  ghost predicate Justified(request: Request, s: Selection) {
    && (forall i | 0 <= i < |s.excluded| ::
          Refusal(request, s.excluded[i].tool) == if ForBudget(s.excluded[i]) then None else Some(s.excluded[i].reason))
    && (forall i | 0 <= i < |s.included| :: Refusal(request, s.included[i]).None?)
  }

  lemma OverBudgetKeeps(request: Request, s: Selection, d: Descriptor, reason: Reason)
    requires WithinBudget(request, s) && Justified(request, s)
    requires 0 < request.maxSchemaTokens < SumAhead(request, s.included, d) + d.tokens
    requires reason == if IsRequired(request, d) then RequiredOverSchemaBudget else OverSchemaBudget
    requires Refusal(request, d).None?
    ensures WithinBudget(request, Exclude(request, s, d, reason)) && Justified(request, Exclude(request, s, d, reason))
  {
  }

  lemma IncludeKeeps(request: Request, s: Selection, d: Descriptor)
    requires WithinBudget(request, s) && Justified(request, s) && Refusal(request, d).None?
    requires request.maxSchemaTokens > 0 ==> s.schemaTokens + d.tokens <= request.maxSchemaTokens
    ensures WithinBudget(request, Include(s, d)) && Justified(request, Include(s, d))
  {
    forall i | 0 <= i < |s.excluded|
      ensures SumAhead(request, s.included, s.excluded[i].tool) <= SumAhead(request, s.included + [d], s.excluded[i].tool)
    {
      AheadAppend(request, s.included, d, s.excluded[i].tool);
    }
  }

  /** No required tool is out for the budget. */
  ghost predicate RequiredFit(request: Request, s: Selection) {
    forall i | 0 <= i < |s.excluded| :: s.excluded[i].reason != RequiredOverSchemaBudget
  }

  /** The body of the second loop of Select. */
  method PackOne(request: Request, s: Selection, d: Descriptor, ghost seen: multiset<Descriptor>) returns (t: Selection)
    requires Splits(request, s, seen) && WithinBudget(request, s) && Justified(request, s) && Refusal(request, d).None?
    requires forall i | 0 <= i < |s.included| :: !Outranks(request, d, s.included[i])
    ensures t.included == s.included || t.included == s.included + [d]
    ensures Splits(request, t, seen + multiset{d}) && WithinBudget(request, t) && Justified(request, t)
    ensures t.schemaTokens <= s.schemaTokens + d.tokens
    ensures RequiredFit(request, s) && (IsRequired(request, d) ==> s.schemaTokens + d.tokens <= request.maxSchemaTokens) ==>
              RequiredFit(request, t)
  {
    if request.maxSchemaTokens > 0 && s.schemaTokens + d.tokens > request.maxSchemaTokens {
      var reason := if IsRequired(request, d) then RequiredOverSchemaBudget else OverSchemaBudget;
      ExcludeSplits(request, s, d, reason, seen);
      AllAhead(request, s.included, d);
      OverBudgetKeeps(request, s, d, reason);
      t := Exclude(request, s, d, reason);
    } else {
      IncludeSplits(request, s, d, seen);
      IncludeKeeps(request, s, d);
      t := Include(s, d);
    }
  }

  /** The included tools are in order, and none of the tools from i on precedes one of them. */
  ghost predicate Packed(included: seq<Descriptor>, ordered: seq<Descriptor>, i: nat, before: (Descriptor, Descriptor) -> bool) {
    InOrder(included, before) && forall k, j | 0 <= k < |included| && i <= j < |ordered| :: !before(ordered[j], included[k])
  }

  lemma PackedNext(before: (Descriptor, Descriptor) -> bool, included: seq<Descriptor>, more: seq<Descriptor>,
      ordered: seq<Descriptor>, i: nat)
    requires i < |ordered| && Packed(included, ordered, i, before) && InOrder(ordered, before)
    requires more == included || more == included + [ordered[i]]
    ensures Packed(more, ordered, i + 1, before)
  {
  }

  /** What the second loop of Select keeps. */
  ghost predicate PackedTo(request: Request, s: Selection, ordered: seq<Descriptor>, i: nat, seen: multiset<Descriptor>)
    requires i <= |ordered|
  {
    && Splits(request, s, seen + multiset(ordered[..i])) && WithinBudget(request, s) && Justified(request, s)
    && s.schemaTokens <= SumTokens(ordered[..i])
    && (RequiredSum(request, ordered) <= request.maxSchemaTokens ==> RequiredFit(request, s))
    && Packed(s.included, ordered, i, Rank(request))
    && (InOrder(ordered, Before(request)) ==> Packed(s.included, ordered, i, Before(request)))
  }

  method PackNext(request: Request, s: Selection, ordered: seq<Descriptor>, i: nat, ghost seen: multiset<Descriptor>) returns (t: Selection)
    requires RequiredFirst(request, ordered) && InOrder(ordered, Rank(request)) && AllEligible(request, ordered)
    requires i < |ordered| && PackedTo(request, s, ordered, i, seen)
    ensures PackedTo(request, t, ordered, i + 1, seen)
  {
    SumNext(ordered, i);
    RankedNext(request, s.included, ordered, i);
    if IsRequired(request, ordered[i]) {
      RequiredTooLarge(request, ordered, i);
    }
    t := PackOne(request, s, ordered[i], seen + multiset(ordered[..i]));
    assert seen + multiset(ordered[..i + 1]) == seen + multiset(ordered[..i]) + multiset{ordered[i]};
    PackedNext(Rank(request), s.included, t.included, ordered, i);
    if InOrder(ordered, Before(request)) {
      PackedNext(Before(request), s.included, t.included, ordered, i);
    }
  }

  /** The second loop of Select. */
  method Pack(request: Request, start: Selection, ordered: seq<Descriptor>, ghost seen: multiset<Descriptor>) returns (s: Selection)
    requires Splits(request, start, seen) && WithinBudget(request, start) && Justified(request, start) && RequiredFit(request, start)
    requires start.schemaTokens == 0 && start.included == [] && RequiredFirst(request, ordered) && InOrder(ordered, Rank(request))
    requires AllEligible(request, ordered)
    ensures PackedTo(request, s, ordered, |ordered|, seen)
  {
    s := start;
    assert seen + multiset(ordered[..0]) == seen;
    for i := 0 to |ordered|
      invariant PackedTo(request, s, ordered, i, seen)
    {
      s := PackNext(request, s, ordered, i, seen);
    }
  }

  lemma RankedNext(request: Request, included: seq<Descriptor>, ordered: seq<Descriptor>, i: nat)
    requires i < |ordered| && Packed(included, ordered, i, Rank(request))
    ensures forall k | 0 <= k < |included| :: !Outranks(request, ordered[i], included[k])
  {
    forall k | 0 <= k < |included| ensures !Outranks(request, ordered[i], included[k]) {
      assert !Rank(request)(ordered[i], included[k]);
    }
  }

  lemma SumNext(tools: seq<Descriptor>, i: nat)
    requires i < |tools|
    ensures SumTokens(tools[..i + 1]) == SumTokens(tools[..i]) + tools[i].tokens
    ensures multiset(tools[..i + 1]) == multiset(tools[..i]) + multiset{tools[i]}
  {
    assert tools[..i + 1] == tools[..i] + [tools[i]] && tools[..i + 1][..i] == tools[..i];
  }

  /** When a required tool comes up, all before it are required. */
  lemma RequiredTooLarge(request: Request, ordered: seq<Descriptor>, i: nat)
    requires i < |ordered| && RequiredFirst(request, ordered) && IsRequired(request, ordered[i])
    ensures SumTokens(ordered[..i]) + ordered[i].tokens <= RequiredSum(request, ordered)
  {
    RequiredSumGrows(request, ordered, i + 1);
    AllRequiredSum(request, ordered[..i + 1]);
    assert ordered[..i + 1][..i] == ordered[..i];
  }

  /** Whether some tool of the list goes by the name. */
  predicate Answered(name: Name, tools: seq<Descriptor>) {
    exists i | 0 <= i < |tools| :: tools[i].id == name || tools[i].modelName == name
  }

  /** What the request's own fields say of every tool: nothing speaks against an included tool, nor against one that is
      out for the budget, and every other one is out for the first thing that does. */
  ghost predicate Accounted(request: Request, s: Selection) {
    && (forall i | 0 <= i < |s.included| :: IsEligible(request, s.included[i]))
    && (forall i | 0 <= i < |s.excluded| ::
          if s.excluded[i].reason in {OverSchemaBudget, RequiredOverSchemaBudget} then IsEligible(request, s.excluded[i].tool)
          else IsFirstReason(request, s.excluded[i].tool, s.excluded[i].reason))
  }

  /** Required tools are in front, and the better scores among them and among the others. */
  ghost predicate BestFirst(request: Request, tools: seq<Descriptor>) {
    forall i, j | 0 <= i < j < |tools| ::
      && (Requires(request, tools[j]) ==> Requires(request, tools[i]))
      && ((Requires(request, tools[j]) <==> Requires(request, tools[i])) ==> request.scores(tools[i]) >= request.scores(tools[j]))
  }

  /** Tools alike in these are ordered by where they come from, and then by their identifiers. */
  ghost predicate SourcesInOrder(request: Request, tools: seq<Descriptor>) {
    forall i, j | 0 <= i < j < |tools|
                  && (Requires(request, tools[j]) <==> Requires(request, tools[i])) && request.scores(tools[i]) == request.scores(tools[j]) ::
      && (tools[j].source == Builtin ==> tools[i].source == Builtin)
      && (tools[j].source == Workspace ==> tools[i].source in {Builtin, Workspace})
      && (tools[j].source == Memory ==> tools[i].source in {Builtin, Workspace, Memory})
      && (tools[i].source == tools[j].source ==> !Less(tools[j].id.text, tools[i].id.text))
  }

  lemma RankMeansBestFirst(request: Request, tools: seq<Descriptor>)
    requires InOrder(tools, Rank(request))
    ensures BestFirst(request, tools)
    ensures InOrder(tools, Before(request)) ==> SourcesInOrder(request, tools)
  {
    forall i, j | 0 <= i < j < |tools|
      ensures !Outranks(request, tools[j], tools[i]) && (InOrder(tools, Before(request)) ==> !Precedes(request, tools[j], tools[i]))
    {
      assert !Rank(request)(tools[j], tools[i]);
      assert InOrder(tools, Before(request)) ==> !Before(request)(tools[j], tools[i]);
    }
  }

  lemma JustifiedIsAccounted(request: Request, s: Selection)
    requires Justified(request, s)
    ensures Accounted(request, s)
  {
    forall i | 0 <= i < |s.included| ensures IsEligible(request, s.included[i]) {
      RefusalIsFirstReason(request, s.included[i]);
    }
    forall i | 0 <= i < |s.excluded|
      ensures if s.excluded[i].reason in {OverSchemaBudget, RequiredOverSchemaBudget} then IsEligible(request, s.excluded[i].tool)
              else IsFirstReason(request, s.excluded[i].tool, s.excluded[i].reason)
    {
      RefusalIsFirstReason(request, s.excluded[i].tool);
    }
  }

  /** Select: every tool of the catalogue is included or excluded, once; what is included stays within the budget and
      nothing speaks against it; and the call succeeds exactly when no required tool is among the excluded ones.  Tools
      are packed by requiredness and score, so that none gives way to one of lower rank, and by the whole comparison when
      its ties are simple.  When the required tools that nothing speaks against fit the budget together, none of them is
      left out for it.  After a success a required name is answered by an included tool if and only if some tool of the
      catalogue goes by it: names that nobody goes by are not missed. */
  method Select(request: Request, items: seq<Descriptor>) returns (ok: bool, s: Selection)
    ensures Splits(request, s, multiset(items)) && WithinBudget(request, s) && Accounted(request, s)
    ensures ok <==> forall i | 0 <= i < |s.excluded| :: !Requires(request, s.excluded[i].tool)
    ensures forall name :: name in s.missingRequired <==> exists i :: 0 <= i < |s.excluded| && Misses(request, s.excluded[i], name)
    ensures EligibleSum(request, items) <= request.maxSchemaTokens ==> RequiredFit(request, s)
    ensures BestFirst(request, s.included)
    ensures TiesAreSimple(request, Elements(items)) ==> SourcesInOrder(request, s.included)
    ensures ok ==> forall name | name in request.required :: Answered(name, s.included) <==> Answered(name, items)
  {
    s := FilterAndPack(request, items);
    ok := s.missingRequired == [];
    SelectionIsLawful(request, items, s);
  }

  /** The two loops of Select with the sort between them. */
  method FilterAndPack(request: Request, items: seq<Descriptor>) returns (s: Selection)
    ensures Splits(request, s, multiset(items)) && WithinBudget(request, s) && Justified(request, s)
    ensures EligibleSum(request, items) <= request.maxSchemaTokens ==> RequiredFit(request, s)
    ensures InOrder(s.included, Rank(request))
    ensures TiesAreSimple(request, Elements(items)) ==> InOrder(s.included, Before(request))
  {
    var start, candidates;
    ghost var refused;
    start, candidates, refused := Filter(request, items);
    var ordered := SortCandidates(request, candidates);
    SameElements(ordered, candidates);
    RequiredSumOfReordering(request, ordered, candidates);
    EligibleReordered(request, candidates, ordered);
    NothingForBudget(request, start);
    s := Pack(request, start, ordered, refused);
    EverythingIsPacked(request, items, candidates, ordered, refused, s);
  }

  lemma SelectionIsLawful(request: Request, items: seq<Descriptor>, s: Selection)
    requires Splits(request, s, multiset(items)) && Justified(request, s) && InOrder(s.included, Rank(request))
    ensures Accounted(request, s) && BestFirst(request, s.included)
    ensures InOrder(s.included, Before(request)) ==> SourcesInOrder(request, s.included)
    ensures s.missingRequired == [] <==> forall i | 0 <= i < |s.excluded| :: !Requires(request, s.excluded[i].tool)
    ensures forall name :: name in s.missingRequired <==> exists i :: 0 <= i < |s.excluded| && Misses(request, s.excluded[i], name)
    ensures s.missingRequired == [] ==> forall name | name in request.required :: Answered(name, s.included) <==> Answered(name, items)
  {
    JustifiedIsAccounted(request, s);
    MissingAreRequired(request, s);
    RankMeansBestFirst(request, s.included);
    if s.missingRequired == [] {
      RequiredNamesAreAnswered(request, items, s);
    }
  }

  lemma EverythingIsPacked(request: Request, items: seq<Descriptor>, candidates: seq<Descriptor>, ordered: seq<Descriptor>,
      refused: multiset<Descriptor>, s: Selection)
    requires PackedTo(request, s, ordered, |ordered|, refused)
    requires multiset(ordered) == multiset(candidates) && refused + multiset(candidates) == multiset(items)
    requires TiesAreSimple(request, Elements(candidates)) ==> InOrder(ordered, Before(request))
    ensures Splits(request, s, multiset(items)) && WithinBudget(request, s) && Justified(request, s)
    ensures RequiredSum(request, ordered) <= request.maxSchemaTokens ==> RequiredFit(request, s)
    ensures InOrder(s.included, Rank(request))
    ensures TiesAreSimple(request, Elements(items)) ==> InOrder(s.included, Before(request))
  {
    assert ordered[..|ordered|] == ordered;
    CandidatesAreItems(candidates, refused, items);
  }

  /** In particular a tool that is out for the budget does not fit on top of everything that was included. */
  lemma OverBudgetDoesNotFit(request: Request, s: Selection, seen: multiset<Descriptor>)
    requires Splits(request, s, seen) && WithinBudget(request, s)
    ensures forall i | 0 <= i < |s.excluded| && ForBudget(s.excluded[i]) ::
      request.maxSchemaTokens < s.schemaTokens + s.excluded[i].tool.tokens
  {
    forall i | 0 <= i < |s.excluded| && ForBudget(s.excluded[i])
      ensures request.maxSchemaTokens < s.schemaTokens + s.excluded[i].tool.tokens
    {
      AheadIsPart(request, s.included, s.excluded[i].tool);
    }
  }

  lemma NothingForBudget(request: Request, s: Selection)
    requires Refused(request, s) && s.included == [] && s.schemaTokens == 0
    ensures WithinBudget(request, s) && Justified(request, s) && RequiredFit(request, s)
  {
  }

  lemma CandidatesAreItems(candidates: seq<Descriptor>, refused: multiset<Descriptor>, items: seq<Descriptor>)
    requires refused + multiset(candidates) == multiset(items)
    ensures Elements(candidates) <= Elements(items)
  {
    forall d | d in candidates ensures d in items {
      assert d in multiset(candidates) && d in multiset(items);
    }
  }

  lemma RequiredNamesAreAnswered(request: Request, items: seq<Descriptor>, s: Selection)
    requires Splits(request, s, multiset(items)) && forall i | 0 <= i < |s.excluded| :: !IsRequired(request, s.excluded[i].tool)
    ensures forall name | name in request.required :: Answered(name, s.included) <==> Answered(name, items)
  {
    forall name | name in request.required ensures Answered(name, s.included) <==> Answered(name, items) {
      RequiredNameIsAnswered(request, items, s, name);
    }
  }

  lemma RequiredNameIsAnswered(request: Request, items: seq<Descriptor>, s: Selection, name: Name)
    requires Splits(request, s, multiset(items)) && name in request.required
    requires forall i | 0 <= i < |s.excluded| :: !IsRequired(request, s.excluded[i].tool)
    ensures Answered(name, s.included) <==> Answered(name, items)
  {
    if Answered(name, items) {
      var i :| 0 <= i < |items| && (items[i].id == name || items[i].modelName == name);
      assert items[i] in multiset(items);
      if items[i] in Tools(s.excluded) {
        var j :| 0 <= j < |Tools(s.excluded)| && Tools(s.excluded)[j] == items[i];
        assert s.excluded[j].tool == items[i] && IsRequired(request, items[i]);
        assert false;
      }
      assert items[i] in multiset(s.included);
      var k :| 0 <= k < |s.included| && s.included[k] == items[i];
    }
    if Answered(name, s.included) {
      var k :| 0 <= k < |s.included| && (s.included[k].id == name || s.included[k].modelName == name);
      assert s.included[k] in multiset(s.included) && s.included[k] in multiset(items);
      assert s.included[k] in items;
    }
  }

  /** For instance with a tool that is there and a required name that nobody goes by. */
  method UnknownRequiredToolIsNotMissed(d: Descriptor, name: Name) returns (ok: bool, s: Selection)
    requires d.ready && d.id != name && d.modelName != name
    ensures ok && s.included == [d] && Answered(d.id, s.included) && !Answered(name, s.included)
  {
    ok, s := Select(EvenRequest().(required := {d.id, name}), [d]);
    OnlyTool(s, d);
  }

  lemma OnlyTool(s: Selection, d: Descriptor)
    requires multiset(s.included) + multiset(Tools(s.excluded)) == multiset{d}
    requires forall i | 0 <= i < |s.excluded| :: s.excluded[i].tool != d
    ensures s.included == [d] && s.excluded == []
  {
    OnlyElement(Tools(s.excluded), d);
    OnlyElement(s.included, d);
    assert multiset(Tools(s.excluded)) == multiset{} && multiset(s.included) == multiset{d};
    assert |multiset(s.included)| == |s.included|;
  }

  lemma OnlyElement(tools: seq<Descriptor>, d: Descriptor)
    requires multiset(tools) <= multiset{d}
    ensures forall i | 0 <= i < |tools| :: tools[i] == d
  {
    forall i | 0 <= i < |tools| ensures tools[i] == d {
      assert tools[i] in multiset(tools);
    }
  }
}
