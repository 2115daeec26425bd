/** internal/agent/working_set.go: choosing context items within a token budget.

    Relevance scores are reals; a validated item has a non-negative token estimate. */
module WorkingSet {
  import opened Ordering
  import opened Wrappers

  datatype Freshness = Fresh | Stale | Unknown

  /** `key` is the de-duplication key: source reference, file slice and content digest. */
  datatype Item = Item(id: Name, kind: Name, key: Name, priority: nat, relevance: real, tokens: nat, freshness: Freshness,
    expiresAt: Option<int>)

  datatype Reason = StaleItem | UnknownItem | ExpiredItem | Duplicate | OverBudget

  datatype Excluded = Excluded(id: Name, kind: Name, reason: Reason)

  datatype Selection = Selection(included: seq<Item>, excluded: seq<Excluded>, used: nat)

  const NOTHING := Selection([], [], 0)

  predicate DistinctIds(items: seq<Item>) {
    forall i, j | 0 <= i < j < |items| :: items[i].id != items[j].id
  }

  /** The part of WorkingSet.Validate that looks at more than one item. */
  method ValidateIds(items: seq<Item>) returns (ok: bool)
    ensures ok <==> DistinctIds(items)
  {
    var seen: set<Name> := {};
    for i := 0 to |items|
      invariant seen == set k | 0 <= k < i :: items[k].id
      invariant DistinctIds(items[..i])
    {
      if items[i].id in seen {
        return false;
      }
      seen := seen + {items[i].id};
      assert items[..i + 1] == items[..i] + [items[i]];
    }
    assert items[..|items|] == items;
    return true;
  }

  // ----- The order -----

  predicate Precedes(required: set<Name>, a: Item, b: Item) {
    if (a.id in required) != (b.id in required) then a.id in required
    else if a.priority != b.priority then a.priority < b.priority
    else if a.relevance != b.relevance then a.relevance > b.relevance
    else Less(a.id.text, b.id.text)
  }

  function Before(required: set<Name>): (Item, Item) -> bool {
    (a, b) => Precedes(required, a, b)
  }

  /** Required items are in front; among them and among the others the smaller priority value comes first, then the better
      relevance, then the identifier. */
  ghost predicate BestFirst(required: set<Name>, items: seq<Item>) {
    forall i, j | 0 <= i < j < |items| ::
      var a, b := items[i], items[j];
      && (b.id in required ==> a.id in required)
      && ((b.id in required <==> a.id in required) ==>
            && a.priority <= b.priority
            && (a.priority == b.priority ==> a.relevance >= b.relevance)
            && (a.priority == b.priority && a.relevance == b.relevance ==> !Less(b.id.text, a.id.text)))
  }

  lemma BeforeIsWeak(required: set<Name>, domain: set<Item>)
    ensures WeakOrder(Before(required), domain) && Refines(Before(required), Before(required), domain)
  {
    forall a, b, c
      ensures Precedes(required, a, b) ==> !Precedes(required, b, a)
      ensures !Precedes(required, a, b) && !Precedes(required, b, c) ==> !Precedes(required, a, c)
    {
      LessIsWeak(a.id.text, b.id.text, c.id.text);
    }
  }

  lemma OrderIsBestFirst(required: set<Name>, items: seq<Item>)
    requires InOrder(items, Before(required))
    ensures BestFirst(required, items)
  {
    forall i, j | 0 <= i < j < |items| ensures !Precedes(required, items[j], items[i]) {
      assert !Before(required)(items[j], items[i]);
    }
  }

  lemma BeforeIsStrict(required: set<Name>, items: seq<Item>)
    requires DistinctIds(items)
    ensures StrictTotal(Before(required), Elements(items))
  {
    forall a | a in Elements(items) ensures !Precedes(required, a, a) {
      LessIsStrict(a.id.text);
    }
    forall a, b | a in Elements(items) && b in Elements(items) && a != b
      ensures Precedes(required, a, b) != Precedes(required, b, a)
    {
      IdsTellApart(items, a, b);
      LessIsTotal(a.id.text, b.id.text);
    }
    forall a, b, c | Precedes(required, a, b) && Precedes(required, b, c) ensures Precedes(required, a, c) {
      if Less(a.id.text, b.id.text) && Less(b.id.text, c.id.text) {
        LessIsTransitive(a.id.text, b.id.text, c.id.text);
      }
    }
  }

  lemma IdsTellApart(items: seq<Item>, a: Item, b: Item)
    requires DistinctIds(items) && a in items && b in items && a != b
    ensures a.id.text != b.id.text
  {
    var i :| 0 <= i < |items| && items[i] == a;
    var j :| 0 <= j < |items| && items[j] == b;
    assert i < j || j < i;
    assert a.id == Name(a.id.text) && b.id == Name(b.id.text);
  }

  lemma {:induction false} IdsAreDistinct(items: seq<Item>)
    requires DistinctIds(items)
    ensures Distinct(items)
  {
    if items != [] {
      var front, last := items[..|items| - 1], items[|items| - 1];
      assert items == front + [last];
      IdsAreDistinct(front);
      forall x | x in items ensures multiset(items)[x] == 1 {
        if x in front {
          var i :| 0 <= i < |front| && front[i] == x;
          assert items[i].id != last.id;
        } else {
          assert multiset(front)[x] == 0;
        }
      }
    }
  }

  // ----- Packing -----

  /** Why an item is unusable whatever the budget. */
  function Unusable(item: Item, now: int): Option<Reason> {
    if item.freshness == Stale then Some(StaleItem)
    else if item.freshness == Unknown then Some(UnknownItem)
    else if item.expiresAt.Some? && item.expiresAt.value <= now then Some(ExpiredItem)
    else None
  }

  function Keys(items: seq<Item>): set<Name> {
    set i | 0 <= i < |items| :: items[i].key
  }

  function Verdict(s: Selection, item: Item, budget: nat, now: int): Option<Reason> {
    if Unusable(item, now).Some? then Unusable(item, now)
    else if item.key in Keys(s.included) then Some(Duplicate)
    else if item.tokens > budget - s.used then Some(OverBudget)
    else None
  }

  function Step(s: Selection, item: Item, budget: nat, now: int): Selection {
    match Verdict(s, item, budget, now)
    case Some(reason) => s.(excluded := s.excluded + [Excluded(item.id, item.kind, reason)])
    case None => s.(included := s.included + [item], used := s.used + item.tokens)
  }

  function Pack(ordered: seq<Item>, budget: nat, now: int): Selection {
    if ordered == [] then NOTHING else Step(Pack(ordered[..|ordered| - 1], budget, now), ordered[|ordered| - 1], budget, now)
  }

  function Budget(budget: int): nat {
    if budget < 0 then 0 else budget
  }

  function Select(items: seq<Item>, budget: int, required: set<Name>, now: int): Selection {
    Pack(StableSort(items, Before(required)), Budget(budget), now)
  }

  /** What is included keeps the order of the candidates. */
  lemma {:induction false} IncludedKeepOrder(ordered: seq<Item>, budget: nat, now: int, before: (Item, Item) -> bool)
    requires InOrder(ordered, before)
    ensures InOrder(Pack(ordered, budget, now).included, before)
    ensures forall x | x in Pack(ordered, budget, now).included :: x in ordered
  {
    if ordered != [] {
      var n := |ordered| - 1;
      IncludedKeepOrder(ordered[..n], budget, now, before);
      var included := Pack(ordered[..n], budget, now).included;
      forall i | 0 <= i < |included| ensures !before(ordered[n], included[i]) {
        assert included[i] in ordered[..n];
        var k :| 0 <= k < n && ordered[..n][k] == included[i];
        assert ordered[k] == included[i];
      }
      assert ordered == ordered[..n] + [ordered[n]];
    }
  }

  lemma IncludedAreBestFirst(items: seq<Item>, budget: int, required: set<Name>, now: int)
    ensures BestFirst(required, Select(items, budget, required, now).included)
  {
    var ordered := StableSort(items, Before(required));
    BeforeIsWeak(required, Elements(items));
    StableSortOrders(items, Before(required), Before(required), Elements(items));
    IncludedKeepOrder(ordered, Budget(budget), now, Before(required));
    OrderIsBestFirst(required, Select(items, budget, required, now).included);
  }

  /** SelectWorkingSet: one pass over the sorted items, of which the better ones come first. */
  method SelectWorkingSet(items: seq<Item>, budget: int, required: set<Name>, now: int) returns (result: Selection)
    ensures result == Select(items, budget, required, now) && BestFirst(required, result.included)
  {
    IncludedAreBestFirst(items, budget, required, now);
    var limit := if budget < 0 then 0 else budget;
    var ordered := StableSort(items, Before(required));
    var included: seq<Item>, excluded: seq<Excluded>, used: nat, seen: set<Name> := [], [], 0, {};
    for i := 0 to |ordered|
      invariant Selection(included, excluded, used) == Pack(ordered[..i], limit, now)
      invariant seen == Keys(included)
    {
      assert ordered[..i + 1][..i] == ordered[..i];
      var item := ordered[i];
      var reason := Unusable(item, now);
      if reason.None? {
        if item.key in seen {
          reason := Some(Duplicate);
        } else if item.tokens > limit - used {
          reason := Some(OverBudget);
        }
      }
      if reason.Some? {
        excluded := excluded + [Excluded(item.id, item.kind, reason.value)];
        continue;
      }
      KeysAppend(included, item);
      seen := seen + {item.key};
      included := included + [item];
      used := used + item.tokens;
    }
    assert ordered[..|ordered|] == ordered;
    result := Selection(included, excluded, used);
  }

  lemma KeysAppend(items: seq<Item>, item: Item)
    ensures Keys(items + [item]) == Keys(items) + {item.key}
  {
    var longer := items + [item];
    forall k | k in Keys(items) ensures k in Keys(longer) {
      var i :| 0 <= i < |items| && items[i].key == k;
      assert longer[i].key == k;
    }
    assert longer[|items|].key == item.key;
  }

  // ----- Laws -----

  /** The same validated items in any order give the same selection. */
  lemma OrderDoesNotMatter(items: seq<Item>, reordered: seq<Item>, budget: int, required: set<Name>, now: int)
    requires DistinctIds(items) && multiset(items) == multiset(reordered)
    ensures Select(items, budget, required, now) == Select(reordered, budget, required, now)
  {
    IdsAreDistinct(items);
    BeforeIsStrict(required, items);
    SortIgnoresOrder(items, reordered, Before(required));
  }

  function ItemIds(items: seq<Item>): multiset<Name> {
    if items == [] then multiset{} else ItemIds(items[..|items| - 1]) + multiset{items[|items| - 1].id}
  }

  function ExcludedIds(items: seq<Excluded>): multiset<Name> {
    if items == [] then multiset{} else ExcludedIds(items[..|items| - 1]) + multiset{items[|items| - 1].id}
  }

  function Sum(items: seq<Item>): nat {
    if items == [] then 0 else Sum(items[..|items| - 1]) + items[|items| - 1].tokens
  }

  predicate DistinctKeys(items: seq<Item>) {
    forall i, j | 0 <= i < j < |items| :: items[i].key != items[j].key
  }

  lemma PackNext(ordered: seq<Item>, k: nat, budget: nat, now: int)
    requires k < |ordered|
    ensures Pack(ordered[..k + 1], budget, now) == Step(Pack(ordered[..k], budget, now), ordered[k], budget, now)
  {
    assert ordered[..k + 1][..k] == ordered[..k];
  }

  /** Every item of the input is either included or excluded, once. */
  lemma {:induction false} PackPartitions(ordered: seq<Item>, budget: nat, now: int)
    ensures ItemIds(Pack(ordered, budget, now).included) + ExcludedIds(Pack(ordered, budget, now).excluded) == ItemIds(ordered)
  {
    if ordered != [] {
      var front, item := ordered[..|ordered| - 1], ordered[|ordered| - 1];
      PackPartitions(front, budget, now);
      StepPartitions(Pack(front, budget, now), item, budget, now);
    }
  }

  lemma StepPartitions(s: Selection, item: Item, budget: nat, now: int)
    ensures var t := Step(s, item, budget, now);
      ItemIds(t.included) + ExcludedIds(t.excluded) == ItemIds(s.included) + ExcludedIds(s.excluded) + multiset{item.id}
  {
    if Verdict(s, item, budget, now).Some? {
      var record := Excluded(item.id, item.kind, Verdict(s, item, budget, now).value);
      assert (s.excluded + [record])[..|s.excluded|] == s.excluded;
    } else {
      assert (s.included + [item])[..|s.included|] == s.included;
    }
  }

  /** The amount used is what the included items take, and within the budget; no key is included twice. */
  lemma {:induction false} PackIsWithinBudget(ordered: seq<Item>, budget: nat, now: int)
    ensures Pack(ordered, budget, now).used == Sum(Pack(ordered, budget, now).included) <= budget
    ensures DistinctKeys(Pack(ordered, budget, now).included)
  {
    if ordered != [] {
      var front, item := ordered[..|ordered| - 1], ordered[|ordered| - 1];
      PackIsWithinBudget(front, budget, now);
      var s := Pack(front, budget, now);
      assert (s.included + [item])[..|s.included|] == s.included;
    }
  }

  /** What is decided about earlier items stays decided. */
  lemma {:induction false} PackGrows(ordered: seq<Item>, k: nat, budget: nat, now: int)
    requires k <= |ordered|
    ensures Pack(ordered[..k], budget, now).included <= Pack(ordered, budget, now).included
    ensures Pack(ordered[..k], budget, now).excluded <= Pack(ordered, budget, now).excluded
  {
    if k == |ordered| {
      assert ordered[..k] == ordered;
    } else {
      var n := |ordered| - 1;
      PackGrows(ordered[..n], k, budget, now);
      assert ordered[..n][..k] == ordered[..k];
    }
  }

  lemma {:induction false} IdsByPosition(items: seq<Item>, k: nat)
    requires k < |items|
    ensures items[k].id in ItemIds(items)
  {
    if k < |items| - 1 {
      IdsByPosition(items[..|items| - 1], k);
    }
  }

  /** What is decided about an item at its turn is what the selection says about it. */
  lemma TurnDecides(ordered: seq<Item>, k: nat, budget: nat, now: int)
    requires k < |ordered|
    ensures var item, before := ordered[k], Pack(ordered[..k], budget, now);
      && before.included <= Pack(ordered, budget, now).included
      && (Verdict(before, item, budget, now) == Some(OverBudget)
          <==> Unusable(item, now).None? && item.key !in Keys(before.included) && Sum(before.included) + item.tokens > budget)
      && (Verdict(before, item, budget, now).None?
          <==> Unusable(item, now).None? && item.key !in Keys(before.included) && Sum(before.included) + item.tokens <= budget)
      && (Verdict(before, item, budget, now).None? ==> before.included + [item] <= Pack(ordered, budget, now).included)
      && (Verdict(before, item, budget, now).Some? ==>
            before.excluded + [Excluded(item.id, item.kind, Verdict(before, item, budget, now).value)] <= Pack(ordered, budget, now).excluded)
  {
    PackGrows(ordered, k, budget, now);
    PackGrows(ordered, k + 1, budget, now);
    PackNext(ordered, k, budget, now);
    PackIsWithinBudget(ordered[..k], budget, now);
  }

  // ----- From the sorted items back to the input -----

  lemma {:induction false} InsertIds(item: Item, items: seq<Item>, before: (Item, Item) -> bool)
    ensures ItemIds(Insert(item, items, before)) == ItemIds(items) + multiset{item.id}
  {
    if items != [] && before(item, items[|items| - 1]) {
      var front, last := items[..|items| - 1], items[|items| - 1];
      InsertIds(item, front, before);
      assert (Insert(item, front, before) + [last])[..|Insert(item, front, before)|] == Insert(item, front, before);
    } else {
      assert (items + [item])[..|items|] == items;
    }
  }

  lemma {:induction false} SortKeepsIds(items: seq<Item>, before: (Item, Item) -> bool)
    ensures ItemIds(StableSort(items, before)) == ItemIds(items)
  {
    if items != [] {
      SortKeepsIds(items[..|items| - 1], before);
      InsertIds(items[|items| - 1], StableSort(items[..|items| - 1], before), before);
    }
  }

  /** SelectWorkingSet splits its input, for any input and budget. */
  lemma SelectionLaws(items: seq<Item>, budget: int, required: set<Name>, now: int)
    ensures var s := Select(items, budget, required, now);
      && ItemIds(s.included) + ExcludedIds(s.excluded) == ItemIds(items)
      && DistinctKeys(s.included)
      && s.used == Sum(s.included) <= Budget(budget)
  {
    var ordered := StableSort(items, Before(required));
    SortKeepsIds(items, Before(required));
    PackPartitions(ordered, Budget(budget), now);
    PackIsWithinBudget(ordered, Budget(budget), now);
  }

  // ----- Greedy selection, item by item -----

  /** The items of a list that come before x. */
  function AheadOf(items: seq<Item>, x: Item, before: (Item, Item) -> bool): seq<Item> {
    if items == [] then [] else
    var last := items[|items| - 1];
    AheadOf(items[..|items| - 1], x, before) + if before(last, x) then [last] else []
  }

  lemma {:induction false} AheadOfSplit(front: seq<Item>, rest: seq<Item>, x: Item, before: (Item, Item) -> bool)
    requires (forall y | y in front :: before(y, x)) && (forall y | y in rest :: !before(y, x))
    ensures AheadOf(front + rest, x, before) == front
  {
    if rest != [] {
      var n := |rest| - 1;
      assert rest[n] in rest && (front + rest)[..|front + rest| - 1] == front + rest[..n];
      AheadOfSplit(front, rest[..n], x, before);
    } else if front != [] {
      var n := |front| - 1;
      assert front + rest == front && front[..n] + [front[n]] == front && front[..n] + [] == front[..n];
      AheadOfSplit(front[..n], [], x, before);
      assert front[n] in front;
    }
  }

  /** Where the included items come from. */
  lemma {:induction false} IncludedFrom(ordered: seq<Item>, k: nat, budget: nat, now: int) returns (rest: seq<Item>)
    requires k <= |ordered|
    ensures Pack(ordered, budget, now).included == Pack(ordered[..k], budget, now).included + rest
    ensures forall y | y in rest :: y in ordered[k..]
    ensures forall y | y in Pack(ordered[..k], budget, now).included :: y in ordered[..k]
  {
    var n := |ordered| - 1;
    if k == |ordered| {
      assert ordered[..k] == ordered;
      rest := [];
      IncludedAreOrdered(ordered, budget, now);
    } else {
      var shorter := IncludedFrom(ordered[..n], k, budget, now);
      assert ordered[..n][..k] == ordered[..k];
      var s := Pack(ordered[..n], budget, now);
      rest := shorter + if Verdict(s, ordered[n], budget, now).None? then [ordered[n]] else [];
      assert ordered[k..] == ordered[..n][k..] + [ordered[n]];
    }
  }

  lemma {:induction false} IncludedAreOrdered(ordered: seq<Item>, budget: nat, now: int)
    ensures forall y | y in Pack(ordered, budget, now).included :: y in ordered
  {
    if ordered != [] {
      var n := |ordered| - 1;
      IncludedAreOrdered(ordered[..n], budget, now);
      assert ordered == ordered[..n] + [ordered[n]];
    }
  }

  /** Every exclusion was decided at the turn of its item. */
  lemma {:induction false} ExcludedFrom(ordered: seq<Item>, e: Excluded, budget: nat, now: int) returns (k: nat)
    requires e in Pack(ordered, budget, now).excluded
    ensures k < |ordered| && Verdict(Pack(ordered[..k], budget, now), ordered[k], budget, now) == Some(e.reason)
    ensures e.id == ordered[k].id && e.kind == ordered[k].kind
  {
    var n := |ordered| - 1;
    if e in Pack(ordered[..n], budget, now).excluded {
      k := ExcludedFrom(ordered[..n], e, budget, now);
      assert ordered[..n][..k] == ordered[..k];
    } else {
      k := n;
    }
  }

  lemma NeighboursInOrder(items: seq<Item>, ordered: seq<Item>, k: nat, required: set<Name>)
    requires DistinctIds(items) && ordered == StableSort(items, Before(required)) && k < |ordered|
    ensures forall y | y in ordered[..k] :: Before(required)(y, ordered[k])
    ensures forall y | y in ordered[k..] :: !Before(required)(y, ordered[k])
  {
    IdsAreDistinct(items);
    BeforeIsStrict(required, items);
    StableSortSorts(items, Before(required), Elements(items));
    forall y | y in ordered[..k] ensures Before(required)(y, ordered[k]) {
      var m :| 0 <= m < k && ordered[..k][m] == y;
      assert ordered[m] == y;
    }
    BeforeIsWeak(required, Elements(items));
    StableSortOrders(items, Before(required), Before(required), Elements(items));
    LessIsStrict(ordered[k].id.text);
    forall y | y in ordered[k..] ensures !Before(required)(y, ordered[k]) {
      var m :| 0 <= m < |ordered[k..]| && ordered[k..][m] == y;
      assert ordered[k + m] == y;
    }
  }

  /** The included items at the turn of an item are those that come before it in the end. */
  lemma AheadAtTurn(items: seq<Item>, ordered: seq<Item>, k: nat, budget: nat, required: set<Name>, now: int)
    requires DistinctIds(items) && ordered == StableSort(items, Before(required)) && k < |ordered|
    ensures AheadOf(Pack(ordered, budget, now).included, ordered[k], Before(required)) == Pack(ordered[..k], budget, now).included
  {
    var before := Before(required);
    var rest := IncludedFrom(ordered, k, budget, now);
    NeighboursInOrder(items, ordered, k, required);
    AheadOfSplit(Pack(ordered[..k], budget, now).included, rest, ordered[k], before);
  }

  lemma IdsStayDistinct(items: seq<Item>, ordered: seq<Item>)
    requires DistinctIds(items) && multiset(items) == multiset(ordered)
    ensures DistinctIds(ordered)
  {
    IdsAreDistinct(items);
    DistinctReordered(items, ordered);
    DistinctDiffer(ordered);
    SameElements(items, ordered);
    forall i, j | 0 <= i < j < |ordered| ensures ordered[i].id != ordered[j].id {
      assert ordered[i] in Elements(ordered) && ordered[j] in Elements(ordered) && ordered[i] != ordered[j];
      SameIdSameItem(items, ordered[i], ordered[j]);
    }
  }

  lemma SameIdSameItem(items: seq<Item>, a: Item, b: Item)
    requires DistinctIds(items) && a in items && b in items
    ensures a.id == b.id ==> a == b
  {
  }

  /** The selection is greedy, item by item of the input.  Against the included items that come before it, a usable item is
      a duplicate when one of them has its key; otherwise it is included exactly when it fits above them, and reported as
      over the budget exactly when it does not. */
  lemma OverBudgetIsExact(items: seq<Item>, x: Item, budget: int, required: set<Name>, now: int)
    requires DistinctIds(items) && x in items
    ensures var s := Select(items, budget, required, now);
      IsGreedy(s, AheadOf(s.included, x, Before(required)), x, Budget(budget), now)
  {
    var ordered := StableSort(items, Before(required));
    SameElements(ordered, items);
    assert x in Elements(items);
    var k :| 0 <= k < |ordered| && ordered[k] == x;
    IdsStayDistinct(items, ordered);
    AheadAtTurn(items, ordered, k, Budget(budget), required, now);
    GreedyAtTurn(ordered, k, Budget(budget), now);
  }

  ghost predicate IsGreedy(s: Selection, ahead: seq<Item>, x: Item, budget: nat, now: int) {
    var usable := x.freshness == Fresh && (x.expiresAt.Some? ==> now < x.expiresAt.value);
    && (Excluded(x.id, x.kind, StaleItem) in s.excluded <==> x.freshness == Stale)
    && (Excluded(x.id, x.kind, UnknownItem) in s.excluded <==> x.freshness == Unknown)
    && (Excluded(x.id, x.kind, ExpiredItem) in s.excluded <==> x.freshness == Fresh && !usable)
    && (x in s.included <==> usable && x.key !in Keys(ahead) && Sum(ahead) + x.tokens <= budget)
    && (Excluded(x.id, x.kind, OverBudget) in s.excluded <==> usable && x.key !in Keys(ahead) && Sum(ahead) + x.tokens > budget)
    && (Excluded(x.id, x.kind, Duplicate) in s.excluded <==> usable && x.key in Keys(ahead))
  }

  lemma GreedyAtTurn(ordered: seq<Item>, k: nat, budget: nat, now: int)
    requires DistinctIds(ordered) && k < |ordered|
    ensures IsGreedy(Pack(ordered, budget, now), Pack(ordered[..k], budget, now).included, ordered[k], budget, now)
  {
    TurnDecides(ordered, k, budget, now);
    ExcludedAtTurn(ordered, k, budget, now, OverBudget);
    ExcludedAtTurn(ordered, k, budget, now, Duplicate);
    ExcludedAtTurn(ordered, k, budget, now, StaleItem);
    ExcludedAtTurn(ordered, k, budget, now, UnknownItem);
    ExcludedAtTurn(ordered, k, budget, now, ExpiredItem);
    IncludedAtTurn(ordered, k, budget, now);
  }

  lemma ExcludedAtTurn(ordered: seq<Item>, k: nat, budget: nat, now: int, reason: Reason)
    requires DistinctIds(ordered) && k < |ordered|
    ensures Excluded(ordered[k].id, ordered[k].kind, reason) in Pack(ordered, budget, now).excluded
      <==> Verdict(Pack(ordered[..k], budget, now), ordered[k], budget, now) == Some(reason)
  {
    var e := Excluded(ordered[k].id, ordered[k].kind, reason);
    TurnDecides(ordered, k, budget, now);
    if e in Pack(ordered, budget, now).excluded {
      var m := ExcludedFrom(ordered, e, budget, now);
    }
    if Verdict(Pack(ordered[..k], budget, now), ordered[k], budget, now) == Some(reason) {
      var before := Pack(ordered[..k], budget, now).excluded;
      assert Pack(ordered, budget, now).excluded[|before|] == (before + [e])[|before|];
    }
  }

  lemma IncludedAtTurn(ordered: seq<Item>, k: nat, budget: nat, now: int)
    requires DistinctIds(ordered) && k < |ordered|
    ensures ordered[k] in Pack(ordered, budget, now).included
      <==> Verdict(Pack(ordered[..k], budget, now), ordered[k], budget, now).None?
  {
    var before, verdict := Pack(ordered[..k], budget, now), Verdict(Pack(ordered[..k], budget, now), ordered[k], budget, now);
    TurnDecides(ordered, k, budget, now);
    PackNext(ordered, k, budget, now);
    var rest := IncludedFrom(ordered, k + 1, budget, now);
    if verdict.None? {
      assert Pack(ordered, budget, now).included[|before.included|] == (before.included + [ordered[k]])[|before.included|];
    } else {
      var _ := IncludedFrom(ordered, k, budget, now);
      assert forall y | y in ordered[..k] || y in ordered[k + 1..] :: y != ordered[k];
    }
  }

  // ----- Required items -----

  /** What the required items would take together. */
  function RequiredSum(items: seq<Item>, required: set<Name>): nat {
    if items == [] then 0
    else RequiredSum(items[..|items| - 1], required) + if items[|items| - 1].id in required then items[|items| - 1].tokens else 0
  }

  lemma {:induction false} InsertRequired(item: Item, items: seq<Item>, before: (Item, Item) -> bool, required: set<Name>)
    ensures RequiredSum(Insert(item, items, before), required)
      == RequiredSum(items, required) + if item.id in required then item.tokens else 0
  {
    if items != [] && before(item, items[|items| - 1]) {
      var front, last := items[..|items| - 1], items[|items| - 1];
      InsertRequired(item, front, before, required);
      assert (Insert(item, front, before) + [last])[..|Insert(item, front, before)|] == Insert(item, front, before);
    } else {
      assert (items + [item])[..|items|] == items;
    }
  }

  lemma {:induction false} SortKeepsRequired(items: seq<Item>, before: (Item, Item) -> bool, required: set<Name>)
    ensures RequiredSum(StableSort(items, before), required) == RequiredSum(items, required)
  {
    if items != [] {
      SortKeepsRequired(items[..|items| - 1], before, required);
      InsertRequired(items[|items| - 1], StableSort(items[..|items| - 1], before), before, required);
    }
  }

  lemma {:induction false} RequiredSumGrows(items: seq<Item>, k: nat, required: set<Name>)
    requires k <= |items|
    ensures RequiredSum(items[..k], required) <= RequiredSum(items, required)
  {
    if k == |items| {
      assert items[..k] == items;
    } else {
      RequiredSumGrows(items[..|items| - 1], k, required);
      assert items[..|items| - 1][..k] == items[..k];
    }
  }

  /** As long as only required items were looked at, no more is used than they take. */
  lemma {:induction false} UsedByRequired(ordered: seq<Item>, budget: nat, now: int, required: set<Name>)
    requires forall i | 0 <= i < |ordered| :: ordered[i].id in required
    ensures Pack(ordered, budget, now).used <= RequiredSum(ordered, required)
  {
    if ordered != [] {
      UsedByRequired(ordered[..|ordered| - 1], budget, now, required);
    }
  }

  lemma RequiredComeFirst(items: seq<Item>, ordered: seq<Item>, required: set<Name>, k: nat)
    requires DistinctIds(items) && ordered == StableSort(items, Before(required))
    requires k < |ordered| && ordered[k].id in required
    ensures forall i | 0 <= i < k :: ordered[i].id in required
  {
    IdsAreDistinct(items);
    BeforeIsStrict(required, items);
    SortIgnoresOrder(items, items, Before(required));
    forall i | 0 <= i < k ensures ordered[i].id in required {
      assert Before(required)(ordered[i], ordered[k]);
    }
  }

  lemma RequiredPrefixFits(ordered: seq<Item>, budget: nat, required: set<Name>, now: int, k: nat)
    requires k < |ordered| && forall i | 0 <= i <= k :: ordered[i].id in required
    requires RequiredSum(ordered, required) <= budget
    ensures Verdict(Pack(ordered[..k], budget, now), ordered[k], budget, now) != Some(OverBudget)
  {
    UsedByRequired(ordered[..k], budget, now, required);
    RequiredSumGrows(ordered, k + 1, required);
    assert ordered[..k + 1][..k] == ordered[..k];
  }

  lemma RequiredAtTurn(items: seq<Item>, ordered: seq<Item>, budget: int, required: set<Name>, now: int, k: nat)
    requires DistinctIds(items) && RequiredSum(items, required) <= Budget(budget)
    requires ordered == StableSort(items, Before(required)) && k < |ordered| && ordered[k].id in required
    ensures Verdict(Pack(ordered[..k], Budget(budget), now), ordered[k], Budget(budget), now) != Some(OverBudget)
  {
    RequiredComeFirst(items, ordered, required, k);
    SortKeepsRequired(items, Before(required), required);
    RequiredPrefixFits(ordered, Budget(budget), required, now, k);
  }

  /** Required items come first: when all of them together fit the budget, none is refused for it. */
  lemma RequiredItemsFit(items: seq<Item>, x: Item, budget: int, required: set<Name>, now: int)
    requires DistinctIds(items) && RequiredSum(items, required) <= Budget(budget) && x in items && x.id in required
    ensures Excluded(x.id, x.kind, OverBudget) !in Select(items, budget, required, now).excluded
  {
    var ordered := StableSort(items, Before(required));
    SameElements(ordered, items);
    assert x in Elements(items);
    var k :| 0 <= k < |ordered| && ordered[k] == x;
    IdsStayDistinct(items, ordered);
    RequiredAtTurn(items, ordered, budget, required, now, k);
    ExcludedAtTurn(ordered, k, Budget(budget), now, OverBudget);
  }
}
