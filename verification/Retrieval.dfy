/** internal/agent/retrieval.go: choosing evidence, and the cache of earlier searches. */
module Retrieval {
  import opened Ordering
  import opened Wrappers

  /** `key` is the content digest, or the source and locator where there is none; `hits` is the number of query terms
      found in the title and excerpt, and `size` the bytes of title, excerpt and citation. */
  datatype Evidence = Evidence(key: Name, kind: Name, id: Name, retrievalScore: int, rerankScore: int, hits: nat, size: nat)

  // ----- Choosing evidence -----

  predicate Precedes(a: Evidence, b: Evidence) {
    if a.rerankScore != b.rerankScore then a.rerankScore > b.rerankScore
    else if a.kind != b.kind then Less(a.kind.text, b.kind.text)
    else Less(a.id.text, b.id.text)
  }

  function Before(): (Evidence, Evidence) -> bool {
    (a, b) => Precedes(a, b)
  }

  lemma PrecedesIsWeak(a: Evidence, b: Evidence, c: Evidence)
    ensures Precedes(a, b) ==> !Precedes(b, a)
    ensures !Precedes(a, b) && !Precedes(b, c) ==> !Precedes(a, c)
  {
    TextsTellApart(a.kind, b.kind);
    TextsTellApart(b.kind, c.kind);
    TextsTellApart(a.kind, c.kind);
    LessIsWeak(a.kind.text, b.kind.text, c.kind.text);
    LessIsWeak(a.id.text, b.id.text, c.id.text);
  }

  lemma TextsTellApart(a: Name, b: Name)
    ensures a != b ==> a.text != b.text && (Less(a.text, b.text) || Less(b.text, a.text))
  {
    if a != b {
      assert a == Name(a.text) && b == Name(b.text);
      LessIsTotal(a.text, b.text);
    }
  }

  lemma BeforeIsWeak(domain: set<Evidence>)
    ensures WeakOrder(Before(), domain) && Refines(Before(), Before(), domain)
  {
    forall a, b, c
      ensures Before()(a, b) ==> !Before()(b, a)
      ensures !Before()(a, b) && !Before()(b, c) ==> !Before()(a, c)
    {
      PrecedesIsWeak(a, b, c);
    }
  }

  function Rescored(e: Evidence, rerank: bool): Evidence {
    if rerank then e.(rerankScore := e.retrievalScore + e.hits) else e
  }

  function Keys(items: seq<Evidence>): set<Name> {
    set i | 0 <= i < |items| :: items[i].key
  }

  /** The first item of each key, rescored. */
  function Firsts(items: seq<Evidence>, rerank: bool): seq<Evidence> {
    if items == [] then [] else
    var front, last := items[..|items| - 1], items[|items| - 1];
    Firsts(front, rerank) + if last.key in Keys(front) then [] else [Rescored(last, rerank)]
  }

  function Size(items: seq<Evidence>): nat {
    if items == [] then 0 else Size(items[..|items| - 1]) + items[|items| - 1].size
  }

  predicate Fits(items: seq<Evidence>, topK: nat, maxBytes: int) {
    |items| <= topK && (maxBytes > 0 ==> Size(items) <= maxBytes)
  }

  /** The first n items, as many as fit. */
  ghost predicate LongestPrefix(items: seq<Evidence>, n: nat, topK: nat, maxBytes: int) {
    && n <= |items| && Fits(items[..n], topK, maxBytes)
    && forall m | n < m <= |items| :: !Fits(items[..m], topK, maxBytes)
  }

  function Candidates(items: seq<Evidence>, rerank: bool): seq<Evidence> {
    StableSort(Firsts(items, rerank), Before())
  }

  lemma SizeNext(items: seq<Evidence>, n: nat)
    requires n < |items|
    ensures Size(items[..n + 1]) == Size(items[..n]) + items[n].size
  {
    assert items[..n + 1][..n] == items[..n];
  }

  lemma {:induction false} SizeGrows(items: seq<Evidence>, n: nat, m: nat)
    requires n <= m <= |items|
    ensures Size(items[..n]) <= Size(items[..m])
  {
    if n < m {
      SizeGrows(items, n, m - 1);
      SizeNext(items, m - 1);
    }
  }

  /** The loop that collects the first item of each key. */
  method CollectFirsts(items: seq<Evidence>, rerank: bool) returns (result: seq<Evidence>)
    ensures result == Firsts(items, rerank)
  {
    var seen: set<Name>;
    seen, result := {}, [];
    for i := 0 to |items|
      invariant seen == Keys(items[..i]) && result == Firsts(items[..i], rerank)
    {
      assert items[..i + 1][..i] == items[..i];
      KeysNext(items, i);
      if items[i].key in seen {
        continue;
      }
      seen := seen + {items[i].key};
      result := result + [Rescored(items[i], rerank)];
    }
    assert items[..|items|] == items;
  }

  lemma KeysNext(items: seq<Evidence>, n: nat)
    requires n < |items|
    ensures Keys(items[..n + 1]) == Keys(items[..n]) + {items[n].key}
  {
    var shorter, longer := items[..n], items[..n + 1];
    forall k | k in Keys(shorter) ensures k in Keys(longer) {
      var i :| 0 <= i < |shorter| && shorter[i].key == k;
      assert longer[i].key == k;
    }
    forall k | k in Keys(longer) ensures k in Keys(shorter) || k == items[n].key {
      var i :| 0 <= i < |longer| && longer[i].key == k;
      if i < n {
        assert shorter[i].key == k;
      }
    }
    assert longer[n].key == items[n].key;
  }

  /** The bounding loop writes its result over the slice it is reading. */
  method Bound(result: array<Evidence>, topK: int, maxBytes: int) returns (kept: nat)
    modifies result
    ensures LongestPrefix(old(result[..]), kept, if topK < 0 then 0 else topK, maxBytes)
    ensures kept <= result.Length && result[..kept] == old(result[..])[..kept]
  {
    ghost var items, limit := result[..], if topK < 0 then 0 else topK;
    kept := 0;
    var bytesUsed := 0;
    for i := 0 to result.Length
      invariant kept == i && result[..] == items
      invariant bytesUsed == Size(items[..i]) && i <= limit && (maxBytes > 0 ==> bytesUsed <= maxBytes)
    {
      var item := result[i];
      if kept >= topK {
        break;
      }
      SizeNext(items, i);
      if maxBytes > 0 && bytesUsed + item.size > maxBytes {
        forall m | i < m <= |items| ensures !Fits(items[..m], limit, maxBytes) {
          SizeGrows(items, i + 1, m);
        }
        break;
      }
      bytesUsed := bytesUsed + item.size;
      result[kept] := item;
      kept := kept + 1;
    }
  }

  /** deduplicateEvidence: of the first items of each key, in order, the longest prefix within the count and the bytes. */
  method DeduplicateEvidence(items: seq<Evidence>, topK: int, rerank: bool, maxBytes: int) returns (bounded: seq<Evidence>)
    ensures var candidates := Candidates(items, rerank);
      LongestPrefix(candidates, |bounded|, if topK < 0 then 0 else topK, maxBytes) && bounded == candidates[..|bounded|]
  {
    var firsts := CollectFirsts(items, rerank);
    bounded := BoundSorted(StableSort(firsts, Before()), topK, maxBytes);
  }

  method BoundSorted(sorted: seq<Evidence>, topK: int, maxBytes: int) returns (bounded: seq<Evidence>)
    ensures LongestPrefix(sorted, |bounded|, if topK < 0 then 0 else topK, maxBytes) && bounded == sorted[..|bounded|]
  {
    var result := new Evidence[|sorted|](i requires 0 <= i < |sorted| => sorted[i]);
    assert result[..] == sorted;
    var kept := Bound(result, topK, maxBytes);
    bounded := result[..kept];
  }

  predicate DistinctKeys(items: seq<Evidence>) {
    forall i, j | 0 <= i < j < |items| :: items[i].key != items[j].key
  }

  lemma {:induction false} FirstsAreDistinct(items: seq<Evidence>, rerank: bool)
    ensures DistinctKeys(Firsts(items, rerank)) && Keys(Firsts(items, rerank)) == Keys(items)
  {
    if items != [] {
      var front, last := items[..|items| - 1], items[|items| - 1];
      FirstsAreDistinct(front, rerank);
      KeysNext(items, |items| - 1);
      assert items[..|items|] == items;
      var firsts := Firsts(front, rerank);
      if last.key !in Keys(front) {
        var longer := firsts + [Rescored(last, rerank)];
        KeysNext(longer, |firsts|);
        assert longer[..|firsts|] == firsts && longer[..|firsts| + 1] == longer;
        forall i | 0 <= i < |firsts| ensures firsts[i].key != last.key {
          assert firsts[i].key in Keys(firsts);
        }
      } else {
        assert firsts + [] == firsts;
      }
    }
  }

  /** The candidates are the first items of all keys, best score first, then by source kind and identifier; candidates
      that are level keep the order in which they were found. */
  lemma CandidatesAreOrdered(items: seq<Evidence>, rerank: bool, x: Evidence)
    ensures multiset(Candidates(items, rerank)) == multiset(Firsts(items, rerank))
    ensures InOrder(Candidates(items, rerank), Before())
    ensures LevelWith(Candidates(items, rerank), x, Before()) == LevelWith(Firsts(items, rerank), x, Before())
  {
    var firsts := Firsts(items, rerank);
    BeforeIsWeak(Elements(firsts) + {x});
    StableSortOrders(firsts, Before(), Before(), Elements(firsts) + {x});
    StableSortIsStable(firsts, x, Before(), Elements(firsts) + {x});
  }

  // ----- The cache -----

  /** The canonical form of a request: cache keys are digests of it, that is, injective. */
  datatype Request = Request(query: Name, user: Name, conversation: Name, kinds: seq<Name>, topK: int, rerank: bool)

  datatype Result = Result(items: seq<Evidence>, failures: seq<Name>)

  datatype Entry = Entry(result: Result, expiresAt: int)

  /** An adapter may be able to re-validate access; whether it grants it now is up to its source. */
  datatype Adapter = Adapter(validates: bool, grants: Request -> bool)

  predicate Revalidates(adapters: map<Name, Adapter>, request: Request) {
    forall i | 0 <= i < |request.kinds| ::
      && request.kinds[i] in adapters
      && adapters[request.kinds[i]].validates && adapters[request.kinds[i]].grants(request)
  }

  ghost predicate Presentable(request: Request, items: seq<Evidence>) {
    DistinctKeys(items) && BestFirst(items) && |items| <= if request.topK < 0 then 0 else request.topK
  }

  /** Scores do not increase, and items of the same score are ordered by their source kinds and identifiers. */
  ghost predicate BestFirst(items: seq<Evidence>) {
    forall i, j | 0 <= i < j < |items| ::
      var a, b := items[i], items[j];
      && a.rerankScore >= b.rerankScore
      && (a.rerankScore == b.rerankScore ==> !Less(b.kind.text, a.kind.text))
      && (a.rerankScore == b.rerankScore && a.kind == b.kind ==> !Less(b.id.text, a.id.text))
  }

  lemma OrderIsBestFirst(items: seq<Evidence>)
    requires InOrder(items, Before())
    ensures BestFirst(items)
  {
    forall i, j | 0 <= i < j < |items| ensures !Precedes(items[j], items[i]) && !Less(items[i].kind.text, items[i].kind.text) {
      assert !Before()(items[j], items[i]);
      LessIsStrict(items[i].kind.text);
    }
  }

  /** The score an item counts with: a re-ranked one is scored by its retrieval and the query terms found in it. */
  ghost function ScoreOf(e: Evidence, rerank: bool): int {
    if rerank then e.retrievalScore + e.hits else e.rerankScore
  }

  /** The first item of every key that was found is in the answer with its score, or scores no better than all that is. */
  ghost predicate NothingBetter(request: Request, found: seq<Evidence>, items: seq<Evidence>) {
    forall i | 0 <= i < |found| && (forall j | 0 <= j < i :: found[j].key != found[i].key) ::
      || found[i].(rerankScore := ScoreOf(found[i], request.rerank)) in items
      || forall k | 0 <= k < |items| :: items[k].rerankScore >= ScoreOf(found[i], request.rerank)
  }

  lemma {:induction false} FirstIsCandidate(items: seq<Evidence>, rerank: bool, i: nat)
    requires i < |items| && forall j | 0 <= j < i :: items[j].key != items[i].key
    ensures items[i].(rerankScore := ScoreOf(items[i], rerank)) in Firsts(items, rerank)
  {
    var n := |items| - 1;
    if i < n {
      FirstIsCandidate(items[..n], rerank, i);
    } else {
      assert items[n].key !in Keys(items[..n]);
    }
  }

  /** A candidate is kept, or scores no better than what is. */
  lemma CandidateIsKeptOrNoBetter(candidates: seq<Evidence>, n: nat, e: Evidence)
    requires n <= |candidates| && BestFirst(candidates) && e in candidates
    ensures e in candidates[..n] || forall k | 0 <= k < n :: candidates[..n][k].rerankScore >= e.rerankScore
  {
    var c :| 0 <= c < |candidates| && candidates[c] == e;
    if c < n {
      assert candidates[..n][c] == e;
    }
  }

  lemma CandidatesAreBestFirst(items: seq<Evidence>, rerank: bool)
    ensures BestFirst(Candidates(items, rerank))
    ensures forall e | e in Firsts(items, rerank) :: e in Candidates(items, rerank)
  {
    var firsts, candidates := Firsts(items, rerank), Candidates(items, rerank);
    SameElements(firsts, candidates);
    forall e | e in firsts ensures e in candidates {
      assert e in Elements(firsts);
    }
    BeforeIsWeak(Elements(firsts));
    StableSortOrders(firsts, Before(), Before(), Elements(firsts));
    OrderIsBestFirst(candidates);
  }

  lemma NothingBetterIsLeft(request: Request, found: Result, maxBytes: int, result: Result)
    requires IsAnswer(request, found, maxBytes, result)
    ensures NothingBetter(request, found.items, result.items)
  {
    var items, candidates := found.items, Candidates(found.items, request.rerank);
    CandidatesAreBestFirst(items, request.rerank);
    forall i | 0 <= i < |items| && (forall j | 0 <= j < i :: items[j].key != items[i].key)
      ensures var scored := items[i].(rerankScore := ScoreOf(items[i], request.rerank));
        scored in result.items || forall k | 0 <= k < |result.items| :: result.items[k].rerankScore >= scored.rerankScore
    {
      FirstIsCandidate(items, request.rerank, i);
      CandidateIsKeptOrNoBetter(candidates, |result.items|, items[i].(rerankScore := ScoreOf(items[i], request.rerank)));
    }
  }

  /** Reordering does not bring two items of one key together. */
  lemma KeysStayDistinct(items: seq<Evidence>, other: seq<Evidence>)
    requires multiset(items) == multiset(other) && DistinctKeys(items)
    ensures DistinctKeys(other)
  {
    DifferDistinct(items);
    DistinctReordered(items, other);
    DistinctDiffer(other);
    forall i, j | 0 <= i < j < |other| ensures other[i].key != other[j].key {
      var k := PlaceOf(items, other, i);
      var l := PlaceOf(items, other, j);
      assert other[i] != other[j];
    }
  }

  lemma PlaceOf(items: seq<Evidence>, other: seq<Evidence>, i: nat) returns (k: nat)
    requires multiset(items) == multiset(other) && i < |other|
    ensures k < |items| && items[k] == other[i]
  {
    assert other[i] in multiset(other) && other[i] in items;
    k :| 0 <= k < |items| && items[k] == other[i];
  }

  /** A fresh answer: the longest prefix of the candidates that fits, with the failures of the sources. */
  ghost predicate IsAnswer(request: Request, found: Result, maxBytes: int, result: Result) {
    var candidates := Candidates(found.items, request.rerank);
    && LongestPrefix(candidates, |result.items|, if request.topK < 0 then 0 else request.topK, maxBytes)
    && result.items == candidates[..|result.items|] && result.failures == found.failures
  }

  lemma AnswerIsPresentable(request: Request, found: Result, maxBytes: int, result: Result)
    requires IsAnswer(request, found, maxBytes, result)
    ensures Presentable(request, result.items)
  {
    var firsts, candidates := Firsts(found.items, request.rerank), Candidates(found.items, request.rerank);
    FirstsAreDistinct(found.items, request.rerank);
    if candidates != [] {
      CandidatesAreOrdered(found.items, request.rerank, candidates[0]);
      KeysStayDistinct(firsts, candidates);
      PrefixIsPresentable(candidates, |result.items|);
      OrderIsBestFirst(result.items);
    }
  }

  lemma PrefixIsPresentable(candidates: seq<Evidence>, n: nat)
    requires n <= |candidates| && DistinctKeys(candidates) && InOrder(candidates, Before())
    ensures DistinctKeys(candidates[..n]) && InOrder(candidates[..n], Before())
  {
  }

  method Answer(request: Request, found: Result, maxBytes: int) returns (result: Result)
    ensures IsAnswer(request, found, maxBytes, result) && Presentable(request, result.items)
    ensures result.items == [] <==> NothingToKeep(request, found, maxBytes)
  {
    var bounded := DeduplicateEvidence(found.items, request.topK, request.rerank, maxBytes);
    result := Result(bounded, found.failures);
    AnswerIsPresentable(request, found, maxBytes, result);
    EmptyIffNothingToKeep(request, found, maxBytes, result);
  }

  /** Nothing is kept of what the sources found: there is none, none is asked for, or already the best item is too large. */
  ghost predicate NothingToKeep(request: Request, found: Result, maxBytes: int) {
    var candidates := Candidates(found.items, request.rerank);
    found.items == [] || request.topK <= 0 || (maxBytes > 0 && |candidates| > 0 && candidates[0].size > maxBytes)
  }

  lemma EmptyIffNothingToKeep(request: Request, found: Result, maxBytes: int, result: Result)
    requires IsAnswer(request, found, maxBytes, result)
    ensures result.items == [] <==> NothingToKeep(request, found, maxBytes)
    ensures found.items != [] ==> |Candidates(found.items, request.rerank)| > 0
  {
    CandidatesAreAsMany(found.items, request.rerank);
    EmptyPrefix(Candidates(found.items, request.rerank), |result.items|, if request.topK < 0 then 0 else request.topK, maxBytes);
  }

  lemma EmptyPrefix(candidates: seq<Evidence>, n: nat, topK: nat, maxBytes: int)
    requires LongestPrefix(candidates, n, topK, maxBytes)
    ensures n == 0 <==> candidates == [] || topK == 0 || (maxBytes > 0 && candidates[0].size > maxBytes)
  {
    if candidates != [] {
      assert candidates[..1][..0] == [] && Size(candidates[..1]) == candidates[0].size;
      assert n == 0 ==> !Fits(candidates[..1], topK, maxBytes);
      if n > 0 {
        SizeGrows(candidates, 1, n);
      }
    }
  }

  lemma CandidatesAreAsMany(items: seq<Evidence>, rerank: bool)
    ensures Candidates(items, rerank) == [] <==> items == []
  {
    var firsts, candidates := Firsts(items, rerank), Candidates(items, rerank);
    FirstsAreDistinct(items, rerank);
    SameElements(firsts, candidates);
    if items != [] {
      assert items[0].key in Keys(items) && items[0].key in Keys(firsts);
    }
  }

  lemma PutBack(cache: map<Request, Entry>, request: Request, entry: Entry)
    ensures (cache - {request})[request := entry] == cache[request := entry]
  {
  }

  class Orchestrator {
    var cache: map<Request, Entry>
    /** Every search that went to the sources and found something. */
    ghost var searched: set<(Request, Result)>

    constructor ()
      ensures Valid() && cache == map[]
    {
      cache, searched := map[], {};
    }

    /** What is cached was found by an earlier search, and is ordered, free of repeated keys and no longer than asked for. */
    ghost predicate Valid()
      reads this
    {
      forall r | r in cache :: (r, cache[r].result) in searched && Presentable(r, cache[r].result.items)
    }

    /** validateCachedAccess. */
    method ValidateCachedAccess(adapters: map<Name, Adapter>, request: Request) returns (ok: bool)
      ensures ok <==> Revalidates(adapters, request)
    {
      for i := 0 to |request.kinds|
        invariant forall j | 0 <= j < i :: request.kinds[j] in adapters
      {
        if request.kinds[i] !in adapters {
          return false;
        }
      }
      for i := 0 to |request.kinds|
        invariant forall j | 0 <= j < i :: adapters[request.kinds[j]].validates && adapters[request.kinds[j]].grants(request)
      {
        if !adapters[request.kinds[i]].validates || !adapters[request.kinds[i]].grants(request) {
          return false;
        }
      }
      return true;
    }

    /** Search; `answer` is the usable evidence that the sources would return, in the order of its arrival.  A cached
        answer is the result of an earlier search under the same key, it has not expired, and every requested source has
        just re-validated the access.  Otherwise the evidence is deduplicated, ordered and cut to the longest prefix
        that fits.  Either way the answer is presentable. */
    method Search(adapters: map<Name, Adapter>, request: Request, answer: Result, maxBytes: int, now: int, ttl: nat)
      returns (result: Result, cached: bool, found: bool)
      requires Valid()
      modifies this
      ensures Valid()
      ensures cached <==> request in old(cache) && old(cache)[request].expiresAt > now && Revalidates(adapters, request)
      ensures cached ==> found && result == old(cache)[request].result && (request, result) in old(searched)
      ensures cached ==> cache == old(cache) && searched == old(searched)
      ensures !cached ==> IsAnswer(request, answer, maxBytes, result) && (found <==> result.items != [])
      ensures !cached ==> (found <==> !NothingToKeep(request, answer, maxBytes))
      ensures !cached ==> NothingBetter(request, answer.items, result.items)
      ensures Presentable(request, result.items)
      ensures !cached && found ==> cache == old(cache)[request := Entry(result, now + ttl)] && searched == old(searched) + {(request, result)}
      ensures !cached && !found ==> searched == old(searched)
      ensures !cached && !found ==>
        cache == if request in old(cache) && old(cache)[request].expiresAt <= now then old(cache) - {request} else old(cache)
    {
      var hit := CachedAnswer(adapters, request, now);
      if hit.Some? {
        return hit.value, true, true;
      }
      cached := false;
      result, found := AskSources(request, answer, maxBytes, now, ttl);
      NothingBetterIsLeft(request, answer, maxBytes, result);
    }

    /** The cache path: only an unexpired entry whose access was re-validated is handed out. */
    method CachedAnswer(adapters: map<Name, Adapter>, request: Request, now: int) returns (hit: Option<Result>)
      requires Valid()
      ensures hit.Some? <==> request in cache && cache[request].expiresAt > now && Revalidates(adapters, request)
      ensures hit.Some? ==> hit.value == cache[request].result && Presentable(request, hit.value.items)
    {
      hit := None;
      if request in cache && cache[request].expiresAt > now {
        var ok := ValidateCachedAccess(adapters, request);
        if ok {
          hit := Some(cache[request].result);
        }
      }
    }

    /** The rest of Search. */
    method AskSources(request: Request, answer: Result, maxBytes: int, now: int, ttl: nat) returns (result: Result, found: bool)
      requires Valid()
      modifies this
      ensures Valid() && IsAnswer(request, answer, maxBytes, result) && Presentable(request, result.items)
      ensures found == (result.items != []) == !NothingToKeep(request, answer, maxBytes)
      ensures found ==> cache == old(cache)[request := Entry(result, now + ttl)] && searched == old(searched) + {(request, result)}
      ensures !found ==> searched == old(searched)
      ensures !found ==>
        cache == if request in old(cache) && old(cache)[request].expiresAt <= now then old(cache) - {request} else old(cache)
    {
      DropStale(request, now);
      result := Answer(request, answer, maxBytes);
      found := result.items != [];
      if found {
        Store(request, result, now + ttl);
        PutBack(old(cache), request, Entry(result, now + ttl));
      }
    }

    method Store(request: Request, result: Result, expiresAt: int)
      requires Valid() && Presentable(request, result.items)
      modifies this
      ensures Valid() && cache == old(cache)[request := Entry(result, expiresAt)] && searched == old(searched) + {(request, result)}
    {
      cache := cache[request := Entry(result, expiresAt)];
      searched := searched + {(request, result)};
    }

    method DropStale(request: Request, now: int)
      requires Valid()
      modifies this`cache
      ensures Valid()
      ensures cache == if request in old(cache) && old(cache)[request].expiresAt <= now then old(cache) - {request} else old(cache)
    {
      if request in cache && cache[request].expiresAt <= now {
        cache := cache - {request};
      }
    }

    /** What becomes of an unexpired entry whose re-validation fails (the comment in the code says that it is dropped): it
        stays if and only if nothing is kept of what the sources find, and is replaced otherwise. */
    method RefusedSearch(refusing: map<Name, Adapter>, request: Request, answer: Result, maxBytes: int, now: int, ttl: nat)
      returns (result: Result)
      requires Valid() && request in cache && now < cache[request].expiresAt && !Revalidates(refusing, request)
      modifies this
      ensures Valid() && IsAnswer(request, answer, maxBytes, result)
      ensures cache == if NothingToKeep(request, answer, maxBytes) then old(cache) else old(cache)[request := Entry(result, now + ttl)]
    {
      var cached, found;
      result, cached, found := Search(refusing, request, answer, maxBytes, now, ttl);
    }

    /** An entry that stays is served again as soon as access is granted once more before it expires; one that was replaced
        gives way to the fresh answer. */
    method RefusedEntryStays(refusing: map<Name, Adapter>, granting: map<Name, Adapter>, request: Request, answer: Result,
      maxBytes: int, now: int, later: int, ttl: nat) returns (first: Result, second: Result)
      requires Valid() && request in cache && now <= later < cache[request].expiresAt
      requires !Revalidates(refusing, request) && Revalidates(granting, request)
      modifies this
      ensures Valid() && IsAnswer(request, answer, maxBytes, first)
      ensures NothingToKeep(request, answer, maxBytes) ==> second == old(cache)[request].result
      ensures !NothingToKeep(request, answer, maxBytes) && later < now + ttl ==> second == first
    {
      first := RefusedSearch(refusing, request, answer, maxBytes, now, ttl);
      var cached, found;
      second, cached, found := Search(granting, request, answer, maxBytes, later, ttl);
    }

    /** Invalidate: neither the request's own entry nor any entry in its scope is left; others are untouched. */
    method Invalidate(request: Request, matches: Request -> bool)
      requires Valid()
      modifies this`cache
      ensures Valid()
      ensures cache == map r | r in old(cache) && r != request && !matches(r) :: old(cache)[r]
    {
      cache := cache - {request};
      var todo := cache.Keys;
      ghost var before := cache;
      while todo != {}
        invariant todo <= before.Keys
        invariant cache == map r | r in before && (r in todo || !matches(r)) :: before[r]
      {
        var r :| r in todo;
        todo := todo - {r};
        if matches(r) {
          cache := cache - {r};
        }
      }
    }

    /** CleanupExpired: exactly the expired entries go, and their number is returned. */
    method CleanupExpired(now: int) returns (deleted: nat)
      requires Valid()
      modifies this`cache
      ensures Valid()
      ensures cache == map r | r in old(cache) && old(cache)[r].expiresAt > now :: old(cache)[r]
      ensures deleted == |set r | r in old(cache) && old(cache)[r].expiresAt <= now|
    {
      deleted := 0;
      var todo := cache.Keys;
      ghost var gone: set<Request> := {};
      while todo != {}
        invariant todo <= old(cache).Keys
        invariant gone == set r | r in old(cache) && r !in todo && old(cache)[r].expiresAt <= now
        invariant cache == old(cache) - gone && deleted == |gone|
      {
        var r :| r in todo;
        todo := todo - {r};
        if cache[r].expiresAt <= now {
          cache := cache - {r};
          gone := gone + {r};
          deleted := deleted + 1;
        }
      }
      assert gone == set r | r in old(cache) && old(cache)[r].expiresAt <= now;
    }
  }
}
