/** internal/artifact/memory_repository.go, memory_maintenance.go and local_store.go: the metadata rows, the durable
    delete outbox and the content-addressed objects, as the objects whose methods update them. */
module ArtifactRepository {
  import opened ArtifactModel
  import opened Ordering
  import opened Wrappers

  /** What Update does with a row: the version compare-and-swap. */
  function UpdateResult(rows: Rows, row: Artifact, expected: nat): Error {
    if !ValidRow(row) then InvalidRequest
    else if row.id !in rows then NotFound
    else if expected > 0 && rows[row.id].version != expected then Conflict
    else if row.version != rows[row.id].version + 1 then Conflict
    else NoError
  }

  /** The row is the next version of the stored one, whose version is the expected one unless that is zero. */
  predicate Follows(rows: Rows, row: Artifact, expected: nat) {
    row.id in rows && row.version == rows[row.id].version + 1 && (expected > 0 ==> rows[row.id].version == expected)
  }

  /** Whether an operation that would succeed takes effect, and what it reports. */
  predicate TakesEffect(result: Error, fault: Fault) {
    result == NoError && fault != Refused
  }

  function Reported(result: Error, fault: Fault): Error {
    if result == NoError && fault == Sound then NoError else if result == NoError || fault != Sound then Unavailable else result
  }

  class MemoryRepository {
    var items: Rows
    var objectDeletions: Outbox
    /** How storage keys are spelled. */
    const spelling: Key -> string

    constructor (spelling: Key -> string)
      ensures items == map[] && objectDeletions == map[] && this.spelling == spelling
    {
      items, objectDeletions, this.spelling := map[], map[], spelling;
    }

    method Create(row: Artifact, fault: Fault) returns (err: Error)
      modifies this`items
      ensures err == NoError ==> ValidRow(row) && row.id !in old(items)
      ensures items == old(items) || (row.id !in old(items) && items == old(items)[row.id := row])
      ensures err == NoError ==> row.id in items
      ensures ValidRow(row) && row.id !in old(items) && fault == Sound ==> err == NoError
    {
      var result := if !ValidRow(row) then InvalidRequest else if row.id in items then Conflict else NoError;
      if TakesEffect(result, fault) {
        items := items[row.id := row];
      }
      err := Reported(result, fault);
    }

    /** Update: the version compare-and-swap.  Either nothing changes, or the row replaces its direct predecessor, which has
        the expected version if one is given; a sound call replaces exactly when it may, and says so. */
    method Update(row: Artifact, expected: nat, fault: Fault) returns (err: Error)
      modifies this`items
      ensures items == if TakesEffect(UpdateResult(old(items), row, expected), fault) then old(items)[row.id := row] else old(items)
      ensures items == old(items) || (Follows(old(items), row, expected) && items == old(items)[row.id := row])
      ensures err == NoError ==> Follows(old(items), row, expected) && items == old(items)[row.id := row]
      ensures fault == Sound ==> (err == NoError <==> ValidRow(row) && Follows(old(items), row, expected))
      ensures err == NotFound ==> row.id !in old(items)
      ensures err == Conflict ==> row.id in old(items) && !Follows(old(items), row, expected)
      ensures fault == Sound && ValidRow(row) && !Follows(old(items), row, expected) ==>
        err == if row.id in old(items) then Conflict else NotFound
    {
      var result := UpdateResult(items, row, expected);
      if TakesEffect(result, fault) {
        items := items[row.id := row];
      }
      err := Reported(result, fault);
    }

    method Get(id: nat, fault: Fault) returns (err: Error, row: Option<Artifact>)
      ensures err == NoError <==> row.Some?
      ensures row.Some? ==> id in items && row.value == items[id]
      ensures id in items && fault == Sound ==> err == NoError
      ensures err == NotFound ==> id !in items
      ensures err in {NoError, NotFound, Unavailable}
    {
      var result := if id in items then NoError else NotFound;
      err := Reported(result, fault);
      row := if err == NoError then Some(items[id]) else None;
    }

    method Delete(id: nat, fault: Fault) returns (err: Error)
      modifies this`items
      ensures items == old(items) || items == old(items) - {id}
      ensures err == NoError || err == NotFound ==> items == old(items) - {id}
      ensures fault == Sound ==> items == old(items) - {id} && (err == NoError || err == NotFound)
    {
      var result := if id in items then NoError else NotFound;
      if TakesEffect(result, fault) {
        items := items - {id};
      }
      err := Reported(result, fault);
    }

    method FindReadyByProducerDigest(producerType: Name, producerID: Name, digest: Digest, fault: Fault)
      returns (err: Error, row: Option<Artifact>)
      ensures err == NoError <==> row.Some?
      ensures row.Some? ==> exists id :: id in items && items[id] == row.value
      ensures row.Some? ==> row.value.status == Ready && row.value.producerType == producerType
                            && row.value.producerID == producerID && row.value.digest == digest
      ensures err == NotFound ==> forall id | id in items :: !MatchesProducer(items[id], producerType, producerID, digest)
      ensures fault == Sound ==> err == NoError || err == NotFound
    {
      if fault != Sound {
        return Unavailable, None;
      }
      var todo := items.Keys;
      while todo != {}
        invariant todo <= items.Keys
        invariant forall id | id in items && id !in todo :: !MatchesProducer(items[id], producerType, producerID, digest)
      {
        var id :| id in todo;
        if MatchesProducer(items[id], producerType, producerID, digest) {
          return NoError, Some(items[id]);
        }
        todo := todo - {id};
      }
      return NotFound, None;
    }

    method CountByStorageKey(key: Key, fault: Fault) returns (err: Error, count: nat)
      ensures err == (if fault == Sound then NoError else Unavailable)
      ensures err == NoError ==> count == |References(items, key)|
    {
      err, count := if fault == Sound then NoError else Unavailable, 0;
      var todo := items.Keys;
      ghost var all := References(items, key);
      assert all - todo == {};
      while todo != {}
        invariant todo <= items.Keys && count == |all - todo|
      {
        var id :| id in todo;
        DoneNext(all, todo, id);
        if items[id].key == key && items[id].status != Failed {
          count := count + 1;
        }
        todo := todo - {id};
      }
      assert all - todo == all;
    }

    method CountActiveByStorageKey(key: Key, fault: Fault) returns (err: Error, count: nat)
      ensures err == (if fault == Sound then NoError else Unavailable)
      ensures err == NoError ==> count == |ActiveReferences(items, key)|
    {
      err, count := if fault == Sound then NoError else Unavailable, 0;
      var todo := items.Keys;
      ghost var all := ActiveReferences(items, key);
      assert all - todo == {};
      while todo != {}
        invariant todo <= items.Keys && count == |all - todo|
      {
        var id :| id in todo;
        DoneNext(all, todo, id);
        if items[id].key == key && items[id].status != Failed && items[id].status != Deleting {
          count := count + 1;
        }
        todo := todo - {id};
      }
      assert all - todo == all;
    }

    /** StoredUsage: one pass over the rows in an arbitrary order, each object counted when it is first met. */
    method StoredUsage(fault: Fault) returns (err: Error, bytes: nat)
      requires RowsWellFormed(items)
      ensures err == (if fault == Sound then NoError else Unavailable)
      ensures err == NoError ==> bytes == UsageBytes(items)
    {
      err, bytes := if fault == Sound then NoError else Unavailable, 0;
      var todo, seen := items.Keys, {};
      while todo != {}
        invariant todo <= items.Keys && bytes == TotalSize(seen)
        invariant seen == UsedKeys(items - todo)
      {
        var id :| id in todo;
        var row := items[id];
        ghost var done := items - todo;
        todo := todo - {id};
        assert items - todo == done[id := row];
        if row.status != Failed && row.key != NoKey && row.key !in seen {
          TotalSizeSplit(seen + {row.key}, row.key);
          assert seen + {row.key} - {row.key} == seen;
          seen := seen + {row.key};
          bytes := bytes + row.size;
        }
        UsedKeysStep(done, row);
      }
      assert items - todo == items;
    }

    /** DeleteByConversation removes the rows of a conversation and hands them back. */
    method DeleteByConversation(conversation: Name, fault: Fault) returns (err: Error, removed: seq<Artifact>)
      modifies this`items
      ensures items == old(items) || items == map id | id in old(items) && old(items)[id].conversation != conversation :: old(items)[id]
      ensures err == NoError ==> forall id | id in items :: items[id].conversation != conversation
      ensures err == NoError ==> forall k | 0 <= k < |removed| :: removed[k] in old(items).Values && removed[k].conversation == conversation
      ensures err == NoError ==> forall id | id in old(items) && old(items)[id].conversation == conversation :: old(items)[id] in removed
      ensures fault == Sound ==> err == NoError
    {
      removed := [];
      if fault == Refused {
        return Unavailable, [];
      }
      var todo := items.Keys;
      while todo != {}
        invariant todo <= old(items).Keys
        invariant items == map id | id in old(items) && (id in todo || old(items)[id].conversation != conversation) :: old(items)[id]
        invariant forall k | 0 <= k < |removed| :: removed[k] in old(items).Values && removed[k].conversation == conversation
        invariant forall id | id in old(items) && id !in todo && old(items)[id].conversation == conversation :: old(items)[id] in removed
      {
        var id :| id in todo;
        todo := todo - {id};
        if items[id].conversation == conversation {
          assert old(items)[id] in old(items).Values;
          removed := removed + [items[id]];
          items := items - {id};
        }
      }
      err := if fault == Lost then Unavailable else NoError;
    }

    /** The listings of stale and expired rows return the oldest matches, oldest first and at most `limit` of them, each
        once. */
    method List(matching: Artifact -> bool, age: Artifact -> int, limit: nat, fault: Fault) returns (err: Error, rows: seq<Artifact>)
      requires RowsWellFormed(items)
      ensures err == (if fault == Sound then NoError else Unavailable)
      ensures |rows| <= limit && |rows| <= |set id | id in items && matching(items[id])|
      ensures forall k | 0 <= k < |rows| :: rows[k].id in items && items[rows[k].id] == rows[k] && matching(rows[k])
      ensures forall j, k | 0 <= j < k < |rows| :: rows[j].id != rows[k].id
      ensures InOrder(rows, Older(age))
      ensures err == NoError ==> forall id, k | id in items && matching(items[id]) && items[id] !in rows && 0 <= k < |rows| ::
        !Older(age)(items[id], rows[k])
      ensures err == NoError && |set id | id in items && matching(items[id])| <= limit ==>
                forall id | id in items && matching(items[id]) :: items[id] in rows
    {
      if fault != Sound {
        return Unavailable, [];
      }
      var all := Collect(matching);
      OlderIsWeak(age, Elements(all));
      rows := FirstOf(all, Older(age), limit);
      DistinctDiffer(rows);
      assert forall k | 0 <= k < |rows| :: rows[k] in rows && rows[k] in all;
      err := NoError;
    }

    /** All matching rows, in an arbitrary order. */
    method Collect(matching: Artifact -> bool) returns (all: seq<Artifact>)
      requires RowsWellFormed(items)
      ensures Distinct(all) && |all| == |set id | id in items && matching(items[id])|
      ensures forall row :: row in all <==> row.id in items && items[row.id] == row && matching(row)
    {
      all := [];
      var todo := set id | id in items && matching(items[id]);
      ghost var matches := todo;
      while todo != {}
        invariant todo <= matches && |all| + |todo| == |matches| && Distinct(all)
        invariant forall row :: row in all <==> row.id in matches - todo && items[row.id] == row
      {
        var id :| id in todo;
        DistinctAppend(all, items[id]);
        todo := todo - {id};
        all := all + [items[id]];
      }
    }

    // ----- The delete outbox -----

    method EnqueueObjectDeletion(key: Key, now: int, fault: Fault) returns (err: Error)
      modifies this`objectDeletions
      ensures objectDeletions == old(objectDeletions)
              || (key != NoKey && key !in old(objectDeletions) && objectDeletions == old(objectDeletions)[key := ObjectDeletion(0, now, now)])
      ensures err == NoError ==> key in objectDeletions
      ensures key != NoKey && fault == Sound ==> err == NoError
    {
      if key == NoKey {
        return InvalidRequest;
      }
      if fault != Refused && key !in objectDeletions {
        objectDeletions := objectDeletions[key := ObjectDeletion(0, now, now)];
      }
      err := Reported(NoError, fault);
    }

    /** The entries whose time has come, those due first at the front, and by their keys when due at the same time. */
    method ListDueObjectDeletions(now: int, limit: nat, fault: Fault) returns (err: Error, due: seq<Key>)
      ensures err == (if fault == Sound then NoError else Unavailable)
      ensures forall k | 0 <= k < |due| :: due[k] in DueKeys(objectDeletions, now)
      ensures forall j, k | 0 <= j < k < |due| :: due[j] != due[k]
      ensures InOrder(due, DueBefore(objectDeletions, spelling))
      ensures err == NoError ==> forall key, k | key in DueKeys(objectDeletions, now) && key !in due && 0 <= k < |due| ::
        !DueBefore(objectDeletions, spelling)(key, due[k])
      ensures err == NoError && |DueKeys(objectDeletions, now)| <= limit ==> forall key | key in DueKeys(objectDeletions, now) :: key in due
    {
      due := [];
      if fault != Sound {
        return Unavailable, [];
      }
      var all, todo := [], DueKeys(objectDeletions, now);
      while todo != {}
        invariant todo <= DueKeys(objectDeletions, now) && |all| + |todo| == |DueKeys(objectDeletions, now)| && Distinct(all)
        invariant forall key :: key in all <==> key in DueKeys(objectDeletions, now) - todo
      {
        var key :| key in todo;
        DistinctAppend(all, key);
        todo := todo - {key};
        all := all + [key];
      }
      DueIsWeak(objectDeletions, spelling, Elements(all));
      due := FirstOf(all, DueBefore(objectDeletions, spelling), limit);
      DistinctDiffer(due);
      assert forall k | 0 <= k < |due| :: due[k] in due && due[k] in all;
      err := NoError;
    }

    method CompleteObjectDeletion(key: Key, fault: Fault) returns (err: Error)
      modifies this`objectDeletions
      ensures objectDeletions == old(objectDeletions) || objectDeletions == old(objectDeletions) - {key}
      ensures err == NoError || err == NotFound ==> objectDeletions == old(objectDeletions) - {key}
      ensures fault == Sound ==> err == NoError || err == NotFound
    {
      var result := if key in objectDeletions then NoError else NotFound;
      if TakesEffect(result, fault) {
        objectDeletions := objectDeletions - {key};
      }
      err := Reported(result, fault);
    }

    method RescheduleObjectDeletion(key: Key, attempts: nat, nextAttemptAt: int, fault: Fault) returns (err: Error)
      modifies this`objectDeletions
      ensures objectDeletions == old(objectDeletions)
              || (key in old(objectDeletions)
                  && objectDeletions == old(objectDeletions)[key := old(objectDeletions)[key].(attempts := attempts, nextAttemptAt := nextAttemptAt)])
      ensures fault == Sound && key in old(objectDeletions) ==>
                objectDeletions == old(objectDeletions)[key := old(objectDeletions)[key].(attempts := attempts, nextAttemptAt := nextAttemptAt)]
    {
      var result := if key in objectDeletions then NoError else NotFound;
      if TakesEffect(result, fault) {
        objectDeletions := objectDeletions[key := objectDeletions[key].(attempts := attempts, nextAttemptAt := nextAttemptAt)];
      }
      err := Reported(result, fault);
    }

    method HasObjectDeletion(key: Key, fault: Fault) returns (err: Error, pending: bool)
      ensures err == (if fault == Sound then NoError else Unavailable)
      ensures err == NoError ==> (pending <==> key in objectDeletions)
    {
      err, pending := Reported(NoError, fault), key in objectDeletions;
    }
  }

  /** Older rows first, and rows of the same age by their identifiers. */
  function Older(age: Artifact -> int): (Artifact, Artifact) -> bool {
    (a, b) => age(a) < age(b) || (age(a) == age(b) && a.id < b.id)
  }

  lemma OlderIsWeak(age: Artifact -> int, domain: set<Artifact>)
    ensures WeakOrder(Older(age), domain)
  {
  }

  /** What the listings of stale rows and of expired rows sort by. */
  function LastChange(row: Artifact): int {
    row.updatedAt
  }

  function Expiry(row: Artifact): int {
    if row.expiresAt.Some? then row.expiresAt.value else row.createdAt
  }

  function NextAttempt(outbox: Outbox, key: Key): int {
    if key in outbox then outbox[key].nextAttemptAt else 0
  }

  function DueBefore(outbox: Outbox, spelling: Key -> string): (Key, Key) -> bool {
    (a, b) => NextAttempt(outbox, a) < NextAttempt(outbox, b)
              || (NextAttempt(outbox, a) == NextAttempt(outbox, b) && Less(spelling(a), spelling(b)))
  }

  lemma DueIsWeak(outbox: Outbox, spelling: Key -> string, domain: set<Key>)
    ensures WeakOrder(DueBefore(outbox, spelling), domain)
  {
    var before := DueBefore(outbox, spelling);
    forall a, b | a in domain && b in domain && before(a, b) ensures !before(b, a) {
      LessIsWeak(spelling(a), spelling(b), spelling(a));
    }
    forall a, b, c | a in domain && b in domain && c in domain && !before(a, b) && !before(b, c) ensures !before(a, c) {
      LessIsWeak(spelling(a), spelling(b), spelling(c));
    }
  }

  /** Sorting, and cutting to the limit: what is left out comes before nothing that is kept. */
  method FirstOf<T(==, !new)>(all: seq<T>, before: (T, T) -> bool, limit: nat) returns (first: seq<T>)
    requires WeakOrder(before, Elements(all)) && Distinct(all)
    ensures |first| == (if |all| < limit then |all| else limit) && Distinct(first)
    ensures (forall x | x in first :: x in all) && (|all| <= limit ==> forall x | x in all :: x in first)
    ensures InOrder(first, before) && forall x, k | x in all && x !in first && 0 <= k < |first| :: !before(x, first[k])
  {
    var ordered := StableSort(all, before);
    StableSortOrders(all, before, before, Elements(all));
    SameElements(ordered, all);
    assert forall x :: x in ordered <==> x in Elements(ordered);
    assert forall x :: x in all <==> x in Elements(all);
    first := if |ordered| < limit then ordered else ordered[..limit];
    DistinctFirst(ordered, |first|);
    assert ordered[..|first|] == first;
    forall x, k | x in all && x !in first && 0 <= k < |first| ensures !before(x, first[k]) {
      var i :| 0 <= i < |ordered| && ordered[i] == x;
      assert i >= |first| ==> k < i && first[k] == ordered[k];
    }
  }

  lemma DoneNext(all: set<nat>, todo: set<nat>, id: nat)
    requires id in todo
    ensures |all - (todo - {id})| == |all - todo| + if id in all then 1 else 0
  {
    assert all - (todo - {id}) == (all - todo) + if id in all then {id} else {};
  }

  predicate MatchesProducer(row: Artifact, producerType: Name, producerID: Name, digest: Digest) {
    row.status == Ready && row.producerType == producerType && row.producerID == producerID && row.digest == digest
  }

  function DueKeys(outbox: Outbox, now: int): set<Key> {
    set k | k in outbox && outbox[k].nextAttemptAt <= now
  }

  lemma UsedKeysStep(rows: Rows, row: Artifact)
    requires row.id !in rows
    ensures UsedKeys(rows[row.id := row]) == UsedKeys(rows) + (if row.status != Failed && row.key != NoKey then {row.key} else {})
  {
    var after := rows[row.id := row];
    forall k | k in UsedKeys(rows) ensures k in UsedKeys(after) {
      var id :| id in rows && rows[id].status != Failed && rows[id].key != NoKey && rows[id].key == k;
      assert after[id].key == k;
    }
    if row.status != Failed && row.key != NoKey {
      assert after[row.id].key == row.key;
    }
  }

  // ----- The object store -----

  /** A limit of zero stands for the largest one; no larger limit is accepted. */
  predicate FitsLimit(content: seq<byte>, maxBytes: nat) {
    maxBytes <= 0x400_0000 && |content| <= if maxBytes == 0 then 0x400_0000 else maxBytes
  }

  class LocalContentStore {
    var objects: Objects

    constructor ()
      ensures objects == map[]
    {
      objects := map[];
    }

    /** Put: an object is created only when its key is absent, and only then the caller learns that it created it.  A
        sound call accepts exactly the content within its limit whose declared media type matches what is detected. */
    method Put(content: seq<byte>, maxBytes: nat, mimeMatches: bool, now: int, fault: Fault) returns (err: Error, key: Key, created: bool)
      modifies this
      ensures key == ContentKey(Sha256(content))
      ensures objects == old(objects) || (key !in old(objects) && objects == old(objects)[key := StoredObject(content, now)])
      ensures err == NoError ==> key in objects && (created <==> key !in old(objects)) && |content| <= DEFAULT_MAX_BYTES
      ensures fault == Sound ==> (err == NoError <==> FitsLimit(content, maxBytes) && mimeMatches)
      ensures fault == Sound && err != NoError ==> objects == old(objects) && !created
    {
      key, created := ContentKey(Sha256(content)), false;
      var limit := if maxBytes == 0 then DEFAULT_MAX_BYTES else maxBytes;
      if limit > DEFAULT_MAX_BYTES || fault == Refused {
        return if fault == Refused then Unavailable else InvalidRequest, key, created;
      }
      if |content| > limit {
        return TooLarge, key, created;
      }
      if !mimeMatches {
        return InvalidRequest, key, created;
      }
      if key !in objects {
        objects := objects[key := StoredObject(content, now)];
        created := true;
      }
      err := if fault == Lost then Unavailable else NoError;
    }

    method Delete(key: Key, fault: Fault) returns (err: Error)
      modifies this
      ensures objects == old(objects) || objects == old(objects) - {key}
      ensures err == NoError || err == ObjectMissing ==> objects == old(objects) - {key}
      ensures fault == Sound ==> err == NoError || err == ObjectMissing
    {
      var result := if key in objects then NoError else ObjectMissing;
      if TakesEffect(result, fault) {
        objects := objects - {key};
      }
      err := Reported(result, fault);
    }

    method Open(key: Key, fault: Fault) returns (err: Error, content: seq<byte>)
      ensures err == NoError <==> key in objects && fault == Sound
      ensures err == NoError ==> content == objects[key].content
      ensures err == ObjectMissing ==> key !in objects
      ensures err in {NoError, ObjectMissing, Unavailable}
    {
      content := if key in objects then objects[key].content else [];
      err := Reported(if key in objects then NoError else ObjectMissing, fault);
    }

    method ListObjects(fault: Fault) returns (err: Error, keys: seq<Key>)
      ensures err == (if fault == Sound then NoError else Unavailable)
      ensures err == NoError ==> (forall k :: k in keys <==> k in objects) && |keys| == |objects|
      ensures forall i, j | 0 <= i < j < |keys| :: keys[i] != keys[j]
    {
      keys := [];
      if fault != Sound {
        return Unavailable, [];
      }
      var todo := objects.Keys;
      while todo != {}
        invariant todo <= objects.Keys && |keys| + |todo| == |objects|
        invariant forall k | k in keys :: k in objects && k !in todo
        invariant forall k | k in objects && k !in todo :: k in keys
        invariant forall i, j | 0 <= i < j < |keys| :: keys[i] != keys[j]
      {
        var k :| k in todo;
        assert k !in keys;
        todo := todo - {k};
        keys := keys + [k];
        assert keys[|keys| - 1] == k;
      }
      err := NoError;
    }
  }
}
