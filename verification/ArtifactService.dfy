/** internal/artifact/artifact.go and maintenance.go: the service calls on top of the rows and the objects.

    Every call is atomic, but each repository or store call inside it may be refused by the environment, or take
    effect and still be reported as failed.  A healthy call is one in which none of that happens. */
module ArtifactService {
  import opened ArtifactModel
  import opened ArtifactRepository
  import opened Wrappers

  const MAX_SWEEP_BATCH: nat := 500
  const MAX_OBJECT_DELETION_BATCH: nat := 200
  const MAX_GARBAGE_COLLECT_BATCH: nat := 2000
  const BASE_DELAY: int := 1
  const MAX_DELAY: int := 360

  /** The fields of an upload request; `id` is the random identifier, `flagged` the outcome of the content scan, and
      `mimeMatches` whether the declared media type is compatible with the detected one. */
  datatype PutRequest = PutRequest(
    id: nat, user: Name, conversation: Name, producerType: Name, producerID: Name, isInput: bool,
    expiresAt: Option<int>, maxBytes: nat, content: seq<byte>, flagged: bool, mimeMatches: bool)

  method Environment(healthy: bool) returns (fault: Fault)
    ensures healthy ==> fault == Sound
  {
    if healthy {
      return Sound;
    }
    if * {
      return Sound;
    } else if * {
      return Refused;
    }
    return Lost;
  }

  /** objectDeletionBackoff, in minutes. */
  method ObjectDeletionBackoff(attempts: int) returns (delay: int)
    ensures delay == Backoff(attempts)
  {
    var n := if attempts < 1 then 1 else attempts;
    delay := BASE_DELAY;
    var index := 1;
    while index < n && delay < MAX_DELAY
      invariant 1 <= index <= n
      invariant delay == Pow2(index - 1)
      decreases n - index
    {
      delay := delay * 2;
      index := index + 1;
    }
    Pow2Grows(index - 1, n - 1);
    if delay > MAX_DELAY {
      delay := MAX_DELAY;
    }
  }

  function Pow2(n: nat): nat {
    if n == 0 then 1 else 2 * Pow2(n - 1)
  }

  lemma {:induction false} Pow2Grows(a: nat, b: nat)
    requires a <= b
    ensures Pow2(a) <= Pow2(b)
  {
    if a < b {
      Pow2Grows(a, b - 1);
    }
  }

  /** The retry delay doubles from one minute up to six hours. */
  function Backoff(attempts: int): int {
    var p := Pow2(if attempts < 1 then 0 else attempts - 1);
    if p < 360 then p else 360
  }

  class Service {
    const repository: MemoryRepository
    const store: LocalContentStore
    /** Zero means unlimited. */
    const quota: nat
    const staleUploadAge: nat
    const retention: nat
    const grace: nat

    constructor (quota: nat, staleUploadAge: nat, retention: nat, grace: nat, spelling: Key -> string)
      ensures Valid() && fresh(repository) && fresh(store) && this.quota == quota
    {
      repository := new MemoryRepository(spelling);
      store := new LocalContentStore();
      this.quota, this.staleUploadAge, this.retention, this.grace := quota, staleUploadAge, retention, grace;
      new;
      assert UsedKeys(repository.items) == {};
    }

    /** Object safety and the quota. */
    ghost predicate Valid()
      reads repository, store
    {
      Consistent(repository.items, store.objects) && (quota > 0 ==> UsageBytes(repository.items) <= quota)
    }

    // ----- Put -----

    /** enforceQuota: an object already accounted for is always admitted, a new one only when it fits. */
    method EnforceQuota(key: Key, size: nat, healthy: bool) returns (err: Error)
      requires Valid() && key != NoKey
      ensures err == NoError && quota > 0 ==> key in UsedKeys(repository.items) || UsageBytes(repository.items) + size <= quota
      ensures healthy ==>
        (err != NoError <==> quota > 0 && key !in UsedKeys(repository.items) && UsageBytes(repository.items) + size > quota)
    {
      UsedIffReferenced(repository.items, key);
      if quota == 0 {
        return NoError;
      }
      var fault := Environment(healthy);
      var usageErr, bytes := repository.StoredUsage(fault);
      if usageErr != NoError {
        return usageErr;
      }
      if bytes + size <= quota {
        return NoError;
      }
      fault := Environment(healthy);
      var countErr, count := repository.CountByStorageKey(key, fault);
      if countErr == NoError && count > 0 {
        return NoError;
      }
      return QuotaExceeded;
    }

    /** cleanupUncommitted: the row goes; the object only when this upload created it and no row refers to it. */
    method CleanupUncommitted(id: nat, key: Key, created: bool, healthy: bool)
      requires Valid()
      modifies repository`items, store
      ensures Valid()
      ensures repository.items == old(repository.items) || repository.items == old(repository.items) - {id}
      ensures healthy ==> repository.items == old(repository.items) - {id}
      ensures store.objects == old(store.objects)
              || (created && store.objects == old(store.objects) - {key} && References(repository.items, key) == {})
    {
      var fault := Environment(healthy);
      var _ := repository.Delete(id, fault);
      UsedKeysOfFewer(old(repository.items), repository.items);
      if key == NoKey || !created {
        return;
      }
      fault := Environment(healthy);
      var err, count := repository.CountByStorageKey(key, fault);
      if err == NoError && count == 0 {
        CountsRelate(repository.items, key, id);
        UnreferencedIsRemovable(repository.items, store.objects, key);
        fault := Environment(healthy);
        var _ := store.Delete(key, fault);
      }
    }

    /** The row an upload starts with. */
    function UploadingRow(request: PutRequest, now: int): Artifact {
      Artifact(request.id, 1, request.user, request.conversation, request.producerType, request.producerID, request.isInput,
        0, NoDigest, NoKey, Uploading, None,
        if request.expiresAt.None? && request.isInput && retention > 0 then Some(now + retention) else request.expiresAt,
        now, now)
    }

    /** The row that publishes the upload, or keeps it in quarantine when the content scan flagged it. */
    function CommittedRow(request: PutRequest, now: int, committedAt: int): Artifact {
      var digest := Sha256(request.content);
      UploadingRow(request, now).(version := 2, digest := digest, size := |request.content|, key := ContentKey(digest),
        status := if request.flagged then Quarantined else Ready, updatedAt := committedAt)
    }

    /** What a successful upload hands out: its own row, or an earlier row of the same producer, owner and content. */
    ghost predicate Delivers(rows: Rows, row: Artifact, request: PutRequest, now: int) {
      && row.id in rows && rows[row.id] == row && row.digest == Sha256(request.content)
      && row.user == request.user && row.conversation == request.conversation
      && row.producerType == request.producerType && row.producerID == request.producerID
      && if row.id == request.id then IsUpload(row, request, now)
         else row.status == Ready && row.producerType != BLANK && row.producerID != BLANK
    }

    /** An upload's own row: to be read unless the content scan flagged it, expiring when the request says, or after the
        retention period when it is an input that says nothing. */
    ghost predicate IsUpload(row: Artifact, request: PutRequest, now: int) {
      && (row.status == Quarantined <==> request.flagged) && (row.status == Ready <==> !request.flagged)
      && row.size == |request.content| && row.isInput == request.isInput && row.extraction == None && row.createdAt == now
      && (request.expiresAt.Some? || !request.isInput || retention == 0 ==> row.expiresAt == request.expiresAt)
      && (request.expiresAt.None? && request.isInput && retention > 0 ==> row.expiresAt == Some(now + retention))
    }

    /** Whether the quota has room for the content. */
    ghost predicate HasRoom(rows: Rows, request: PutRequest) {
      quota == 0 || ContentKey(Sha256(request.content)) in UsedKeys(rows) || UsageBytes(rows) + |request.content| <= quota
    }

    /** The identifier is new, the row valid, the content within its limit and of its media type, and the quota has room. */
    ghost predicate Admissible(rows: Rows, request: PutRequest, now: int) {
      && ValidRow(UploadingRow(request, now)) && request.id !in rows
      && FitsLimit(request.content, request.maxBytes) && request.mimeMatches && HasRoom(rows, request)
    }

    /** What is left of an upload that was refused: a failed row when its content was not accepted, and nothing when the
        quota had no room for it. */
    ghost predicate Refuses(before: Rows, after: Rows, request: PutRequest) {
      if FitsLimit(request.content, request.maxBytes) && request.mimeMatches then request.id !in after
      else request.id in after && after[request.id].status == Failed
    }

    /** Put.  On success the caller gets a published row with the content's digest: the row of this upload, or an
        earlier one of the same producer, owner and content.  On failure nothing new is visible, unless the very call
        that publishes or withdraws the row is reported as failed.  No object is ever taken from another row. */
    method Put(request: PutRequest, now: int, committedAt: int, healthy: bool) returns (err: Error, row: Option<Artifact>)
      requires Valid()
      modifies repository`items, store
      ensures Valid()
      ensures err == NoError <==> row.Some?
      ensures row.Some? ==> Delivers(repository.items, row.value, request, now)
      ensures row.Some? && row.value.id == request.id ==> row.value.status == if request.flagged then Quarantined else Ready
      ensures healthy && row.Some? ==> (row.value.id == request.id <==> !HasMatch(old(repository.items), request, true))
      ensures healthy && row.Some? && row.value.id != request.id ==> repository.items == old(repository.items)
      ensures healthy && err != NoError && request.id !in old(repository.items) ==> NotVisible(repository.items, request.id)
      ensures healthy && Admissible(old(repository.items), request, now) && !HasMatch(old(repository.items), request, false) ==> err == NoError
      ensures healthy && err == NoError ==>
        && Admissible(old(repository.items), request, now)
        && (HasMatch(old(repository.items), request, false) ==> HasMatch(old(repository.items), request, true))
      ensures KeepsOthers(old(repository.items), repository.items, request.id)
      ensures KeepsObjects(old(store.objects), store.objects, ContentKey(Sha256(request.content)))
    {
      var created;
      err, created := Upload(request, now, committedAt, healthy);
      if err != NoError {
        return err, None;
      }
      ghost var before := repository.items;
      UploadingMatchesNothing(old(repository.items), UploadingRow(request, now), request);
      err, row := Commit(request, now, committedAt, created, healthy);
      OthersUnchanged(before, repository.items, request.id);
    }

    /** The first half of Put: the uploading row, the object, and the quota. */
    method Upload(request: PutRequest, now: int, committedAt: int, healthy: bool) returns (err: Error, created: bool)
      requires Valid()
      modifies repository`items, store
      ensures Valid()
      ensures var key := ContentKey(Sha256(request.content));
        err == NoError ==>
          && request.id !in old(repository.items) && repository.items == old(repository.items)[request.id := UploadingRow(request, now)]
          && key in store.objects && (created <==> key !in old(store.objects)) && |request.content| <= DEFAULT_MAX_BYTES
          && HasRoom(repository.items, request)
      ensures err != NoError && request.id !in old(repository.items) ==> NotVisible(repository.items, request.id)
      ensures healthy ==> (err == NoError <==> Admissible(old(repository.items), request, now))
      ensures healthy && err != NoError && request.id !in old(repository.items) ==>
        repository.items == old(repository.items) || Refuses(old(repository.items), repository.items, request)
      ensures KeepsOthers(old(repository.items), repository.items, request.id)
      ensures KeepsObjects(old(store.objects), store.objects, ContentKey(Sha256(request.content)))
    {
      created := false;
      var item := UploadingRow(request, now);
      if !ValidRow(item) {
        return InvalidRequest, false;
      }
      KeylessRowIsHarmless(repository.items, store.objects, item);
      var fault := Environment(healthy);
      err := repository.Create(item, fault);
      if err != NoError {
        return err, false;
      }
      KeylessRowUsesNothing(old(repository.items), item);
      ghost var middle := repository.items;
      err, created := Admit(request, item, now, committedAt, healthy);
      OthersUnchanged(middle, repository.items, item.id);
    }

    /** The object is stored and the quota looked at; when either fails, the uploading row is closed or removed. */
    method Admit(request: PutRequest, item: Artifact, now: int, committedAt: int, healthy: bool) returns (err: Error, created: bool)
      requires Valid() && item.id in repository.items && repository.items[item.id] == item && item.status == Uploading && item.version == 1
      requires item.id == request.id
      modifies repository`items, store
      ensures Valid()
      ensures var key := ContentKey(Sha256(request.content));
        err == NoError ==>
          && repository.items == old(repository.items) && HasRoom(repository.items, request)
          && key in store.objects && (created <==> key !in old(store.objects)) && |request.content| <= DEFAULT_MAX_BYTES
      ensures err != NoError ==> NotVisible(repository.items, item.id)
      ensures healthy ==>
        (err == NoError <==> FitsLimit(request.content, request.maxBytes) && request.mimeMatches && HasRoom(old(repository.items), request))
      ensures healthy && err != NoError ==> Refuses(old(repository.items), repository.items, request)
      ensures repository.items - {item.id} == old(repository.items) - {item.id}
      ensures KeepsObjects(old(store.objects), store.objects, ContentKey(Sha256(request.content)))
    {
      var key;
      var fault := Environment(healthy);
      err, key, created := store.Put(request.content, request.maxBytes, request.mimeMatches, now, fault);
      if err != NoError {
        FailRow(item, committedAt, healthy);
        return err, false;
      }
      err := EnforceQuota(key, |request.content|, healthy);
      if err != NoError {
        CleanupUncommitted(item.id, key, created, healthy);
      }
    }

    method FailRow(item: Artifact, committedAt: int, healthy: bool)
      requires Valid() && item.id in repository.items && repository.items[item.id] == item && item.status == Uploading && item.version == 1
      modifies repository`items
      ensures Valid() && NotVisible(repository.items, item.id)
      ensures repository.items - {item.id} == old(repository.items) - {item.id}
      ensures healthy ==> item.id in repository.items && repository.items[item.id].status == Failed
    {
      var failed := item.(status := Failed, version := 2, updatedAt := committedAt);
      KeylessRowIsHarmless(repository.items, store.objects, failed);
      var fault := Environment(healthy);
      var _ := repository.Update(failed, 1, fault);
    }

    /** The second half of Put, after the object was admitted: an equal upload of the same producer is returned as it
        is, and otherwise the row is published by the version compare-and-swap. */
    method Commit(request: PutRequest, now: int, committedAt: int, created: bool, healthy: bool)
      returns (err: Error, row: Option<Artifact>)
      requires Valid()
      requires request.id in repository.items && repository.items[request.id] == UploadingRow(request, now)
      requires ContentKey(Sha256(request.content)) in store.objects && |request.content| <= DEFAULT_MAX_BYTES
      requires HasRoom(repository.items, request)
      modifies repository`items, store
      ensures Valid()
      ensures err == NoError <==> row.Some?
      ensures row.Some? ==> Delivers(repository.items, row.value, request, now)
      ensures row.Some? && row.value.id == request.id ==> row.value.status == if request.flagged then Quarantined else Ready
      ensures healthy && row.Some? ==> (row.value.id == request.id <==> !HasMatch(old(repository.items), request, true))
      ensures healthy && row.Some? && row.value.id != request.id ==> repository.items == old(repository.items) - {request.id}
      ensures healthy && err != NoError ==> request.id !in repository.items
      ensures healthy && !HasMatch(old(repository.items), request, false) ==> err == NoError
      ensures healthy && err == NoError && HasMatch(old(repository.items), request, false) ==> HasMatch(old(repository.items), request, true)
      ensures repository.items - {request.id} == old(repository.items) - {request.id}
      ensures store.objects == old(store.objects) || (created && store.objects == old(store.objects) - {ContentKey(Sha256(request.content))})
    {
      var item := CommittedRow(request, now, committedAt);
      var findErr, found := FindEarlier(item, healthy);
      if findErr == NoError && found.value.id != item.id {
        var existing := found.value;
        if existing.key != item.key && created {
          // Equal digests have equal keys, so the new object is never withdrawn here.
          assert false;
        }
        Withdraw(item.id, healthy);
        if existing.user != item.user || existing.conversation != item.conversation {
          return Conflict, None;
        }
        return NoError, Some(existing);
      } else if findErr != NoError && findErr != NotFound {
        Withdraw(item.id, healthy);
        return findErr, None;
      }
      err := Publish(item, created, healthy);
      row := if err == NoError then Some(item) else None;
    }

    method FindEarlier(item: Artifact, healthy: bool) returns (err: Error, row: Option<Artifact>)
      ensures err == NoError <==> row.Some?
      ensures row.Some? ==> exists id :: id in repository.items && repository.items[id] == row.value
      ensures row.Some? ==> MatchesProducer(row.value, item.producerType, item.producerID, item.digest)
      ensures row.Some? ==> item.producerType != BLANK && item.producerID != BLANK
      ensures err == NotFound && item.producerType != BLANK && item.producerID != BLANK ==>
        forall id | id in repository.items :: !MatchesProducer(repository.items[id], item.producerType, item.producerID, item.digest)
      ensures healthy ==> err == NoError || err == NotFound
    {
      if item.producerType == BLANK || item.producerID == BLANK {
        return NotFound, None;
      }
      var fault := Environment(healthy);
      err, row := repository.FindReadyByProducerDigest(item.producerType, item.producerID, item.digest, fault);
    }

    method Withdraw(id: nat, healthy: bool)
      requires Valid()
      modifies repository`items
      ensures Valid()
      ensures repository.items == old(repository.items) || repository.items == old(repository.items) - {id}
      ensures healthy ==> repository.items == old(repository.items) - {id}
    {
      var fault := Environment(healthy);
      var _ := repository.Delete(id, fault);
      UsedKeysOfFewer(old(repository.items), repository.items);
    }

    /** The last lines of Put: validation and the compare-and-swap from the first to the second version. */
    method Publish(item: Artifact, created: bool, healthy: bool) returns (err: Error)
      requires Valid()
      requires item.id in repository.items && repository.items[item.id].version == 1 && item.version == 2
      requires repository.items[item.id].key == NoKey && item.key == ContentKey(item.digest) && item.digest.Sha256?
      requires item.size == |item.digest.content| && Published(item) && item.key in store.objects
      requires quota > 0 ==> item.key in UsedKeys(repository.items) || UsageBytes(repository.items) + item.size <= quota
      modifies repository`items, store
      ensures Valid()
      ensures err == NoError ==> repository.items == old(repository.items)[item.id := item]
      ensures repository.items - {item.id} == old(repository.items) - {item.id}
      ensures healthy && err != NoError ==> item.id !in repository.items
      ensures healthy && ValidRow(item) ==> err == NoError
      ensures store.objects == old(store.objects) || (created && store.objects == old(store.objects) - {item.key})
    {
      if !ValidRow(item) {
        CleanupUncommitted(item.id, item.key, created, healthy);
        return InvalidRequest;
      }
      err := Swap(item, healthy);
      if err != NoError {
        CleanupUncommitted(item.id, item.key, created, healthy);
      }
    }

    method Swap(item: Artifact, healthy: bool) returns (err: Error)
      requires Valid() && ValidRow(item)
      requires item.id in repository.items && repository.items[item.id].version == 1 && item.version == 2
      requires repository.items[item.id].key == NoKey && item.key == ContentKey(item.digest) && item.digest.Sha256?
      requires item.size == |item.digest.content| && Published(item) && item.key in store.objects
      requires quota > 0 ==> item.key in UsedKeys(repository.items) || UsageBytes(repository.items) + item.size <= quota
      modifies repository`items
      ensures Valid()
      ensures err == NoError ==> repository.items == old(repository.items)[item.id := item]
      ensures repository.items - {item.id} == old(repository.items) - {item.id}
      ensures healthy ==> err == NoError
    {
      PublishIsConsistent(repository.items, store.objects, item);
      UsageAfterPublish(repository.items, item);
      var fault := Environment(healthy);
      err := repository.Update(item, 1, fault);
    }

    // ----- Reading -----

    method GetOwned(user: Name, id: nat, enforceExpiry: bool, now: int, healthy: bool) returns (err: Error, row: Option<Artifact>)
      ensures err == NoError <==> row.Some?
      ensures row.Some? ==> id in repository.items && row.value == repository.items[id] && row.value.user == user && user != BLANK
      ensures row.Some? && enforceExpiry ==> row.value.expiresAt.None? || row.value.expiresAt.value > now
      ensures healthy && err != NoError ==>
        id !in repository.items || user == BLANK || repository.items[id].user != user
        || (enforceExpiry && repository.items[id].expiresAt.Some? && repository.items[id].expiresAt.value <= now)
      ensures err == NotFound ==> id !in repository.items
      ensures err in {NoError, NotFound, Unavailable, Forbidden, Expired}
    {
      var fault := Environment(healthy);
      err, row := repository.Get(id, fault);
      if err != NoError {
        return err, None;
      }
      if user == BLANK || row.value.user != user {
        return Forbidden, None;
      }
      if enforceExpiry && row.value.expiresAt.Some? && row.value.expiresAt.value <= now {
        return Expired, None;
      }
    }

    /** Open: what is read back is the content the row's digest and size state, and a healthy read of a ready,
        unexpired row of one's own never fails. */
    method Open(user: Name, id: nat, now: int, healthy: bool) returns (err: Error, content: seq<byte>)
      requires Valid()
      ensures err == NoError ==>
        && id in repository.items && repository.items[id].status == Ready && repository.items[id].user == user
        && repository.items[id].digest == Sha256(content) && repository.items[id].size == |content|
      ensures err == NoError ==> repository.items[id].expiresAt.Some? ==> now < repository.items[id].expiresAt.value
      ensures healthy && user != BLANK && id in repository.items && Readable(repository.items[id], user, now) ==> err == NoError
      ensures err == InQuarantine ==> id in repository.items && repository.items[id].status == Quarantined
      ensures (&& healthy && user != BLANK && id in repository.items && repository.items[id].user == user
               && repository.items[id].status == Quarantined
               && (repository.items[id].expiresAt.Some? ==> now < repository.items[id].expiresAt.value)) ==> err == InQuarantine
      ensures err != ObjectMissing
    {
      content := [];
      var row;
      err, row := GetOwned(user, id, true, now, healthy);
      if err != NoError {
        return err, [];
      }
      if row.value.status == Quarantined {
        return InQuarantine, [];
      }
      if row.value.status != Ready {
        return Conflict, [];
      }
      var fault := Environment(healthy);
      err, content := store.Open(row.value.key, fault);
    }

    /** Extract: the projection of a ready row is written once, by the compare-and-swap on the version that was read. */
    method Extract(user: Name, id: nat, projection: nat, now: int, healthy: bool) returns (err: Error, result: nat)
      requires Valid()
      modifies repository`items
      ensures Valid()
      ensures err == NoError ==>
        && id in repository.items && repository.items[id].extraction == Some(result)
        && id in old(repository.items) && old(repository.items)[id].status == Ready && repository.items[id].status == Ready
        && (old(repository.items)[id].extraction.Some? ==> repository.items == old(repository.items))
        && (old(repository.items)[id].extraction.None? ==> result == projection)
      ensures healthy ==>
        (err == NoError <==> user != BLANK && id in old(repository.items) && Readable(old(repository.items)[id], user, now))
      ensures repository.items == old(repository.items)
              || (id in old(repository.items)
                  && repository.items == old(repository.items)[id := Projected(old(repository.items)[id], projection, now)])
    {
      result := projection;
      var row;
      err, row := GetOwned(user, id, true, now, healthy);
      if err != NoError {
        return err, projection;
      }
      var item := row.value;
      if item.status != Ready {
        return if item.status == Quarantined then InQuarantine else Conflict, projection;
      }
      if item.extraction.Some? {
        return NoError, item.extraction.value;
      }
      err, result := PersistExtraction(item, projection, now, healthy);
    }

    /** persistExtraction, for a row that was read at any time before: other calls may have come in between, but a version
        still stands for one value.  Whatever is handed out is what the row holds; when another caller was first, nothing is
        written and its projection is handed out; and without faults the call fails only on a row that is gone, or has
        changed without a projection. */
    method PersistExtraction(item: Artifact, projection: nat, now: int, healthy: bool) returns (err: Error, result: nat)
      requires Valid() && item.status == Ready && item.extraction.None? && WellFormed(item)
      requires item.id in repository.items && repository.items[item.id].version == item.version ==> repository.items[item.id] == item
      modifies repository`items
      ensures Valid()
      ensures err == NoError ==> item.id in repository.items && repository.items[item.id].extraction == Some(result)
      ensures err == NoError && item.id in old(repository.items) && old(repository.items)[item.id] != item ==>
        repository.items == old(repository.items) && old(repository.items)[item.id].extraction == Some(result)
      ensures err == NoError && item.id in old(repository.items) && old(repository.items)[item.id] == item ==> result == projection
      ensures healthy ==>
        (err == NoError <==> item.id in old(repository.items)
                             && (old(repository.items)[item.id] == item || old(repository.items)[item.id].extraction.Some?))
      ensures repository.items == old(repository.items)
              || (item.id in old(repository.items) && old(repository.items)[item.id] == item
                  && repository.items == old(repository.items)[item.id := Projected(item, projection, now)])
    {
      result := projection;
      var updated := Projected(item, projection, now);
      var fault := Environment(healthy);
      if item.id in repository.items && repository.items[item.id] == item {
        SameObjectIsHarmless(repository.items, store.objects, updated);
      }
      err := repository.Update(updated, item.version, fault);
      if err == Conflict {
        fault := Environment(healthy);
        var getErr, current := repository.Get(item.id, fault);
        if getErr == NoError && current.value.extraction.Some? {
          return NoError, current.value.extraction.value;
        }
      }
    }

    function Projected(row: Artifact, projection: nat, now: int): Artifact {
      row.(extraction := Some(projection), version := row.version + 1, updatedAt := now)
    }

    predicate Readable(row: Artifact, user: Name, now: int) {
      row.status == Ready && row.user == user && (row.expiresAt.Some? ==> now < row.expiresAt.value)
    }

    // ----- Deletion -----

    /** Delete: the row is marked, the object goes when no other row refers to it, and then the row goes.  An object
        that cannot be removed is queued; only when that fails too does the marked row stay behind. */
    method Delete(user: Name, id: nat, now: int, healthy: bool) returns (err: Error)
      requires Valid()
      modifies repository, store
      ensures Valid()
      ensures forall other | other != id && other in old(repository.items) ::
        other in repository.items && repository.items[other] == old(repository.items)[other]
      ensures OnlyCloses(old(repository.items), repository.items)
      ensures err == NoError ==> id !in repository.items
      ensures OnlyRemovesUnreferenced(old(store.objects), store.objects, repository.items)
      ensures healthy ==> repository.objectDeletions == old(repository.objectDeletions)
      ensures healthy && err == NoError ==> repository.items == old(repository.items) - {id}
      ensures healthy && err != NoError ==> repository.items == old(repository.items)
      ensures healthy && user != BLANK && id in old(repository.items) && old(repository.items)[id].user == user ==> err == NoError
      ensures healthy && err == NoError && id in old(repository.items) && old(repository.items)[id].key != NoKey ==>
        (old(repository.items)[id].key in store.objects ==> References(repository.items, old(repository.items)[id].key) != {})
    {
      var row;
      err, row := GetOwned(user, id, false, now, healthy);
      if err != NoError {
        return err;
      }
      var item;
      err, item := MarkDeleting(row.value, now, healthy);
      if err != NoError && err != Conflict {
        return err;
      }
      err := ReclaimObject(item, now, healthy);
      if err != NoError {
        return err;
      }
      LastReference(repository.items, item);
      err := RemoveRow(id, healthy);
    }

    /** The status flip of Delete; a row already marked is left as it is. */
    method MarkDeleting(row: Artifact, now: int, healthy: bool) returns (err: Error, marked: Artifact)
      requires Valid() && row.id in repository.items && repository.items[row.id] == row
      modifies repository`items
      ensures Valid()
      ensures marked.status == Deleting && marked.id == row.id && marked.key == row.key
      ensures repository.items == old(repository.items) || repository.items == old(repository.items)[row.id := marked]
      ensures err == NoError ==> repository.items == old(repository.items)[row.id := marked]
      ensures healthy ==> err == NoError
      ensures err != Conflict
    {
      marked := row;
      if row.status == Deleting {
        return NoError, row;
      }
      marked := row.(status := Deleting, version := row.version + 1, updatedAt := now);
      SameObjectIsHarmless(repository.items, store.objects, marked);
      var fault := Environment(healthy);
      err := repository.Update(marked, row.version, fault);
    }

    /** The last step of Delete; a row that is gone already counts as removed. */
    method RemoveRow(id: nat, healthy: bool) returns (err: Error)
      requires Valid()
      modifies repository`items
      ensures Valid()
      ensures repository.items == old(repository.items) || repository.items == old(repository.items) - {id}
      ensures err == NoError || healthy ==> repository.items == old(repository.items) - {id}
      ensures healthy ==> err == NoError
    {
      var fault := Environment(healthy);
      err := repository.Delete(id, fault);
      UsedKeysOfFewer(old(repository.items), repository.items);
      if err == NotFound {
        return NoError;
      }
    }

    /** The object half of Delete, for a row that is already marked. */
    method ReclaimObject(item: Artifact, now: int, healthy: bool) returns (err: Error)
      requires Valid()
      requires item.id in repository.items && repository.items[item.id] == item && item.status == Deleting
      modifies repository`objectDeletions, store
      ensures Valid() && repository.items == old(repository.items)
      ensures store.objects == old(store.objects)
              || (store.objects == old(store.objects) - {item.key} && ActiveReferences(repository.items, item.key) == {})
      ensures healthy ==> err == NoError && repository.objectDeletions == old(repository.objectDeletions)
      ensures healthy && item.key != NoKey && |References(repository.items, item.key)| <= 1 ==> item.key !in store.objects
    {
      if item.key == NoKey {
        return NoError;
      }
      var fault := Environment(healthy);
      var countErr, count := repository.CountByStorageKey(item.key, fault);
      if countErr != NoError {
        return countErr;
      }
      if count <= 1 {
        CountsRelate(repository.items, item.key, item.id);
        UnreferencedIsRemovable(repository.items, store.objects, item.key);
        fault := Environment(healthy);
        var deleteErr := store.Delete(item.key, fault);
        if deleteErr != NoError && deleteErr != ObjectMissing {
          fault := Environment(healthy);
          var enqueueErr := repository.EnqueueObjectDeletion(item.key, now, fault);
          if enqueueErr != NoError {
            return deleteErr;
          }
        }
      }
      err := NoError;
    }

    /** DeleteConversation: the rows go first; an object goes when no row refers to it any more. */
    method DeleteConversation(conversation: Name, now: int, healthy: bool) returns (err: Error)
      requires Valid()
      modifies repository, store
      ensures Valid()
      ensures OnlyKeepsOldRows(old(repository.items), repository.items)
      ensures err == NoError ==> forall id | id in repository.items :: repository.items[id].conversation != conversation
      ensures OnlyRemovesUnreferenced(old(store.objects), store.objects, repository.items)
      ensures healthy ==> err == NoError && repository.objectDeletions == old(repository.objectDeletions)
      ensures healthy ==> forall id | id in old(repository.items) && old(repository.items)[id].conversation == conversation ::
        old(repository.items)[id].key in store.objects ==> References(repository.items, old(repository.items)[id].key) != {}
    {
      var fault := Environment(healthy);
      var removed;
      err, removed := repository.DeleteByConversation(conversation, fault);
      UsedKeysOfFewer(old(repository.items), repository.items);
      if err != NoError {
        return err;
      }
      err := ReclaimAll(removed, now, healthy);
    }

    /** The loop over the removed rows, each object key once. */
    method ReclaimAll(removed: seq<Artifact>, now: int, healthy: bool) returns (err: Error)
      requires Valid()
      modifies repository`objectDeletions, store
      ensures Valid() && repository.items == old(repository.items)
      ensures OnlyRemovesUnreferenced(old(store.objects), store.objects, repository.items)
      ensures healthy ==> err == NoError && repository.objectDeletions == old(repository.objectDeletions)
      ensures healthy ==> forall k | 0 <= k < |removed| && removed[k].key != NoKey && removed[k].key in store.objects ::
        References(repository.items, removed[k].key) != {}
    {
      var seen: set<Key> := {};
      for i := 0 to |removed|
        invariant Valid() && repository.items == old(repository.items)
        invariant OnlyRemovesUnreferenced(old(store.objects), store.objects, repository.items)
        invariant healthy ==> repository.objectDeletions == old(repository.objectDeletions)
        invariant forall k | 0 <= k < i && removed[k].key != NoKey :: removed[k].key in seen
        invariant healthy ==> forall key | key in seen && key in store.objects :: References(repository.items, key) != {}
      {
        var key := removed[i].key;
        if key != NoKey && key !in seen {
          seen := seen + {key};
          err := ReclaimKey(key, now, healthy);
          if err != NoError {
            return err;
          }
        }
      }
      err := NoError;
    }

    method ReclaimKey(key: Key, now: int, healthy: bool) returns (err: Error)
      requires Valid() && key != NoKey
      modifies repository`objectDeletions, store
      ensures Valid() && repository.items == old(repository.items)
      ensures store.objects == old(store.objects)
              || (store.objects == old(store.objects) - {key} && ActiveReferences(repository.items, key) == {})
      ensures healthy ==> err == NoError && repository.objectDeletions == old(repository.objectDeletions)
      ensures healthy && References(repository.items, key) == {} ==> key !in store.objects
    {
      var fault := Environment(healthy);
      var countErr, count := repository.CountByStorageKey(key, fault);
      if countErr != NoError {
        return countErr;
      }
      if count == 0 {
        CountsRelate(repository.items, key, 0);
        UnreferencedIsRemovable(repository.items, store.objects, key);
        fault := Environment(healthy);
        var deleteErr := store.Delete(key, fault);
        if deleteErr != NoError && deleteErr != ObjectMissing {
          fault := Environment(healthy);
          var enqueueErr := repository.EnqueueObjectDeletion(key, now, fault);
          if enqueueErr != NoError {
            return deleteErr;
          }
        }
      }
      err := NoError;
    }

    // ----- Maintenance -----

    predicate IsExpired(row: Artifact, now: int) {
      && Published(row)
      && (if row.expiresAt.Some? then row.expiresAt.value <= now
          else row.isInput && retention > 0 && row.createdAt <= now - retention)
    }

    function ExpiredRows(rows: Rows, now: int): set<nat> {
      set id | id in rows && IsExpired(rows[id], now)
    }

    /** No published row is left whose time has passed, or that is an input older than the retention period. */
    ghost predicate NothingOverdue(rows: Rows, now: int) {
      forall id | id in rows && (rows[id].status == Ready || rows[id].status == Quarantined) ::
        && (rows[id].expiresAt.Some? ==> now < rows[id].expiresAt.value)
        && (rows[id].expiresAt.None? && rows[id].isInput && retention > 0 ==> now < rows[id].createdAt + retention)
    }

    /** Published rows whose time has not come are as they were, and so are those that never expire. */
    ghost predicate KeepsLive(before: Rows, after: Rows, now: int) {
      forall id | id in before && (before[id].status == Ready || before[id].status == Quarantined) ::
        (&& (before[id].expiresAt.Some? ==> now < before[id].expiresAt.value)
         && (before[id].expiresAt.None? && before[id].isInput && retention > 0 ==> now < before[id].createdAt + retention)) ==>
        id in after && after[id] == before[id]
    }

    /** DeleteExpiredArtifacts: the expired rows, a batch at a time, through the ordinary deletion. */
    method DeleteExpiredArtifacts(now: int, healthy: bool) returns (err: Error, deleted: nat)
      requires Valid()
      modifies repository, store
      ensures Valid()
      ensures OnlyCloses(old(repository.items), repository.items)
      ensures healthy ==> OnlyKeepsOldRows(old(repository.items), repository.items)
      ensures forall id | id in old(repository.items) && !IsExpired(old(repository.items)[id], now) ::
        id in repository.items && repository.items[id] == old(repository.items)[id]
      ensures OnlyRemovesUnreferenced(old(store.objects), store.objects, repository.items)
      ensures healthy ==> err == NoError && repository.objectDeletions == old(repository.objectDeletions)
      ensures healthy && |ExpiredRows(old(repository.items), now)| <= MAX_SWEEP_BATCH ==> ExpiredRows(repository.items, now) == {}
      ensures healthy && |ExpiredRows(old(repository.items), now)| <= MAX_SWEEP_BATCH ==> NothingOverdue(repository.items, now)
      ensures KeepsLive(old(repository.items), repository.items, now)
    {
      deleted := 0;
      var fault := Environment(healthy);
      var rows;
      var matching := row => IsExpired(row, now);
      err, rows := repository.List(matching, Expiry, MAX_SWEEP_BATCH, fault);
      assert ExpiredRows(repository.items, now) == set id | id in repository.items && matching(repository.items[id]);
      if err != NoError {
        return err, 0;
      }
      deleted := DeleteRows(rows, now, healthy);
      if healthy && |ExpiredRows(old(repository.items), now)| <= MAX_SWEEP_BATCH {
        forall id | id in old(repository.items) && IsExpired(old(repository.items)[id], now) ensures id !in repository.items {
          assert old(repository.items)[id] in rows;
        }
      }
      err := NoError;
    }

    /** The loop over the expired rows. */
    method DeleteRows(rows: seq<Artifact>, now: int, healthy: bool) returns (deleted: nat)
      requires Valid() && StoredRows(repository.items, rows)
      modifies repository, store
      ensures Valid()
      ensures DeletedTo(old(repository.items), repository.items, rows, |rows|, healthy)
      ensures OnlyRemovesUnreferenced(old(store.objects), store.objects, repository.items)
      ensures healthy ==> repository.objectDeletions == old(repository.objectDeletions)
    {
      deleted := 0;
      for i := 0 to |rows|
        invariant Valid() && DeletedTo(old(repository.items), repository.items, rows, i, healthy)
        invariant OnlyRemovesUnreferenced(old(store.objects), store.objects, repository.items)
        invariant healthy ==> repository.objectDeletions == old(repository.objectDeletions)
      {
        ghost var before, stored := repository.items, store.objects;
        StillThere(old(repository.items), before, rows, i, healthy);
        var deleteErr := Delete(rows[i].user, rows[i].id, now, healthy);
        RemovalAccumulates(old(store.objects), stored, store.objects, before, repository.items);
        DeletedNext(old(repository.items), before, repository.items, rows, i, healthy);
        if deleteErr == NoError {
          deleted := deleted + 1;
        }
      }
    }

    predicate IsStale(row: Artifact, status: Status, now: int) {
      row.status == status && row.updatedAt <= now - staleUploadAge
    }

    /** No row is left in the given state that was last touched too long ago. */
    ghost predicate NothingStuck(rows: Rows, status: Status, now: int) {
      forall id | id in rows && rows[id].status == status :: now < rows[id].updatedAt + staleUploadAge
    }

    function Stale(rows: Rows, status: Status, now: int): set<nat> {
      set id | id in rows && IsStale(rows[id], status, now)
    }

    /** The first loop of SweepStaleArtifacts: uploads that stopped making progress are closed as failed. */
    method SweepUploads(now: int, healthy: bool) returns (err: Error)
      requires Valid()
      modifies repository`items
      ensures Valid()
      ensures OnlyFails(old(repository.items), repository.items, Stale(old(repository.items), Uploading, now))
      ensures healthy ==> err == NoError
      ensures healthy && |Stale(old(repository.items), Uploading, now)| <= MAX_SWEEP_BATCH ==>
        NothingStuck(repository.items, Uploading, now)
      ensures forall id | id in old(repository.items)
                          && (old(repository.items)[id].status != Uploading || now < old(repository.items)[id].updatedAt + staleUploadAge) ::
        id in repository.items && repository.items[id] == old(repository.items)[id]
    {
      var fault := Environment(healthy);
      var rows;
      ghost var stale := Stale(repository.items, Uploading, now);
      var matching := row => IsStale(row, Uploading, now);
      err, rows := repository.List(matching, LastChange, MAX_SWEEP_BATCH, fault);
      if err != NoError {
        return err;
      }
      assert stale == set id | id in repository.items && matching(repository.items[id]);
      err := FailUploads(rows, stale, now, healthy);
    }

    method FailUploads(rows: seq<Artifact>, ghost stale: set<nat>, now: int, healthy: bool) returns (err: Error)
      requires Valid()
      requires StoredRows(repository.items, rows) && forall k | 0 <= k < |rows| :: rows[k].status == Uploading && rows[k].id in stale
      modifies repository`items
      ensures Valid()
      ensures OnlyFails(old(repository.items), repository.items, stale)
      ensures healthy ==> err == NoError
      ensures healthy ==> forall k | 0 <= k < |rows| :: rows[k].id in repository.items && repository.items[rows[k].id].status == Failed
    {
      for i := 0 to |rows|
        invariant Valid() && FailedTo(old(repository.items), repository.items, rows, i, stale, healthy)
      {
        ghost var before := repository.items;
        err := FailUpload(rows[i], now, healthy);
        FailedNext(old(repository.items), before, repository.items, rows, i, stale, healthy, now);
        if err != NoError {
          return err;
        }
      }
      err := NoError;
    }

    method FailUpload(row: Artifact, now: int, healthy: bool) returns (err: Error)
      requires Valid() && row.status == Uploading
      requires row.id in repository.items && repository.items[row.id] == row
      modifies repository`items
      ensures Valid()
      ensures repository.items == old(repository.items)
              || repository.items == old(repository.items)[row.id := row.(status := Failed, version := row.version + 1, updatedAt := now)]
      ensures healthy ==> err == NoError && repository.items[row.id].status == Failed
    {
      var updated := row.(status := Failed, version := row.version + 1, updatedAt := now);
      KeylessRowIsHarmless(repository.items, store.objects, updated);
      var fault := Environment(healthy);
      err := repository.Update(updated, row.version, fault);
      if err == Conflict || err == NotFound {
        return NoError;
      }
    }

    /** The second loop: interrupted deletions are completed.  The object is queued unless other rows need it. */
    method SweepDeletions(now: int, healthy: bool) returns (err: Error)
      requires Valid()
      modifies repository
      ensures Valid()
      ensures OnlyKeepsOldRows(old(repository.items), repository.items)
      ensures forall id | id in old(repository.items)
                          && (old(repository.items)[id].status != Deleting || now < old(repository.items)[id].updatedAt + staleUploadAge) ::
        id in repository.items
      ensures OnlyQueues(old(repository.objectDeletions), repository.objectDeletions, now)
      ensures healthy ==> err == NoError
      ensures healthy ==>
        |DueKeys(repository.objectDeletions, now)| <= |DueKeys(old(repository.objectDeletions), now)|
          + |Stale(old(repository.items), Deleting, now)|
      ensures healthy && |Stale(old(repository.items), Deleting, now)| <= MAX_SWEEP_BATCH ==>
        NothingStuck(repository.items, Deleting, now)
    {
      var fault := Environment(healthy);
      var rows;
      var matching := row => IsStale(row, Deleting, now);
      err, rows := repository.List(matching, LastChange, MAX_SWEEP_BATCH, fault);
      if err != NoError {
        return err;
      }
      assert Stale(repository.items, Deleting, now) == set id | id in repository.items && matching(repository.items[id]);
      ghost var stale := Stale(repository.items, Deleting, now);
      err := CompleteDeletions(rows, now, healthy);
      if healthy && |stale| <= MAX_SWEEP_BATCH {
        forall id | id in stale ensures id !in repository.items {
          assert old(repository.items)[id] in rows;
        }
      }
    }

    /** The loop over the marked rows. */
    method CompleteDeletions(rows: seq<Artifact>, now: int, healthy: bool) returns (err: Error)
      requires Valid() && StoredRows(repository.items, rows)
      modifies repository
      ensures Valid()
      ensures RemovedTo(old(repository.items), repository.items, rows, |rows|, healthy)
      ensures OnlyQueues(old(repository.objectDeletions), repository.objectDeletions, now)
      ensures healthy ==> err == NoError
      ensures |DueKeys(repository.objectDeletions, now)| <= |DueKeys(old(repository.objectDeletions), now)| + |rows|
    {
      for i := 0 to |rows|
        invariant Valid() && RemovedTo(old(repository.items), repository.items, rows, i, healthy)
        invariant OnlyQueues(old(repository.objectDeletions), repository.objectDeletions, now)
        invariant |DueKeys(repository.objectDeletions, now)| <= |DueKeys(old(repository.objectDeletions), now)| + i
      {
        ghost var before := repository.items;
        err := CompleteDeletion(rows[i], now, healthy);
        RemovedNext(old(repository.items), before, repository.items, rows, i, healthy);
        if err != NoError {
          return err;
        }
      }
      err := NoError;
    }

    method CompleteDeletion(row: Artifact, now: int, healthy: bool) returns (err: Error)
      requires Valid()
      modifies repository
      ensures Valid()
      ensures repository.items == old(repository.items) || repository.items == old(repository.items) - {row.id}
      ensures err == NoError ==> repository.items == old(repository.items) - {row.id}
      ensures OnlyQueues(old(repository.objectDeletions), repository.objectDeletions, now)
      ensures |DueKeys(repository.objectDeletions, now)| <= |DueKeys(old(repository.objectDeletions), now)| + 1
      ensures healthy ==> err == NoError
    {
      err := QueueUnlessShared(row.key, now, healthy);
      OneMoreDue(old(repository.objectDeletions), repository.objectDeletions, row.key, now);
      if err != NoError {
        return err;
      }
      err := RemoveRow(row.id, healthy);
    }

    /** The count here excludes the row itself, which is already marked, so one other active reference still queues
        the object; the drain looks again before it deletes. */
    method QueueUnlessShared(key: Key, now: int, healthy: bool) returns (err: Error)
      modifies repository`objectDeletions
      ensures repository.objectDeletions == old(repository.objectDeletions)
              || (key !in old(repository.objectDeletions)
                  && repository.objectDeletions == old(repository.objectDeletions)[key := ObjectDeletion(0, now, now)])
      ensures healthy ==> err == NoError
      ensures healthy && key != NoKey && ActiveReferences(repository.items, key) == {} ==> key in repository.objectDeletions
    {
      if key == NoKey {
        return NoError;
      }
      var fault := Environment(healthy);
      var count;
      err, count := repository.CountActiveByStorageKey(key, fault);
      if err == NoError && count <= 1 {
        fault := Environment(healthy);
        err := repository.EnqueueObjectDeletion(key, now, fault);
      }
    }

    /** DrainObjectDeletions: every due entry is settled.  A key that is referenced again leaves the outbox without
        its object being touched. */
    method DrainObjectDeletions(now: int, healthy: bool) returns (err: Error)
      requires Valid()
      modifies repository`objectDeletions, store
      ensures Valid() && repository.items == old(repository.items)
      ensures OnlyRemovesUnreferenced(old(store.objects), store.objects, repository.items)
      ensures forall key | key in repository.objectDeletions ::
        key in old(repository.objectDeletions)
        && (repository.objectDeletions[key] == old(repository.objectDeletions)[key]
            || repository.objectDeletions[key] == Retried(old(repository.objectDeletions)[key], now))
      ensures healthy ==> err == NoError
      ensures healthy && |DueKeys(old(repository.objectDeletions), now)| <= MAX_OBJECT_DELETION_BATCH ==>
        DueKeys(repository.objectDeletions, now) == {}
    {
      var fault := Environment(healthy);
      var due;
      err, due := repository.ListDueObjectDeletions(now, MAX_OBJECT_DELETION_BATCH, fault);
      if err != NoError {
        return err;
      }
      err := DrainAll(due, now, healthy);
      if healthy && |DueKeys(old(repository.objectDeletions), now)| <= MAX_OBJECT_DELETION_BATCH {
        assert forall key | key in DueKeys(repository.objectDeletions, now) :: key in DueKeys(old(repository.objectDeletions), now);
      }
    }

    /** The loop over the due entries. */
    method DrainAll(due: seq<Key>, now: int, healthy: bool) returns (err: Error)
      requires Valid()
      requires forall k | 0 <= k < |due| :: due[k] in repository.objectDeletions
      requires forall j, k | 0 <= j < k < |due| :: due[j] != due[k]
      modifies repository`objectDeletions, store
      ensures Valid() && repository.items == old(repository.items)
      ensures OnlyRemovesUnreferenced(old(store.objects), store.objects, repository.items)
      ensures exists i: nat | i <= |due| :: DrainedTo(old(repository.objectDeletions), repository.objectDeletions, due, i, now, healthy)
      ensures healthy ==> err == NoError
                          && DrainedTo(old(repository.objectDeletions), repository.objectDeletions, due, |due|, now, healthy)
    {
      for i := 0 to |due|
        invariant Valid() && repository.items == old(repository.items)
        invariant OnlyRemovesUnreferenced(old(store.objects), store.objects, repository.items)
        invariant DrainedTo(old(repository.objectDeletions), repository.objectDeletions, due, i, now, healthy)
      {
        ghost var before := repository.objectDeletions;
        err := DrainOne(due[i], repository.objectDeletions[due[i]].attempts, now, healthy);
        DrainedNext(old(repository.objectDeletions), before, repository.objectDeletions, due, i, now, healthy);
        if err != NoError {
          return err;
        }
      }
      err := NoError;
    }

    method DrainOne(key: Key, attempts: nat, now: int, healthy: bool) returns (err: Error)
      requires Valid()
      requires key in repository.objectDeletions && repository.objectDeletions[key].attempts == attempts
      modifies repository`objectDeletions, store
      ensures Valid() && repository.items == old(repository.items)
      ensures store.objects == old(store.objects)
              || (store.objects == old(store.objects) - {key} && ActiveReferences(repository.items, key) == {})
      ensures repository.objectDeletions == old(repository.objectDeletions)
              || repository.objectDeletions == old(repository.objectDeletions) - {key}
              || repository.objectDeletions == old(repository.objectDeletions)[key := Retried(old(repository.objectDeletions)[key], now)]
      ensures healthy ==> err == NoError && repository.objectDeletions == old(repository.objectDeletions) - {key}
      ensures healthy && key in store.objects ==> ActiveReferences(repository.items, key) != {}
    {
      var fault := Environment(healthy);
      var countErr, count := repository.CountActiveByStorageKey(key, fault);
      if countErr != NoError {
        return countErr;
      }
      if count > 0 {
        fault := Environment(healthy);
        err := repository.CompleteObjectDeletion(key, fault);
        return if err == NotFound then NoError else err;
      }
      UnreferencedIsRemovable(repository.items, store.objects, key);
      fault := Environment(healthy);
      var deleteErr := store.Delete(key, fault);
      fault := Environment(healthy);
      if deleteErr == NoError || deleteErr == ObjectMissing {
        err := repository.CompleteObjectDeletion(key, fault);
      } else {
        var delay := ObjectDeletionBackoff(attempts + 1);
        err := repository.RescheduleObjectDeletion(key, attempts + 1, now + delay, fault);
      }
      if err == NotFound {
        err := NoError;
      }
    }

    /** GarbageCollectObjects: objects past the grace period without an active reference go, unless they are queued. */
    method GarbageCollectObjects(now: int, healthy: bool) returns (err: Error)
      requires Valid()
      modifies repository`objectDeletions, store
      ensures Valid() && repository.items == old(repository.items)
      ensures OnlyRemovesUnreferenced(old(store.objects), store.objects, repository.items)
      ensures forall key | key in old(store.objects) && old(store.objects)[key].modifiedAt > now - grace :: key in store.objects
      ensures OnlyQueues(old(repository.objectDeletions), repository.objectDeletions, now)
      ensures healthy ==> err == NoError && repository.objectDeletions == old(repository.objectDeletions)
      ensures healthy && |old(store.objects)| <= MAX_GARBAGE_COLLECT_BATCH ==>
        forall key | key in store.objects :: Kept(repository.items, store.objects, repository.objectDeletions, key, now)
    {
      var fault := Environment(healthy);
      var keys;
      err, keys := store.ListObjects(fault);
      if err != NoError {
        return err;
      }
      err := CollectAll(if |keys| > MAX_GARBAGE_COLLECT_BATCH then keys[..MAX_GARBAGE_COLLECT_BATCH] else keys, now, healthy);
    }

    method CollectAll(keys: seq<Key>, now: int, healthy: bool) returns (err: Error)
      requires Valid()
      requires forall k | 0 <= k < |keys| :: keys[k] in store.objects
      requires forall i, j | 0 <= i < j < |keys| :: keys[i] != keys[j]
      modifies repository`objectDeletions, store
      ensures Valid() && repository.items == old(repository.items)
      ensures OnlyRemovesUnreferenced(old(store.objects), store.objects, repository.items)
      ensures forall key | key in old(store.objects) && old(store.objects)[key].modifiedAt > now - grace :: key in store.objects
      ensures OnlyQueues(old(repository.objectDeletions), repository.objectDeletions, now)
      ensures healthy ==> err == NoError && repository.objectDeletions == old(repository.objectDeletions)
      ensures healthy ==> forall k | 0 <= k < |keys| && keys[k] in store.objects ::
        Kept(repository.items, store.objects, repository.objectDeletions, keys[k], now)
    {
      for i := 0 to |keys|
        invariant Valid() && repository.items == old(repository.items)
        invariant OnlyRemovesUnreferenced(old(store.objects), store.objects, repository.items)
        invariant forall key | key in old(store.objects) && old(store.objects)[key].modifiedAt > now - grace :: key in store.objects
        invariant forall k | i <= k < |keys| :: keys[k] in store.objects
        invariant OnlyQueues(old(repository.objectDeletions), repository.objectDeletions, now)
        invariant healthy ==> repository.objectDeletions == old(repository.objectDeletions)
        invariant healthy ==> forall k | 0 <= k < i && keys[k] in store.objects ::
          Kept(repository.items, store.objects, repository.objectDeletions, keys[k], now)
      {
        err := CollectOne(keys[i], now, healthy);
        if err != NoError {
          return err;
        }
      }
      err := NoError;
    }

    method CollectOne(key: Key, now: int, healthy: bool) returns (err: Error)
      requires Valid() && key in store.objects
      modifies repository`objectDeletions, store
      ensures Valid() && repository.items == old(repository.items)
      ensures store.objects == old(store.objects)
              || (store.objects == old(store.objects) - {key} && ActiveReferences(repository.items, key) == {}
                  && old(store.objects)[key].modifiedAt <= now - grace)
      ensures repository.objectDeletions == old(repository.objectDeletions)
              || (key !in old(repository.objectDeletions)
                  && repository.objectDeletions == old(repository.objectDeletions)[key := ObjectDeletion(0, now, now)])
      ensures healthy ==> err == NoError && repository.objectDeletions == old(repository.objectDeletions)
      ensures healthy && key in store.objects ==> Kept(repository.items, store.objects, repository.objectDeletions, key, now)
    {
      if store.objects[key].modifiedAt > now - grace {
        return NoError;
      }
      var fault := Environment(healthy);
      var countErr, count := repository.CountActiveByStorageKey(key, fault);
      if countErr != NoError {
        return countErr;
      }
      if count > 0 {
        return NoError;
      }
      fault := Environment(healthy);
      var pendingErr, pending := repository.HasObjectDeletion(key, fault);
      if pendingErr == NoError && pending {
        return NoError;
      }
      UnreferencedIsRemovable(repository.items, store.objects, key);
      fault := Environment(healthy);
      var deleteErr := store.Delete(key, fault);
      if deleteErr != NoError && deleteErr != ObjectMissing {
        fault := Environment(healthy);
        var _ := repository.EnqueueObjectDeletion(key, now, fault);
      }
      err := NoError;
    }

    /** Why an object outlives a collection pass. */
    ghost predicate Kept(rows: Rows, objects: Objects, outbox: Outbox, key: Key, now: int) {
      (key in objects && objects[key].modifiedAt > now - grace) || ActiveReferences(rows, key) != {} || key in outbox
    }

    /** RunMaintenance.  In every environment it keeps the promises to readers and takes no object that an active row
        refers to.  A healthy pass over at most 2000 objects, with at most 200 deletions due after its own sweep,
        leaves behind no object that is past the grace period and without an active reference, unless a retry of its
        deletion lies in the future. */
    method RunMaintenance(now: int, healthy: bool) returns (err: Error)
      requires Valid()
      modifies repository, store
      ensures Valid()
      ensures OnlyCloses(old(repository.items), repository.items)
      ensures OnlyRemovesUnreferenced(old(store.objects), store.objects, repository.items)
      ensures healthy ==> err == NoError
      ensures healthy && |old(store.objects)| <= 2000 ==>
        forall key | key in store.objects :: Kept(repository.items, store.objects, repository.objectDeletions, key, now)
      ensures healthy
              && |DueKeys(old(repository.objectDeletions), now)|
                 + |Stale(old(repository.items), Deleting, now)| <= 200 ==>
                DueKeys(repository.objectDeletions, now) == {}
      ensures KeepsLive(old(repository.items), repository.items, now)
      ensures healthy && SmallBacklog(old(repository.items), now) ==>
        && NothingOverdue(repository.items, now)
        && NothingStuck(repository.items, Uploading, now) && NothingStuck(repository.items, Deleting, now)
    {
      err := CloseRows(now, healthy);
      if err != NoError {
        return err;
      }
      ghost var stored := store.objects;
      err := DrainObjectDeletions(now, healthy);
      RemovalAccumulates(old(store.objects), stored, store.objects, repository.items, repository.items);
      if err != NoError {
        return err;
      }
      stored := store.objects;
      FewerObjects(old(store.objects), stored, repository.items);
      err := GarbageCollectObjects(now, healthy);
      RemovalAccumulates(old(store.objects), stored, store.objects, repository.items, repository.items);
    }

    /** As much as one pass closes: the expired rows and the two kinds of stale ones each fit a batch. */
    ghost predicate SmallBacklog(rows: Rows, now: int) {
      |ExpiredRows(rows, now)| <= 500 && |Stale(rows, Uploading, now)| <= 500 && |Stale(rows, Deleting, now)| <= 500
    }

    /** The row half of RunMaintenance: expiry and the two sweeps. */
    method CloseRows(now: int, healthy: bool) returns (err: Error)
      requires Valid()
      modifies repository, store
      ensures Valid()
      ensures OnlyCloses(old(repository.items), repository.items)
      ensures OnlyRemovesUnreferenced(old(store.objects), store.objects, repository.items)
      ensures healthy ==> err == NoError
      ensures healthy ==>
        |DueKeys(repository.objectDeletions, now)| <= |DueKeys(old(repository.objectDeletions), now)|
          + |Stale(old(repository.items), Deleting, now)|
      ensures KeepsLive(old(repository.items), repository.items, now)
      ensures healthy && SmallBacklog(old(repository.items), now) ==>
        && NothingOverdue(repository.items, now)
        && NothingStuck(repository.items, Uploading, now) && NothingStuck(repository.items, Deleting, now)
    {
      var deleted;
      err, deleted := DeleteExpiredArtifacts(now, healthy);
      if err != NoError {
        return err;
      }
      ghost var expired, stored := repository.items, store.objects;
      if healthy {
        StaleOfFewer(old(repository.items), expired, Uploading, now);
        StaleOfFewer(old(repository.items), expired, Deleting, now);
      }
      err := SweepStaleArtifacts(now, healthy);
      RemovalAccumulates(old(store.objects), stored, stored, expired, repository.items);
    }

    /** SweepStaleArtifacts: the two sweeps, one after the other. */
    method SweepStaleArtifacts(now: int, healthy: bool) returns (err: Error)
      requires Valid()
      modifies repository
      ensures Valid() && OnlyCloses(old(repository.items), repository.items)
      ensures forall id | id in old(repository.items) && Published(old(repository.items)[id]) ::
        id in repository.items && repository.items[id] == old(repository.items)[id]
      ensures healthy ==> err == NoError
      ensures healthy ==>
        |DueKeys(repository.objectDeletions, now)| <= |DueKeys(old(repository.objectDeletions), now)|
          + |Stale(old(repository.items), Deleting, now)|
      ensures healthy && |Stale(old(repository.items), Uploading, now)| <= 500 && |Stale(old(repository.items), Deleting, now)| <= 500 ==>
        NothingStuck(repository.items, Uploading, now) && NothingStuck(repository.items, Deleting, now)
    {
      err := SweepUploads(now, healthy);
      if err != NoError {
        return err;
      }
      ghost var swept := repository.items;
      FewerStale(old(repository.items), swept, now);
      err := SweepDeletions(now, healthy);
      ClosingAccumulates(old(repository.items), swept, repository.items);
    }

    lemma StaleOfFewer(first: Rows, after: Rows, status: Status, now: int)
      requires OnlyKeepsOldRows(first, after)
      ensures |Stale(after, status, now)| <= |Stale(first, status, now)|
    {
      SubsetSize(Stale(after, status, now), Stale(first, status, now));
    }

    /** The upload sweep adds nothing to the deletions that are stale. */
    lemma FewerStale(first: Rows, swept: Rows, now: int)
      requires OnlyFails(first, swept, Stale(first, Uploading, now))
      ensures |Stale(swept, Deleting, now)| <= |Stale(first, Deleting, now)|
    {
      assert forall id | id in Stale(swept, Deleting, now) :: swept[id] == first[id];
      SubsetSize(Stale(swept, Deleting, now), Stale(first, Deleting, now));
    }

    // ----- Sequences of calls -----

    /** Any sequence of calls, in any environment, keeps the promises to readers and the quota; and a row that no
        upload of the sequence names stays with the object it had, or disappears. */
    method Serve(calls: seq<Call>)
      requires Valid()
      modifies repository, store
      ensures Valid()
      ensures forall id | NotUploaded(calls, id) :: KeepsKey(old(repository.items), repository.items, id)
    {
      for i := 0 to |calls|
        invariant Valid()
        invariant forall id | NotUploaded(calls[..i], id) :: KeepsKey(old(repository.items), repository.items, id)
      {
        ghost var before := repository.items;
        ServeOne(calls[i]);
        forall id | NotUploaded(calls[..i + 1], id) ensures KeepsKey(old(repository.items), repository.items, id) {
          FewerUploads(calls, i, id);
          assert KeepsKey(before, repository.items, id);
        }
      }
      assert calls[..|calls|] == calls;
    }

    method ServeOne(call: Call)
      requires Valid()
      modifies repository, store
      ensures Valid()
      ensures forall id | !Uploads(call, id) :: KeepsKey(old(repository.items), repository.items, id)
    {
      match call
      case PutCall(request, now, committedAt) =>
        var _, _ := Put(request, now, committedAt, false);
      case OpenCall(user, id, now) =>
        var _, _ := Open(user, id, now, false);
      case ExtractCall(user, id, projection, now) =>
        var _, _ := Extract(user, id, projection, now, false);
      case DeleteCall(user, id, now) =>
        var _ := Delete(user, id, now, false);
      case DeleteConversationCall(conversation, now) =>
        var _ := DeleteConversation(conversation, now, false);
      case MaintenanceCall(now) =>
        var _ := RunMaintenance(now, false);
    }

    /** The round trip of one upload that the environment does not disturb: its owner reads the content back as long as
        the row has not expired, unless the content scan flagged it, and then nobody does. */
    method PutThenOpen(request: PutRequest, now: int, committedAt: int, user: Name, at: int)
      returns (putErr: Error, openErr: Error, content: seq<byte>)
      requires Valid() && Admissible(repository.items, request, now) && !HasMatch(repository.items, request, false)
      requires !HasMatch(repository.items, request, true)
      modifies repository`items, store
      ensures Valid() && putErr == NoError
      ensures openErr == NoError ==> content == request.content
      ensures openErr == NoError <==>
                && !request.flagged && user == request.user
                && (request.expiresAt.Some? ==> at < request.expiresAt.value)
                && (request.expiresAt.None? && request.isInput && retention > 0 ==> at < now + retention)
      ensures request.flagged && user == request.user && request.expiresAt.None? && !request.isInput ==> openErr == InQuarantine
    {
      var row;
      putErr, row := Put(request, now, committedAt, true);
      openErr, content := Open(user, request.id, at, true);
    }

    /** What was uploaded is what is read back: whatever calls come in between, and whatever fails in them, a later
        successful read of the row that an upload handed out returns the uploaded content. */
    method PutServeOpen(request: PutRequest, now: int, committedAt: int, calls: seq<Call>, user: Name, at: int)
      returns (putErr: Error, row: Option<Artifact>, openErr: Error, content: seq<byte>)
      requires Valid()
      modifies repository, store
      ensures Valid()
      ensures putErr == NoError <==> row.Some?
      ensures putErr == NoError && openErr == NoError && NotUploaded(calls, row.value.id) ==> content == request.content
    {
      putErr, row := Put(request, now, committedAt, false);
      openErr, content := putErr, [];
      if putErr == NoError {
        Serve(calls);
        openErr, content := Open(user, row.value.id, at, false);
      }
    }
  }

  datatype Call = PutCall(request: PutRequest, now: int, committedAt: int)
                | OpenCall(user: Name, id: nat, now: int)
                | ExtractCall(user: Name, id: nat, projection: nat, now: int)
                | DeleteCall(user: Name, id: nat, now: int)
                | DeleteConversationCall(conversation: Name, now: int)
                | MaintenanceCall(now: int)

  predicate Uploads(call: Call, id: nat) {
    call.PutCall? && call.request.id == id
  }

  predicate NotUploaded(calls: seq<Call>, id: nat) {
    forall k | 0 <= k < |calls| :: !Uploads(calls[k], id)
  }

  lemma FewerUploads(calls: seq<Call>, i: nat, id: nat)
    requires i < |calls| && NotUploaded(calls[..i + 1], id)
    ensures NotUploaded(calls[..i], id) && !Uploads(calls[i], id)
  {
    assert calls[..i + 1][i] == calls[i];
    assert forall k | 0 <= k < i :: calls[..i][k] == calls[..i + 1][k];
  }

  /** The row is the one it was, with the object it had, or it is absent. */
  ghost predicate KeepsKey(before: Rows, after: Rows, id: nat) {
    id in after ==> id in before && after[id].key == before[id].key
  }

  /** Some of the given rows are closed as failed, and nothing else happens. */
  ghost predicate OnlyFails(before: Rows, after: Rows, chosen: set<nat>) {
    && after.Keys == before.Keys
    && (forall id | id in before && id !in chosen :: after[id] == before[id])
    && (forall id | id in before :: after[id] == before[id] || (after[id].status == Failed && after[id].key == before[id].key))
  }

  /** The outbox entry of a deletion that failed once more. */
  function Retried(entry: ObjectDeletion, now: int): ObjectDeletion {
    entry.(attempts := entry.attempts + 1, nextAttemptAt := now + Backoff(entry.attempts + 1))
  }

  /** The outbox only gains fresh entries. */
  ghost predicate OnlyQueues(before: Outbox, after: Outbox, now: int) {
    && (forall key | key in before :: key in after && after[key] == before[key])
    && (forall key | key in after && key !in before :: after[key] == ObjectDeletion(0, now, now))
  }

  lemma OneMoreDue(before: Outbox, after: Outbox, key: Key, now: int)
    requires after == before || (key !in before && after == before[key := ObjectDeletion(0, now, now)])
    ensures |DueKeys(after, now)| <= |DueKeys(before, now)| + 1
  {
    assert DueKeys(after, now) <= DueKeys(before, now) + {key};
    SubsetSize(DueKeys(after, now), DueKeys(before, now) + {key});
  }

  lemma FewerObjects(before: Objects, after: Objects, rows: Rows)
    requires OnlyRemovesUnreferenced(before, after, rows)
    ensures |after| <= |before|
  {
    assert after.Keys <= before.Keys;
    SubsetSize(after.Keys, before.Keys);
  }

  lemma OneMoreFails(first: Rows, before: Rows, after: Rows, id: nat, chosen: set<nat>)
    requires OnlyFails(first, before, chosen) && id in chosen && id in before
    requires after == before || (after.Keys == before.Keys && after[id].status == Failed && after[id].key == before[id].key
                                 && forall other | other in before && other != id :: after[other] == before[other])
    ensures OnlyFails(first, after, chosen)
  {
  }

  lemma ClosingAccumulates(first: Rows, middle: Rows, last: Rows)
    requires OnlyCloses(first, middle)
    requires OnlyKeepsOldRows(middle, last) || exists chosen :: OnlyFails(middle, last, chosen)
    ensures OnlyCloses(first, last) && OnlyCloses(middle, last)
  {
  }

  /** Rows only disappear. */
  ghost predicate OnlyKeepsOldRows(before: Rows, after: Rows) {
    forall id | id in after :: id in before && after[id] == before[id]
  }

  /** A stored row may change its status, version and projection as long as it keeps its object and does not become
      published. */
  lemma SameObjectIsHarmless(rows: Rows, objects: Objects, row: Artifact)
    requires Consistent(rows, objects) && row.id in rows
    requires row == rows[row.id].(status := row.status, version := row.version, extraction := row.extraction, updatedAt := row.updatedAt)
    requires row.version > 0 && (row.status == rows[row.id].status || row.status == Deleting)
    ensures Consistent(rows[row.id := row], objects) && UsageBytes(rows[row.id := row]) <= UsageBytes(rows)
  {
    var after := rows[row.id := row];
    forall k | k in UsedKeys(after) ensures k in UsedKeys(rows) {
      var id :| id in after && after[id].status != Failed && after[id].key != NoKey && after[id].key == k;
      assert rows[id].key == k;
    }
    UsageShrinks(rows, after);
  }

  /** When no other row refers to a row's object, the count of its references is at most one. */
  lemma LastReference(rows: Rows, row: Artifact)
    requires row.id in rows
    ensures References(rows - {row.id}, row.key) == {} ==> |References(rows, row.key)| <= 1
  {
    if References(rows - {row.id}, row.key) == {} {
      assert forall id | id in References(rows, row.key) && id != row.id :: id in References(rows - {row.id}, row.key);
      assert References(rows, row.key) <= {row.id};
      SubsetSize(References(rows, row.key), {row.id});
    }
  }

  lemma SubsetSize<T>(small: set<T>, large: set<T>)
    requires small <= large
    ensures |small| <= |large|
  {
    assert large == small + (large - small);
  }

  /** Rows are only closed, keeping their object key, or removed. */
  ghost predicate OnlyCloses(before: Rows, after: Rows) {
    forall id | id in after ::
      id in before && (after[id] == before[id]
                       || (after[id].key == before[id].key && (after[id].status == Deleting || after[id].status == Failed)))
  }

  /** Removals add up: an object without active references gains none while rows are only closed or removed. */
  lemma RemovalAccumulates(first: Objects, middle: Objects, last: Objects, before: Rows, after: Rows)
    requires OnlyRemovesUnreferenced(first, middle, before) && OnlyRemovesUnreferenced(middle, last, after)
    requires OnlyCloses(before, after)
    ensures OnlyRemovesUnreferenced(first, last, after)
  {
    forall k | k in first && k !in last ensures ActiveReferences(after, k) == {} {
      if k !in middle {
        assert forall id | id in ActiveReferences(after, k) :: id in ActiveReferences(before, k);
      }
    }
  }

  /** Objects only disappear, and none that an active row refers to. */
  ghost predicate OnlyRemovesUnreferenced(before: Objects, after: Objects, rows: Rows) {
    && (forall k | k in after :: k in before && after[k] == before[k])
    && (forall k | k in before && k !in after :: ActiveReferences(rows, k) == {})
  }

  /** The row is absent or closed to readers. */
  ghost predicate NotVisible(rows: Rows, id: nat) {
    id in rows ==> !Published(rows[id])
  }

  /** Rows that existed before are untouched, and at most one new row appears. */
  ghost predicate KeepsOthers(before: Rows, after: Rows, id: nat) {
    && (forall other | other in before :: other in after && after[other] == before[other])
    && (forall other | other in after :: other in before || other == id)
  }

  /** Objects that existed before are untouched, and at most one new object appears. */
  ghost predicate KeepsObjects(before: Objects, after: Objects, key: Key) {
    && (forall k | k in before :: k in after && after[k] == before[k])
    && (forall k | k in after :: k in before || k == key)
  }

  lemma OthersUnchanged(before: Rows, after: Rows, id: nat)
    requires after - {id} == before - {id}
    ensures forall other | other != id && other in before :: other in after && after[other] == before[other]
    ensures forall other | other != id && other in after :: other in before
  {
    assert forall other | other in before && other != id :: other in before - {id} && (before - {id})[other] == before[other];
    assert forall other | other in after && other != id :: other in after - {id} && (after - {id})[other] == after[other];
  }

  /** A list of stored rows, each once. */
  ghost predicate StoredRows(items: Rows, rows: seq<Artifact>) {
    && (forall k | 0 <= k < |rows| :: rows[k].id in items && items[rows[k].id] == rows[k])
    && (forall j, k | 0 <= j < k < |rows| :: rows[j].id != rows[k].id)
  }

  /** The first i listed rows may be gone, and are when nothing failed; all other rows are as they were. */
  ghost predicate RemovedTo(first: Rows, items: Rows, rows: seq<Artifact>, i: nat, healthy: bool)
    requires i <= |rows|
  {
    && OnlyKeepsOldRows(first, items)
    && (forall id | id in first && (forall k | 0 <= k < i :: rows[k].id != id) :: id in items)
    && (healthy ==> forall k | 0 <= k < i :: rows[k].id !in items)
  }

  lemma RemovedNext(first: Rows, before: Rows, after: Rows, rows: seq<Artifact>, i: nat, healthy: bool)
    requires i < |rows| && RemovedTo(first, before, rows, i, healthy)
    requires after == before - {rows[i].id} || (!healthy && after == before)
    ensures RemovedTo(first, after, rows, i + 1, healthy)
  {
  }

  /** The same for rows that are deleted one by one: a row whose deletion failed may stay behind, closed. */
  ghost predicate DeletedTo(first: Rows, items: Rows, rows: seq<Artifact>, i: nat, healthy: bool)
    requires i <= |rows|
  {
    && OnlyCloses(first, items) && (healthy ==> OnlyKeepsOldRows(first, items))
    && (forall id | id in first && (forall k | 0 <= k < i :: rows[k].id != id) :: id in items && items[id] == first[id])
    && (healthy ==> forall k | 0 <= k < i :: rows[k].id !in items)
  }

  lemma StillThere(first: Rows, items: Rows, rows: seq<Artifact>, i: nat, healthy: bool)
    requires i < |rows| && StoredRows(first, rows) && DeletedTo(first, items, rows, i, healthy)
    ensures rows[i].id in items && items[rows[i].id] == rows[i]
  {
  }

  lemma DeletedNext(first: Rows, before: Rows, after: Rows, rows: seq<Artifact>, i: nat, healthy: bool)
    requires i < |rows| && DeletedTo(first, before, rows, i, healthy) && OnlyCloses(before, after)
    requires forall other | other != rows[i].id && other in before :: other in after && after[other] == before[other]
    requires healthy ==> after == before - {rows[i].id}
    ensures DeletedTo(first, after, rows, i + 1, healthy)
  {
  }

  /** The first i listed uploads may have failed, and have when nothing went wrong; the others are as they were. */
  ghost predicate FailedTo(first: Rows, items: Rows, rows: seq<Artifact>, i: nat, stale: set<nat>, healthy: bool)
    requires i <= |rows|
  {
    && OnlyFails(first, items, stale)
    && (forall k | i <= k < |rows| :: rows[k].id in items && items[rows[k].id] == rows[k])
    && (healthy ==> forall k | 0 <= k < i :: rows[k].id in items && items[rows[k].id].status == Failed)
  }

  lemma FailedNext(first: Rows, before: Rows, after: Rows, rows: seq<Artifact>, i: nat, stale: set<nat>, healthy: bool, now: int)
    requires i < |rows| && FailedTo(first, before, rows, i, stale, healthy) && rows[i].id in stale
    requires forall j, k | 0 <= j < k < |rows| :: rows[j].id != rows[k].id
    requires after == before[rows[i].id := rows[i].(status := Failed, version := rows[i].version + 1, updatedAt := now)]
             || (after == before && (healthy ==> after[rows[i].id].status == Failed))
    ensures FailedTo(first, after, rows, i + 1, stale, healthy)
  {
    OneMoreFails(first, before, after, rows[i].id, stale);
  }

  /** Entries are as they were, gone, or tried once more; those from i on are untouched, and the first i are gone when
      nothing failed. */
  ghost predicate DrainedTo(first: Outbox, outbox: Outbox, due: seq<Key>, i: nat, now: int, healthy: bool)
    requires i <= |due|
  {
    && (forall key | key in outbox :: key in first && (outbox[key] == first[key] || outbox[key] == Retried(first[key], now)))
    && (forall k | i <= k < |due| :: due[k] in outbox && outbox[due[k]] == first[due[k]])
    && (healthy ==> forall k | 0 <= k < i :: due[k] !in outbox)
    && (healthy ==> forall key | key in outbox :: outbox[key] == first[key])
  }

  lemma DrainedNext(first: Outbox, before: Outbox, after: Outbox, due: seq<Key>, i: nat, now: int, healthy: bool)
    requires i < |due| && DrainedTo(first, before, due, i, now, healthy)
    requires forall j, k | 0 <= j < k < |due| :: due[j] != due[k]
    requires after == before - {due[i]}
             || (!healthy && (after == before || after == before[due[i] := Retried(before[due[i]], now)]))
    ensures DrainedTo(first, after, due, i + 1, now, healthy)
  {
  }

  lemma KeylessRowUsesNothing(rows: Rows, row: Artifact)
    requires row.id !in rows && row.key == NoKey
    ensures UsedKeys(rows[row.id := row]) == UsedKeys(rows) && UsageBytes(rows[row.id := row]) == UsageBytes(rows)
  {
    UsedKeysStep(rows, row);
  }

  /** Whether an earlier upload of the same producer and content is ready, of the same owner or of another one. */
  ghost predicate HasMatch(rows: Rows, request: PutRequest, own: bool) {
    && request.producerType != BLANK && request.producerID != BLANK
    && exists id | id in rows ::
         && rows[id].status == Ready && rows[id].digest == Sha256(request.content)
         && rows[id].producerType == request.producerType && rows[id].producerID == request.producerID
         && (own <==> rows[id].user == request.user && rows[id].conversation == request.conversation)
  }

  lemma UploadingMatchesNothing(rows: Rows, row: Artifact, request: PutRequest)
    requires row.id !in rows && row.status == Uploading
    ensures forall own :: HasMatch(rows[row.id := row], request, own) <==> HasMatch(rows, request, own)
  {
    forall own ensures HasMatch(rows[row.id := row], request, own) <==> HasMatch(rows, request, own) {
      if HasMatch(rows, request, own) {
        var id :| id in rows && rows[id].status == Ready && rows[id].digest == Sha256(request.content)
          && rows[id].producerType == request.producerType && rows[id].producerID == request.producerID
          && (own <==> rows[id].user == request.user && rows[id].conversation == request.conversation);
        assert rows[row.id := row][id] == rows[id];
      }
    }
  }

  lemma KeylessRowIsHarmless(rows: Rows, objects: Objects, row: Artifact)
    requires Consistent(rows, objects) && WellFormed(row) && row.key == NoKey && !Published(row)
    ensures Consistent(rows[row.id := row], objects) && UsageBytes(rows[row.id := row]) <= UsageBytes(rows)
  {
    var after := rows[row.id := row];
    forall k | k in UsedKeys(after) ensures k in UsedKeys(rows) {
      var id :| id in after && after[id].status != Failed && after[id].key != NoKey && after[id].key == k;
      assert rows[id].key == k;
    }
    UsageShrinks(rows, after);
  }

  /** Publishing a row whose object is present. */
  lemma PublishIsConsistent(rows: Rows, objects: Objects, row: Artifact)
    requires Consistent(rows, objects) && WellFormed(row) && row.key in objects
    ensures Consistent(rows[row.id := row], objects)
  {
    assert row.key == ContentKey(Sha256(objects[row.key].content));
  }

  /** Rows that only disappear lower the footprint and keep every promise. */
  lemma UsedKeysOfFewer(before: Rows, after: Rows)
    requires forall id | id in after :: id in before && after[id] == before[id]
    ensures UsageBytes(after) <= UsageBytes(before)
  {
    forall k | k in UsedKeys(after) ensures k in UsedKeys(before) {
      var id :| id in after && after[id].status != Failed && after[id].key != NoKey && after[id].key == k;
      assert before[id].key == k;
    }
    UsageShrinks(before, after);
  }
}
