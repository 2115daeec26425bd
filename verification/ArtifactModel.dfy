/** internal/artifact: rows, content-addressed objects, and the two ways of counting the rows that refer to an object.

    A digest is modelled as a constructor applied to the content, that is, as an injective function of it. */
module ArtifactModel {
  import opened Wrappers

  newtype byte = x: int | 0 <= x < 256

  datatype Error = NoError | NotFound | Conflict | Unavailable | ObjectMissing | QuotaExceeded | Forbidden | Expired
                 | InQuarantine | TooLarge | InvalidRequest

  /** What the environment does to one repository or store call: nothing, a failure before it took effect, or a failure
      reported although it took effect. */
  datatype Fault = Sound | Refused | Lost

  datatype Digest = NoDigest | Sha256(content: seq<byte>)

  /** A storage key; contentAddressedKey puts the digest into the path. */
  datatype Key = NoKey | ContentKey(digest: Digest)

  datatype Status = Uploading | Ready | Quarantined | Failed | Deleting

  const BLANK: Name := Name("")

  datatype Artifact = Artifact(
    id: nat, version: nat, user: Name, conversation: Name, producerType: Name, producerID: Name, isInput: bool,
    size: nat, digest: Digest, key: Key, status: Status, extraction: Option<nat>,
    expiresAt: Option<int>, createdAt: int, updatedAt: int)

  datatype StoredObject = StoredObject(content: seq<byte>, modifiedAt: int)

  datatype ObjectDeletion = ObjectDeletion(attempts: nat, requestedAt: int, nextAttemptAt: int)

  type Rows = map<nat, Artifact>
  type Objects = map<Key, StoredObject>
  type Outbox = map<Key, ObjectDeletion>

  const DEFAULT_MAX_BYTES: nat := 0x400_0000

  /** A row that promises its object to readers. */
  predicate Published(row: Artifact) {
    row.status == Ready || row.status == Quarantined
  }

  /** The part of Artifact.Validate that concerns the modelled fields. */
  predicate ValidRow(row: Artifact) {
    && row.version > 0 && row.user != BLANK && row.size <= DEFAULT_MAX_BYTES
    && (row.status == Ready ==> row.digest != NoDigest && row.key != NoKey)
    && (row.expiresAt.Some? ==> row.createdAt <= row.expiresAt.value)
  }

  /** What every stored row looks like: a row that is uploading or failed has no object, and a row with an object
      carries that object's identity. */
  ghost predicate WellFormed(row: Artifact) {
    && ValidRow(row)
    && (row.status == Uploading || row.status == Failed ==> row.key == NoKey)
    && (Published(row) ==> row.key != NoKey)
    && (row.key != NoKey ==> row.digest.Sha256? && row.key == ContentKey(row.digest) && row.size == |row.digest.content|)
  }

  ghost predicate RowsWellFormed(rows: Rows) {
    forall id | id in rows :: rows[id].id == id && WellFormed(rows[id])
  }

  ghost predicate ObjectsWellFormed(objects: Objects) {
    forall k | k in objects :: k == ContentKey(Sha256(objects[k].content))
  }

  /** Object safety: the object of every published row is present, with the digest and size the row states. */
  ghost predicate Safe(rows: Rows, objects: Objects) {
    forall id | id in rows && Published(rows[id]) ::
      && rows[id].key in objects
      && Sha256(objects[rows[id].key].content) == rows[id].digest
      && |objects[rows[id].key].content| == rows[id].size
  }

  ghost predicate Consistent(rows: Rows, objects: Objects) {
    RowsWellFormed(rows) && ObjectsWellFormed(objects) && Safe(rows, objects)
  }

  // ----- The two reference counts -----

  /** CountByStorageKey: every row that is not failed. */
  function References(rows: Rows, key: Key): set<nat> {
    set id | id in rows && rows[id].key == key && rows[id].status != Failed
  }

  /** CountActiveByStorageKey: rows whose owner still wants the object. */
  function ActiveReferences(rows: Rows, key: Key): set<nat> {
    set id | id in rows && rows[id].key == key && rows[id].status != Failed && rows[id].status != Deleting
  }

  /** How the counts relate: the active count never exceeds the other, and when a row already marked for deletion sees
      a count of at most one, that one is itself and nothing active is left. */
  lemma CountsRelate(rows: Rows, key: Key, id: nat)
    ensures |ActiveReferences(rows, key)| <= |References(rows, key)|
    ensures id in rows && rows[id].key == key && rows[id].status == Deleting && |References(rows, key)| <= 1 ==>
              ActiveReferences(rows, key) == {}
  {
    var active, all := ActiveReferences(rows, key), References(rows, key);
    assert all == active + (all - active);
    if id in rows && rows[id].key == key && rows[id].status == Deleting && |all| <= 1 {
      OnlyMember(all, id);
    }
  }

  lemma OnlyMember<T>(s: set<T>, x: T)
    requires x in s && |s| <= 1
    ensures s == {x}
  {
    assert |s - {x}| == 0;
  }

  /** Removing an object that no active row refers to keeps every promise. */
  lemma UnreferencedIsRemovable(rows: Rows, objects: Objects, key: Key)
    requires Consistent(rows, objects) && ActiveReferences(rows, key) == {}
    ensures Consistent(rows, objects - {key})
  {
    forall id | id in rows && Published(rows[id]) ensures rows[id].key in objects - {key} {
      assert rows[id].key == key ==> id in ActiveReferences(rows, key);
    }
  }

  /** An object that some published row promises must not be removed: the count that decides has to see the row. */
  lemma ReferencedIsNot(rows: Rows, objects: Objects, id: nat)
    requires Consistent(rows, objects) && id in rows && Published(rows[id])
    ensures !Safe(rows, objects - {rows[id].key}) && id in ActiveReferences(rows, rows[id].key)
  {
  }

  // ----- Usage -----

  function KeySize(key: Key): nat {
    if key.ContentKey? && key.digest.Sha256? then |key.digest.content| else 0
  }

  /** The objects the rows account for, each once. */
  function UsedKeys(rows: Rows): set<Key> {
    set id | id in rows && rows[id].status != Failed && rows[id].key != NoKey :: rows[id].key
  }

  lemma UsedIffReferenced(rows: Rows, key: Key)
    requires key != NoKey
    ensures key in UsedKeys(rows) <==> References(rows, key) != {}
  {
    if key in UsedKeys(rows) {
      var id :| id in rows && rows[id].status != Failed && rows[id].key != NoKey && rows[id].key == key;
      assert id in References(rows, key);
    }
    if References(rows, key) != {} {
      var id :| id in References(rows, key);
      assert rows[id].key == key;
    }
  }

  ghost function TotalSize(keys: set<Key>): nat {
    if keys == {} then 0 else
      var k :| k in keys;
      KeySize(k) + TotalSize(keys - {k})
  }

  /** The order of summation does not matter. */
  lemma {:induction false} TotalSizeSplit(keys: set<Key>, key: Key)
    requires key in keys
    ensures TotalSize(keys) == KeySize(key) + TotalSize(keys - {key})
  {
    var k :| k in keys && TotalSize(keys) == KeySize(k) + TotalSize(keys - {k});
    if k != key {
      TotalSizeSplit(keys - {k}, key);
      TotalSizeSplit(keys - {key}, k);
      assert keys - {k} - {key} == keys - {key} - {k};
    }
  }

  lemma {:induction false} TotalSizeMonotone(small: set<Key>, large: set<Key>)
    requires small <= large
    ensures TotalSize(small) <= TotalSize(large)
  {
    if small != {} {
      var k :| k in small;
      TotalSizeSplit(small, k);
      TotalSizeSplit(large, k);
      TotalSizeMonotone(small - {k}, large - {k});
    }
  }

  /** StoredUsage.Bytes: the physical footprint with shared objects counted once. */
  ghost function UsageBytes(rows: Rows): nat {
    TotalSize(UsedKeys(rows))
  }

  /** Rows that vanish, or change without taking up a new object, never raise the footprint. */
  lemma UsageShrinks(before: Rows, after: Rows)
    requires UsedKeys(after) <= UsedKeys(before)
    ensures UsageBytes(after) <= UsageBytes(before)
  {
    TotalSizeMonotone(UsedKeys(after), UsedKeys(before));
  }

  /** Publishing a row adds its object's size, unless the object was already accounted for. */
  lemma UsageAfterPublish(rows: Rows, row: Artifact)
    requires row.id in rows && rows[row.id].key == NoKey && row.key != NoKey && row.status != Failed
    ensures UsageBytes(rows[row.id := row]) == UsageBytes(rows) + (if row.key in UsedKeys(rows) then 0 else KeySize(row.key))
  {
    var before, after := UsedKeys(rows), UsedKeys(rows[row.id := row]);
    forall k ensures k in after <==> k in before || k == row.key {
      if k in before {
        var id :| id in rows && rows[id].status != Failed && rows[id].key != NoKey && rows[id].key == k;
        assert id != row.id && rows[row.id := row][id].key == k;
      }
      if k == row.key {
        assert rows[row.id := row][row.id].key == k;
      }
    }
    if row.key in before {
      assert after == before;
    } else {
      TotalSizeSplit(after, row.key);
      assert after - {row.key} == before;
    }
  }
}
