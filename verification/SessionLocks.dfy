/** internal/agent/kernel.go: reference-counted session locks, as steps of any number of processes.

    acquireSessionLock and the last part of releaseSessionLock run under one kernel mutex and are single steps; taking
    and giving back the entry's own mutex are steps of their own. */
module SessionLocks {

  datatype Key = Key(text: string)

  /** The concatenated map key. */
  function SessionKey(user: string, session: string): Key {
    Key(user + ['\0'] + session)
  }

  /** The longer user name swallows the separator and the beginning of the other session's name. */
  ghost predicate Overlap(user1: string, session1: string, user2: string, session2: string) {
    exists w: string :: user2 == user1 + ['\0'] + w && session1 == w + ['\0'] + session2
  }

  /** Two sessions share a lock if and only if they are the same one, or their names overlap around a NUL character. */
  lemma KeysMeet(user1: string, session1: string, user2: string, session2: string)
    ensures SessionKey(user1, session1) == SessionKey(user2, session2) <==>
      ((user1 == user2 && session1 == session2)
       || Overlap(user1, session1, user2, session2) || Overlap(user2, session2, user1, session1))
  {
    if SessionKey(user1, session1) == SessionKey(user2, session2) {
      if |user1| <= |user2| {
        LongerOverlaps(user1, session1, user2, session2);
      } else {
        LongerOverlaps(user2, session2, user1, session1);
      }
    } else if Overlap(user1, session1, user2, session2) {
      OverlapMeets(user1, session1, user2, session2);
    } else if Overlap(user2, session2, user1, session1) {
      OverlapMeets(user2, session2, user1, session1);
    }
  }

  lemma OverlapMeets(user1: string, session1: string, user2: string, session2: string)
    requires Overlap(user1, session1, user2, session2)
    ensures SessionKey(user1, session1) == SessionKey(user2, session2)
  {
    var w: string :| user2 == user1 + ['\0'] + w && session1 == w + ['\0'] + session2;
    assert user1 + ['\0'] + session1 == user2 + ['\0'] + session2;
  }

  lemma LongerOverlaps(user1: string, session1: string, user2: string, session2: string)
    requires SessionKey(user1, session1) == SessionKey(user2, session2) && |user1| <= |user2|
    ensures (user1 == user2 && session1 == session2) || Overlap(user1, session1, user2, session2)
  {
    var key, n1, n2 := SessionKey(user1, session1).text, |user1|, |user2|;
    assert key[..n1] == user1 && key[..n2] == user2 && key[n1 + 1..] == session1 && key[n2 + 1..] == session2;
    if n1 < n2 {
      var w := key[n1 + 1..n2];
      assert user2 == user1 + ['\0'] + w && session1 == w + ['\0'] + session2;
    }
  }

  /** So different sessions never share a lock as long as no user name, or no session name, contains a NUL character.
      With a conversation service the session name is the identifier of a stored conversation. */
  lemma KeysAreDistinct(user1: string, session1: string, user2: string, session2: string)
    requires ('\0' !in user1 && '\0' !in user2) || ('\0' !in session1 && '\0' !in session2)
    ensures SessionKey(user1, session1) == SessionKey(user2, session2) <==> user1 == user2 && session1 == session2
  {
    KeysMeet(user1, session1, user2, session2);
    NoOverlap(user1, session1, user2, session2);
    NoOverlap(user2, session2, user1, session1);
  }

  lemma NoOverlap(user1: string, session1: string, user2: string, session2: string)
    requires '\0' !in user2 || '\0' !in session1
    ensures !Overlap(user1, session1, user2, session2)
  {
    forall w: string ensures !(user2 == user1 + ['\0'] + w && session1 == w + ['\0'] + session2) {
      assert (user1 + ['\0'] + w)[|user1|] == '\0' && (w + ['\0'] + session2)[|w|] == '\0';
    }
  }

  /** Otherwise every user name with a NUL character shares a lock with a shorter one, whatever the session. */
  lemma KeysCanCollide(user: string, w: string, session: string)
    ensures user + ['\0'] + w != user
    ensures SessionKey(user, w + ['\0'] + session) == SessionKey(user + ['\0'] + w, session)
  {
    KeysMeet(user, w + ['\0'] + session, user + ['\0'] + w, session);
    assert |user + ['\0'] + w| > |user|;
  }

  class SessionLockEntry {
    var refs: nat
    /** The entry's mutex: whether it is locked, and by whom then. */
    var locked: bool
    ghost var holder: nat
    /** The processes that count on this entry, and the key they use. */
    ghost var users: set<nat>
    ghost const key: Key

    constructor (ghost key: Key, ghost p: nat)
      ensures refs == 1 && !locked && users == {p} && this.key == key
    {
      refs, locked, holder, users := 1, false, p, {p};
      this.key := key;
    }
  }

  /** Where a process stands between acquiring and having released the lock of one session. */
  datatype Stage = Waiting | Holding | Leaving

  datatype Process = Process(key: Key, entry: SessionLockEntry, stage: Stage)

  datatype Event = Acquire(process: nat, user: string, session: string)
                 | Lock(process: nat) | Unlock(process: nat) | Drop(process: nat)

  class Kernel {
    var sessionLocks: map<Key, SessionLockEntry>
    var processes: map<nat, Process>

    constructor ()
      ensures Valid() && processes == map[]
    {
      sessionLocks, processes := map[], map[];
    }

    /** Every process uses the entry that the map has for its key, and holds its mutex exactly when the mutex says so;
        every entry counts the processes of its own key.  Only the entry of a key whose last process is just leaving
        may be unused. */
    ghost predicate Balanced(leaving: set<Key>)
      reads this, sessionLocks.Values
    {
      && (forall p | p in processes ::
            && processes[p].key in sessionLocks && sessionLocks[processes[p].key] == processes[p].entry
            && p in processes[p].entry.users
            && (processes[p].stage == Holding <==> processes[p].entry.locked && processes[p].entry.holder == p))
      && (forall key | key in sessionLocks ::
            && sessionLocks[key].key == key && sessionLocks[key].refs == |sessionLocks[key].users|
            && (sessionLocks[key].refs == 0 ==> key in leaving)
            && (sessionLocks[key].locked ==> sessionLocks[key].holder in sessionLocks[key].users))
      && (forall key, p | key in sessionLocks && p in sessionLocks[key].users :: p in processes && processes[p].key == key)
    }

    ghost predicate Valid()
      reads this, sessionLocks.Values
    {
      Balanced({})
    }

    /** acquireSessionLock. */
    method Acquire(p: nat, user: string, session: string) returns (key: Key, entry: SessionLockEntry)
      requires Valid() && p !in processes
      modifies this, sessionLocks.Values
      ensures Valid() && fresh(sessionLocks.Values - old(sessionLocks.Values))
      ensures key == SessionKey(user, session) && processes == old(processes)[p := Process(key, entry, Waiting)]
    {
      key := SessionKey(user, session);
      if key in sessionLocks {
        entry := sessionLocks[key];
        Join(p, key, entry);
      } else {
        entry := Open(p, key);
      }
    }

    method Join(p: nat, key: Key, entry: SessionLockEntry)
      requires Valid() && p !in processes && key in sessionLocks && sessionLocks[key] == entry
      modifies this`processes, entry
      ensures Valid() && processes == old(processes)[p := Process(key, entry, Waiting)]
    {
      entry.refs, entry.users := entry.refs + 1, entry.users + {p};
      processes := processes[p := Process(key, entry, Waiting)];
    }

    method Open(p: nat, key: Key) returns (entry: SessionLockEntry)
      requires Valid() && p !in processes && key !in sessionLocks
      modifies this
      ensures Valid() && fresh(entry) && sessionLocks == old(sessionLocks)[key := entry]
      ensures processes == old(processes)[p := Process(key, entry, Waiting)]
    {
      entry := new SessionLockEntry(key, p);
      sessionLocks := sessionLocks[key := entry];
      processes := processes[p := Process(key, entry, Waiting)];
    }

    /** Taking the entry's mutex, for which the process has to wait until it is free. */
    method Lock(p: nat)
      requires Valid() && p in processes && processes[p].stage == Waiting && !processes[p].entry.locked
      modifies this`processes, processes[p].entry
      ensures Valid() && processes == old(processes)[p := old(processes[p]).(stage := Holding)]
    {
      var entry := processes[p].entry;
      entry.locked, entry.holder := true, p;
      processes := processes[p := processes[p].(stage := Holding)];
    }

    /** The first statement of releaseSessionLock. */
    method Unlock(p: nat)
      requires Valid() && p in processes && processes[p].stage == Holding
      modifies this`processes, processes[p].entry
      ensures Valid() && processes == old(processes)[p := old(processes[p]).(stage := Leaving)]
    {
      var entry := processes[p].entry;
      entry.locked := false;
      processes := processes[p := processes[p].(stage := Leaving)];
    }

    /** The rest of releaseSessionLock, under the kernel mutex. */
    method Drop(p: nat)
      requires Valid() && p in processes && processes[p].stage == Leaving
      modifies this, processes[p].entry
      ensures Valid() && processes == old(processes) - {p} && sessionLocks.Values <= old(sessionLocks.Values)
    {
      var key, entry := processes[p].key, processes[p].entry;
      Leave(p);
      if entry.refs == 0 && key in sessionLocks && sessionLocks[key] == entry {
        Discard(key);
      }
    }

    method Leave(p: nat)
      requires Valid() && p in processes && processes[p].stage == Leaving
      modifies this`processes, processes[p].entry
      ensures Balanced({old(processes[p].key)}) && processes == old(processes) - {p}
    {
      var entry := processes[p].entry;
      processes := processes - {p};
      if entry.refs > 0 {
        entry.refs := entry.refs - 1;
      }
      entry.users := entry.users - {p};
    }

    /** The entry goes with its last process. */
    method Discard(key: Key)
      requires Balanced({key}) && key in sessionLocks && sessionLocks[key].refs == 0
      modifies this`sessionLocks
      ensures Valid() && sessionLocks == old(sessionLocks) - {key}
    {
      sessionLocks := sessionLocks - {key};
    }

    /** The processes between acquire and release on one key. */
    function Users(key: Key): set<nat>
      reads this
    {
      set p | p in processes && processes[p].key == key
    }

    /** The four laws of the locks: one entry for all processes of a key, counting them; no entry without a process;
        one holder at most; and a process that waits finds the mutex free as soon as nobody of its key holds it. */
    lemma LockLaws(key: Key)
      requires Valid()
      ensures forall p | p in Users(key) :: key in sessionLocks && processes[p].entry == sessionLocks[key]
      ensures key in sessionLocks <==> Users(key) != {}
      ensures key in sessionLocks ==> sessionLocks[key].refs == |Users(key)|
      ensures forall p, q | p in Users(key) && q in Users(key) && processes[p].stage == processes[q].stage == Holding :: p == q
      ensures key in sessionLocks && sessionLocks[key].locked ==> exists p :: p in Users(key) && processes[p].stage == Holding
    {
      if key in sessionLocks {
        assert Users(key) == sessionLocks[key].users;
        if sessionLocks[key].locked {
          assert processes[sessionLocks[key].holder].stage == Holding;
        }
      }
    }

    /** Every schedule of any number of processes: a step that is not possible in the current state is passed over. */
    method Perform(schedule: seq<Event>)
      requires Valid()
      modifies this, sessionLocks.Values
      ensures Valid()
    {
      for i := 0 to |schedule|
        invariant Valid() && fresh(sessionLocks.Values - old(sessionLocks.Values))
      {
        var p := schedule[i].process;
        if schedule[i].Acquire? && p !in processes {
          var _, _ := Acquire(p, schedule[i].user, schedule[i].session);
        } else if schedule[i].Lock? && p in processes && processes[p].stage == Waiting && !processes[p].entry.locked {
          Lock(p);
        } else if schedule[i].Unlock? && p in processes && processes[p].stage == Holding {
          Unlock(p);
        } else if schedule[i].Drop? && p in processes && processes[p].stage == Leaving {
          Drop(p);
        }
      }
    }
  }
}
