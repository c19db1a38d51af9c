/** One-time use of client assertions (RFC 7523 section 3), with purging, in both
    stores. An attempt carries the instant at which the store reads its clock. */
module Assertions {
  import opened Records

  /** The memory store joins client and jti into one key text, which two different
      pairs may share; SQLite keeps the pair as its primary key. */
  datatype Attempt<K> = Attempt(key: K, expiresAt: Instant, now: Instant)

  datatype Policy = Memory | Sqlite

  function MemoryKey(clientID: string, jti: string): string {
    clientID + "|" + jti
  }

  /** Both purges drop exactly the records whose expiry lies strictly before `now`. */
  function Purged<K>(records: map<K, Instant>, now: Instant): map<K, Instant> {
    map k | k in records && !(records[k] < now) :: records[k]
  }

  /** A record blocks its key while it is ahead of the clock; in SQLite any row that
      survived the purge conflicts, also one expiring exactly now. */
  predicate Blocks(policy: Policy, expiry: Instant, now: Instant) {
    if policy == Memory then expiry > now else expiry >= now
  }

  /** One attempt: purge, then refuse or record. A SQLite conflict rolls the purge back. */
  function Consume<K>(policy: Policy, records: map<K, Instant>, a: Attempt<K>): (map<K, Instant>, bool) {
    var kept := Purged(records, a.now);
    if a.key in kept && Blocks(policy, kept[a.key], a.now)
    then (if policy == Memory then kept else records, false)
    else (kept[a.key := a.expiresAt], true)
  }

  function ConsumeAll<K>(policy: Policy, attempts: seq<Attempt<K>>): (r: (map<K, Instant>, seq<bool>))
    ensures |r.1| == |attempts|
  {
    if attempts == [] then (map[], [])
    else
      var (r1, accepted) := ConsumeAll(policy, attempts[..|attempts| - 1]);
      var (r2, ok) := Consume(policy, r1, attempts[|attempts| - 1]);
      (r2, accepted + [ok])
  }

  /** Attempts reach the table in the order of their clock readings. The memory store
      reads the clock under its mutex, so its attempts do; SQLite reads it before its
      transaction holds any lock, so there this is an assumption about the callers. */
  ghost predicate InClockOrder<K>(attempts: seq<Attempt<K>>) {
    forall i, j :: 0 <= i < j < |attempts| ==> attempts[i].now <= attempts[j].now
  }

  lemma {:induction false} ConsumeAllPrefix<K>(policy: Policy, attempts: seq<Attempt<K>>, n: nat)
    requires n <= |attempts|
    ensures ConsumeAll(policy, attempts[..n]).1 == ConsumeAll(policy, attempts).1[..n]
  {
    if n < |attempts| {
      var before := attempts[..|attempts| - 1];
      ConsumeAllPrefix(policy, before, n);
      assert before[..n] == attempts[..n];
    } else {
      assert attempts[..n] == attempts;
    }
  }

  /** Once accepted, a record stays under its key with its expiry as long as it
      blocks: no other attempt, accepted or refused, and no purge shortens that. */
  lemma {:induction false} RecordStays<K>(policy: Policy, attempts: seq<Attempt<K>>, i: nat)
    requires InClockOrder(attempts) && i < |attempts|
    requires ConsumeAll(policy, attempts).1[i]
    requires Blocks(policy, attempts[i].expiresAt, attempts[|attempts| - 1].now)
    ensures
      var final := ConsumeAll(policy, attempts).0;
      attempts[i].key in final && final[attempts[i].key] == attempts[i].expiresAt
  {
    var n := |attempts| - 1;
    if i < n {
      var before := attempts[..n];
      assert before[n - 1].now <= attempts[n].now;
      assert ConsumeAll(policy, before).1[i];
      RecordStays(policy, before, i);
    }
  }

  /** Every record held came from an accepted attempt. */
  lemma {:induction false} RecordOrigin<K>(policy: Policy, attempts: seq<Attempt<K>>, key: K) returns (i: nat)
    requires key in ConsumeAll(policy, attempts).0
    ensures i < |attempts| && ConsumeAll(policy, attempts).1[i]
    ensures attempts[i].key == key && attempts[i].expiresAt == ConsumeAll(policy, attempts).0[key]
  {
    var n := |attempts| - 1;
    var (r1, accepted) := ConsumeAll(policy, attempts[..n]);
    if Consume(policy, r1, attempts[n]).1 && attempts[n].key == key {
      i := n;
    } else {
      i := RecordOrigin(policy, attempts[..n], key);
    }
  }

  /** Whole-run one-time use: after an acceptance, every later attempt with that key
      is refused while the accepted record blocks. */
  lemma {:induction false} OneTimeUse<K>(policy: Policy, attempts: seq<Attempt<K>>, i: nat, j: nat)
    requires InClockOrder(attempts) && i < j < |attempts|
    requires attempts[i].key == attempts[j].key
    requires ConsumeAll(policy, attempts).1[i]
    requires Blocks(policy, attempts[i].expiresAt, attempts[j].now)
    ensures !ConsumeAll(policy, attempts).1[j]
  {
    var upto := attempts[..j + 1];
    ConsumeAllPrefix(policy, attempts, j + 1);
    ConsumeAllPrefix(policy, upto, j);
    assert upto[..j] == attempts[..j];
    assert attempts[..j][j - 1].now <= attempts[j].now;
    RecordStays(policy, attempts[..j], i);
  }

  /** ... and those are the only refusals: an attempt is refused exactly when an
      earlier accepted attempt with the same key still blocks. */
  lemma {:induction false} RefusedExactly<K>(policy: Policy, attempts: seq<Attempt<K>>, j: nat)
    requires InClockOrder(attempts) && j < |attempts|
    ensures !ConsumeAll(policy, attempts).1[j] <==>
      exists i :: 0 <= i < j && ConsumeAll(policy, attempts).1[i] && attempts[i].key == attempts[j].key
                  && Blocks(policy, attempts[i].expiresAt, attempts[j].now)
  {
    forall i | 0 <= i < j && ConsumeAll(policy, attempts).1[i] && attempts[i].key == attempts[j].key
               && Blocks(policy, attempts[i].expiresAt, attempts[j].now)
      ensures !ConsumeAll(policy, attempts).1[j]
    {
      OneTimeUse(policy, attempts, i, j);
    }
    if !ConsumeAll(policy, attempts).1[j] {
      var upto := attempts[..j + 1];
      ConsumeAllPrefix(policy, attempts, j + 1);
      ConsumeAllPrefix(policy, attempts, j);
      assert upto[..j] == attempts[..j];
      assert ConsumeAll(policy, upto).1[j] == ConsumeAll(policy, attempts).1[j];
      var i := RecordOrigin(policy, attempts[..j], attempts[j].key);
      assert ConsumeAll(policy, attempts[..j]).1[i] == ConsumeAll(policy, attempts).1[i];
    }
  }

  // ---- without any order of the clock readings ----

  /** Attempt `i` was accepted, and since then neither an acceptance of the same key
      has replaced its record nor a purge has dropped it; a SQLite refusal rolls its
      purge back. */
  ghost predicate StandsAfter<K>(policy: Policy, attempts: seq<Attempt<K>>, accepted: seq<bool>, i: nat)
    requires |accepted| == |attempts|
  {
    && i < |attempts| && accepted[i]
    && (forall k :: i < k < |attempts| && attempts[k].key == attempts[i].key ==> !accepted[k])
    && (forall k :: i < k < |attempts| && (policy == Memory || accepted[k]) ==> attempts[k].now <= attempts[i].expiresAt)
  }

  ghost predicate Standing<K>(policy: Policy, attempts: seq<Attempt<K>>, i: nat) {
    StandsAfter(policy, attempts, ConsumeAll(policy, attempts).1, i)
  }

  lemma {:induction false} StandsOneMore<K>(policy: Policy, attempts: seq<Attempt<K>>, accepted: seq<bool>, i: nat)
    requires |accepted| == |attempts| && i + 1 < |attempts|
    ensures var n := |attempts| - 1;
      StandsAfter(policy, attempts, accepted, i) <==>
        (StandsAfter(policy, attempts[..n], accepted[..n], i)
         && !(accepted[n] && attempts[n].key == attempts[i].key)
         && (policy == Memory || accepted[n] ==> attempts[n].now <= attempts[i].expiresAt))
  {
  }

  lemma {:induction false} StandingBefore<K>(policy: Policy, attempts: seq<Attempt<K>>, i: nat)
    requires i + 1 < |attempts|
    ensures var n := |attempts| - 1;
      Standing(policy, attempts, i) <==>
        (Standing(policy, attempts[..n], i)
         && !(ConsumeAll(policy, attempts).1[n] && attempts[n].key == attempts[i].key)
         && (policy == Memory || ConsumeAll(policy, attempts).1[n] ==> attempts[n].now <= attempts[i].expiresAt))
  {
    ConsumeAllPrefix(policy, attempts, |attempts| - 1);
    StandsOneMore(policy, attempts, ConsumeAll(policy, attempts).1, i);
  }

  lemma {:induction false} StandingIsHeld<K>(policy: Policy, attempts: seq<Attempt<K>>, i: nat)
    requires Standing(policy, attempts, i)
    ensures attempts[i].key in ConsumeAll(policy, attempts).0
    ensures ConsumeAll(policy, attempts).0[attempts[i].key] == attempts[i].expiresAt
  {
    var n := |attempts| - 1;
    if i < n {
      StandingBefore(policy, attempts, i);
      StandingIsHeld(policy, attempts[..n], i);
    }
  }

  lemma {:induction false} HeldIsStanding<K>(policy: Policy, attempts: seq<Attempt<K>>, key: K) returns (i: nat)
    requires key in ConsumeAll(policy, attempts).0
    ensures Standing(policy, attempts, i) && attempts[i].key == key
    ensures ConsumeAll(policy, attempts).0[key] == attempts[i].expiresAt
  {
    var n := |attempts| - 1;
    if ConsumeAll(policy, attempts).1[n] && attempts[n].key == key {
      i := n;
    } else {
      i := HeldIsStanding(policy, attempts[..n], key);
      StandingBefore(policy, attempts, i);
    }
  }

  /** Whatever the clock readings: an attempt is refused exactly when an earlier
      accepted one with its key still stands and still blocks. */
  lemma {:induction false} RefusedInAnyOrder<K>(policy: Policy, attempts: seq<Attempt<K>>, j: nat)
    requires j < |attempts|
    ensures !ConsumeAll(policy, attempts).1[j] <==>
      exists i :: 0 <= i < j && Standing(policy, attempts[..j], i) && attempts[i].key == attempts[j].key
                  && Blocks(policy, attempts[i].expiresAt, attempts[j].now)
  {
    var before, key := attempts[..j], attempts[j].key;
    assert attempts[..j + 1][..j] == before;
    ConsumeAllPrefix(policy, attempts, j + 1);
    if key in ConsumeAll(policy, before).0 {
      var i := HeldIsStanding(policy, before, key);
      assert attempts[i] == before[i];
    }
    forall i | 0 <= i < j && Standing(policy, before, i) && before[i].key == key
      ensures key in ConsumeAll(policy, before).0 && ConsumeAll(policy, before).0[key] == before[i].expiresAt
    {
      StandingIsHeld(policy, before, i);
    }
  }

  // ---- two stores, one contract ----

  /** Attempt `j` repeats the key of an accepted attempt exactly at its expiry. */
  ghost predicate RepeatsAtExpiry<K>(attempts: seq<Attempt<K>>, i: nat, j: nat) {
    && i < j < |attempts| && ConsumeAll(Memory, attempts).1[i]
    && attempts[i].key == attempts[j].key && attempts[j].now == attempts[i].expiresAt
  }

  /** While the answers agree, only a repeat at the expiry instant can part them. */
  lemma {:induction false} PartedOnlyAtExpiry<K>(attempts: seq<Attempt<K>>, j: nat)
    requires InClockOrder(attempts) && j < |attempts|
    requires ConsumeAll(Memory, attempts).1[..j] == ConsumeAll(Sqlite, attempts).1[..j]
    requires ConsumeAll(Memory, attempts).1[j] != ConsumeAll(Sqlite, attempts).1[j]
    ensures exists i :: RepeatsAtExpiry(attempts, i, j)
  {
    var m, q := ConsumeAll(Memory, attempts).1, ConsumeAll(Sqlite, attempts).1;
    assert forall i :: 0 <= i < j ==> m[..j][i] == m[i] && q[..j][i] == q[i];
    RefusedExactly(Memory, attempts, j);
    RefusedExactly(Sqlite, attempts, j);
    if m[j] {
      var i :| 0 <= i < j && q[i] && attempts[i].key == attempts[j].key && Blocks(Sqlite, attempts[i].expiresAt, attempts[j].now);
      assert RepeatsAtExpiry(attempts, i, j);
    }
  }

  lemma {:induction false} RepeatPartsStores<K>(attempts: seq<Attempt<K>>, i: nat, j: nat)
    requires InClockOrder(attempts) && RepeatsAtExpiry(attempts, i, j)
    ensures ConsumeAll(Memory, attempts).1 != ConsumeAll(Sqlite, attempts).1
  {
    var m, q := ConsumeAll(Memory, attempts).1, ConsumeAll(Sqlite, attempts).1;
    if m == q {
      OneTimeUse(Sqlite, attempts, i, j);
      RefusedExactly(Memory, attempts, j);
      var k :| 0 <= k < j && m[k] && attempts[k].key == attempts[j].key && Blocks(Memory, attempts[k].expiresAt, attempts[j].now);
      if k < i {
        OneTimeUse(Memory, attempts, k, i);
      } else {
        OneTimeUse(Sqlite, attempts, i, k);
      }
    }
  }

  lemma {:induction false} AgreeUpTo<K>(attempts: seq<Attempt<K>>, n: nat)
    requires InClockOrder(attempts) && n <= |attempts| && forall i, j :: !RepeatsAtExpiry(attempts, i, j)
    ensures ConsumeAll(Memory, attempts).1[..n] == ConsumeAll(Sqlite, attempts).1[..n]
  {
    if n > 0 {
      AgreeUpTo(attempts, n - 1);
      if ConsumeAll(Memory, attempts).1[n - 1] != ConsumeAll(Sqlite, attempts).1[n - 1] {
        PartedOnlyAtExpiry(attempts, n - 1);
      }
    }
  }

  /** Two stores, one contract: over any clock-ordered run both give the same answers
      if and only if no attempt repeats an accepted key exactly at its expiry. */
  lemma {:induction false} StoresAgreeExactly<K>(attempts: seq<Attempt<K>>)
    requires InClockOrder(attempts)
    ensures ConsumeAll(Memory, attempts).1 == ConsumeAll(Sqlite, attempts).1 <==> forall i, j :: !RepeatsAtExpiry(attempts, i, j)
  {
    var m, q := ConsumeAll(Memory, attempts).1, ConsumeAll(Sqlite, attempts).1;
    if forall i, j :: !RepeatsAtExpiry(attempts, i, j) {
      AgreeUpTo(attempts, |attempts|);
      assert m[..|attempts|] == m && q[..|attempts|] == q;
    } else {
      var i, j :| RepeatsAtExpiry(attempts, i, j);
      RepeatPartsStores(attempts, i, j);
    }
  }

  /** Such a repeat, smallest: memory accepts it and SQLite refuses it. */
  lemma StoresDifferAtExpiry<K>(key: K, t: Instant, e: Instant)
    requires t <= e
    ensures
      var attempts := [Attempt(key, e, t), Attempt(key, e, e)];
      ConsumeAll(Memory, attempts).1 == [true, true] && ConsumeAll(Sqlite, attempts).1 == [true, false]
  {
    var attempts := [Attempt(key, e, t), Attempt(key, e, e)];
    assert attempts[..1] == [attempts[0]];
    if ConsumeAll(Memory, attempts).1[1] == false { RefusedExactly(Memory, attempts, 1); }
    if ConsumeAll(Memory, attempts).1[0] == false { RefusedExactly(Memory, attempts, 0); }
    if ConsumeAll(Sqlite, attempts).1[0] == false { RefusedExactly(Sqlite, attempts, 0); }
    OneTimeUse(Sqlite, attempts, 0, 1);
  }
}
