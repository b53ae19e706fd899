/** What the de-duplication store promises over whole runs of stores, sweeps and size
    checks from an empty database. A run is a list of operations; the results speak
    about its steps by index. */
module StoreHistory {
  import opened Wrappers
  import opened ByteOrder
  import opened Timestamps
  import opened MessageStore

  datatype Op =
    | Put(message: string, key: string, expired: Option<Time>)
    | Expire(now: Time)
    | CheckSize(limit: int)

  ghost function Apply(s: Store, op: Op): Store {
    match op
    case Put(message, key, expired) => StoreMessage(s, message, key, expired).0
    case Expire(now) => Sweep(s, now)
    case CheckSize(limit) => SizeCheck(s, limit)
  }

  /** The store after the first `n` operations. */
  ghost function At(ops: seq<Op>, n: nat): Store
    requires n <= |ops|
  {
    if n == 0 then EMPTY else Apply(At(ops, n - 1), ops[n - 1])
  }

  /** Step `i` stores the message under `key`. */
  ghost predicate Accepted(ops: seq<Op>, i: nat, key: string) {
    i < |ops| && ops[i].Put? && ops[i].key == key
    && StoreMessage(At(ops, i), ops[i].message, key, ops[i].expired).1 == Ok(true)
  }

  /** Step `m` takes `key` out of the message bucket. */
  ghost predicate Removed(ops: seq<Op>, m: nat, key: string) {
    m < |ops| && key in At(ops, m).messages && key !in At(ops, m + 1).messages
  }

  /** Step `w` finds the message bucket over its limit and drops it. */
  ghost predicate Wiped(ops: seq<Op>, w: nat) {
    w < |ops| && ops[w].CheckSize? && OverLimit(At(ops, w), ops[w].limit)
  }

  /** Before step `n` an expiry entry still names `key`. */
  ghost predicate Pending(ops: seq<Op>, n: nat, key: string) {
    n <= |ops| && key in At(ops, n).expiry.Values
  }

  // ---------- Acceptance and removal ----------

  lemma {:induction false} KeptUnlessRemoved(ops: seq<Op>, i: nat, n: nat, key: string)
    requires i <= n <= |ops| && key in At(ops, i).messages
    requires forall m | i <= m < n :: !Removed(ops, m, key)
    ensures key in At(ops, n).messages
    decreases n
  {
    if i < n {
      KeptUnlessRemoved(ops, i, n - 1, key);
      assert !Removed(ops, n - 1, key);
    }
  }

  /** A key is accepted at most once between two of its removals, in any run. */
  lemma AcceptedOnceBetweenRemovals(ops: seq<Op>, i: nat, j: nat, key: string)
    requires i < j && Accepted(ops, i, key) && Accepted(ops, j, key)
    ensures exists m :: i < m < j && Removed(ops, m, key)
  {
    if forall m | i < m < j :: !Removed(ops, m, key) {
      KeptUnlessRemoved(ops, i + 1, j, key);
    }
  }

  /** A key is stored, and so refused, exactly from an acceptance of it to its next removal. */
  lemma {:induction false} StoredExactly(ops: seq<Op>, n: nat, key: string)
    requires n <= |ops|
    ensures key in At(ops, n).messages
       <==> exists i :: 0 <= i < n && Accepted(ops, i, key) && forall m | i < m < n :: !Removed(ops, m, key)
  {
    if i :| 0 <= i < n && Accepted(ops, i, key) && forall m | i < m < n :: !Removed(ops, m, key) {
      KeptUnlessRemoved(ops, i + 1, n, key);
    }
    if key in At(ops, n).messages {
      var i := HoldsWhatWasAccepted(ops, n, key);
    }
  }

  /** What is stored under a key is the message of that acceptance. */
  lemma {:induction false} HoldsWhatWasAccepted(ops: seq<Op>, n: nat, key: string) returns (i: nat)
    requires n <= |ops| && key in At(ops, n).messages
    ensures i < n && Accepted(ops, i, key) && forall m | i < m < n :: !Removed(ops, m, key)
    ensures At(ops, n).messages[key] == ops[i].message
  {
    if key in At(ops, n - 1).messages {
      i := HoldsWhatWasAccepted(ops, n - 1, key);
    } else {
      i := n - 1;
    }
  }

  /** A size check takes keys out exactly when its limit is set and below the stored bytes, and
      then all of them. */
  lemma SizeCheckExactly(ops: seq<Op>, m: nat, key: string)
    requires m < |ops| && ops[m].CheckSize? && key in At(ops, m).messages
    ensures Removed(ops, m, key) <==> ops[m].limit != 0 && ops[m].limit < TotalBytes(At(ops, m).messages)
    ensures Removed(ops, m, key) ==> At(ops, m + 1).messages == map[]
    ensures !Removed(ops, m, key) ==> At(ops, m + 1) == At(ops, m)
  {
    assert At(ops, m + 1) == Apply(At(ops, m), ops[m]);
  }

  /** A run without sweeps in which every limit is zero, or not below what is stored, removes
      nothing: all that was ever accepted is there. */
  lemma {:induction false} RoomyLimitsRemoveNothing(ops: seq<Op>, n: nat, i: nat, key: string)
    requires i < n <= |ops| && Accepted(ops, i, key)
    requires forall m | i < m < n :: !ops[m].Expire?
    requires forall m | i < m < n && ops[m].CheckSize? ::
               ops[m].limit == 0 || TotalBytes(At(ops, m).messages) <= ops[m].limit
    ensures key in At(ops, n).messages && At(ops, n).messages[key] == ops[i].message
    decreases n
  {
    if i < n - 1 {
      RoomyLimitsRemoveNothing(ops, n - 1, i, key);
      if ops[n - 1].CheckSize? {
        SizeCheckExactly(ops, n - 1, key);
      }
    }
  }

  /** A wipe removes every stored key at once and leaves every entry where it is. */
  lemma WipeForgetsEveryKey(ops: seq<Op>, w: nat, key: string, message: string, expired: Option<Time>)
    requires Wiped(ops, w)
    ensures Removed(ops, w, key)
       <==> exists i :: 0 <= i < w && Accepted(ops, i, key) && forall m | i < m < w :: !Removed(ops, m, key)
    ensures Pending(ops, w + 1, key) <==> Pending(ops, w, key)
    ensures key != "" ==> StoreMessage(At(ops, w + 1), message, key, expired).1 == Ok(true)
  {
    StoredExactly(ops, w, key);
  }

  lemma {:induction false} EmptyKeyNeverStored(ops: seq<Op>, n: nat)
    requires n <= |ops|
    ensures "" !in At(ops, n).messages
  {
    if n > 0 {
      EmptyKeyNeverStored(ops, n - 1);
    }
  }

  // ---------- Expiry entries ----------

  /** No wipe among the first `n` steps happened while an entry named `key`. */
  ghost predicate NoPendingWipe(ops: seq<Op>, n: nat, key: string) {
    forall w | 0 <= w < n :: !(Wiped(ops, w) && Pending(ops, w, key))
  }

  /** At most one entry names `key`, and only while `key` is stored. */
  ghost predicate Tracked(s: Store, key: string) {
    && (key in s.expiry.Values ==> key in s.messages)
    && (forall a, b | a in s.expiry && b in s.expiry && s.expiry[a] == key && s.expiry[b] == key :: a == b)
  }

  lemma TrackedStep(s: Store, op: Op, key: string)
    requires Tracked(s, key)
    requires op.CheckSize? && OverLimit(s, op.limit) ==> key !in s.expiry.Values
    ensures Tracked(Apply(s, op), key)
  {
    var t := Apply(s, op);
    match op
    case Put(message, k, expired) =>
      if expired.Some? && t != s {
        forall a, b | a in t.expiry && b in t.expiry && t.expiry[a] == key && t.expiry[b] == key
          ensures a == b
        {
          if k == key {
            assert key !in s.expiry.Values;
            assert a in s.expiry ==> s.expiry[a] in s.expiry.Values;
            assert b in s.expiry ==> s.expiry[b] in s.expiry.Values;
          }
        }
        if key in t.expiry.Values && k != key {
          var a :| a in t.expiry && t.expiry[a] == key;
          assert s.expiry[a] in s.expiry.Values;
        }
      }
    case Expire(now) =>
      var due := DueStamps(s.expiry, now);
      if key in t.expiry.Values {
        var a :| a in t.expiry && t.expiry[a] == key;
        assert s.expiry[a] in s.expiry.Values;
        assert key !in (set stamp | stamp in due :: s.expiry[stamp]);
      }
    case CheckSize(limit) =>
  }

  /** Every entry names a stored key, and no two entries the same one, as far as a key
      is concerned that no wipe has caught with an entry pending. */
  lemma {:induction false} EntriesTrackStoredKeys(ops: seq<Op>, n: nat, key: string)
    requires n <= |ops| && NoPendingWipe(ops, n, key)
    ensures Tracked(At(ops, n), key)
  {
    if n > 0 {
      EntriesTrackStoredKeys(ops, n - 1, key);
      assert !(Wiped(ops, n - 1) && Pending(ops, n - 1, key));
      TrackedStep(At(ops, n - 1), ops[n - 1], key);
    }
  }

  /** Without wipes this holds of all keys, even when stamps collide. */
  lemma EntriesWithoutWipes(ops: seq<Op>, n: nat)
    requires n <= |ops| && forall w | 0 <= w < n :: !Wiped(ops, w)
    ensures var s := At(ops, n);
            s.expiry.Values <= s.messages.Keys
            && forall a, b | a in s.expiry && b in s.expiry && s.expiry[a] == s.expiry[b] :: a == b
  {
    var s := At(ops, n);
    forall key ensures Tracked(s, key) {
      EntriesTrackStoredKeys(ops, n, key);
    }
    forall a, b | a in s.expiry && b in s.expiry && s.expiry[a] == s.expiry[b] ensures a == b {
      assert Tracked(s, s.expiry[a]);
    }
    forall key | key in s.expiry.Values ensures key in s.messages {
      assert Tracked(s, key);
    }
  }

  /** An entry was written by an acceptance of the key it names. */
  lemma {:induction false} EntryHasWriter(ops: seq<Op>, n: nat, stamp: string) returns (a: nat)
    requires n <= |ops| && stamp in At(ops, n).expiry
    ensures a < n && Accepted(ops, a, At(ops, n).expiry[stamp])
    ensures ops[a].expired.Some? && Format(ops[a].expired.value) == stamp
  {
    var key := At(ops, n).expiry[stamp];
    var before := At(ops, n - 1);
    if stamp in before.expiry && before.expiry[stamp] == key {
      a := EntryHasWriter(ops, n - 1, stamp);
    } else {
      a := n - 1;
    }
  }

  // ---------- The life of one accepted message ----------

  /** Between its acceptance at `i` and step `n`, `key` is not accepted again. */
  ghost predicate LatestAcceptance(ops: seq<Op>, i: nat, n: nat, key: string) {
    i < n <= |ops| && Accepted(ops, i, key) && forall m | i < m < n :: !Accepted(ops, m, key)
  }

  /** Any entry for the key is the one its latest acceptance wrote. */
  lemma {:induction false} OnlyItsOwnEntry(ops: seq<Op>, i: nat, n: nat, key: string)
    requires LatestAcceptance(ops, i, n, key) && !Pending(ops, i, key)
    ensures forall stamp | stamp in At(ops, n).expiry && At(ops, n).expiry[stamp] == key ::
              ops[i].expired.Some? && stamp == Format(ops[i].expired.value)
    decreases n
  {
    var s, t := At(ops, n - 1), At(ops, n);
    if i == n - 1 {
      assert key !in s.expiry.Values;
      forall stamp | stamp in t.expiry && t.expiry[stamp] == key
        ensures ops[i].expired.Some? && stamp == Format(ops[i].expired.value)
      {
        assert stamp in s.expiry ==> s.expiry[stamp] in s.expiry.Values;
      }
    } else {
      OnlyItsOwnEntry(ops, i, n - 1, key);
      assert !Accepted(ops, n - 1, key);
    }
  }

  /** A sweep removes a key before the second of its own stamp, or at all if it was
      stored without expiry, only because of a wipe: one that struck after an earlier
      acceptance of that key while the entry this acceptance wrote was pending, and an
      entry was still pending when the key was stored again. */
  lemma EarlySweepNeedsWipe(ops: seq<Op>, i: nat, j: nat, key: string) returns (a: nat, w: nat)
    requires LatestAcceptance(ops, i, j, key)
    requires Removed(ops, j, key) && ops[j].Expire?
    requires ops[i].expired.Some? ==> Seconds(ops[j].now) < Seconds(ops[i].expired.value)
    ensures Pending(ops, i, key) && a < w < i
    ensures Accepted(ops, a, key) && Wiped(ops, w) && ops[a].expired.Some?
    ensures var stamp := Format(ops[a].expired.value);
            stamp in At(ops, w).expiry && At(ops, w).expiry[stamp] == key
  {
    if !Pending(ops, i, key) {
      OnlyItsOwnEntry(ops, i, j, key);
      var s, due := At(ops, j), DueStamps(At(ops, j).expiry, ops[j].now);
      var stamp :| stamp in due && s.expiry[stamp] == key;
      StampOrderAcrossSeconds(ops[i].expired.value, ops[j].now);
      assert false;
    }
    if NoPendingWipe(ops, i, key) {
      EntriesTrackStoredKeys(ops, i, key);
      assert false;
    }
    w :| 0 <= w < i && Wiped(ops, w) && Pending(ops, w, key);
    var stamp :| stamp in At(ops, w).expiry && At(ops, w).expiry[stamp] == key;
    a := EntryHasWriter(ops, w, stamp);
  }

  ghost predicate DueSweep(ops: seq<Op>, m: nat, e: Time) {
    m < |ops| && ops[m].Expire? && AtMost(Format(e), Format(ops[m].now))
  }

  /** Step `o` stores another message with the very same expiry time. */
  ghost predicate Overwrites(ops: seq<Op>, o: nat, e: Time) {
    o < |ops| && ops[o].Put? && Accepted(ops, o, ops[o].key) && ops[o].expired == Some(e)
  }

  /** Some step strictly between `i` and `n` overwrites the stamp of `e`. */
  ghost predicate Orphaned(ops: seq<Op>, i: nat, n: nat, e: Time) {
    i + 1 < n && (Orphaned(ops, i, n - 1, e) || Overwrites(ops, n - 1, e))
  }

  /** Some due sweep strictly between `i` and `n` comes before any such overwrite. */
  ghost predicate Collected(ops: seq<Op>, i: nat, n: nat, e: Time) {
    i + 1 < n && (Collected(ops, i, n - 1, e) || (DueSweep(ops, n - 1, e) && !Orphaned(ops, i, n - 1, e)))
  }

  lemma {:induction false} OrphanedBy(ops: seq<Op>, i: nat, n: nat, e: Time) returns (o: nat)
    requires Orphaned(ops, i, n, e)
    ensures i < o < n && Overwrites(ops, o, e)
  {
    if Overwrites(ops, n - 1, e) { o := n - 1; } else { o := OrphanedBy(ops, i, n - 1, e); }
  }

  lemma {:induction false} CollectedBy(ops: seq<Op>, i: nat, n: nat, e: Time) returns (m: nat)
    requires Collected(ops, i, n, e)
    ensures i < m < n && DueSweep(ops, m, e) && !Orphaned(ops, i, m, e)
  {
    if Collected(ops, i, n - 1, e) { m := CollectedBy(ops, i, n - 1, e); } else { m := n - 1; }
  }

  ghost predicate EntryFor(s: Store, e: Time, key: string) {
    Format(e) in s.expiry && s.expiry[Format(e)] == key
  }

  lemma SweepTakesOnlyNamedKeys(s: Store, now: Time, key: string)
    ensures key in Sweep(s, now).messages
       <==> key in s.messages
            && !exists stamp :: stamp in s.expiry && s.expiry[stamp] == key && AtMost(stamp, Format(now))
  {
    var due := DueStamps(s.expiry, now);
    if stamp :| stamp in s.expiry && s.expiry[stamp] == key && AtMost(stamp, Format(now)) {
      assert stamp in due;
    }
  }

  /** One step, seen from a message with expiry `e` that only its own entry can name:
      a due sweep that finds the entry removes it, and another message stored with the
      same expiry time takes the entry over. */
  lemma LifetimeStep(s: Store, op: Op, key: string, e: Time)
    requires forall stamp | stamp in s.expiry && s.expiry[stamp] == key :: stamp == Format(e)
    requires op.Put? && op.key == key ==> StoreMessage(s, op.message, key, op.expired).1 != Ok(true)
    requires !(op.CheckSize? && OverLimit(s, op.limit))
    ensures var t := Apply(s, op);
            var due := op.Expire? && AtMost(Format(e), Format(op.now));
            var overwrites := op.Put? && op.expired == Some(e)
                && StoreMessage(s, op.message, op.key, op.expired).1 == Ok(true);
            && (key in t.messages <==> key in s.messages && !(due && EntryFor(s, e, key)))
            && (EntryFor(t, e, key) <==> EntryFor(s, e, key) && !due && !overwrites)
  {
    match op
    case Put(message, k, expired) =>
      if expired.Some? && Format(expired.value) == Format(e) {
        StampInjective(expired.value, e);
      }
    case Expire(now) =>
      SweepTakesOnlyNamedKeys(s, now, key);
    case CheckSize(limit) =>
  }

  /** The exact life of a message accepted at `i` with expiry `e`, as long as no wipe
      intervenes: it is gone at `n` exactly when some due sweep came before any other
      message was stored with the same expiry time. Once overwritten it stays. */
  lemma {:induction false} LifetimeExact(ops: seq<Op>, i: nat, n: nat, key: string, e: Time)
    requires LatestAcceptance(ops, i, n, key) && ops[i].expired == Some(e)
    requires !Pending(ops, i, key) && forall w | i < w < n :: !Wiped(ops, w)
    ensures key in At(ops, n).messages <==> !Collected(ops, i, n, e)
    ensures EntryFor(At(ops, n), e, key) <==> !Collected(ops, i, n, e) && !Orphaned(ops, i, n, e)
    decreases n
  {
    if i < n - 1 {
      LifetimeExact(ops, i, n - 1, key, e);
      assert !Accepted(ops, n - 1, key) && !Wiped(ops, n - 1);
      OnlyItsOwnEntry(ops, i, n - 1, key);
      LifetimeStep(At(ops, n - 1), ops[n - 1], key, e);
      assert At(ops, n) == Apply(At(ops, n - 1), ops[n - 1]);
      LifetimeUnfold(ops, i, n - 1, e);
    }
  }

  lemma LifetimeUnfold(ops: seq<Op>, i: nat, n: nat, e: Time)
    requires i < n < |ops|
    ensures Orphaned(ops, i, n + 1, e)
       <==> Orphaned(ops, i, n, e)
            || (ops[n].Put? && ops[n].expired == Some(e)
                && StoreMessage(At(ops, n), ops[n].message, ops[n].key, ops[n].expired).1 == Ok(true))
    ensures Collected(ops, i, n + 1, e)
       <==> Collected(ops, i, n, e)
            || (ops[n].Expire? && AtMost(Format(e), Format(ops[n].now)) && !Orphaned(ops, i, n, e))
  {
  }

  // ---------- Consequences in whole seconds ----------

  /** Sweeps in earlier seconds never take the message. */
  lemma KeptBeforeItsSecond(ops: seq<Op>, i: nat, n: nat, key: string, e: Time)
    requires LatestAcceptance(ops, i, n, key) && ops[i].expired == Some(e)
    requires !Pending(ops, i, key) && forall w | i < w < n :: !Wiped(ops, w)
    requires forall m | i < m < n && ops[m].Expire? :: Seconds(ops[m].now) < Seconds(e)
    ensures key in At(ops, n).messages
  {
    LifetimeExact(ops, i, n, key, e);
    if Collected(ops, i, n, e) {
      var m := CollectedBy(ops, i, n, e);
      StampOrderAcrossSeconds(e, ops[m].now);
    }
  }

  lemma SweepIsNoAcceptance(ops: seq<Op>, i: nat, m: nat, key: string)
    requires LatestAcceptance(ops, i, m, key) && m < |ops| && ops[m].Expire?
    ensures LatestAcceptance(ops, i, m + 1, key) && !Wiped(ops, m)
  {
  }

  /** The message outlives a sweep in a later second only if another message was stored
      with the same expiry time before it. */
  lemma OutlivesItsSecondOnlyIfOverwritten(ops: seq<Op>, i: nat, m: nat, key: string, e: Time) returns (o: nat)
    requires LatestAcceptance(ops, i, m, key) && ops[i].expired == Some(e)
    requires !Pending(ops, i, key) && forall w | i < w < m :: !Wiped(ops, w)
    requires m < |ops| && ops[m].Expire? && Seconds(e) < Seconds(ops[m].now)
    requires key in At(ops, m + 1).messages
    ensures i < o < m && Overwrites(ops, o, e) && ops[o].key != key
  {
    SweepIsNoAcceptance(ops, i, m, key);
    LifetimeExact(ops, i, m + 1, key, e);
    OrphanedIfOutlived(ops, i, m, e);
    o := OrphanedBy(ops, i, m, e);
    assert !Accepted(ops, o, key);
  }

  lemma OrphanedIfOutlived(ops: seq<Op>, i: nat, m: nat, e: Time)
    requires i < m < |ops| && ops[m].Expire? && Seconds(e) < Seconds(ops[m].now)
    requires !Collected(ops, i, m + 1, e)
    ensures Orphaned(ops, i, m, e)
  {
    LifetimeUnfold(ops, i, m, e);
    StampOrderAcrossSeconds(e, ops[m].now);
  }

  /** A message stored without expiry stays until a wipe. */
  lemma {:induction false} NoExpiryIsKept(ops: seq<Op>, i: nat, n: nat, key: string)
    requires i < n <= |ops| && Accepted(ops, i, key) && ops[i].expired.None?
    requires !Pending(ops, i, key) && forall w | i < w < n :: !Wiped(ops, w)
    ensures key in At(ops, n).messages
    ensures LatestAcceptance(ops, i, n, key)
    decreases n
  {
    if i < n - 1 {
      NoExpiryIsKept(ops, i, n - 1, key);
      assert !Wiped(ops, n - 1) && !Accepted(ops, n - 1, key);
      OnlyItsOwnEntry(ops, i, n - 1, key);
      if ops[n - 1].Expire? {
        SweepTakesOnlyNamedKeys(At(ops, n - 1), ops[n - 1].now, key);
      }
    }
  }

  // ---------- Exactly which messages are safe from early sweeps ----------

  /** An entry names `key` whose time lies in a second before the expiry the key is about to
      be stored with, or any entry at all if it is to be stored without one. */
  ghost predicate Stale(s: Store, key: string, expired: Option<Time>) {
    exists e: Time :: EntryFor(s, e, key) && (expired.Some? ==> Seconds(e) < Seconds(expired.value))
  }

  /** Without expiry it is just any entry. */
  lemma StaleIsPending(ops: seq<Op>, key: string)
    ensures Stale(After(ops), key, None) <==> Pending(ops, |ops|, key)
  {
    var s := After(ops);
    if Pending(ops, |ops|, key) {
      var stamp :| stamp in s.expiry && s.expiry[stamp] == key;
      var a := EntryHasWriter(ops, |ops|, stamp);
      assert EntryFor(s, ops[a].expired.value, key);
    }
  }

  /** From step `n` on there is no wipe, and no sweep in or after the second of the expiry. */
  ghost predicate Untimely(ops: seq<Op>, n: nat, expired: Option<Time>) {
    forall m | n <= m < |ops| ::
      !Wiped(ops, m) && (ops[m].Expire? && expired.Some? ==> Seconds(ops[m].now) < Seconds(expired.value))
  }

  function Storing(ops: seq<Op>, message: string, key: string, expired: Option<Time>): seq<Op> {
    ops + [Put(message, key, expired)]
  }

  /** Stored now, the message is still there after `more`, unless that has a reason to remove it. */
  ghost predicate KeptBy(ops: seq<Op>, message: string, key: string, expired: Option<Time>, more: seq<Op>) {
    var run := Storing(ops, message, key, expired) + more;
    Untimely(run, |ops| + 1, expired) ==> key in After(run).messages
  }

  ghost predicate SafeToStore(ops: seq<Op>, message: string, key: string, expired: Option<Time>) {
    forall more: seq<Op> :: KeptBy(ops, message, key, expired, more)
  }

  /** The store at the end of a run. */
  ghost function After(ops: seq<Op>): Store {
    At(ops, |ops|)
  }

  lemma {:induction false} AtOfPrefix(ops: seq<Op>, more: seq<Op>, n: nat)
    requires n <= |ops|
    ensures At(ops + more, n) == At(ops, n)
  {
    if n > 0 {
      AtOfPrefix(ops, more, n - 1);
    }
  }

  /** No entry naming `key` is up to any sweep that comes too early. */
  ghost predicate NoneDue(s: Store, key: string, expired: Option<Time>) {
    forall stamp, now: Time | stamp in s.expiry && s.expiry[stamp] == key
      && (expired.Some? ==> Seconds(now) < Seconds(expired.value)) :: !AtMost(stamp, Format(now))
  }

  lemma SafeStep(s: Store, op: Op, key: string, expired: Option<Time>)
    requires key in s.messages && NoneDue(s, key, expired)
    requires !(op.CheckSize? && OverLimit(s, op.limit))
    requires op.Expire? && expired.Some? ==> Seconds(op.now) < Seconds(expired.value)
    ensures key in Apply(s, op).messages && NoneDue(Apply(s, op), key, expired)
  {
    match op
    case Put(_, _, _) =>
    case Expire(now) => SweepTakesOnlyNamedKeys(s, now, key);
    case CheckSize(_) =>
  }

  lemma {:induction false} SafeRun(ops: seq<Op>, i: nat, n: nat, key: string, expired: Option<Time>)
    requires i <= n <= |ops| && key in At(ops, i).messages && NoneDue(At(ops, i), key, expired)
    requires Untimely(ops, i, expired)
    ensures key in At(ops, n).messages && NoneDue(At(ops, n), key, expired)
    decreases n
  {
    if i < n {
      SafeRun(ops, i, n - 1, key, expired);
      assert !Wiped(ops, n - 1);
      SafeStep(At(ops, n - 1), ops[n - 1], key, expired);
    }
  }

  /** Right after the message is stored only its own entry and those before it name the key. */
  lemma NoneDueAfterStoring(ops: seq<Op>, message: string, key: string, expired: Option<Time>)
    requires key != "" && key !in After(ops).messages && !Stale(After(ops), key, expired)
    ensures NoneDue(StoreMessage(After(ops), message, key, expired).0, key, expired)
  {
    var s := After(ops);
    var t := StoreMessage(s, message, key, expired).0;
    forall stamp, now: Time | stamp in t.expiry && t.expiry[stamp] == key
      && (expired.Some? ==> Seconds(now) < Seconds(expired.value))
      ensures !AtMost(stamp, Format(now))
    {
      if expired.Some? && stamp == Format(expired.value) {
        StampOrderAcrossSeconds(expired.value, now);
      } else {
        var a := EntryHasWriter(ops, |ops|, stamp);
        var e := ops[a].expired.value;
        assert EntryFor(s, e, key);
        StampOrderAcrossSeconds(e, now);
      }
    }
  }

  /** The stale entry, once its time comes, takes the new message along. */
  lemma StaleEntryTakes(s: Store, message: string, key: string, expired: Option<Time>, e: Time)
    requires key != "" && key !in s.messages
    requires EntryFor(s, e, key) && (expired.Some? ==> Seconds(e) < Seconds(expired.value))
    ensures var t := StoreMessage(s, message, key, expired).0;
            key in t.messages && key !in Sweep(t, e).messages
  {
    var t := StoreMessage(s, message, key, expired).0;
    if expired.Some? && Format(expired.value) == Format(e) {
      StampInjective(expired.value, e);
    }
    assert EntryFor(t, e, key);
    Trichotomy(Format(e), Format(e));
    SweepTakesOnlyNamedKeys(t, e, key);
  }

  lemma AtStoring(ops: seq<Op>, message: string, key: string, expired: Option<Time>, more: seq<Op>)
    ensures At(Storing(ops, message, key, expired) + more, |ops| + 1) == Apply(After(ops), Put(message, key, expired))
  {
    var put := Storing(ops, message, key, expired);
    AtOfPrefix(put, more, |ops| + 1);
    AtOfPrefix(ops, [Put(message, key, expired)], |ops|);
  }

  lemma StaleEntryStrikes(ops: seq<Op>, message: string, key: string, expired: Option<Time>, e: Time)
    requires key != "" && key !in After(ops).messages
    requires EntryFor(After(ops), e, key) && (expired.Some? ==> Seconds(e) < Seconds(expired.value))
    ensures var run := Storing(ops, message, key, expired) + [Expire(e)];
            Untimely(run, |ops| + 1, expired) && Removed(run, |ops| + 1, key)
  {
    var run := Storing(ops, message, key, expired) + [Expire(e)];
    AtStoring(ops, message, key, expired, [Expire(e)]);
    StaleEntryTakes(After(ops), message, key, expired, e);
    assert run[|ops| + 1] == Expire(e);
    assert At(run, |ops| + 2) == Apply(At(run, |ops| + 1), run[|ops| + 1]);
  }

  lemma KeptAfterStoring(ops: seq<Op>, message: string, key: string, expired: Option<Time>, more: seq<Op>)
    requires key != "" && key !in After(ops).messages && !Stale(After(ops), key, expired)
    requires Untimely(Storing(ops, message, key, expired) + more, |ops| + 1, expired)
    ensures key in After(Storing(ops, message, key, expired) + more).messages
  {
    NoneDueAfterStoring(ops, message, key, expired);
    AtStoring(ops, message, key, expired, more);
    var run := Storing(ops, message, key, expired) + more;
    SafeRun(run, |ops| + 1, |run|, key, expired);
  }

  /** The exact condition, which can be read off the expiry bucket before the call: a message
      stays until the second of its expiry in every continuation without a wipe if and only if
      no entry of an earlier second names its key. */
  lemma SafeToStoreExactly(ops: seq<Op>, message: string, key: string, expired: Option<Time>)
    requires key != "" && key !in After(ops).messages
    ensures SafeToStore(ops, message, key, expired) <==> !Stale(After(ops), key, expired)
  {
    if Stale(After(ops), key, expired) {
      var e: Time :| EntryFor(After(ops), e, key) && (expired.Some? ==> Seconds(e) < Seconds(expired.value));
      StaleEntryStrikes(ops, message, key, expired, e);
      assert !KeptBy(ops, message, key, expired, [Expire(e)]);
    } else {
      forall more: seq<Op> ensures KeptBy(ops, message, key, expired, more) {
        if Untimely(Storing(ops, message, key, expired) + more, |ops| + 1, expired) {
          KeptAfterStoring(ops, message, key, expired, more);
        }
      }
    }
  }

  ghost predicate NoWipeFrom(ops: seq<Op>, n: nat) {
    forall m | n <= m < |ops| :: !Wiped(ops, m)
  }

  ghost predicate KeptWithoutWipe(ops: seq<Op>, message: string, key: string, more: seq<Op>) {
    var run := Storing(ops, message, key, None) + more;
    NoWipeFrom(run, |ops| + 1) ==> key in After(run).messages
  }

  /** So a message stored without expiry survives every continuation without a wipe exactly
      when no entry names its key at that moment. */
  lemma NoExpiryKeptExactly(ops: seq<Op>, message: string, key: string)
    requires key != "" && key !in After(ops).messages
    ensures (forall more: seq<Op> :: KeptWithoutWipe(ops, message, key, more)) <==> !Pending(ops, |ops|, key)
  {
    SafeToStoreExactly(ops, message, key, None);
    StaleIsPending(ops, key);
    forall more: seq<Op> ensures KeptWithoutWipe(ops, message, key, more) <==> KeptBy(ops, message, key, None, more) {
      assert NoWipeFrom(Storing(ops, message, key, None) + more, |ops| + 1)
          == Untimely(Storing(ops, message, key, None) + more, |ops| + 1, None);
    }
  }

  /** Stored now, the key is still there after `more`, unless that wipes it. */
  ghost predicate StaysBy(ops: seq<Op>, key: string, more: seq<Op>) {
    NoWipeFrom(ops + more, |ops|) ==> key in After(ops + more).messages
  }

  lemma StaysIfNotPending(ops: seq<Op>, key: string, more: seq<Op>)
    requires key in After(ops).messages && !Pending(ops, |ops|, key)
    ensures StaysBy(ops, key, more)
  {
    var run := ops + more;
    if NoWipeFrom(run, |ops|) {
      AtOfPrefix(ops, more, |ops|);
      assert Untimely(run, |ops|, None);
      SafeRun(run, |ops|, |run|, key, None);
    }
  }

  lemma PendingEntryTakes(ops: seq<Op>, key: string) returns (more: seq<Op>)
    requires key in After(ops).messages && Pending(ops, |ops|, key)
    ensures !StaysBy(ops, key, more)
  {
    var stamp :| stamp in After(ops).expiry && After(ops).expiry[stamp] == key;
    var a := EntryHasWriter(ops, |ops|, stamp);
    var e := ops[a].expired.value;
    more := [Expire(e)];
    AtOfPrefix(ops, more, |ops|);
    Trichotomy(stamp, stamp);
    SweepTakesOnlyNamedKeys(After(ops), e, key);
    assert At(ops + more, |ops| + 1) == Sweep(After(ops), e);
  }

  /** At any moment of any run: a stored message stays in every continuation without a wipe if
      and only if no entry names its key any more. */
  lemma StaysExactly(ops: seq<Op>, key: string)
    requires key in After(ops).messages
    ensures (forall more: seq<Op> :: StaysBy(ops, key, more)) <==> !Pending(ops, |ops|, key)
  {
    if Pending(ops, |ops|, key) {
      var more := PendingEntryTakes(ops, key);
    } else {
      forall more: seq<Op> ensures StaysBy(ops, key, more) {
        StaysIfNotPending(ops, key, more);
      }
    }
  }

  /** That does befall a message with an expiry: another one stored with the same expiry time
      takes its entry over, and it stays for good. */
  lemma SharedStampOutlives(first: string, key: string, second: string, other: string, e: Time) returns (ops: seq<Op>)
    requires key != "" && other != "" && key != other
    ensures ops == [Put(first, key, Some(e)), Put(second, other, Some(e))]
    ensures key in After(ops).messages && !Pending(ops, 2, key)
    ensures forall more: seq<Op> :: StaysBy(ops, key, more)
  {
    ops := [Put(first, key, Some(e)), Put(second, other, Some(e))];
    var s := Store(map[key := first], map[Format(e) := key]);
    assert At(ops, 1) == Apply(At(ops, 0), ops[0]) == s;
    assert At(ops, 2) == Apply(s, ops[1]) == Store(map[key := first, other := second], map[Format(e) := other]);
    StaysExactly(ops, key);
  }

  lemma TotalOfOne(key: string, message: string)
    ensures TotalBytes(map[key := message]) == |message|
  {
    TotalBytesSplit(map[key := message], key);
    assert map[key := message] - {key} == map[];
  }

  /** The failing runs, for all messages and limits: stored with an expiry, wiped because it
      is larger than the limit, and stored again without one, a message falls to the entry of
      its first life. */
  lemma EarlySweepCanHappen(key: string, t: Time, message: string, limit: int, again: string, later: Time)
    returns (ops: seq<Op>)
    requires key != "" && 0 < limit < |message| && AtMost(Format(t), Format(later))
    ensures ops == [Put(message, key, Some(t)), CheckSize(limit), Put(again, key, None), Expire(later)]
    ensures LatestAcceptance(ops, 2, 3, key) && Removed(ops, 3, key)
  {
    ops := [Put(message, key, Some(t)), CheckSize(limit), Put(again, key, None), Expire(later)];
    var first := Store(map[key := message], map[Format(t) := key]);
    assert At(ops, 1) == Apply(At(ops, 0), ops[0]) == first;
    TotalOfOne(key, message);
    assert At(ops, 2) == Apply(first, ops[1]) == Store(map[], map[Format(t) := key]);
    assert At(ops, 3) == Apply(At(ops, 2), ops[2]) == Store(map[key := again], map[Format(t) := key]);
    SweepTakesOnlyNamedKeys(At(ops, 3), later, key);
    assert At(ops, 4) == Sweep(At(ops, 3), later);
  }

  /** `unique-message-timeout` in seconds, negative ones included: an expiry computed from
      it is met up to one second, whatever the fractions. */
  lemma TimeoutKeptWithinOneSecond(stored: Time, timeout: int, e: Time, now: Time)
    requires Instant(e) == Instant(stored) + timeout * NANOS
    ensures AtMost(Format(e), Format(now)) ==> Instant(now) + NANOS > Instant(stored) + timeout * NANOS
    ensures Instant(now) >= Instant(stored) + (timeout + 1) * NANOS ==> AtMost(Format(e), Format(now))
  {
    StampErrorUnderOneSecond(e, now);
  }
}
