/** The de-duplication store: message key to message, and expiry stamp to message
    key, with the conditional store and the two sweepers that act on both. */
module MessageStore {
  import opened Wrappers
  import opened ByteOrder
  import opened Timestamps
  import Bucket

  /** What the two buckets hold. */
  datatype Store = Store(messages: map<string, string>, expiry: map<string, string>)

  const EMPTY := Store(map[], map[])

  datatype StoreError = KeyRequired

  // ---------- Specification ----------

  function StoreMessage(s: Store, message: string, key: string, expired: Option<Time>)
    : (Store, Result<bool, StoreError>)
  {
    if key in s.messages then
      (s, Ok(false))
    else if key == "" then
      (s, Err(KeyRequired))
    else
      (Store(s.messages[key := message],
             match expired case Some(e) => s.expiry[Format(e) := key] case None => s.expiry),
       Ok(true))
  }

  /** The stamps a sweep at `now` takes out. */
  function DueStamps(expiry: map<string, string>, now: Time): set<string> {
    set stamp | stamp in expiry && AtMost(stamp, Format(now))
  }

  function Sweep(s: Store, now: Time): Store {
    var due := DueStamps(s.expiry, now);
    Store(s.messages - (set stamp | stamp in due :: s.expiry[stamp]), s.expiry - due)
  }

  /** The summed value lengths of a bucket. */
  ghost function TotalBytes(m: map<string, string>): nat
    decreases |m|
  {
    if m == map[] then 0 else
      var k :| k in m;
      assert |(m - {k}).Keys| == |m.Keys - {k}|;
      |m[k]| + TotalBytes(m - {k})
  }

  ghost predicate OverLimit(s: Store, limit: int) {
    limit != 0 && TotalBytes(s.messages) > limit
  }

  ghost function SizeCheck(s: Store, limit: int): Store {
    if OverLimit(s, limit) then s.(messages := map[]) else s
  }

  /** A sweep in full: an entry stays if its stamp is past `now`, and a message stays unless an
      entry that does not stay names its key. */
  lemma SweepExactly(s: Store, now: Time)
    ensures var t := Sweep(s, now);
            && (forall stamp :: stamp in t.expiry <==> stamp in s.expiry && Below(Format(now), stamp))
            && (forall key :: key in t.messages <==>
                  key in s.messages
                  && !exists stamp :: stamp in s.expiry && s.expiry[stamp] == key && !Below(Format(now), stamp))
  {
    var due := DueStamps(s.expiry, now);
    forall key | key in s.messages
      ensures key in (set stamp | stamp in due :: s.expiry[stamp])
         <==> exists stamp :: stamp in s.expiry && s.expiry[stamp] == key && !Below(Format(now), stamp)
    {
      if stamp :| stamp in s.expiry && s.expiry[stamp] == key && !Below(Format(now), stamp) {
        assert stamp in due;
      }
    }
  }

  /** The sum does not depend on the order in which entries are added, and starts at zero. */
  lemma {:induction false} TotalBytesSplit(m: map<string, string>, k: string)
    requires k in m
    ensures TotalBytes(map[]) == 0
    ensures TotalBytes(m) == |m[k]| + TotalBytes(m - {k})
    decreases |m|
  {
    var j :| j in m && TotalBytes(m) == |m[j]| + TotalBytes(m - {j});
    if j != k {
      assert |(m - {k}).Keys| == |m.Keys - {k}| && |(m - {j}).Keys| == |m.Keys - {j}|;
      TotalBytesSplit(m - {j}, k);
      TotalBytesSplit(m - {k}, j);
      assert m - {j} - {k} == m - {k} - {j};
    }
  }

  // ---------- The cursor scan ----------

  /** Walks the stamps in byte order and stops at the first one past `max`. It meets
      every stamp up to `max` exactly once, in order, and no other. */
  method ScanUpTo(all: map<string, string>, max: string) returns (keys: seq<string>, stamps: seq<string>)
    ensures forall s :: s in stamps <==> s in all && AtMost(s, max)
    ensures forall i, j :: 0 <= i < j < |stamps| ==> Below(stamps[i], stamps[j])
    ensures |keys| == |stamps|
    ensures forall i :: 0 <= i < |keys| ==> stamps[i] in all && keys[i] == all[stamps[i]]
  {
    keys, stamps := [], [];
    var k := First(all.Keys);
    ghost var left := all.Keys;
    while k.Some? && AtMost(k.value, max)
      invariant k.Some? ==> k.value in left
      invariant forall s :: s in left <==> s in all && k.Some? && AtMost(k.value, s)
      invariant forall s :: s in stamps <==> s in all && s !in left
      invariant forall i :: 0 <= i < |stamps| ==> AtMost(stamps[i], max)
      invariant forall i, j :: 0 <= i < j < |stamps| ==> Below(stamps[i], stamps[j])
      invariant |keys| == |stamps|
      invariant forall i :: 0 <= i < |keys| ==> stamps[i] in all && keys[i] == all[stamps[i]]
      decreases left
    {
      Trichotomy(k.value, k.value);
      AllBelow(stamps, k.value, all.Keys, left);
      keys := keys + [all[k.value]];
      stamps := stamps + [k.value];
      var next := Next(all.Keys, k.value);
      CursorAdvances(all.Keys, k.value, next);
      left := left - {k.value};
      k := next;
    }
    StoppedScan(all, k, max, left);
  }

  lemma AllBelow(stamps: seq<string>, k: string, all: set<string>, left: set<string>)
    requires forall s :: s in left <==> s in all && AtMost(k, s)
    requires forall s :: s in stamps <==> s in all && s !in left
    ensures forall i :: 0 <= i < |stamps| ==> Below(stamps[i], k)
  {
    forall i | 0 <= i < |stamps| ensures Below(stamps[i], k) {
      assert stamps[i] in stamps;
    }
  }

  lemma StoppedScan(all: map<string, string>, k: Option<string>, max: string, left: set<string>)
    requires k.Some? ==> !AtMost(k.value, max)
    requires forall s :: s in left <==> s in all && k.Some? && AtMost(k.value, s)
    ensures forall s :: s in left ==> !AtMost(s, max)
  {
    forall s | s in left
      ensures !AtMost(s, max)
    {
      Trichotomy(s, k.value);
      if s != k.value {
        Transitive(max, k.value, s);
      }
    }
  }

  // ---------- The service ----------

  class MessageDb {
    const messages: Bucket.Bucket<string>
    const expiry: Bucket.Bucket<string>
    var sizeLimit: int

    ghost predicate Valid()
      reads this, messages, expiry
    {
      messages != expiry && messages.Valid() && expiry.Valid()
    }

    ghost function Contents(): Store
      reads messages, expiry
    {
      Store(messages.entries, expiry.entries)
    }

    constructor ()
      ensures Valid() && fresh(messages) && fresh(expiry)
      ensures Contents() == EMPTY && sizeLimit == 0
    {
      messages := new Bucket.Bucket();
      expiry := new Bucket.Bucket();
      sizeLimit := 0;
    }

    method MayBeStoreMessage(message: string, messageKey: string, expired: Option<Time>)
      returns (wasStored: Result<bool, StoreError>)
      requires Valid()
      modifies messages, expiry
      ensures Valid()
      ensures (Contents(), wasStored) == StoreMessage(old(Contents()), message, messageKey, expired)
      ensures wasStored == Ok(false) <==> messageKey in old(messages.entries)
      ensures wasStored.Err? <==> messageKey == "" && messageKey !in old(messages.entries)
      ensures messages.entries
           == if wasStored == Ok(true) then old(messages.entries)[messageKey := message] else old(messages.entries)
      ensures expiry.entries
           == if wasStored == Ok(true) && expired.Some?
              then old(expiry.entries)[Format(expired.value) := messageKey] else old(expiry.entries)
    {
      messages.CreateIfNotExists();
      expiry.CreateIfNotExists();
      var currentValue := messages.Select(messageKey);
      if currentValue.Some? {
        return Ok(false);
      }
      var ok := messages.Insert(messageKey, message);
      if !ok {
        return Err(KeyRequired);
      }
      if expired.Some? {
        var stamp := Format(expired.value);
        ok := expiry.Insert(stamp, messageKey);
      }
      return Ok(true);
    }

    method GetExpired(now: Time) returns (keys: seq<string>, ghost ttlKeys: seq<string>)
      requires Valid()
      modifies expiry
      ensures Valid()
      ensures expiry.entries == old(expiry.entries) - DueStamps(old(expiry.entries), now)
      ensures (set stamp | stamp in ttlKeys) == DueStamps(old(expiry.entries), now)
      ensures |keys| == |ttlKeys|
      ensures forall i :: 0 <= i < |keys| ==>
                ttlKeys[i] in old(expiry.entries) && keys[i] == old(expiry.entries)[ttlKeys[i]]
    {
      var stamps;
      keys, stamps := ScanUpTo(expiry.entries, Format(now));
      assert (set s | s in stamps) == DueStamps(expiry.entries, now);
      ttlKeys := stamps;
      expiry.Delete(stamps);
    }

    method CheckExpiredData(now: Time)
      requires Valid()
      modifies messages, expiry
      ensures Valid()
      ensures Contents() == Sweep(old(Contents()), now)
      ensures forall stamp :: stamp in expiry.entries <==> stamp in old(expiry.entries) && Below(Format(now), stamp)
      ensures forall stamp | stamp in expiry.entries :: expiry.entries[stamp] == old(expiry.entries)[stamp]
      ensures forall key :: key in messages.entries <==>
                key in old(messages.entries)
                && !exists stamp :: stamp in old(expiry.entries) && old(expiry.entries)[stamp] == key
                                    && !Below(Format(now), stamp)
      ensures forall key | key in messages.entries :: messages.entries[key] == old(messages.entries)[key]
    {
      ghost var s := Contents();
      ghost var due := DueStamps(s.expiry, now);
      var expired, ttlKeys := GetExpired(now);
      forall k ensures k in expired <==> k in (set stamp | stamp in due :: s.expiry[stamp]) {
        if k in expired {
          var i :| 0 <= i < |expired| && expired[i] == k;
          assert ttlKeys[i] in (set stamp | stamp in ttlKeys);
        }
        if k in (set stamp | stamp in due :: s.expiry[stamp]) {
          var stamp :| stamp in due && s.expiry[stamp] == k;
          assert stamp in (set x | x in ttlKeys);
          var i :| 0 <= i < |ttlKeys| && ttlKeys[i] == stamp;
          assert expired[i] == k;
        }
      }
      assert (set k | k in expired) == (set stamp | stamp in due :: s.expiry[stamp]);
      messages.Delete(expired);
      SweepExactly(s, now);
    }

    /** A limit of zero switches the check off; otherwise the whole message bucket goes
        when its values add up to more than the limit, in bytes. */
    method CheckSizeLimit()
      requires Valid()
      modifies messages
      ensures Valid()
      ensures Contents() == SizeCheck(old(Contents()), sizeLimit)
      ensures messages.entries
           == if sizeLimit != 0 && TotalBytes(old(messages.entries)) > sizeLimit then map[] else old(messages.entries)
    {
      if sizeLimit == 0 {
        return;
      }
      if !messages.present {
        return;
      }
      var m := messages.entries;
      var size := 0;
      var k := First(m.Keys);
      ghost var left := m;
      while k.Some?
        invariant k.Some? ==> k.value in m
        invariant forall s :: s in left <==> s in m && k.Some? && AtMost(k.value, s)
        invariant forall s :: s in left ==> left[s] == m[s]
        invariant size + TotalBytes(left) == TotalBytes(m)
        modifies {}
        decreases left.Keys
      {
        Trichotomy(k.value, k.value);
        size := size + |m[k.value]|;
        TotalBytesSplit(left, k.value);
        var next := Next(m.Keys, k.value);
        CursorAdvances(m.Keys, k.value, next);
        left := left - {k.value};
        k := next;
      }
      assert left == map[];
      if size > sizeLimit {
        messages.Drop();
      }
    }
  }
}
