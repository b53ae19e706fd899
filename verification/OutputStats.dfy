/** The number of sends of each output, kept as decimal text in a bucket, and the reader
    that turns the texts back into numbers. */
module OutputStats {
  import opened Wrappers
  import opened ByteOrder
  import opened Decimal
  import Bucket

  // ---------- Specification ----------

  /** The text after one more send. A text that is no number counts from what `Atoi` gives
      with its error, which is not looked at. */
  function Incremented(entries: map<string, string>, name: string): string {
    Itoa(Wrap((if name in entries then Atoi(entries[name]).0 else 0) + 1))
  }

  /** Every text is a number that fits. */
  predicate Readable(entries: map<string, string>) {
    forall name | name in entries :: Atoi(entries[name]).1.None?
  }

  function Numbers(entries: map<string, string>): map<string, int> {
    map name | name in entries :: Atoi(entries[name]).0
  }

  class StatsDb {
    const outputs: Bucket.Bucket<string>

    ghost predicate Valid()
      reads this, outputs
    {
      outputs.Valid()
    }

    constructor ()
      ensures Valid() && fresh(outputs) && outputs.entries == map[]
    {
      outputs := new Bucket.Bucket();
    }

    /** Fails, and changes nothing, exactly for an output without a name. */
    method RegisterPlgnInvctn(name: string) returns (ok: bool)
      requires Valid()
      modifies outputs
      ensures Valid()
      ensures ok <==> name != ""
      ensures outputs.entries == if ok then old(outputs.entries)[name := Incremented(old(outputs.entries), name)]
                                 else old(outputs.entries)
    {
      outputs.CreateIfNotExists();
      var i := 0;
      var v := outputs.Select(name);
      if v.Some? {
        i := Atoi(v.value).0;
      }
      i := Wrap(i + 1);
      ok := outputs.Insert(name, Itoa(i));
    }

    /** Reads all counters, or fails at the first text that is not a number. */
    method GetPlgnStats() returns (r: Option<map<string, int>>)
      requires Valid()
      ensures r == if Readable(outputs.entries) then Some(Numbers(outputs.entries)) else None
    {
      var entries := outputs.entries;
      var stats: map<string, int> := map[];
      var k := First(entries.Keys);
      ghost var left := entries.Keys;
      while k.Some?
        invariant k.Some? ==> k.value in left
        invariant forall s :: s in left <==> s in entries && k.Some? && AtMost(k.value, s)
        invariant forall s | s in entries && s !in left :: Atoi(entries[s]).1.None?
        invariant stats == map s | s in entries && s !in left :: Atoi(entries[s]).0
        decreases left
      {
        Trichotomy(k.value, k.value);
        var (cnt, err) := Atoi(entries[k.value]);
        if err.Some? {
          return None;
        }
        stats := stats[k.value := cnt];
        var next := Next(entries.Keys, k.value);
        CursorAdvances(entries.Keys, k.value, next);
        left := left - {k.value};
        k := next;
      }
      assert left == {};
      assert stats == Numbers(entries);
      return Some(stats);
    }
  }

  // ---------- Runs ----------

  /** The bucket after sends by the named outputs, from an empty database. */
  function After(sends: seq<string>): map<string, string> {
    if sends == [] then map[] else
      var before, name := After(sends[..|sends| - 1]), sends[|sends| - 1];
      if name == "" then before else before[name := Incremented(before, name)]
  }

  lemma CountOneMore(before: seq<string>, last: string, name: string)
    ensures multiset(before + [last])[name] == multiset(before)[name] + (if name == last then 1 else 0)
    ensures multiset(before)[name] <= |before|
  {
    assert multiset(before)[name] <= |multiset(before)|;
  }

  lemma IncrementedText(entries: map<string, string>, name: string, n: nat)
    requires n < MAX_INT
    requires if name in entries then entries[name] == Itoa(n) else n == 0
    ensures Incremented(entries, name) == Itoa(n + 1)
  {
    AtoiUndoesItoa(n);
  }

  /** As long as the counters fit 64 bits, the text of an output is the canonical decimal
      of the number of its sends, and outputs that never sent have none. */
  lemma {:induction false} TextsCountSends(sends: seq<string>)
    requires |sends| <= MAX_INT
    ensures forall name :: name in After(sends) <==> name != "" && name in sends
    ensures forall name | name in After(sends) :: After(sends)[name] == Itoa(multiset(sends)[name])
  {
    if sends != [] {
      var before, last := sends[..|sends| - 1], sends[|sends| - 1];
      TextsCountSends(before);
      assert sends == before + [last];
      CountOneMore(before, last, last);
      if last != "" {
        assert last !in before ==> multiset(before)[last] == 0;
        IncrementedText(After(before), last, multiset(before)[last]);
      }
      forall name | name in After(sends) ensures After(sends)[name] == Itoa(multiset(sends)[name]) {
        CountOneMore(before, last, name);
      }
    }
  }

  /** The reader returns exactly the numbers of sends. */
  lemma StatsCountSends(sends: seq<string>)
    requires |sends| <= MAX_INT
    ensures Readable(After(sends))
    ensures Numbers(After(sends)) == map name | name in sends && name != "" :: multiset(sends)[name]
  {
    TextsCountSends(sends);
    forall name | name in After(sends) ensures Atoi(After(sends)[name]) == (multiset(sends)[name], None) {
      assert multiset(sends)[name] <= |multiset(sends)| == |sends|;
      AtoiUndoesItoa(multiset(sends)[name]);
    }
  }
}
