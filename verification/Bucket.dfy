/** A database bucket with the four accesses the service makes of it. */
module Bucket {
  import opened Wrappers

  /** An absent bucket has no entries; no key is empty. */
  class Bucket<V> {
    var present: bool
    var entries: map<string, V>

    ghost predicate Valid()
      reads this
    {
      (!present ==> entries == map[]) && "" !in entries
    }

    constructor ()
      ensures Valid() && !present && entries == map[]
    {
      present, entries := false, map[];
    }

    method CreateIfNotExists()
      requires Valid()
      modifies this
      ensures Valid() && present && entries == old(entries)
    {
      present := true;
    }

    /** Creates the bucket if need be; an empty key is refused. */
    method Insert(key: string, value: V) returns (ok: bool)
      requires Valid()
      modifies this
      ensures Valid() && present
      ensures ok <==> key != ""
      ensures entries == if ok then old(entries)[key := value] else old(entries)
    {
      present := true;
      ok := key != "";
      if ok {
        entries := entries[key := value];
      }
    }

    /** Reading from a bucket that was never created would fault. */
    method Select(key: string) returns (r: Option<V>)
      requires Valid() && present
      ensures r == if key in entries then Some(entries[key]) else None
    {
      r := if key in entries then Some(entries[key]) else None;
    }

    method Delete(keys: seq<string>)
      requires Valid()
      modifies this
      ensures Valid() && present == old(present)
      ensures entries == old(entries) - (set k | k in keys)
    {
      if !present {
        return;
      }
      for i := 0 to |keys|
        invariant Valid() && present
        invariant entries == old(entries) - (set k | k in keys[..i])
      {
        assert keys[..i + 1] == keys[..i] + [keys[i]];
        entries := entries - {keys[i]};
      }
      assert keys[..|keys|] == keys;
    }

    method Drop()
      requires Valid()
      modifies this
      ensures Valid() && !present && entries == map[]
    {
      present, entries := false, map[];
    }
  }
}
