/** Byte strings compared as `bytes.Compare` does, and a bucket cursor that walks
    its keys in that order. A `char` of a byte string stands for one byte. */
module ByteOrder {
  import opened Wrappers

  /** `bytes.Compare(a, b) < 0`. */
  predicate Below(a: string, b: string)
    decreases |a|
  {
    |b| > 0 && (|a| == 0 || a[0] < b[0] || (a[0] == b[0] && Below(a[1..], b[1..])))
  }

  /** `bytes.Compare(a, b) <= 0`. */
  predicate AtMost(a: string, b: string) {
    !Below(b, a)
  }

  lemma {:induction false} Trichotomy(a: string, b: string)
    ensures !(Below(a, b) && Below(b, a))
    ensures a != b ==> Below(a, b) || Below(b, a)
    ensures !Below(a, a)
    decreases |a|
  {
    if |a| > 0 {
      Trichotomy(a[1..], a[1..]);
      if |b| > 0 && a[0] == b[0] {
        Trichotomy(a[1..], b[1..]);
        assert a == [a[0]] + a[1..] && b == [b[0]] + b[1..];
      }
    }
  }

  lemma {:induction false} Transitive(a: string, b: string, c: string)
    requires Below(a, b) && Below(b, c)
    ensures Below(a, c)
    decreases |a|
  {
    if |a| > 0 && a[0] == b[0] && b[0] == c[0] {
      Transitive(a[1..], b[1..], c[1..]);
    }
  }

  lemma {:induction false} CommonPrefix(p: string, a: string, b: string)
    ensures Below(p + a, p + b) == Below(a, b)
  {
    if p == [] {
      assert p + a == a && p + b == b;
    } else {
      assert (p + a)[1..] == p[1..] + a && (p + b)[1..] == p[1..] + b;
      CommonPrefix(p[1..], a, b);
    }
  }

  predicate ProperPrefix(p: string, q: string)
    decreases |p|
  {
    |q| > 0 && (|p| == 0 || (p[0] == q[0] && ProperPrefix(p[1..], q[1..])))
  }

  /** Two strings that differ inside both of them are ordered by that difference,
      whatever follows either of them. */
  lemma {:induction false} Diverging(p: string, q: string, a: string, b: string, c: string, d: string)
    requires p != q && !ProperPrefix(p, q) && !ProperPrefix(q, p)
    ensures Below(p + a, q + b) == Below(p + c, q + d)
  {
    if p[0] == q[0] {
      assert p == [p[0]] + p[1..] && q == [q[0]] + q[1..];
      Diverging(p[1..], q[1..], a, b, c, d);
      assert (p + a)[1..] == p[1..] + a && (q + b)[1..] == q[1..] + b;
      assert (p + c)[1..] == p[1..] + c && (q + d)[1..] == q[1..] + d;
    }
  }

  // ---------- Cursor ----------

  lemma {:induction false} LeastExists(keys: set<string>)
    requires keys != {}
    ensures exists k :: k in keys && forall x :: x in keys ==> AtMost(k, x)
    decreases |keys|
  {
    var k :| k in keys;
    var rest := keys - {k};
    if rest == {} {
      assert keys == {k};
      Trichotomy(k, k);
    } else {
      LeastExists(rest);
      var r :| r in rest && forall x :: x in rest ==> AtMost(r, x);
      var least := if Below(k, r) then k else r;
      forall x | x in keys ensures AtMost(least, x) {
        Trichotomy(k, k);
        Trichotomy(k, r);
        assert x != k ==> x in rest && AtMost(r, x);
        if x != k && Below(k, r) && Below(x, k) {
          Transitive(x, k, r);
        }
      }
    }
  }

  /** The first key in byte order, as `Cursor.First` finds it. */
  function First(keys: set<string>): (r: Option<string>)
    ensures r.None? <==> keys == {}
    ensures r.Some? ==> r.value in keys && forall x :: x in keys ==> AtMost(r.value, x)
  {
    if keys == {} then
      None
    else
      LeastExists(keys);
      assert forall a, b | a in keys && b in keys && AtMost(a, b) && AtMost(b, a) :: a == b by {
        forall a, b | a in keys && b in keys && AtMost(a, b) && AtMost(b, a) ensures a == b {
          Trichotomy(a, b);
        }
      }
      var k :| k in keys && forall x :: x in keys ==> AtMost(k, x);
      Some(k)
  }

  /** The key after `k` in byte order, as `Cursor.Next` finds it. */
  function Next(keys: set<string>, k: string): (r: Option<string>)
    ensures r.None? <==> forall x :: x in keys ==> AtMost(x, k)
    ensures r.Some? ==> r.value in keys && Below(k, r.value)
                        && forall x :: x in keys && Below(k, x) ==> AtMost(r.value, x)
  {
    var above := set x | x in keys && Below(k, x);
    assert above == {} <==> forall x :: x in keys ==> AtMost(x, k) by {
      assert forall x :: x in above <==> x in keys && Below(k, x);
    }
    First(above)
  }

  /** Between a key and the next one the cursor finds there is no third. */
  lemma CursorAdvances(keys: set<string>, k: string, next: Option<string>)
    requires k in keys && next == Next(keys, k)
    ensures forall s :: s in keys ==> ((AtMost(k, s) && s != k) <==> next.Some? && AtMost(next.value, s))
  {
    forall s | s in keys
      ensures (AtMost(k, s) && s != k) <==> next.Some? && AtMost(next.value, s)
    {
      Trichotomy(s, k);
      if next.Some? {
        Trichotomy(s, next.value);
        if Below(s, k) {
          Transitive(s, k, next.value);
        }
      }
    }
  }
}
