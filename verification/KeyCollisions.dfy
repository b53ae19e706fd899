/** Exactly when the key of a message identifies its values: by the number of properties,
    and, for messages that have them all, by where their values contain hyphens. */
module KeyCollisions {
  import opened Wrappers
  import opened Text
  import opened UniqueKey

  predicate AllPresent(values: seq<string>) {
    forall i | 0 <= i < |values| :: values[i] != ""
  }

  // ---------- Any values ----------

  /** One value at place `i`, none elsewhere. */
  function Lone(n: nat, i: nat, value: string): seq<string> {
    seq(n, j requires 0 <= j < n => if j == i then value else "")
  }

  lemma {:induction false} LoneKey(n: nat, i: nat, value: string)
    ensures NonEmptyTexts(Lone(n, i, value)) == if i < n && value != "" then [value] else []
  {
    if n > 0 {
      LoneKey(n - 1, i, value);
      assert Lone(n, i, value)[..n - 1] == Lone(n - 1, i, value);
    }
  }

  lemma {:induction false} NonEmptyOfSome(values: seq<string>)
    ensures AllPresent(NonEmptyTexts(values))
    ensures NonEmptyTexts(values) == [] <==> forall i | 0 <= i < |values| :: values[i] == ""
  {
    if values != [] {
      var before := values[..|values| - 1];
      NonEmptyOfSome(before);
      assert forall i | 0 <= i < |before| :: before[i] == values[i];
    }
  }

  lemma NoKeyExactly(values: seq<string>)
    ensures KeyOf(values) == "" <==> forall i | 0 <= i < |values| :: values[i] == ""
  {
    NonEmptyOfSome(values);
    var present := NonEmptyTexts(values);
    assert present != [] ==> present[0] != "";
  }

  /** With two properties or more the values of a message share their key with others unless
      the message has none of them: the key alone, as the value of any one property, has the
      same key. */
  lemma SharesKeyExactly(values: seq<string>)
    requires |values| >= 2
    ensures (exists other :: |other| == |values| && other != values && KeyOf(other) == KeyOf(values))
       <==> exists i :: 0 <= i < |values| && values[i] != ""
  {
    var n, key := |values|, KeyOf(values);
    NoKeyExactly(values);
    if key != "" {
      LoneKey(n, 0, key);
      LoneKey(n, 1, key);
      assert Lone(n, 0, key)[0] != Lone(n, 1, key)[0];
      var other := if Lone(n, 0, key) == values then Lone(n, 1, key) else Lone(n, 0, key);
      assert other != values && KeyOf(other) == key;
    } else {
      forall other | |other| == n && KeyOf(other) == key ensures other == values {
        NoKeyExactly(other);
      }
    }
  }

  /** Whether keys identify values is decided by the number of properties alone. */
  lemma KeyIdentifiesExactly(n: nat)
    ensures (forall a, b | |a| == n && |b| == n && KeyOf(a) == KeyOf(b) :: a == b) <==> n <= 1
  {
    if n <= 1 {
      forall a, b | |a| == n && |b| == n && KeyOf(a) == KeyOf(b) ensures a == b {
        if n == 1 {
          OneValueIsItsKey(a);
          OneValueIsItsKey(b);
        }
      }
    } else {
      var a := Lone(n, 0, "x");
      assert a[0] != "";
      SharesKeyExactly(a);
    }
  }

  lemma OneValueIsItsKey(a: seq<string>)
    requires |a| == 1
    ensures KeyOf(a) == a[0]
  {
    assert a[..0] == [];
    assert NonEmptyTexts(a[..0]) == [];
  }

  /** How the key grows with each value: an empty one adds nothing, any other itself, behind a
      hyphen unless it is the first. */
  lemma KeyGrows(values: seq<string>, v: string)
    ensures KeyOf([]) == ""
    ensures KeyOf(values + [v])
         == if v == "" then KeyOf(values) else if KeyOf(values) == "" then v else KeyOf(values) + "-" + v
  {
    var all := values + [v];
    assert all[..|all| - 1] == values;
    NonEmptyOfSome(values);
    NoKeyExactly(values);
    var present := NonEmptyTexts(values);
    if v == "" {
      assert present + [] == present;
    } else if present == [] {
      assert present + [v] == [v];
    } else {
      JoinSnoc(present, v, "-");
      assert KeyOf(values) != "" by { assert present[0] != ""; }
    }
  }

  // ---------- The messages behind the values ----------

  /** The message with `v` written at a path, through objects made on the way. */
  function Write(o: map<string, Value>, path: seq<string>, v: Value): map<string, Value>
    requires path != []
    decreases |path|
  {
    if |path| == 1 then o[path[0] := v]
    else
      var below := if path[0] in o && o[path[0]].Object? then o[path[0]].fields else map[];
      o[path[0] := Object(Write(below, path[1..], v))]
  }

  lemma {:induction false} WrittenIsDecoded(o: map<string, Value>, path: seq<string>, text: string)
    requires path != [] && Decoded(Object(o))
    ensures Decoded(Object(Write(o, path, Scalar(text))))
    decreases |path|
  {
    if |path| > 1 {
      var below := if path[0] in o && o[path[0]].Object? then o[path[0]].fields else map[];
      assert path[0] in o ==> Decoded(o[path[0]]);
      WrittenIsDecoded(below, path[1..], text);
    }
  }

  lemma {:induction false} WrittenIsReached(o: map<string, Value>, path: seq<string>, v: Value)
    requires path != []
    ensures Reach(Object(Write(o, path, v)), path) == Some(v)
    decreases |path|
  {
    if |path| > 1 {
      var below := if path[0] in o && o[path[0]].Object? then o[path[0]].fields else map[];
      WrittenIsReached(below, path[1..], v);
    }
  }

  /** Neither path leads through the other. */
  predicate Apart(p: seq<string>, q: seq<string>) {
    !(p <= q) && !(q <= p)
  }

  lemma ApartBelow(p: seq<string>, q: seq<string>)
    requires p != [] && q != [] && p[0] == q[0] && !(p <= q)
    ensures p[1..] != [] && !(p[1..] <= q[1..])
  {
    assert p == [p[0]] + p[1..] && q == [q[0]] + q[1..];
  }

  /** A write is not seen at a path apart from its own. */
  lemma {:induction false} WriteApart(o: map<string, Value>, path: seq<string>, v: Value, q: seq<string>)
    requires path != [] && Apart(path, q) && Decoded(Object(o))
    ensures Reach(Object(Write(o, path, v)), q) == Reach(Object(o), q)
    decreases |path|
  {
    if q != [] && q[0] == path[0] {
      ApartBelow(path, q);
      ApartBelow(q, path);
      assert path[0] in o ==> Decoded(o[path[0]]);
      if path[0] in o && o[path[0]].Object? {
        WriteApart(o[path[0]].fields, path[1..], v, q[1..]);
      } else {
        WriteApart(map[], path[1..], v, q[1..]);
        assert Reach(Object(map[]), q[1..]).None?;
      }
    }
  }

  /** In a message with one written value, a path that is not on the way to it reaches nothing. */
  lemma {:induction false} NothingElseReached(path: seq<string>, text: string, q: seq<string>)
    requires path != [] && !(q <= path)
    ensures Reach(Object(Write(map[], path, Scalar(text))), q).None?
    decreases |path|
  {
    if q[0] == path[0] {
      ApartBelow(q, path);
      if |path| > 1 {
        NothingElseReached(path[1..], text, q[1..]);
      }
    }
  }

  function Path(prop: string): seq<string> {
    Split(prop, '.')
  }

  lemma PathsDiffer(p: string, q: string)
    requires p != q
    ensures Path(p) != Path(q)
  {
    JoinUndoesSplit(p, '.');
    JoinUndoesSplit(q, '.');
  }

  predicate Distinct(props: seq<string>) {
    forall i, j | 0 <= i < j < |props| :: props[i] != props[j]
  }

  /** No property lies on the path to another one: neither is `a` with `a.b`. */
  predicate Independent(props: seq<string>) {
    forall i, j | 0 <= i < |props| && 0 <= j < |props| && i != j :: !(Path(props[i]) <= Path(props[j]))
  }

  ghost predicate ShowsText(show: Value -> string) {
    forall text :: show(Scalar(text)) == text
  }

  /** A message that has the given values, as far as they are not empty. */
  function Message(props: seq<string>, values: seq<string>): map<string, Value>
    requires |props| == |values|
  {
    if props == [] then map[] else
      var n := |props| - 1;
      var before := Message(props[..n], values[..n]);
      if values[n] == "" then before else Write(before, Path(props[n]), Scalar(values[n]))
  }

  lemma {:induction false} MessageIsDecoded(props: seq<string>, values: seq<string>)
    requires |props| == |values|
    ensures Decoded(Object(Message(props, values)))
  {
    if props != [] {
      var n := |props| - 1;
      MessageIsDecoded(props[..n], values[..n]);
      if values[n] != "" {
        WrittenIsDecoded(Message(props[..n], values[..n]), Path(props[n]), values[n]);
      }
    }
  }

  lemma {:induction false} ReachedElsewhere(props: seq<string>, values: seq<string>, q: seq<string>)
    requires |props| == |values| && q != [] && forall i | 0 <= i < |props| :: Apart(Path(props[i]), q)
    ensures Reach(Object(Message(props, values)), q).None?
  {
    if props != [] {
      var n := |props| - 1;
      assert forall i | 0 <= i < n :: props[..n][i] == props[i];
      ReachedElsewhere(props[..n], values[..n], q);
      if values[n] != "" {
        MessageIsDecoded(props[..n], values[..n]);
        WriteApart(Message(props[..n], values[..n]), Path(props[n]), Scalar(values[n]), q);
      }
    }
  }

  lemma {:induction false} MessageHasValue(props: seq<string>, values: seq<string>, i: nat, show: Value -> string)
    requires |props| == |values| && i < |props| && Independent(props) && ShowsText(show)
    ensures Resolve(Message(props, values), props[i], show) == values[i]
  {
    var n := |props| - 1;
    var init, before := props[..n], Message(props[..n], values[..n]);
    assert forall j | 0 <= j < n :: init[j] == props[j];
    MessageIsDecoded(init, values[..n]);
    if i < n {
      MessageHasValue(init, values[..n], i, show);
      if values[n] != "" {
        WriteApart(before, Path(props[n]), Scalar(values[n]), Path(props[i]));
      }
    } else {
      ReachedElsewhere(init, values[..n], Path(props[n]));
      if values[n] != "" {
        WrittenIsReached(before, Path(props[n]), Scalar(values[n]));
      }
    }
  }

  /** Every choice of values is that of some message that the decoder can make, nested
      properties included, as long as none lies on the path to another. */
  lemma EveryTupleIsReached(props: seq<string>, values: seq<string>, show: Value -> string)
    requires |props| == |values| && Independent(props) && ShowsText(show)
    ensures Resolved(Message(props, values), props, show) == values
    ensures Decoded(Object(Message(props, values)))
  {
    MessageIsDecoded(props, values);
    forall i | 0 <= i < |props| ensures Resolve(Message(props, values), props[i], show) == values[i] {
      MessageHasValue(props, values, i, show);
    }
  }

  /** For such properties, two at least, every message with a key shares it with a message of
      other values. */
  lemma OtherValuesCanCollide(input: map<string, Value>, props: seq<string>, show: Value -> string)
    returns (other: map<string, Value>)
    requires |props| >= 2 && Independent(props) && ShowsText(show)
    requires UniqueId(input, props, show) != ""
    ensures Decoded(Object(other))
    ensures UniqueId(other, props, show) == UniqueId(input, props, show)
    ensures Resolved(other, props, show) != Resolved(input, props, show)
  {
    var values := Resolved(input, props, show);
    NoKeyExactly(values);
    SharesKeyExactly(values);
    var others :| |others| == |values| && others != values && KeyOf(others) == KeyOf(values);
    EveryTupleIsReached(props, others, show);
    other := Message(props, others);
  }

  // ---------- All lists of properties ----------

  /** Whether equal keys mean equal values, over all messages that the decoder can make. */
  ghost predicate KeyIdentifies(props: seq<string>, show: Value -> string) {
    forall a, b | Decoded(Object(a)) && Decoded(Object(b)) && UniqueId(a, props, show) == UniqueId(b, props, show) ::
      Resolved(a, props, show) == Resolved(b, props, show)
  }

  /** The value at every occurrence of the property, and nowhere else. */
  function Marked(props: seq<string>, p: string, value: string): seq<string> {
    seq(|props|, j requires 0 <= j < |props| => if props[j] == p then value else "")
  }

  function Lonely(p: string, text: string): map<string, Value> {
    Write(map[], Path(p), Scalar(text))
  }

  /** A message with a single value has just that one, if no other property is on the way to it. */
  lemma LonelyValues(props: seq<string>, p: string, text: string, show: Value -> string)
    requires ShowsText(show) && forall j | 0 <= j < |props| && props[j] != p :: !(Path(props[j]) <= Path(p))
    ensures Resolved(Lonely(p, text), props, show) == Marked(props, p, text)
    ensures Decoded(Object(Lonely(p, text)))
  {
    WrittenIsDecoded(map[], Path(p), text);
    forall j | 0 <= j < |props| ensures Resolve(Lonely(p, text), props[j], show) == Marked(props, p, text)[j] {
      if props[j] == p {
        WrittenIsReached(map[], Path(p), Scalar(text));
      } else {
        NothingElseReached(Path(p), text, Path(props[j]));
      }
    }
  }

  function Count(props: seq<string>, p: string): nat {
    if props == [] then 0 else Count(props[..|props| - 1], p) + (if props[|props| - 1] == p then 1 else 0)
  }

  function Repeat(n: nat, text: string): seq<string> {
    if n == 0 then [] else Repeat(n - 1, text) + [text]
  }

  lemma {:induction false} MarkedKey(props: seq<string>, p: string, value: string)
    requires value != ""
    ensures NonEmptyTexts(Marked(props, p, value)) == Repeat(Count(props, p), value)
  {
    if props != [] {
      MarkedKey(props[..|props| - 1], p, value);
      assert Marked(props, p, value)[..|props| - 1] == Marked(props[..|props| - 1], p, value);
    }
  }

  lemma OneFactorMore(m: nat, k: nat)
    requires m > 0 && k > 0
    ensures m * k == m * (k - 1) + m && (k > 1 ==> m * (k - 1) > 0)
  {
  }

  lemma {:induction false} JoinRepeated(m: nat, k: nat, z: string)
    requires m > 0
    ensures Join(Repeat(k, Join(Repeat(m, z), "-")), "-") == Join(Repeat(m * k, z), "-")
  {
    if k > 0 {
      JoinRepeated(m, k - 1, z);
      OneFactorMore(m, k);
      JoinOneMore(m * (k - 1), m, k, z);
    }
  }

  lemma JoinOneMore(before: nat, m: nat, k: nat, z: string)
    requires m > 0 && k > 0 && (k > 1 ==> before > 0) && (k == 1 ==> before == 0)
    requires Join(Repeat(k - 1, Join(Repeat(m, z), "-")), "-") == Join(Repeat(before, z), "-")
    ensures Join(Repeat(k, Join(Repeat(m, z), "-")), "-") == Join(Repeat(before + m, z), "-")
  {
    var text := Join(Repeat(m, z), "-");
    RepeatAdds(before, m, z);
    if k > 1 {
      JoinSnoc(Repeat(k - 1, text), text, "-");
      RepeatAdds(0, before, z);
      JoinAppend(Repeat(before, z), Repeat(m, z), "-");
    } else {
      assert Repeat(0, text) == [];
    }
  }

  lemma {:induction false} RepeatAdds(m: nat, n: nat, z: string)
    ensures Repeat(m + n, z) == Repeat(m, z) + Repeat(n, z)
    ensures |Repeat(n, z)| == n
  {
    if n > 0 {
      RepeatAdds(m, n - 1, z);
    }
  }

  lemma {:induction false} Occurs(props: seq<string>, i: nat)
    requires i < |props|
    ensures Count(props, props[i]) > 0
  {
    if i < |props| - 1 {
      Occurs(props[..|props| - 1], i);
    }
  }

  lemma {:induction false} RepeatedTextNotEmpty(n: nat, z: string)
    requires n > 0 && z != ""
    ensures Join(Repeat(n, z), "-") != ""
  {
    if n > 1 {
      RepeatAdds(0, n - 1, z);
      JoinSnoc(Repeat(n - 1, z), z, "-");
    }
  }

  /** The key of a message whose single value is a text repeated. */
  lemma LonelyKey(props: seq<string>, i: nat, times: nat, show: Value -> string)
    requires i < |props| && times > 0 && ShowsText(show)
    requires forall k | 0 <= k < |props| && props[k] != props[i] :: !(Path(props[k]) <= Path(props[i]))
    ensures var text := Join(Repeat(times, "x"), "-");
            && text != "" && Decoded(Object(Lonely(props[i], text)))
            && Resolved(Lonely(props[i], text), props, show) == Marked(props, props[i], text)
            && UniqueId(Lonely(props[i], text), props, show) == Join(Repeat(times * Count(props, props[i]), "x"), "-")
  {
    var text := Join(Repeat(times, "x"), "-");
    RepeatedTextNotEmpty(times, "x");
    LonelyValues(props, props[i], text, show);
    MarkedKey(props, props[i], text);
    JoinRepeated(times, Count(props, props[i]), "x");
  }

  /** Two properties that occur any number of times: the first takes as its value what the
      second has to repeat, and the other way round. */
  lemma RepeatedPropertiesCollide(props: seq<string>, i: nat, j: nat, show: Value -> string)
    requires i < |props| && j < |props| && props[i] != props[j] && ShowsText(show)
    requires forall k | 0 <= k < |props| && props[k] != props[i] :: !(Path(props[k]) <= Path(props[i]))
    requires forall k | 0 <= k < |props| && props[k] != props[j] :: !(Path(props[k]) <= Path(props[j]))
    ensures !KeyIdentifies(props, show)
  {
    var m, n := Count(props, props[i]), Count(props, props[j]);
    Occurs(props, i);
    Occurs(props, j);
    LonelyKey(props, i, n, show);
    LonelyKey(props, j, m, show);
    var x, y := Join(Repeat(n, "x"), "-"), Join(Repeat(m, "x"), "-");
    assert n * m == m * n;
    assert Marked(props, props[i], x)[i] == x && Marked(props, props[j], y)[i] == "";
  }

  lemma {:induction false} ShortestPath(props: seq<string>) returns (i: nat)
    requires props != []
    ensures i < |props| && forall j | 0 <= j < |props| :: |Path(props[i])| <= |Path(props[j])|
  {
    if |props| == 1 {
      i := 0;
    } else {
      var n := |props| - 1;
      i := ShortestPath(props[..n]);
      assert forall j | 0 <= j < n :: props[..n][j] == props[j];
      if |Path(props[n])| < |Path(props[i])| {
        i := n;
      }
    }
  }

  /** Different properties, on whatever paths: the one with the shortest path takes as its value
      the whole key of a message that has another one. */
  lemma DistinctPropertiesCollide(props: seq<string>, show: Value -> string)
    requires |props| >= 2 && Distinct(props) && ShowsText(show)
    ensures !KeyIdentifies(props, show)
  {
    var i := ShortestPath(props);
    var j := if i == 0 then 1 else 0;
    var other := Lonely(props[j], "x");
    var key := UniqueId(other, props, show);
    WrittenIsDecoded(map[], Path(props[j]), "x");
    WrittenIsReached(map[], Path(props[j]), Scalar("x"));
    assert Resolved(other, props, show)[j] == "x";
    NoKeyExactly(Resolved(other, props, show));
    forall k | 0 <= k < |props| && props[k] != props[i] ensures !(Path(props[k]) <= Path(props[i])) {
      PathsDiffer(props[k], props[i]);
    }
    LonelyValues(props, props[i], key, show);
    assert Marked(props, props[i], key) == Lone(|props|, i, key);
    LoneKey(|props|, i, key);
    assert Lone(|props|, i, key)[j] == "";
  }

  lemma {:induction false} SamePropertyKey(n: nat, v: string)
    ensures |Join(Repeat(n, v), "-")| == if n == 0 then 0 else n * |v| + n - 1
    ensures n > 0 ==> v <= Join(Repeat(n, v), "-")
  {
    if n == 1 {
      assert Repeat(0, v) == [];
    } else if n > 1 {
      SamePropertyKey(n - 1, v);
      RepeatAdds(0, n - 1, v);
      JoinSnoc(Repeat(n - 1, v), v, "-");
      assert n * |v| == (n - 1) * |v| + |v|;
    }
  }

  lemma SameFactor(n: nat, x: nat, y: nat)
    requires n > 0 && n * x == n * y
    ensures x == y
  {
    assert n * (x - y) == 0;
  }

  lemma SamePropertyIdentifies(n: nat, v: string, w: string)
    requires n > 0 && Join(Repeat(n, v), "-") == Join(Repeat(n, w), "-")
    ensures v == w
  {
    SamePropertyKey(n, v);
    SamePropertyKey(n, w);
    SameFactor(n, |v|, |w|);
  }

  /** One property, however often it is listed, is identified by the key. */
  lemma OnePropertyIdentified(props: seq<string>, a: map<string, Value>, b: map<string, Value>, show: Value -> string)
    requires forall i, j | 0 <= i < |props| && 0 <= j < |props| :: props[i] == props[j]
    requires UniqueId(a, props, show) == UniqueId(b, props, show)
    ensures Resolved(a, props, show) == Resolved(b, props, show)
  {
    if props != [] {
      var p := props[0];
      var v, w := Resolve(a, p, show), Resolve(b, p, show);
      assert Resolved(a, props, show) == Marked(props, p, v) && Resolved(b, props, show) == Marked(props, p, w);
      NoKeyExactly(Marked(props, p, v));
      NoKeyExactly(Marked(props, p, w));
      assert Marked(props, p, v)[0] == v && Marked(props, p, w)[0] == w;
      if v != "" && w != "" {
        MarkedKey(props, p, v);
        MarkedKey(props, p, w);
        Occurs(props, 0);
        SamePropertyIdentifies(Count(props, p), v, w);
      }
    }
  }

  /** A list of properties as one would configure it: none is listed twice, or at least none
      lies on the path to a different one. */
  predicate Configured(props: seq<string>) {
    || Distinct(props)
    || (forall i, j | 0 <= i < |props| && 0 <= j < |props| && props[i] != props[j] ::
          !(Path(props[i]) <= Path(props[j])))
  }

  /** Messages with equal keys have equal values if and only if all properties are the same one. */
  lemma KeyIdentifiesMessagesExactly(props: seq<string>, show: Value -> string)
    requires Configured(props) && ShowsText(show)
    ensures KeyIdentifies(props, show) <==> forall i, j | 0 <= i < |props| && 0 <= j < |props| :: props[i] == props[j]
  {
    if forall i, j | 0 <= i < |props| && 0 <= j < |props| :: props[i] == props[j] {
      forall a, b | UniqueId(a, props, show) == UniqueId(b, props, show)
        ensures Resolved(a, props, show) == Resolved(b, props, show)
      {
        OnePropertyIdentified(props, a, b, show);
      }
    } else {
      var i, j :| 0 <= i < |props| && 0 <= j < |props| && props[i] != props[j];
      if Distinct(props) {
        DistinctPropertiesCollide(props, show);
      } else {
        RepeatedPropertiesCollide(props, i, j, show);
      }
    }
  }

  // ---------- Values that are all present ----------

  /** The only hyphens are one in front of the first value, one at the end of the last, and
      values in between that are nothing but one hyphen. A single value is always rigid. */
  predicate Rigid(values: seq<string>) {
    forall i, j | 0 <= i < |values| && 0 <= j < |values[i]| && values[i][j] == '-' ::
      (i == 0 || j == |values[i]| - 1) && (i == |values| - 1 || j == 0)
  }

  lemma {:induction false} SeparatorMoves(before: seq<string>, x: string, y: string, p: string, q: string,
                                          after: seq<string>)
    requires x + "-" + y == p + "-" + q
    ensures Join(before + [x, y] + after, "-") == Join(before + [p, q] + after, "-")
  {
    var a, b := before + [x, y] + after, before + [p, q] + after;
    if before == [] {
      assert a[1..] == [y] + after && b[1..] == [q] + after;
      assert a[1..][1..] == after && b[1..][1..] == after;
      if after != [] {
        assert x + "-" + (y + "-" + Join(after, "-")) == (x + "-" + y) + "-" + Join(after, "-");
        assert p + "-" + (q + "-" + Join(after, "-")) == (p + "-" + q) + "-" + Join(after, "-");
      }
    } else {
      assert a[1..] == before[1..] + [x, y] + after && b[1..] == before[1..] + [p, q] + after;
      SeparatorMoves(before[1..], x, y, p, q, after);
    }
  }

  /** Two neighbours give up their separator for a hyphen inside one of them. */
  lemma NeighboursCollide(values: seq<string>, i: nat, x: string, y: string) returns (other: seq<string>)
    requires i + 1 < |values| && AllPresent(values) && x != "" && y != "" && x != values[i]
    requires x + "-" + y == values[i] + "-" + values[i + 1]
    ensures |other| == |values| && AllPresent(other) && other != values && Join(other, "-") == Join(values, "-")
  {
    other := values[..i] + [x, y] + values[i + 2..];
    assert values == values[..i] + [values[i], values[i + 1]] + values[i + 2..];
    SeparatorMoves(values[..i], x, y, values[i], values[i + 1], values[i + 2..]);
    assert other[i] == x;
  }

  lemma LooseHyphenCollides(values: seq<string>) returns (other: seq<string>)
    requires AllPresent(values) && !Rigid(values)
    ensures |other| == |values| && AllPresent(other) && other != values && Join(other, "-") == Join(values, "-")
  {
    var i, j :| 0 <= i < |values| && 0 <= j < |values[i]| && values[i][j] == '-'
                && !((i == 0 || j == |values[i]| - 1) && (i == |values| - 1 || j == 0));
    var left, right := values[i][..j], values[i][j + 1..];
    assert values[i] == left + "-" + right;
    if i > 0 && j < |values[i]| - 1 {
      var x := values[i - 1] + "-" + left;
      assert x + "-" + right == values[i - 1] + "-" + values[i];
      other := NeighboursCollide(values, i - 1, x, right);
    } else {
      var y := right + "-" + values[i + 1];
      assert left + "-" + y == values[i] + "-" + values[i + 1];
      other := NeighboursCollide(values, i, left, y);
    }
  }

  /** As rigid values are, seen from behind their first one. */
  predicate Strict(values: seq<string>) {
    forall i, j | 0 <= i < |values| && 0 <= j < |values[i]| && values[i][j] == '-' ::
      j == |values[i]| - 1 && (i == |values| - 1 || j == 0)
  }

  /** What follows a hyphen of a strict text has room for fewer values than the text. */
  lemma {:induction false} NoRoomBehindHyphen(a: seq<string>, b: seq<string>, k: nat)
    requires |a| == |b| > 0 && AllPresent(a) && AllPresent(b) && Strict(a)
    requires 1 <= k <= |Join(a, "-")| && Join(a, "-")[k - 1] == '-' && Join(b, "-") == Join(a, "-")[k..]
    ensures false
  {
    var text := Join(a, "-");
    if |a| > 1 {
      var rest, first := Join(a[1..], "-"), a[0] + "-";
      assert text == first + rest;
      assert text[k..] == b[0] + "-" + Join(b[1..], "-");
      FirstIsShort(a, rest, k);
      BehindSeparator(text, first, rest, k, b[0], Join(b[1..], "-"));
      StrictTail(a);
      NoRoomBehindHyphen(a[1..], b[1..], k + |b[0]| - |first| + 1);
    }
  }

  /** The hyphen comes after the first value, unless that is nothing but a hyphen. */
  lemma FirstIsShort(a: seq<string>, rest: string, k: nat)
    requires |a| > 1 && Strict(a) && 1 <= k <= |a[0] + "-" + rest| && (a[0] + "-" + rest)[k - 1] == '-'
    ensures |a[0]| <= k
  {
    if k - 1 < |a[0]| {
      assert a[0][k - 1] == '-';
    }
  }

  lemma BehindSeparator(text: string, first: string, rest: string, k: nat, x: string, tail: string)
    requires text == first + rest && k <= |text| && text[k..] == x + "-" + tail && |first| <= k + |x|
    ensures k + |x| - |first| < |rest| && rest[k + |x| - |first|] == '-' && rest[k + |x| - |first| + 1..] == tail
  {
    assert text[k..][|x|] == '-' && text[k..][|x| + 1..] == tail;
    assert text[k + |x|] == '-' && text[k + |x| + 1..] == tail;
  }

  lemma StrictTail(a: seq<string>)
    requires |a| > 0 && (Strict(a) || Rigid(a))
    ensures Strict(a[1..])
  {
    forall i, j | 0 <= i < |a[1..]| && 0 <= j < |a[1..][i]| && a[1..][i][j] == '-'
      ensures j == |a[1..][i]| - 1 && (i == |a[1..]| - 1 || j == 0)
    {
      assert a[i + 1][j] == '-';
    }
  }

  lemma {:induction false} RigidIsUnique(a: seq<string>, b: seq<string>)
    requires |a| == |b| && AllPresent(a) && AllPresent(b) && Rigid(a) && Join(a, "-") == Join(b, "-")
    ensures a == b
  {
    if |a| > 1 {
      var text, x, y := Join(a, "-"), a[0], b[0];
      var restA, restB := Join(a[1..], "-"), Join(b[1..], "-");
      assert text == x + "-" + restA == y + "-" + restB;
      assert text[|x|] == '-' && text[|y|] == '-';
      if |y| < |x| {
        assert false;
      } else if |y| > |x| {
        var k := |y| - |x|;
        assert restA[k - 1] == text[|y|];
        assert restB == text[|y| + 1..] == restA[k..];
        StrictTail(a);
        NoRoomBehindHyphen(a[1..], b[1..], k);
      } else {
        assert x == text[..|x|] == y;
        assert restA == text[|x| + 1..] == restB;
        StrictTail(a);
        RigidIsUnique(a[1..], b[1..]);
        assert a == [x] + a[1..] && b == [y] + b[1..];
      }
    }
  }

  /** Among messages that have all properties, the values share their key with others exactly
      when they are not rigid. */
  lemma PresentValuesShareKeyExactly(values: seq<string>)
    requires AllPresent(values)
    ensures (exists other ::
               |other| == |values| && AllPresent(other) && other != values && KeyOf(other) == KeyOf(values))
       <==> !Rigid(values)
  {
    NothingToDrop(values);
    if Rigid(values) {
      forall other | |other| == |values| && AllPresent(other) && KeyOf(other) == KeyOf(values) ensures other == values {
        NothingToDrop(other);
        RigidIsUnique(values, other);
      }
    } else {
      var other := LooseHyphenCollides(values);
      NothingToDrop(other);
    }
  }
}
