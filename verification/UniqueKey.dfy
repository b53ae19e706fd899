/** The key that identifies a message: the values its property paths reach, joined. */
module UniqueKey {
  import opened Wrappers
  import opened Text

  /** Nested values. `Objects` is a `[]map[string]interface{}`, which `getSingleValue` looks
      into; the JSON decoder makes every list a `List`, even a list of objects. */
  datatype Value =
    | Scalar(text: string)
    | Object(fields: map<string, Value>)
    | Objects(list: seq<map<string, Value>>)
    | List(items: seq<Value>)

  /** What a path reaches: field by field, and through the first element of a list of
      objects. */
  function Reach(o: Value, parts: seq<string>): Option<Value>
    decreases |parts|
  {
    if parts == [] then Some(o)
    else if !o.Object? || parts[0] !in o.fields then None
    else if |parts| == 1 then Some(o.fields[parts[0]])
    else
      match o.fields[parts[0]]
      case Object(fields) => Reach(Object(fields), parts[1..])
      case Objects(list) => if list == [] then None else Reach(Object(list[0]), parts[1..])
      case _ => None
  }

  /** `show` is the `%v` rendering of a value. */
  function GetSingleValue(o: Value, parts: seq<string>, show: Value -> string): string
    requires parts != []
    decreases |parts|
  {
    if !o.Object? then ""
    else if |parts| == 1 then
      if parts[0] in o.fields then show(o.fields[parts[0]]) else ""
    else if parts[0] in o.fields then
      match o.fields[parts[0]]
      case Object(fields) => GetSingleValue(Object(fields), parts[1..], show)
      case Objects(list) => if |list| > 0 then GetSingleValue(Object(list[0]), parts[1..], show) else ""
      case _ => ""
    else ""
  }

  lemma {:induction false} SingleValueShowsWhatIsReached(o: Value, parts: seq<string>, show: Value -> string)
    requires parts != []
    ensures GetSingleValue(o, parts, show) == (match Reach(o, parts) case Some(v) => show(v) case None => "")
    decreases |parts|
  {
    if o.Object? && |parts| > 1 && parts[0] in o.fields {
      match o.fields[parts[0]]
      case Object(fields) => SingleValueShowsWhatIsReached(Object(fields), parts[1..], show);
      case Objects(list) =>
        if |list| > 0 {
          SingleValueShowsWhatIsReached(Object(list[0]), parts[1..], show);
        }
      case _ =>
    }
  }

  /** One step of a path: a field of an object, or of the first object of a list. */
  lemma PathSteps(fields: map<string, Value>, part: string, rest: seq<string>)
    requires rest != []
    ensures Reach(Object(fields), [part]) == if part in fields then Some(fields[part]) else None
    ensures part in fields && fields[part].Object? ==>
              Reach(Object(fields), [part] + rest) == Reach(fields[part], rest)
    ensures part in fields && fields[part].Objects? && fields[part].list != [] ==>
              Reach(Object(fields), [part] + rest) == Reach(Object(fields[part].list[0]), rest)
    ensures part !in fields || fields[part].Scalar? || fields[part].List? || fields[part] == Objects([]) ==>
              Reach(Object(fields), [part] + rest).None?
  {
    assert ([part] + rest)[1..] == rest;
  }

  /** What the JSON decoder makes: lists are never lists of objects. */
  predicate Decoded(v: Value) {
    match v
    case Scalar(_) => true
    case Object(fields) => forall name | name in fields :: Decoded(fields[name])
    case Objects(_) => false
    case List(items) => forall i | 0 <= i < |items| :: Decoded(items[i])
  }

  /** So in a decoded message no path leads through a list, not even a list of objects. */
  lemma {:induction false} ListsHideTheirElements(o: Value, parts: seq<string>, n: nat)
    requires Decoded(o) && n < |parts|
    requires Reach(o, parts[..n]).Some? && !Reach(o, parts[..n]).value.Object?
    ensures Reach(o, parts).None?
    decreases |parts|
  {
    if n == 0 {
      assert parts[..0] == [];
    } else {
      assert parts[..n][0] == parts[0] && parts[..n][1..] == parts[1..][..n - 1];
      if n == 1 {
        assert Reach(o, parts[..1]) == Some(o.fields[parts[0]]);
      } else {
        ListsHideTheirElements(o.fields[parts[0]], parts[1..], n - 1);
      }
    }
  }

  // ---------- The key ----------

  function Resolve(input: map<string, Value>, prop: string, show: Value -> string): string {
    match Reach(Object(input), Split(prop, '.')) case Some(v) => show(v) case None => ""
  }

  function Resolved(input: map<string, Value>, props: seq<string>, show: Value -> string): seq<string> {
    seq(|props|, i requires 0 <= i < |props| => Resolve(input, props[i], show))
  }

  /** The key made of one value for each property. */
  function KeyOf(values: seq<string>): string {
    Join(NonEmptyTexts(values), "-")
  }

  function UniqueId(input: map<string, Value>, props: seq<string>, show: Value -> string): string {
    KeyOf(Resolved(input, props, show))
  }

  method GetMessageUniqueId(input: map<string, Value>, props: seq<string>, show: Value -> string) returns (id: string)
    ensures id == UniqueId(input, props, show)
  {
    var values := [];
    for i := 0 to |props|
      invariant values == NonEmptyTexts(Resolved(input, props[..i], show))
    {
      assert Resolved(input, props[..i + 1], show)[..i] == Resolved(input, props[..i], show);
      var parts := Split(props[i], '.');
      var v := GetSingleValue(Object(input), parts, show);
      SingleValueShowsWhatIsReached(Object(input), parts, show);
      if v != "" {
        values := values + [v];
      }
    }
    assert props[..|props|] == props;
    id := Join(values, "-");
  }

  /** The key depends on nothing but the values its property paths reach. */
  lemma KeyDependsOnReachedValues(a: map<string, Value>, b: map<string, Value>, props: seq<string>,
                                  show: Value -> string)
    requires forall i | 0 <= i < |props| ::
        Reach(Object(a), Split(props[i], '.')) == Reach(Object(b), Split(props[i], '.'))
    ensures UniqueId(a, props, show) == UniqueId(b, props, show)
  {
    assert Resolved(a, props, show) == Resolved(b, props, show);
  }

  lemma {:induction false} NothingToDrop(values: seq<string>)
    requires forall i | 0 <= i < |values| :: values[i] != ""
    ensures NonEmptyTexts(values) == values
  {
    if values != [] {
      NothingToDrop(values[..|values| - 1]);
    }
  }

  /** Every property has a value without hyphens. */
  predicate Plain(input: map<string, Value>, props: seq<string>, show: Value -> string) {
    forall i | 0 <= i < |props| :: Resolve(input, props[i], show) != "" && '-' !in Resolve(input, props[i], show)
  }

  /** On such messages the key identifies the values: equal keys, equal values, property by
      property. */
  lemma KeyIdentifiesPlainValues(a: map<string, Value>, b: map<string, Value>, props: seq<string>,
                                 show: Value -> string)
    requires Plain(a, props, show) && Plain(b, props, show)
    ensures UniqueId(a, props, show) == UniqueId(b, props, show)
       <==> forall i | 0 <= i < |props| :: Resolve(a, props[i], show) == Resolve(b, props[i], show)
  {
    var va, vb := Resolved(a, props, show), Resolved(b, props, show);
    NothingToDrop(va);
    NothingToDrop(vb);
    if props != [] {
      SplitUndoesJoin(va, '-');
      SplitUndoesJoin(vb, '-');
    }
    if forall i | 0 <= i < |props| :: Resolve(a, props[i], show) == Resolve(b, props[i], show) {
      assert va == vb;
    } else {
      var i :| 0 <= i < |props| && Resolve(a, props[i], show) != Resolve(b, props[i], show);
      assert va[i] != vb[i];
    }
  }
}
