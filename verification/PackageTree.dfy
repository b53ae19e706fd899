/** The search of a nested package tree for the first package that holds a key. Go visits
    the entries of a map in any order; a schedule fixes one order for every map visited. */
module PackageTree {
  import opened Wrappers

  datatype Node = Null | Leaf(text: string) | Tree(children: map<string, Node>)

  /** An entry that is there but null does not count. */
  predicate Holds(n: Node, key: string) {
    n.Tree? && key in n.children && n.children[key] != Null
  }

  datatype Schedule = Schedule(names: seq<string>, subs: map<string, Schedule>)

  /** The schedule lists every entry once, and does so for every map below. */
  ghost predicate Orders(s: Schedule, n: Node)
    requires n.Tree?
  {
    && (forall name :: name in s.names <==> name in n.children)
    && (forall i, j | 0 <= i < j < |s.names| :: s.names[i] != s.names[j])
    && (forall name | name in n.children && n.children[name].Tree? ::
          name in s.subs && Orders(s.subs[name], n.children[name]))
  }

  /** `getFirstElement` from entry `i` on. An entry that is no map ends the search. */
  ghost function Search(n: Node, key: string, s: Schedule, i: nat): Option<Node>
    requires n.Tree? && Orders(s, n) && i <= |s.names|
    decreases n, |s.names| - i
  {
    if i == |s.names| then None else
      var v := n.children[s.names[i]];
      if !v.Tree? then None
      else if Holds(v, key) then Some(v)
      else
        var found := Search(v, key, s.subs[s.names[i]], 0);
        if found.Some? then found else Search(n, key, s, i + 1)
  }

  ghost function GetFirstElement(n: Node, key: string, s: Schedule): Option<Node>
    requires n.Tree? && Orders(s, n)
  {
    Search(n, key, s, 0)
  }

  // ---------- What is found ----------

  ghost predicate Descendant(n: Node, v: Node)
    requires n.Tree?
  {
    exists name | name in n.children ::
      n.children[name] == v || (n.children[name].Tree? && Descendant(n.children[name], v))
  }

  lemma {:induction false} FoundFromHere(n: Node, key: string, s: Schedule, i: nat)
    requires n.Tree? && Orders(s, n) && i <= |s.names| && Search(n, key, s, i).Some?
    ensures var v := Search(n, key, s, i).value; Holds(v, key) && Descendant(n, v)
    decreases n, |s.names| - i
  {
    var v := n.children[s.names[i]];
    if !Holds(v, key) {
      if Search(v, key, s.subs[s.names[i]], 0).Some? {
        FoundFromHere(v, key, s.subs[s.names[i]], 0);
      } else {
        FoundFromHere(n, key, s, i + 1);
      }
    }
  }

  /** In every order, what is found is a map below the root that holds the key. */
  lemma FoundHoldsKey(n: Node, key: string, s: Schedule)
    requires n.Tree? && Orders(s, n) && GetFirstElement(n, key, s).Some?
    ensures var v := GetFirstElement(n, key, s).value;
            v.Tree? && key in v.children && v.children[key] != Null && Descendant(n, v)
  {
    FoundFromHere(n, key, s, 0);
  }

  /** The maps below `n`, depth first in the order of the schedule, each before what is below it.
      An entry that is no map ends the list of its own map, and only of that. */
  ghost function DepthFirst(n: Node, s: Schedule, i: nat): seq<Node>
    requires n.Tree? && Orders(s, n) && i <= |s.names|
    decreases n, |s.names| - i
  {
    if i == |s.names| || !n.children[s.names[i]].Tree? then []
    else
      var v := n.children[s.names[i]];
      [v] + DepthFirst(v, s.subs[s.names[i]], 0) + DepthFirst(n, s, i + 1)
  }

  /** The first map of the list that has an entry for the key other than null. */
  ghost function FirstHolder(maps: seq<Node>, key: string): Option<Node> {
    if maps == [] then None
    else if maps[0].Tree? && key in maps[0].children && maps[0].children[key] != Null then Some(maps[0])
    else FirstHolder(maps[1..], key)
  }

  lemma {:induction false} FirstHolderOfBoth(a: seq<Node>, b: seq<Node>, key: string)
    ensures FirstHolder(a + b, key) == if FirstHolder(a, key).Some? then FirstHolder(a, key) else FirstHolder(b, key)
  {
    if a == [] {
      assert a + b == b;
    } else {
      assert (a + b)[1..] == a[1..] + b;
      FirstHolderOfBoth(a[1..], b, key);
    }
  }

  lemma {:induction false} SearchIsDepthFirst(n: Node, key: string, s: Schedule, i: nat)
    requires n.Tree? && Orders(s, n) && i <= |s.names|
    ensures Search(n, key, s, i) == FirstHolder(DepthFirst(n, s, i), key)
    decreases n, |s.names| - i
  {
    if i < |s.names| && n.children[s.names[i]].Tree? {
      var v, below := n.children[s.names[i]], s.subs[s.names[i]];
      SearchIsDepthFirst(v, key, below, 0);
      SearchIsDepthFirst(n, key, s, i + 1);
      var maps, more := DepthFirst(v, below, 0), DepthFirst(n, s, i + 1);
      FirstHolderOfBoth([v] + maps, more, key);
      FirstHolderOfBoth([v], maps, key);
      assert [v][1..] == [];
    }
  }

  /** Which of several holders is returned: the first in depth-first order. */
  lemma FirstInDepthFirstOrder(n: Node, key: string, s: Schedule)
    requires n.Tree? && Orders(s, n)
    ensures GetFirstElement(n, key, s) == FirstHolder(DepthFirst(n, s, 0), key)
  {
    SearchIsDepthFirst(n, key, s, 0);
  }

  // ---------- When nothing is found ----------

  /** Some order misses: an entry is no map, or no entry holds the key and each can be
      missed in itself. */
  ghost predicate CanMiss(n: Node, key: string)
    requires n.Tree?
  {
    || (exists name | name in n.children :: !n.children[name].Tree?)
    || (forall name | name in n.children ::
          n.children[name].Tree? && !Holds(n.children[name], key) && CanMiss(n.children[name], key))
  }

  lemma {:induction false} MissedFromHere(n: Node, key: string, s: Schedule, i: nat)
    requires n.Tree? && Orders(s, n) && i <= |s.names| && Search(n, key, s, i).None?
    requires forall name | name in n.children :: n.children[name].Tree?
    ensures forall j | i <= j < |s.names| ::
              !Holds(n.children[s.names[j]], key) && CanMiss(n.children[s.names[j]], key)
    decreases n, |s.names| - i
  {
    if i < |s.names| {
      MissImpliesCanMiss(n.children[s.names[i]], key, s.subs[s.names[i]]);
      MissedFromHere(n, key, s, i + 1);
    }
  }

  lemma {:induction false} MissImpliesCanMiss(n: Node, key: string, s: Schedule)
    requires n.Tree? && Orders(s, n) && Search(n, key, s, 0).None?
    ensures CanMiss(n, key)
    decreases n, |s.names| + 1
  {
    if forall name | name in n.children :: n.children[name].Tree? {
      MissedFromHere(n, key, s, 0);
      forall name | name in n.children
        ensures !Holds(n.children[name], key) && CanMiss(n.children[name], key)
      {
        assert name in s.names;
        var j :| 0 <= j < |s.names| && s.names[j] == name;
      }
    }
  }

  ghost function Enumerate(names: set<string>): (s: seq<string>)
    ensures forall name :: name in s <==> name in names
    ensures forall i, j | 0 <= i < j < |s| :: s[i] != s[j]
  {
    if names == {} then [] else
      var name :| name in names;
      [name] + Enumerate(names - {name})
  }

  /** The names with an entry that is no map first, if there is one. */
  ghost function AdverseNames(n: Node): (s: seq<string>)
    requires n.Tree?
    ensures forall name :: name in s <==> name in n.children
    ensures forall i, j | 0 <= i < j < |s| :: s[i] != s[j]
    ensures (exists name | name in n.children :: !n.children[name].Tree?) ==> |s| > 0 && !n.children[s[0]].Tree?
  {
    if exists name | name in n.children :: !n.children[name].Tree? then
      var name :| name in n.children && !n.children[name].Tree?;
      [name] + Enumerate(n.children.Keys - {name})
    else
      Enumerate(n.children.Keys)
  }

  ghost function Adverse(n: Node): Schedule
    requires n.Tree?
  {
    Schedule(AdverseNames(n), map name | name in n.children && n.children[name].Tree? :: Adverse(n.children[name]))
  }

  lemma {:induction false} AdverseOrders(n: Node)
    requires n.Tree?
    ensures Orders(Adverse(n), n)
  {
    forall name | name in n.children && n.children[name].Tree?
      ensures Orders(Adverse(n).subs[name], n.children[name])
    {
      AdverseOrders(n.children[name]);
    }
  }

  lemma {:induction false} AllMissed(n: Node, key: string, s: Schedule, i: nat)
    requires n.Tree? && Orders(s, n) && i <= |s.names|
    requires forall name | name in n.children ::
               n.children[name].Tree? && !Holds(n.children[name], key)
                 && Search(n.children[name], key, s.subs[name], 0).None?
    ensures Search(n, key, s, i).None?
    decreases |s.names| - i
  {
    if i < |s.names| {
      var name := s.names[i];
      assert name in s.names && n.children[name].Tree?;
      assert Search(n, key, s, i) == Search(n, key, s, i + 1);
      AllMissed(n, key, s, i + 1);
    }
  }

  lemma {:induction false} AdverseMisses(n: Node, key: string)
    requires n.Tree? && CanMiss(n, key) && Orders(Adverse(n), n)
    ensures Search(n, key, Adverse(n), 0).None?
  {
    var s := Adverse(n);
    if exists name | name in n.children :: !n.children[name].Tree? {
      assert s.names == AdverseNames(n);
    } else {
      forall name | name in n.children
        ensures Search(n.children[name], key, s.subs[name], 0).None?
      {
        AdverseMisses(n.children[name], key);
      }
      AllMissed(n, key, s, 0);
    }
  }

  /** The search succeeds in every order exactly when no order can miss. */
  lemma FoundInEveryOrderExactly(n: Node, key: string)
    requires n.Tree?
    ensures (forall s: Schedule | Orders(s, n) :: GetFirstElement(n, key, s).Some?) <==> !CanMiss(n, key)
  {
    if CanMiss(n, key) {
      AdverseOrders(n);
      AdverseMisses(n, key);
      assert GetFirstElement(n, key, Adverse(n)).None?;
    } else {
      forall s: Schedule | Orders(s, n) ensures GetFirstElement(n, key, s).Some? {
        if GetFirstElement(n, key, s).None? {
          MissImpliesCanMiss(n, key, s);
        }
      }
    }
  }

  // ---------- When some order finds it ----------

  ghost predicate HeldBelow(n: Node, key: string)
    requires n.Tree?
  {
    exists v :: Descendant(n, v) && Holds(v, key)
  }

  lemma HeldBelowOne(n: Node, key: string) returns (name: string)
    requires n.Tree? && HeldBelow(n, key)
    ensures name in n.children && n.children[name].Tree?
    ensures Holds(n.children[name], key) || HeldBelow(n.children[name], key)
  {
    var v :| Descendant(n, v) && Holds(v, key);
    name :| name in n.children
            && (n.children[name] == v || (n.children[name].Tree? && Descendant(n.children[name], v)));
  }

  /** `name` first, with its own order below it, and any order of everything else. */
  ghost function NameFirst(n: Node, name: string, below: Schedule): Schedule
    requires n.Tree? && name in n.children
  {
    Schedule([name] + Enumerate(n.children.Keys - {name}),
             map sub | sub in n.children && n.children[sub].Tree? ::
               if sub == name then below else Adverse(n.children[sub]))
  }

  lemma NameFirstOrders(n: Node, name: string, below: Schedule)
    requires n.Tree? && name in n.children && n.children[name].Tree? && Orders(below, n.children[name])
    ensures Orders(NameFirst(n, name, below), n)
  {
    var s := NameFirst(n, name, below);
    forall sub | sub in n.children && n.children[sub].Tree?
      ensures sub in s.subs && Orders(s.subs[sub], n.children[sub])
    {
      if sub != name {
        AdverseOrders(n.children[sub]);
      }
    }
  }

  lemma {:induction false} FavourableOrder(n: Node, key: string) returns (s: Schedule)
    requires n.Tree? && HeldBelow(n, key)
    ensures Orders(s, n) && GetFirstElement(n, key, s).Some?
  {
    var name := HeldBelowOne(n, key);
    var below;
    if Holds(n.children[name], key) {
      below := Adverse(n.children[name]);
      AdverseOrders(n.children[name]);
    } else {
      below := FavourableOrder(n.children[name], key);
    }
    s := NameFirst(n, name, below);
    NameFirstOrders(n, name, below);
    assert s.names[0] == name;
  }

  /** The search succeeds in some order exactly when a map below the root holds the key. */
  lemma FoundInSomeOrderExactly(n: Node, key: string)
    requires n.Tree?
    ensures (exists s: Schedule :: Orders(s, n) && GetFirstElement(n, key, s).Some?) <==> HeldBelow(n, key)
  {
    if HeldBelow(n, key) {
      var s := FavourableOrder(n, key);
    } else {
      forall s: Schedule | Orders(s, n) ensures GetFirstElement(n, key, s).None? {
        if GetFirstElement(n, key, s).Some? {
          FoundHoldsKey(n, key, s);
        }
      }
    }
  }

  /** So the outcome depends on the order exactly when the key is held below but an order can
      miss it. */
  lemma OrderMattersExactly(n: Node, key: string)
    requires n.Tree?
    ensures (exists s, t: Schedule :: Orders(s, n) && Orders(t, n)
               && GetFirstElement(n, key, s).Some? && GetFirstElement(n, key, t).None?)
       <==> HeldBelow(n, key) && CanMiss(n, key)
  {
    FoundInSomeOrderExactly(n, key);
    FoundInEveryOrderExactly(n, key);
  }

  /** Every map on the way down, as far as it lacks the key, has only maps below it. */
  ghost predicate MapsOnly(n: Node, key: string)
    requires n.Tree?
  {
    forall name | name in n.children ::
      n.children[name].Tree? && (Holds(n.children[name], key) || MapsOnly(n.children[name], key))
  }

  lemma {:induction false} HeldBelowIsNotMissed(n: Node, key: string, v: Node)
    requires n.Tree? && MapsOnly(n, key) && CanMiss(n, key)
    requires Descendant(n, v) && Holds(v, key)
    ensures false
  {
    var name :| name in n.children
                && (n.children[name] == v || (n.children[name].Tree? && Descendant(n.children[name], v)));
    HeldBelowIsNotMissed(n.children[name], key, v);
  }

  /** In such a tree, and in every order, the search fails exactly when no map below the
      root holds the key. */
  lemma MissesExactlyWhatIsNotThere(n: Node, key: string, s: Schedule)
    requires n.Tree? && MapsOnly(n, key) && Orders(s, n)
    ensures GetFirstElement(n, key, s).None? <==> !HeldBelow(n, key)
  {
    if GetFirstElement(n, key, s).None? {
      MissImpliesCanMiss(n, key, s);
      if v :| Descendant(n, v) && Holds(v, key) {
        HeldBelowIsNotMissed(n, key, v);
      }
    } else {
      FoundHoldsKey(n, key, s);
    }
  }
}
