/** `strings.Join`, and `strings.Split` at a one-character separator. */
module Text {

  function Join(parts: seq<string>, sep: string): string {
    if parts == [] then ""
    else if |parts| == 1 then parts[0]
    else parts[0] + sep + Join(parts[1..], sep)
  }

  function Split(s: string, c: char): (parts: seq<string>)
    ensures parts != []
  {
    if s == "" then [""]
    else if s[0] == c then [""] + Split(s[1..], c)
    else
      var rest := Split(s[1..], c);
      [[s[0]] + rest[0]] + rest[1..]
  }

  /** The texts that are not empty, in order. */
  function NonEmptyTexts(texts: seq<string>): seq<string> {
    if texts == [] then [] else
      NonEmptyTexts(texts[..|texts| - 1]) + (if texts[|texts| - 1] != "" then [texts[|texts| - 1]] else [])
  }

  function Flatten<T>(lists: seq<seq<T>>): seq<T> {
    if lists == [] then [] else lists[0] + Flatten(lists[1..])
  }

  lemma {:induction false} SplitPartsAreFree(s: string, c: char)
    ensures forall i | 0 <= i < |Split(s, c)| :: c !in Split(s, c)[i]
  {
    if s != "" {
      SplitPartsAreFree(s[1..], c);
    }
  }

  lemma {:induction false} SplitFree(s: string, c: char)
    requires c !in s
    ensures Split(s, c) == [s]
  {
    if s != "" {
      SplitFree(s[1..], c);
      assert [s[0]] + s[1..] == s;
    }
  }

  lemma {:induction false} SplitAtSeparator(a: string, b: string, c: char)
    ensures Split(a + [c] + b, c) == Split(a, c) + Split(b, c)
  {
    var s := a + [c] + b;
    if a == "" {
      assert s[1..] == b;
    } else {
      assert s[1..] == a[1..] + [c] + b;
      SplitAtSeparator(a[1..], b, c);
    }
  }

  /** Splitting a join splits each part. */
  lemma {:induction false} SplitJoin(parts: seq<string>, c: char)
    requires parts != []
    ensures Split(Join(parts, [c]), c) == Flatten(seq(|parts|, i requires 0 <= i < |parts| => Split(parts[i], c)))
  {
    var splits := seq(|parts|, i requires 0 <= i < |parts| => Split(parts[i], c));
    if |parts| == 1 {
      assert Flatten(splits) == splits[0] + Flatten(splits[1..]);
    } else {
      SplitAtSeparator(parts[0], Join(parts[1..], [c]), c);
      SplitJoin(parts[1..], c);
      assert splits[1..] == seq(|parts[1..]|, i requires 0 <= i < |parts[1..]| => Split(parts[1..][i], c));
    }
  }

  lemma {:induction false} FlattenSingletons<T>(xs: seq<T>)
    ensures Flatten(seq(|xs|, i requires 0 <= i < |xs| => [xs[i]])) == xs
  {
    if xs != [] {
      FlattenSingletons(xs[1..]);
      assert seq(|xs|, i requires 0 <= i < |xs| => [xs[i]])[1..]
          == seq(|xs[1..]|, i requires 0 <= i < |xs[1..]| => [xs[1..][i]]);
    }
  }

  predicate Free(parts: seq<string>, c: char) {
    forall i | 0 <= i < |parts| :: c !in parts[i]
  }

  /** A list survives joining and splitting exactly when it is not empty and no part
      contains the separator. */
  lemma SplitUndoesJoin(parts: seq<string>, c: char)
    ensures Split(Join(parts, [c]), c) == parts <==> parts != [] && Free(parts, c)
  {
    SplitPartsAreFree(Join(parts, [c]), c);
    if parts != [] && Free(parts, c) {
      SplitJoin(parts, c);
      forall i | 0 <= i < |parts| ensures Split(parts[i], c) == [parts[i]] {
        SplitFree(parts[i], c);
      }
      assert seq(|parts|, i requires 0 <= i < |parts| => Split(parts[i], c))
          == seq(|parts|, i requires 0 <= i < |parts| => [parts[i]]);
      FlattenSingletons(parts);
    }
  }

  lemma {:induction false} FlattenAppend<T>(a: seq<seq<T>>, b: seq<seq<T>>)
    ensures Flatten(a + b) == Flatten(a) + Flatten(b)
  {
    if a == [] {
      assert a + b == b;
    } else {
      assert (a + b)[1..] == a[1..] + b;
      FlattenAppend(a[1..], b);
    }
  }

  lemma FlattenSnoc<T>(lists: seq<seq<T>>, last: seq<T>)
    ensures Flatten(lists + [last]) == Flatten(lists) + last
  {
    FlattenAppend(lists, [last]);
    assert Flatten([last]) == last + Flatten([last][1..]);
  }

  lemma {:induction false} JoinSnoc(parts: seq<string>, last: string, sep: string)
    requires parts != []
    ensures Join(parts + [last], sep) == Join(parts, sep) + sep + last
  {
    if |parts| == 1 {
      assert (parts + [last])[1..] == [last];
    } else {
      assert (parts + [last])[1..] == parts[1..] + [last];
      JoinSnoc(parts[1..], last, sep);
      assert parts[0] + sep + (Join(parts[1..], sep) + sep + last)
          == parts[0] + sep + Join(parts[1..], sep) + sep + last;
    }
  }

  lemma {:induction false} JoinAppend(a: seq<string>, b: seq<string>, sep: string)
    requires a != [] && b != []
    ensures Join(a + b, sep) == Join(a, sep) + sep + Join(b, sep)
  {
    assert (a + b)[1..] == a[1..] + b;
    if |a| == 1 {
      assert a[1..] + b == b;
    } else {
      JoinAppend(a[1..], b, sep);
      assert a[0] + sep + (Join(a[1..], sep) + sep + Join(b, sep))
          == a[0] + sep + Join(a[1..], sep) + sep + Join(b, sep);
    }
  }

  lemma {:induction false} JoinUndoesSplit(s: string, c: char)
    ensures Join(Split(s, c), [c]) == s
  {
    if s != "" {
      JoinUndoesSplit(s[1..], c);
      var rest := Split(s[1..], c);
      assert s == [s[0]] + s[1..];
      if s[0] == c {
        assert Split(s, c)[1..] == rest;
        assert Join(Split(s, c), [c]) == "" + [c] + Join(rest, [c]);
      } else {
        assert Split(s, c)[1..] == rest[1..];
      }
    }
  }
}
