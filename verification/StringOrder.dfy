/** sort.Strings on a set of keys. */
module StringOrder {

  predicate Less(a: string, b: string) {
    b != "" && (a == "" || a[0] < b[0] || (a[0] == b[0] && Less(a[1..], b[1..])))
  }

  predicate Sorted(s: seq<string>) {
    forall i, j | 0 <= i < j < |s| :: Less(s[i], s[j])
  }

  lemma {:induction false} Trichotomy(a: string, b: string)
    ensures Less(a, b) || a == b || Less(b, a)
    ensures !(Less(a, b) && Less(b, a)) && !Less(a, a)
  {
    if a != "" && b != "" {
      Trichotomy(a[1..], b[1..]);
      assert a == [a[0]] + a[1..] && b == [b[0]] + b[1..];
    }
    if a != "" {
      Trichotomy(a[1..], a[1..]);
    }
  }

  lemma {:induction false} Transitive(a: string, b: string, c: string)
    requires Less(a, b) && Less(b, c)
    ensures Less(a, c)
  {
    if a != "" && a[0] == b[0] == c[0] {
      Transitive(a[1..], b[1..], c[1..]);
    }
  }

  function Inserted(s: seq<string>, x: string): seq<string> {
    if s == [] || Less(x, s[0]) then [x] + s else [s[0]] + Inserted(s[1..], x)
  }

  lemma {:induction false} InsertedKeepsSorted(s: seq<string>, x: string)
    requires Sorted(s) && x !in s
    ensures Sorted(Inserted(s, x))
    ensures forall y :: y in Inserted(s, x) <==> y in s || y == x
  {
    if s != [] {
      Trichotomy(x, s[0]);
      assert s == [s[0]] + s[1..];
      if Less(x, s[0]) {
        forall j | 0 <= j < |s|
          ensures Less(x, s[j])
        {
          if j > 0 { Transitive(x, s[0], s[j]); }
        }
      } else {
        InsertedKeepsSorted(s[1..], x);
        var t := Inserted(s[1..], x);
        forall j | 0 <= j < |t|
          ensures Less(s[0], t[j])
        {
          assert t[j] in s[1..] || t[j] == x;
        }
      }
    }
  }

  /** sort.Strings over the keys of a map, met in any order. */
  method SortStrings(names: set<string>) returns (s: seq<string>)
    ensures Sorted(s) && forall y :: y in s <==> y in names
  {
    s := [];
    var rest := names;
    while rest != {}
      invariant rest <= names && Sorted(s)
      invariant forall y :: y in s <==> y in names && y !in rest
    {
      var x :| x in rest;
      InsertedKeepsSorted(s, x);
      s := Inserted(s, x);
      rest := rest - {x};
    }
  }

  /** A set has one sorted listing, so nothing depends on the order in which it was met. */
  lemma {:induction false} SortedListingIsUnique(s: seq<string>, t: seq<string>)
    requires Sorted(s) && Sorted(t) && forall y :: y in s <==> y in t
    ensures s == t
  {
    assert t == [] || t[0] in t;
    if s != [] {
      assert s[0] in t && t != [];
      SameHead(s, t);
      var x := s[0];
      assert s == [x] + s[1..] && t == [x] + t[1..];
      forall y
        ensures y in s[1..] <==> y in t[1..]
      {
        NotAgain(s, y);
        NotAgain(t, y);
      }
      SortedListingIsUnique(s[1..], t[1..]);
    }
  }

  lemma SameHead(s: seq<string>, t: seq<string>)
    requires Sorted(s) && Sorted(t) && s != [] && t != [] && s[0] in t && t[0] in s
    ensures s[0] == t[0]
  {
    var i :| 0 <= i < |t| && t[i] == s[0];
    var j :| 0 <= j < |s| && s[j] == t[0];
    Trichotomy(s[0], t[0]);
  }

  lemma NotAgain(s: seq<string>, y: string)
    requires Sorted(s) && s != []
    ensures y in s[1..] <==> y in s && y != s[0]
  {
    assert s == [s[0]] + s[1..];
    if y in s[1..] {
      var i :| 0 <= i < |s| - 1 && s[1..][i] == y;
      assert s[i + 1] == y;
      Trichotomy(s[0], s[0]);
    }
  }
}
