/** Byte order on strings, sorted lists without repetition, and the sort the resolver ends with. */
module Ordering {

  /** The order of Go's `<` on strings. */
  predicate Less(a: string, b: string) {
    b != "" && (a == "" || a[0] < b[0] || (a[0] == b[0] && Less(a[1..], b[1..])))
  }

  /** Up to byte k the two are the same, and there a ends or has the lesser byte. */
  ghost predicate LessAt(a: string, b: string, k: nat) {
    k <= |a| && k <= |b| && a[..k] == b[..k] && ((k == |a| < |b|) || (k < |a| && k < |b| && a[k] < b[k]))
  }

  ghost predicate Precedes(a: string, b: string) {
    exists k: nat :: LessAt(a, b, k)
  }

  lemma LessAtRest(a: string, b: string, k: nat)
    requires a != "" && b != "" && a[0] == b[0]
    ensures LessAt(a, b, k + 1) <==> LessAt(a[1..], b[1..], k)
    ensures !LessAt(a, b, 0)
  {
    if k + 1 <= |a| && k + 1 <= |b| {
      assert a[..k + 1] == [a[0]] + a[1..][..k] && b[..k + 1] == [b[0]] + b[1..][..k];
      assert a[1..][..k] == a[..k + 1][1..] && b[1..][..k] == b[..k + 1][1..];
    }
  }

  lemma LessAtFirst(a: string, b: string, k: nat)
    requires a == "" || b == "" || a[0] != b[0]
    ensures LessAt(a, b, k) <==> k == 0 && b != "" && (a == "" || a[0] < b[0])
  {
    assert a[..0] == b[..0];
    assert 0 < k <= |a| && k <= |b| ==> a[..k][0] != b[..k][0];
  }

  lemma {:induction false} LessHasPlace(a: string, b: string)
    ensures Less(a, b) <==> Precedes(a, b)
  {
    if a == "" || b == "" || a[0] != b[0] {
      LessAtFirst(a, b, 0);
      if k: nat :| LessAt(a, b, k) {
        LessAtFirst(a, b, k);
      }
    } else {
      LessHasPlace(a[1..], b[1..]);
      if k: nat :| LessAt(a[1..], b[1..], k) {
        LessAtRest(a, b, k);
        assert LessAt(a, b, k + 1);
      }
      if k: nat :| LessAt(a, b, k) {
        LessAtRest(a, b, if k == 0 then 0 else k - 1);
      }
    }
  }

  /** What the order is: where the two first differ the lesser has the lesser byte, or has come to its end. */
  lemma LessMeaning(a: string, b: string)
    ensures Less(a, b) <==>
            exists k: nat :: k <= |a| && k <= |b| && a[..k] == b[..k]
                             && (k == |a| < |b| || (k < |a| && k < |b| && a[k] < b[k]))
  {
    LessHasPlace(a, b);
    if k: nat :| LessAt(a, b, k) {
      assert a[..k] == b[..k];
    }
    if k: nat :| k <= |a| && k <= |b| && a[..k] == b[..k] && (k == |a| < |b| || (k < |a| && k < |b| && a[k] < b[k])) {
      assert LessAt(a, b, k);
    }
  }

  lemma {:induction false} LessIsTotal(a: string, b: string)
    ensures Less(a, b) || a == b || Less(b, a)
    ensures !(Less(a, b) && Less(b, a)) && !Less(a, a)
  {
    if a == "" {
    } else {
      if b != "" {
        LessIsTotal(a[1..], b[1..]);
        assert a == [a[0]] + a[1..] && b == [b[0]] + b[1..];
      }
      LessIsTotal(a[1..], a[1..]);
    }
  }

  lemma {:induction false} LessIsTransitive(a: string, b: string, c: string)
    requires Less(a, b) && Less(b, c)
    ensures Less(a, c)
  {
    if a != "" && a[0] == b[0] == c[0] {
      LessIsTransitive(a[1..], b[1..], c[1..]);
    }
  }

  ghost function Elems(s: seq<string>): set<string> {
    set x | x in s
  }

  ghost predicate StrictlySorted(s: seq<string>) {
    forall i, j | 0 <= i < j < |s| :: Less(s[i], s[j])
  }

  ghost predicate Distinct(s: seq<string>) {
    forall i, j | 0 <= i < j < |s| :: s[i] != s[j]
  }

  lemma AppendKeepsDistinct(s: seq<string>, x: string)
    requires Distinct(s) && x !in Elems(s)
    ensures Distinct(s + [x]) && Elems(s + [x]) == Elems(s) + {x}
  {}

  /** Puts x in its place. */
  function Insert(x: string, s: seq<string>): seq<string> {
    if s == [] || Less(x, s[0]) then [x] + s else [s[0]] + Insert(x, s[1..])
  }

  lemma {:induction false} InsertSorts(x: string, s: seq<string>)
    requires StrictlySorted(s) && x !in s
    ensures StrictlySorted(Insert(x, s)) && Elems(Insert(x, s)) == Elems(s) + {x}
  {
    var r := Insert(x, s);
    if s == [] {
    } else if Less(x, s[0]) {
      forall j | 0 <= j < |s| ensures Less(x, s[j]) {
        if j > 0 {
          LessIsTransitive(x, s[0], s[j]);
        }
      }
    } else {
      LessIsTotal(x, s[0]);
      InsertSorts(x, s[1..]);
      assert s == [s[0]] + s[1..];
      assert Elems(s) == {s[0]} + Elems(s[1..]);
      forall j | 1 <= j < |r| ensures Less(s[0], r[j]) {
        assert r[j] in Elems(Insert(x, s[1..]));
      }
    }
  }

  /** A set has at most one strictly sorted listing. */
  lemma {:induction false} SortedListingIsUnique(a: seq<string>, b: seq<string>)
    requires StrictlySorted(a) && StrictlySorted(b) && Elems(a) == Elems(b)
    ensures a == b
  {
    assert b != [] <==> exists x :: x in Elems(b) by {
      assert b != [] ==> b[0] in Elems(b);
    }
    if a == [] {
    } else {
      assert a[0] in Elems(b);
      assert b[0] in Elems(a);
      LessIsTotal(a[0], b[0]);
      assert a[0] == b[0];
      forall x ensures x in Elems(a[1..]) <==> x in Elems(b[1..]) {
        LessIsTotal(a[0], a[0]);
        assert x in Elems(a) <==> x == a[0] || x in a[1..];
        assert x in Elems(b) <==> x == b[0] || x in b[1..];
      }
      SortedListingIsUnique(a[1..], b[1..]);
    }
  }

  lemma {:induction false} SortedListingExists(s: set<string>)
    ensures exists list :: StrictlySorted(list) && Elems(list) == s
    decreases |s|
  {
    if x :| x in s {
      SortedListingExists(s - {x});
      var rest :| StrictlySorted(rest) && Elems(rest) == s - {x};
      assert x !in Elems(rest);
      InsertSorts(x, rest);
    } else {
      assert Elems([]) == s;
    }
  }

  /** The strictly sorted listing of a set. */
  ghost function Sorted(s: set<string>): (list: seq<string>)
    ensures StrictlySorted(list) && Elems(list) == s
  {
    SortedListingExists(s);
    var list :| StrictlySorted(list) && Elems(list) == s;
    list
  }

  lemma SortedAscends(list: seq<string>)
    requires StrictlySorted(list)
    ensures forall i, j | 0 <= i < j < |list| :: Precedes(list[i], list[j])
  {
    forall i, j | 0 <= i < j < |list| ensures Precedes(list[i], list[j]) {
      LessHasPlace(list[i], list[j]);
    }
  }

  /** `sort.Strings` on a slice without repetitions. */
  method SortStrings(s: seq<string>) returns (list: seq<string>)
    requires Distinct(s)
    ensures list == Sorted(Elems(s))
    ensures forall i, j | 0 <= i < j < |list| :: Precedes(list[i], list[j])
  {
    list := [];
    for i := 0 to |s|
      invariant StrictlySorted(list) && Elems(list) == Elems(s[..i])
    {
      assert s[i] !in list by {
        assert s[i] !in Elems(s[..i]);
      }
      InsertSorts(s[i], list);
      list := Insert(s[i], list);
      assert s[..i + 1] == s[..i] + [s[i]];
    }
    assert s[..|s|] == s;
    SortedListingIsUnique(list, Sorted(Elems(s)));
    SortedAscends(list);
  }
}
