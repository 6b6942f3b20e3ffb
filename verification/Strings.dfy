/**
 The order in which serde_json's `Map` (a `BTreeMap<String, Value>`) enumerates
 its keys: lexicographic.

 A set of keys has one increasing enumeration, so anything that walks an object's
 members in order walks them in the same order whichever way the object came
 about.
 */
module Strings {

  predicate Before(a: string, b: string) {
    if |b| == 0 then false
    else if |a| == 0 then true
    else a[0] < b[0] || (a[0] == b[0] && Before(a[1..], b[1..]))
  }

  lemma {:induction false} BeforeTotal(a: string, b: string)
    ensures Before(a, b) || a == b || Before(b, a)
    ensures !(Before(a, b) && Before(b, a))
  {
    if |a| > 0 && |b| > 0 {
      BeforeTotal(a[1..], b[1..]);
      if a[1..] == b[1..] && a[0] == b[0] {
        assert a == [a[0]] + a[1..] == b;
      }
    }
  }

  lemma {:induction false} BeforeTransitive(a: string, b: string, c: string)
    requires Before(a, b) && Before(b, c)
    ensures Before(a, c)
  {
    if |a| > 0 && a[0] == b[0] == c[0] {
      BeforeTransitive(a[1..], b[1..], c[1..]);
    }
  }

  predicate First(k: string, keys: set<string>) {
    k in keys && forall x :: x in keys && x != k ==> Before(k, x)
  }

  lemma {:induction false} FirstExists(keys: set<string>) returns (k: string)
    requires keys != {}
    ensures First(k, keys)
    decreases keys
  {
    var x :| x in keys;
    if keys == {x} {
      k := x;
    } else {
      var y := FirstExists(keys - {x});
      BeforeTotal(x, y);
      if Before(x, y) {
        k := x;
        forall z | z in keys && z != x ensures Before(x, z) {
          if z != y { BeforeTransitive(x, y, z); }
        }
      } else {
        k := y;
      }
    }
  }

  lemma FirstUnique(j: string, k: string, keys: set<string>)
    requires First(j, keys) && First(k, keys)
    ensures j == k
  {
    BeforeTotal(j, k);
  }

  /** Every key once, in increasing order. */
  function InOrder(keys: set<string>): (s: seq<string>)
    ensures forall k :: k in keys <==> k in s
    ensures forall i, j :: 0 <= i < j < |s| ==> Before(s[i], s[j])
    ensures forall i, j :: 0 <= i < j < |s| ==> s[i] != s[j]
  {
    if keys == {} then []
    else
      assert exists k :: First(k, keys) by {
        var k := FirstExists(keys);
      }
      assert forall j, k :: First(j, keys) && First(k, keys) ==> j == k by {
        forall j, k | First(j, keys) && First(k, keys) ensures j == k {
          FirstUnique(j, k, keys);
        }
      }
      var k :| First(k, keys);
      [k] + InOrder(keys - {k})
  }

  predicate Increasing(s: seq<string>) {
    forall i, j :: 0 <= i < j < |s| ==> Before(s[i], s[j])
  }

  /** There is only one increasing enumeration of a set. */
  lemma {:induction false} InOrderUnique(s: seq<string>, keys: set<string>)
    requires Increasing(s) && forall k :: k in keys <==> k in s
    ensures s == InOrder(keys)
  {
    if s != [] {
      var k := s[0];
      assert k in keys;
      forall x | x in keys && x != k ensures Before(k, x) {
        var j :| 0 <= j < |s| && s[j] == x;
      }
      var o := InOrder(keys);
      FirstUnique(k, o[0], keys);
      forall x ensures x in keys - {k} <==> x in s[1..] {
        if x in s[1..] { BeforeTotal(k, x); }
      }
      InOrderUnique(s[1..], keys - {k});
    } else {
      assert keys == {};
    }
  }
}
