/**
 * The order in which `Keys()` lists the store's keys (`OrderBy(x => x)`), taken as the
 * ordinal lexicographic order on strings, and the ascending listing of a finite set of keys.
 */
module KeyOrder {

  /** `a` sorts strictly before `b`: the first differing character is smaller, or `a` is a proper prefix of `b`. */
  predicate Before(a: string, b: string)
  {
    if |a| == 0 then |b| > 0
    else if |b| == 0 then false
    else a[0] < b[0] || (a[0] == b[0] && Before(a[1..], b[1..]))
  }

  lemma {:induction false} BeforeIrreflexive(a: string)
    ensures !Before(a, a)
  {
    if |a| > 0 {
      BeforeIrreflexive(a[1..]);
    }
  }

  lemma {:induction false} BeforeTransitive(a: string, b: string, c: string)
    requires Before(a, b) && Before(b, c)
    ensures Before(a, c)
  {
    if |a| > 0 && a[0] == b[0] && b[0] == c[0] {
      BeforeTransitive(a[1..], b[1..], c[1..]);
    }
  }

  /** Any two distinct strings are ordered one way or the other. */
  lemma {:induction false} BeforeTotal(a: string, b: string)
    ensures a == b || Before(a, b) || Before(b, a)
  {
    if |a| > 0 && |b| > 0 && a[0] == b[0] {
      BeforeTotal(a[1..], b[1..]);
      if a[1..] == b[1..] {
        assert a == [a[0]] + a[1..] && b == [b[0]] + b[1..];
      }
    }
  }

  /** `x` is the smallest element of `s`. */
  ghost predicate IsLeast(x: string, s: set<string>)
  {
    x in s && forall y :: y in s && y != x ==> Before(x, y)
  }

  /** Every finite non-empty set of strings has a least element. */
  lemma {:induction false} LeastExists(s: set<string>)
    requires s != {}
    ensures exists x :: IsLeast(x, s)
  {
    var y :| y in s;
    if s == {y} {
      assert IsLeast(y, s);
    } else {
      LeastExists(s - {y});
      var z :| IsLeast(z, s - {y});
      BeforeTotal(y, z);
      if Before(y, z) {
        forall w | w in s && w != y
          ensures Before(y, w)
        {
          if w != z { BeforeTransitive(y, z, w); }
        }
        assert IsLeast(y, s);
      } else {
        assert IsLeast(z, s);
      }
    }
  }

  /** Every element is strictly before every later one; in particular no key appears twice. */
  ghost predicate StrictlyAscending(ks: seq<string>)
  {
    forall i, j :: 0 <= i < j < |ks| ==> Before(ks[i], ks[j])
  }

  /** The keys of `s` in ascending order, each once. */
  ghost function SortedKeys(s: set<string>): (ks: seq<string>)
    ensures StrictlyAscending(ks)
    ensures forall k :: k in ks <==> k in s
    ensures |ks| == |s|
    decreases s
  {
    if s == {} then []
    else
      LeastExists(s);
      var x :| IsLeast(x, s);
      var rest := SortedKeys(s - {x});
      assert forall j :: 0 <= j < |rest| ==> Before(x, rest[j]);
      [x] + rest
  }

  /** A strictly ascending listing holds each key at exactly one position. */
  lemma AscendingHasNoDuplicates(ks: seq<string>, i: int, j: int)
    requires StrictlyAscending(ks)
    requires 0 <= i < |ks| && 0 <= j < |ks| && ks[i] == ks[j]
    ensures i == j
  {
    if i < j || j < i {
      BeforeIrreflexive(ks[i]);
    }
  }
}
