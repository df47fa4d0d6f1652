/**
 * Facts about the client lists of the broadcaster: a list without
 * duplicates, Python's `list.remove`, and the order-preserving filter that
 * states what is left after clients are evicted.
 */
module Registry {

  /** No element occurs twice. */
  ghost predicate NoDup<T>(s: seq<T>)
  {
    forall i, j :: 0 <= i < j < |s| ==> s[i] != s[j]
  }

  /** The elements of a list, as a set. */
  ghost function Elems<T>(s: seq<T>): set<T>
  {
    set x | x in s
  }

  lemma ElemsSnoc<T>(s: seq<T>, x: T)
    ensures Elems(s + [x]) == Elems(s) + {x}
  {
  }

  /** `s` with every element of `gone` taken out, the rest in their original order. */
  function Drop<T>(s: seq<T>, gone: set<T>): (r: seq<T>)
    ensures forall x :: x in r ==> x in s && x !in gone
    ensures forall x :: x in s && x !in gone ==> x in r
    ensures |r| <= |s|
  {
    if s == [] then []
    else if s[0] in gone then Drop(s[1..], gone)
    else [s[0]] + Drop(s[1..], gone)
  }

  /** Position of the first occurrence of `x`. */
  function IndexOf<T(==)>(s: seq<T>, x: T): (i: nat)
    requires x in s
    ensures i < |s| && s[i] == x && x !in s[..i]
  {
    if s[0] == x then 0
    else
      var i := IndexOf(s[1..], x);
      assert s[..i + 1] == [s[0]] + s[1..][..i];
      i + 1
  }

  /** Python's `list.remove(x)`: deletes the first occurrence of `x`, keeps the rest in order. */
  function RemoveFirst<T(==)>(s: seq<T>, x: T): (r: seq<T>)
    requires x in s
    ensures |r| == |s| - 1
    ensures r == s[..IndexOf(s, x)] + s[IndexOf(s, x) + 1..]
  {
    if s[0] == x then s[1..]
    else
      var rest := RemoveFirst(s[1..], x);
      assert s[..IndexOf(s, x)] == [s[0]] + s[1..][..IndexOf(s[1..], x)];
      [s[0]] + rest
  }

  /** `r` is `s` with some elements left out and the others in the same order. */
  ghost predicate Subsequence<T>(r: seq<T>, s: seq<T>)
    decreases |s|
  {
    if r == [] then true
    else if s == [] then false
    else (r[0] == s[0] && Subsequence(r[1..], s[1..])) || Subsequence(r, s[1..])
  }

  /** Survivors of an eviction keep their relative order. */
  lemma {:induction false} DropIsSubsequence<T>(s: seq<T>, gone: set<T>)
    ensures Subsequence(Drop(s, gone), s)
  {
    if s != [] {
      DropIsSubsequence(s[1..], gone);
      var r := Drop(s, gone);
      if s[0] !in gone {
        assert r[0] == s[0] && r[1..] == Drop(s[1..], gone);
      }
    }
  }

  /** Dropping elements that do not occur changes nothing. */
  lemma {:induction false} DropAbsent<T>(s: seq<T>, gone: set<T>)
    requires forall x :: x in s ==> x !in gone
    ensures Drop(s, gone) == s
  {
    if s != [] {
      DropAbsent(s[1..], gone);
      assert s == [s[0]] + s[1..];
    }
  }

  /** Two evictions in a row are one eviction of both sets. */
  lemma {:induction false} DropDrop<T>(s: seq<T>, a: set<T>, b: set<T>)
    ensures Drop(Drop(s, a), b) == Drop(s, a + b)
  {
    if s != [] {
      DropDrop(s[1..], a, b);
      if s[0] !in a {
        assert Drop(s, a) == [s[0]] + Drop(s[1..], a);
        assert Drop(s, a)[1..] == Drop(s[1..], a);
      }
    }
  }

  /** Evicting the same set twice is the same as evicting it once. */
  lemma DropIdempotent<T>(s: seq<T>, a: set<T>)
    ensures Drop(Drop(s, a), a) == Drop(s, a)
  {
    DropDrop(s, a, a);
    assert a + a == a;
  }

  /** Only the intersection of `gone` with the list matters. */
  lemma {:induction false} DropAgree<T>(s: seq<T>, a: set<T>, b: set<T>)
    requires forall x :: x in s ==> (x in a <==> x in b)
    ensures Drop(s, a) == Drop(s, b)
  {
    if s != [] {
      DropAgree(s[1..], a, b);
    }
  }

  /** A list without duplicates stays without duplicates after an eviction. */
  lemma {:induction false} DropNoDup<T>(s: seq<T>, gone: set<T>)
    requires NoDup(s)
    ensures NoDup(Drop(s, gone))
  {
    if s != [] {
      assert NoDup(s[1..]) by {
        forall i, j | 0 <= i < j < |s[1..]| ensures s[1..][i] != s[1..][j] {
          assert s[1..][i] == s[i + 1] && s[1..][j] == s[j + 1];
        }
      }
      DropNoDup(s[1..], gone);
      if s[0] !in gone {
        var r := Drop(s, gone);
        assert s[0] !in s[1..] by {
          forall k | 0 <= k < |s[1..]| ensures s[1..][k] != s[0] {
            assert s[1..][k] == s[k + 1];
          }
        }
        assert s[0] !in Drop(s[1..], gone);
        forall i, j | 0 <= i < j < |r| ensures r[i] != r[j] {
          if i == 0 {
            assert r[j] == Drop(s[1..], gone)[j - 1];
          } else {
            assert r[i] == Drop(s[1..], gone)[i - 1] && r[j] == Drop(s[1..], gone)[j - 1];
          }
        }
      }
    }
  }

  /** In a list without duplicates, `list.remove(x)` evicts exactly `x`. */
  lemma {:induction false} RemoveFirstIsDrop<T>(s: seq<T>, x: T)
    requires NoDup(s) && x in s
    ensures RemoveFirst(s, x) == Drop(s, {x})
  {
    assert NoDup(s[1..]) by {
      forall i, j | 0 <= i < j < |s[1..]| ensures s[1..][i] != s[1..][j] {
        assert s[1..][i] == s[i + 1] && s[1..][j] == s[j + 1];
      }
    }
    if s[0] == x {
      assert x !in s[1..] by {
        forall k | 0 <= k < |s[1..]| ensures s[1..][k] != x {
          assert s[1..][k] == s[k + 1];
        }
      }
      DropAbsent(s[1..], {x});
    } else {
      RemoveFirstIsDrop(s[1..], x);
    }
  }
}
