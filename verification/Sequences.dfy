/** Sequences without repetition, as queues and recency lists. */
module Sequences {
  ghost predicate NoDuplicates<T>(s: seq<T>) {
    forall i, j :: 0 <= i < j < |s| ==> s[i] != s[j]
  }

  /** `s` lists exactly the elements of `keys`, each once. */
  ghost predicate Lists<T(!new)>(s: seq<T>, keys: set<T>) {
    NoDuplicates(s) && forall x :: x in s <==> x in keys
  }

  /** `s` without the occurrences of `x`, in the same order. */
  function Without<T(==,!new)>(s: seq<T>, x: T): (r: seq<T>)
    ensures forall y :: y in r <==> y in s && y != x
    ensures |r| <= |s|
  {
    if s == [] then []
    else if s[0] == x then Without(s[1..], x)
    else [s[0]] + Without(s[1..], x)
  }

  lemma {:induction false} WithoutDistinct<T(!new)>(s: seq<T>, x: T)
    requires NoDuplicates(s)
    ensures NoDuplicates(Without(s, x))
    ensures x in s ==> |Without(s, x)| == |s| - 1
    ensures x !in s ==> Without(s, x) == s
  {
    if s != [] {
      assert s == [s[0]] + s[1..];
      WithoutDistinct(s[1..], x);
      var kept := Without(s[1..], x);
      forall j | 0 <= j < |kept| ensures kept[j] != s[0] {
        assert kept[j] in kept;
        var i :| 0 <= i < |s[1..]| && s[1..][i] == kept[j];
        assert s[i + 1] == kept[j];
      }
    }
  }

  /** Removing the last element leaves what comes before it. */
  lemma {:induction false} WithoutLast<T(!new)>(s: seq<T>)
    requires NoDuplicates(s) && s != []
    ensures Without(s, s[|s| - 1]) == s[..|s| - 1]
  {
    if |s| > 1 {
      WithoutLast(s[1..]);
      assert s[..|s| - 1] == [s[0]] + s[1..][..|s| - 2];
    }
  }

  lemma {:induction false} ListedSize<T(!new)>(s: seq<T>, keys: set<T>)
    requires Lists(s, keys)
    ensures |s| == |keys|
  {
    if s == [] {
      assert keys == {};
    } else {
      var n := |s| - 1;
      var last := s[n];
      assert s == s[..n] + [last];
      ListedSize(s[..n], keys - {last});
    }
  }

  lemma AddListed<T(!new)>(s: seq<T>, keys: set<T>, x: T)
    requires Lists(s, keys) && x !in keys
    ensures Lists([x] + s, keys + {x})
    ensures Lists(s + [x], keys + {x})
  {
  }

  /** Moving a listed element to the front keeps the list. */
  lemma TouchListed<T(!new)>(s: seq<T>, keys: set<T>, x: T)
    requires Lists(s, keys) && x in keys
    ensures Lists([x] + Without(s, x), keys)
  {
    WithoutDistinct(s, x);
  }

  lemma DropListed<T(!new)>(s: seq<T>, keys: set<T>, x: T)
    requires Lists(s, keys)
    ensures Lists(Without(s, x), keys - {x})
  {
    WithoutDistinct(s, x);
  }

  /** The elements of `s` that satisfy `keep`, in the same order. */
  function Only<T(!new)>(s: seq<T>, keep: T -> bool): (r: seq<T>)
    ensures forall x :: x in r <==> x in s && keep(x)
    ensures |r| <= |s|
  {
    if s == [] then []
    else (if keep(s[0]) then [s[0]] else []) + Only(s[1..], keep)
  }

  ghost function Elements<T(!new)>(s: seq<T>): set<T> {
    set x | x in s
  }

  lemma {:induction false} SubsetSize<T>(a: set<T>, b: set<T>)
    requires a <= b
    ensures |a| <= |b|
  {
    if a != {} {
      var x :| x in a;
      SubsetSize(a - {x}, b - {x});
    }
  }

  lemma LastDropped<T(!new)>(s: seq<T>, keys: set<T>)
    requires Lists(s, keys) && keys != {}
    ensures s != [] && Lists(s[..|s| - 1], keys - {s[|s| - 1]})
    ensures s[|s| - 1] in keys
  {
    ListedSize(s, keys);
    var n := |s| - 1;
    assert s == s[..n] + [s[n]];
  }

  lemma {:induction false} OnlyDistinct<T(!new)>(s: seq<T>, keep: T -> bool)
    requires NoDuplicates(s)
    ensures NoDuplicates(Only(s, keep))
  {
    if s != [] {
      assert s == [s[0]] + s[1..];
      OnlyDistinct(s[1..], keep);
      var kept := Only(s[1..], keep);
      forall j | 0 <= j < |kept| ensures kept[j] != s[0] {
        assert kept[j] in kept;
        var i :| 0 <= i < |s[1..]| && s[1..][i] == kept[j];
        assert s[i + 1] == kept[j];
      }
    }
  }

  lemma JoinDistinct<T>(a: seq<T>, b: seq<T>)
    requires NoDuplicates(a) && NoDuplicates(b) && forall i, j :: 0 <= i < |a| && 0 <= j < |b| ==> a[i] != b[j]
    ensures NoDuplicates(a + b)
  {
  }
}
