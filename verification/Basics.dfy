// Values and sequence operations shared by every model.
module Basics {
  datatype Option<+T> = None | Some(value: T)

  ghost predicate NoDup<T>(s: seq<T>) {
    forall i, j :: 0 <= i < j < |s| ==> s[i] != s[j]
  }

  // Some occurrence of `x` stands before one of `y`.
  ghost predicate Before<T(!new)>(s: seq<T>, x: T, y: T) {
    exists i, j :: 0 <= i < j < |s| && s[i] == x && s[j] == y
  }

  function Last<T>(s: seq<T>): T
    requires s != []
  {
    s[|s| - 1]
  }

  // `x` is the last element of `s` that belongs to `keep`.
  ghost predicate LastIn<T(!new)>(s: seq<T>, keep: set<T>, x: T) {
    x in keep && exists i :: LastAt(s, keep, x, i)
  }

  ghost predicate LastAt<T(!new)>(s: seq<T>, keep: set<T>, x: T, i: int) {
    0 <= i < |s| && s[i] == x && forall j :: i < j < |s| ==> s[j] !in keep
  }

  lemma BeforeAppend<T(!new)>(a: seq<T>, b: seq<T>, x: T, y: T)
    ensures Before(a, x, y) || Before(b, x, y) || (x in a && y in b) ==> Before(a + b, x, y)
  {
    if Before(a, x, y) {
      var i, j :| 0 <= i < j < |a| && a[i] == x && a[j] == y;
      assert (a + b)[i] == x && (a + b)[j] == y;
    } else if Before(b, x, y) {
      var i, j :| 0 <= i < j < |b| && b[i] == x && b[j] == y;
      assert (a + b)[|a| + i] == x && (a + b)[|a| + j] == y;
    } else if x in a && y in b {
      var i :| 0 <= i < |a| && a[i] == x;
      var j :| 0 <= j < |b| && b[j] == y;
      assert (a + b)[i] == x && (a + b)[|a| + j] == y;
    }
  }

  lemma NoDupAppend<T(!new)>(a: seq<T>, b: seq<T>)
    requires NoDup(a) && NoDup(b) && forall x :: x in a ==> x !in b
    ensures NoDup(a + b)
  {
    forall i, j | 0 <= i < j < |a + b| ensures (a + b)[i] != (a + b)[j] {
      if i < |a| <= j {
        assert (a + b)[i] in a && (a + b)[j] in b;
      }
    }
  }

  function Elements<T(!new)>(s: seq<T>): (r: set<T>)
    ensures forall x :: x in r <==> x in s
  {
    set x | x in s
  }

  // The subsequence of `s` made of the elements that belong to `keep`.
  function Restrict<T(!new)>(s: seq<T>, keep: set<T>): (r: seq<T>)
    ensures forall x :: x in r <==> x in s && x in keep
  {
    if s == [] then []
    else
      var n := |s| - 1;
      assert forall x :: x in s <==> x in s[..n] || x == s[n];
      Restrict(s[..n], keep) + (if s[n] in keep then [s[n]] else [])
  }

  function Without<T(!new)>(s: seq<T>, drop: set<T>): (r: seq<T>)
    ensures forall x :: x in r <==> x in s && x !in drop
  {
    Restrict(s, Elements(s) - drop)
  }

  lemma {:induction false} RestrictNoDup<T(!new)>(s: seq<T>, keep: set<T>)
    requires NoDup(s)
    ensures NoDup(Restrict(s, keep))
  {
    if s == [] {
    } else {
      RestrictNoDup(s[..|s| - 1], keep);
    }
  }

  lemma {:induction false} RestrictLast<T(!new)>(s: seq<T>, keep: set<T>)
    requires Restrict(s, keep) != []
    ensures LastIn(s, keep, Last(Restrict(s, keep)))
  {
    var n := |s| - 1;
    if s[n] in keep {
      assert LastAt(s, keep, Last(Restrict(s, keep)), n);
    } else {
      RestrictLast(s[..n], keep);
      var x := Last(Restrict(s[..n], keep));
      var i :| LastAt(s[..n], keep, x, i);
      assert LastAt(s, keep, x, i);
    }
  }

  lemma {:induction false} RestrictBefore<T(!new)>(s: seq<T>, keep: set<T>, x: T, y: T)
    requires Before(s, x, y) && x in keep && y in keep
    ensures Before(Restrict(s, keep), x, y)
  {
    var i, j :| 0 <= i < j < |s| && s[i] == x && s[j] == y;
    var n := |s| - 1;
    var last := if s[n] in keep then [s[n]] else [];
    BeforeAppend(Restrict(s[..n], keep), last, x, y);
    if j < n {
      assert s[..n][i] == x && s[..n][j] == y;
      RestrictBefore(s[..n], keep, x, y);
    } else {
      assert s[..n][i] == x;
    }
  }

  // Only the elements that occur in `s` matter.
  lemma {:induction false} RestrictAgree<T(!new)>(s: seq<T>, k1: set<T>, k2: set<T>)
    requires forall x :: x in s ==> (x in k1 <==> x in k2)
    ensures Restrict(s, k1) == Restrict(s, k2)
  {
    if s == [] {
    } else {
      RestrictAgree(s[..|s| - 1], k1, k2);
    }
  }

  lemma {:induction false} RestrictAppend<T(!new)>(a: seq<T>, b: seq<T>, keep: set<T>)
    ensures Restrict(a + b, keep) == Restrict(a, keep) + Restrict(b, keep)
  {
    if b == [] {
      assert a + b == a;
    } else {
      var n := |b| - 1;
      assert (a + b)[..|a + b| - 1] == a + b[..n];
      RestrictAppend(a, b[..n], keep);
    }
  }

  lemma RestrictHead<T(!new)>(s: seq<T>, keep: set<T>)
    requires s != []
    ensures Restrict(s, keep) == (if s[0] in keep then [s[0]] else []) + Restrict(s[1..], keep)
  {
    assert s == [s[0]] + s[1..];
    RestrictAppend([s[0]], s[1..], keep);
    RestrictOne(s[0], keep);
  }

  lemma RestrictOne<T(!new)>(x: T, keep: set<T>)
    ensures Restrict([x], keep) == if x in keep then [x] else []
  {
    assert [x][..0] == [];
  }

  lemma {:induction false} RestrictAll<T(!new)>(s: seq<T>, keep: set<T>)
    requires forall x :: x in s ==> x in keep
    ensures Restrict(s, keep) == s
  {
    if s == [] {
    } else {
      var n := |s| - 1;
      RestrictAll(s[..n], keep);
      assert s[..n] + [s[n]] == s;
    }
  }

  lemma {:induction false} RestrictNone<T(!new)>(s: seq<T>, keep: set<T>)
    requires forall x :: x in s ==> x !in keep
    ensures Restrict(s, keep) == []
  {
    if s == [] {
    } else {
      RestrictNone(s[..|s| - 1], keep);
    }
  }

  lemma {:induction false} RestrictTwice<T(!new)>(s: seq<T>, k1: set<T>, k2: set<T>)
    ensures Restrict(Restrict(s, k1), k2) == Restrict(s, k1 * k2)
  {
    if s == [] {
    } else {
      var n := |s| - 1;
      RestrictTwice(s[..n], k1, k2);
      RestrictAppend(Restrict(s[..n], k1), if s[n] in k1 then [s[n]] else [], k2);
      assert s[n] in k1 && s[n] in k2 ==> Restrict([s[n]], k2) == [s[n]];
      assert s[n] in k1 && s[n] !in k2 ==> Restrict([s[n]], k2) == [];
      assert Restrict<T>([], k2) == [];
    }
  }

  lemma {:induction false} UnusedNumber(ns: set<nat>) returns (n: nat)
    ensures forall m :: m in ns ==> m < n
  {
    if ns == {} {
      n := 0;
    } else {
      var m :| m in ns;
      var u := UnusedNumber(ns - {m});
      n := if m < u then u else m + 1;
      assert forall x :: x in ns ==> x == m || x in ns - {m};
    }
  }
}
