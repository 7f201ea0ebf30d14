/**
 * Enumeration of a finite set of integer keys in increasing order,
 * as std::map iterates.
 */
module Ordered {

  ghost predicate Ascending(q: seq<int>) {
    forall i, j :: 0 <= i < j < |q| ==> q[i] < q[j]
  }

  lemma Element<T>(s: set<T>) returns (x: T)
    requires s != {}
    ensures x in s
  {
    x :| x in s;
  }

  lemma NoElements<T>(s: set<T>)
    requires |s| == 0
    ensures s == {}
  {}

  lemma {:induction false} SubsetSize<T>(a: set<T>, b: set<T>)
    requires a <= b
    ensures |a| <= |b|
    decreases |a|
  {
    if a != {} {
      var x := Element(a);
      SubsetSize(a - {x}, b - {x});
    }
  }

  ghost predicate IsLeast(m: int, s: set<int>) {
    m in s && forall x :: x in s ==> m <= x
  }

  lemma FindLeast(s: set<int>) returns (m: int)
    requires s != {}
    ensures IsLeast(m, s)
    decreases |s|
  {
    m := Element(s);
    var rest := s - {m};
    assert s == rest + {m};
    if rest != {} {
      var k := FindLeast(rest);
      if k < m {
        m := k;
      }
    }
  }

  lemma LeastExists(s: set<int>)
    requires s != {}
    ensures exists m :: IsLeast(m, s)
  {
    var m := FindLeast(s);
  }

  ghost function Least(s: set<int>): (m: int)
    requires s != {}
    ensures IsLeast(m, s)
  {
    LeastExists(s);
    var m :| IsLeast(m, s);
    m
  }

  ghost function Enumerate(s: set<int>): seq<int>
    decreases |s|
  {
    if s == {} then [] else [Least(s)] + Enumerate(s - {Least(s)})
  }

  ghost predicate Enumerates(q: seq<int>, s: set<int>) {
    Ascending(q) && (forall x :: x in q <==> x in s) && |q| == |s|
  }

  lemma EnumeratesCons(m: int, rest: seq<int>, s: set<int>)
    requires IsLeast(m, s) && Enumerates(rest, s - {m})
    ensures Enumerates([m] + rest, s)
  {
    forall i | 0 <= i < |rest| ensures m < rest[i] {
      assert rest[i] in rest;
    }
    var q := [m] + rest;
    forall x ensures x in q <==> x in s {
      assert x in q <==> x == m || x in rest;
    }
  }

  lemma {:induction false} EnumerateProperties(s: set<int>)
    ensures Enumerates(Enumerate(s), s)
    decreases |s|
  {
    if s != {} {
      EnumerateProperties(s - {Least(s)});
      EnumeratesCons(Least(s), Enumerate(s - {Least(s)}), s);
    }
  }

  /** The increasing enumeration is unique. */
  lemma {:induction false} AscendingUnique(p: seq<int>, q: seq<int>)
    requires Ascending(p) && Ascending(q)
    requires forall x :: x in p ==> x in q
    requires forall x :: x in q ==> x in p
    ensures p == q
    decreases |p|
  {
    if q == [] || p == [] {
      HeadIn(p);
      HeadIn(q);
    } else {
      assert p[0] in q && q[0] in p;
      assert p[0] == q[0];
      assert Ascending(p[1..]) && Ascending(q[1..]);
      TailElements(p);
      TailElements(q);
      AscendingUnique(p[1..], q[1..]);
      assert p == [p[0]] + p[1..] && q == [q[0]] + q[1..];
    }
  }

  lemma HeadIn(q: seq<int>)
    ensures q != [] ==> q[0] in q
  {}

  lemma TailElements(q: seq<int>)
    requires q != [] && Ascending(q)
    ensures forall x :: x in q[1..] <==> x in q && x != q[0]
  {
    forall x ensures x in q[1..] <==> x in q && x != q[0] {
      if x in q && x != q[0] {
        var i :| 0 <= i < |q| && q[i] == x;
        assert q[1..][i - 1] == x;
      }
    }
  }

  /** Walks a set of keys in increasing order. */
  method KeysInOrder(s: set<int>) returns (q: seq<int>)
    ensures q == Enumerate(s)
    ensures Ascending(q) && forall x :: x in q <==> x in s
  {
    q := [];
    var rest := s;
    while rest != {}
      invariant rest <= s
      invariant Ascending(q)
      invariant forall x :: x in q <==> x in s - rest
      invariant forall x, y :: x in q && y in rest ==> x < y
      decreases |rest|
    {
      LeastExists(rest);
      var m :| m in rest && forall x :: x in rest ==> m <= x;
      assert forall i :: 0 <= i < |q| ==> q[i] in q;
      q := q + [m];
      rest := rest - {m};
    }
    EnumerateProperties(s);
    AscendingUnique(q, Enumerate(s));
  }
}
