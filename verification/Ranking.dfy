/** Ranking candidates by expected net value, highest first. The sort is stable. */
module Ranking {
  import opened Bytes
  import opened Sequences

  /** A routed candidate; `id` stands for everything arbitration does not read. */
  datatype Routed = Routed(id: nat, netUsd: real, reserve: Key)

  predicate Descending(s: seq<Routed>) {
    forall i, j :: 0 <= i < j < |s| ==> s[i].netUsd >= s[j].netUsd
  }

  function Insert(x: Routed, s: seq<Routed>): seq<Routed> {
    if s == [] || x.netUsd >= s[0].netUsd then [x] + s else [s[0]] + Insert(x, s[1..])
  }

  function RankByNet(s: seq<Routed>): seq<Routed> {
    if s == [] then [] else Insert(s[0], RankByNet(s[1..]))
  }

  /** The candidates of one net value, in their order. */
  function OfNet(s: seq<Routed>, netUsd: real): seq<Routed> {
    if s == [] then []
    else (if s[0].netUsd == netUsd then [s[0]] else []) + OfNet(s[1..], netUsd)
  }

  ghost predicate SameWithinNet(a: seq<Routed>, b: seq<Routed>) {
    forall v: real :: OfNet(a, v) == OfNet(b, v)
  }

  lemma {:induction false} InsertContents(x: Routed, s: seq<Routed>)
    ensures multiset(Insert(x, s)) == multiset{x} + multiset(s)
  {
    if s == [] || x.netUsd >= s[0].netUsd {
      assert Insert(x, s) == [x] + s;
    } else {
      InsertContents(x, s[1..]);
      assert s == [s[0]] + s[1..];
    }
  }

  lemma {:induction false} InsertDescending(x: Routed, s: seq<Routed>, top: real)
    requires Descending(s) && x.netUsd <= top && (s != [] ==> s[0].netUsd <= top)
    ensures Descending(Insert(x, s))
    ensures Insert(x, s) != [] && Insert(x, s)[0].netUsd <= top
  {
    if s != [] && x.netUsd < s[0].netUsd {
      InsertDescending(x, s[1..], s[0].netUsd);
      DescendingCons(s[0], Insert(x, s[1..]));
    }
  }

  lemma DescendingCons(y: Routed, t: seq<Routed>)
    requires Descending(t) && (t != [] ==> t[0].netUsd <= y.netUsd)
    ensures Descending([y] + t)
  {
  }

  lemma OfNetCons(y: Routed, t: seq<Routed>, v: real)
    ensures OfNet([y] + t, v) == IfOfNet(y, v) + OfNet(t, v)
  {
    assert ([y] + t)[1..] == t;
  }

  function IfOfNet(x: Routed, v: real): seq<Routed> {
    if x.netUsd == v then [x] else []
  }

  lemma EitherOrder(x: seq<Routed>, y: seq<Routed>, rest: seq<Routed>)
    requires x == [] || y == []
    ensures y + (x + rest) == x + (y + rest)
  {
  }

  lemma {:induction false} InsertOfNet(x: Routed, s: seq<Routed>, v: real)
    ensures OfNet(Insert(x, s), v) == IfOfNet(x, v) + OfNet(s, v)
  {
    if s == [] || x.netUsd >= s[0].netUsd {
      assert Insert(x, s) == [x] + s;
      hide *;
      OfNetCons(x, s, v);
    } else {
      var rest := s[1..];
      InsertOfNet(x, rest, v);
      var t := Insert(x, rest);
      assert s == [s[0]] + rest && Insert(x, s) == [s[0]] + t;
      assert IfOfNet(x, v) == [] || IfOfNet(s[0], v) == [];
      hide *;
      OfNetCons(s[0], t, v);
      OfNetCons(s[0], rest, v);
      EitherOrder(IfOfNet(x, v), IfOfNet(s[0], v), OfNet(rest, v));
    }
  }

  /** The ranking holds the same candidates. */
  lemma {:induction false} RankedContents(s: seq<Routed>)
    ensures multiset(RankByNet(s)) == multiset(s)
  {
    if s != [] {
      RankedContents(s[1..]);
      InsertContents(s[0], RankByNet(s[1..]));
      assert s == [s[0]] + s[1..];
    }
  }

  lemma {:induction false} RankedDescending(s: seq<Routed>)
    ensures Descending(RankByNet(s))
  {
    if s != [] {
      RankedDescending(s[1..]);
      var t := RankByNet(s[1..]);
      InsertDescending(s[0], t, if t == [] || s[0].netUsd > t[0].netUsd then s[0].netUsd else t[0].netUsd);
    }
  }

  lemma {:induction false} RankedOfNet(s: seq<Routed>, v: real)
    ensures OfNet(RankByNet(s), v) == OfNet(s, v)
  {
    if s != [] {
      RankedOfNet(s[1..], v);
      InsertOfNet(s[0], RankByNet(s[1..]), v);
    }
  }

  /** The ranking is highest value first, and keeps the order of equal values. */
  lemma RankedIsStable(s: seq<Routed>)
    ensures Descending(RankByNet(s)) && SameWithinNet(RankByNet(s), s)
  {
    RankedDescending(s);
    forall v: real
      ensures OfNet(RankByNet(s), v) == OfNet(s, v)
    {
      RankedOfNet(s, v);
    }
  }

  lemma {:induction false} OfNetFinds(s: seq<Routed>, v: real)
    ensures forall i :: 0 <= i < |s| && s[i].netUsd == v ==> OfNet(s, v) != []
    ensures OfNet(s, v) != [] ==> exists i :: 0 <= i < |s| && s[i].netUsd == v
  {
    if s != [] {
      OfNetFinds(s[1..], v);
      assert forall i :: 0 < i < |s| ==> s[i] == s[1..][i - 1];
      if i :| 0 <= i < |s[1..]| && s[1..][i].netUsd == v {
        assert s[i + 1].netUsd == v;
      }
    }
  }

  lemma HeadIsHighest(s: seq<Routed>, v: real)
    requires Descending(s) && OfNet(s, v) != []
    ensures s != [] && v <= s[0].netUsd
    ensures v == s[0].netUsd ==> OfNet(s, v)[0] == s[0]
  {
    OfNetFinds(s, v);
  }

  /** A descending order that keeps the order within each value is unique. */
  lemma {:induction false} StableOrderUnique(a: seq<Routed>, b: seq<Routed>)
    requires Descending(a) && Descending(b) && SameWithinNet(a, b)
    ensures a == b
  {
    if a != [] {
      OfNetFinds(a, a[0].netUsd);
      HeadIsHighest(b, a[0].netUsd);
    }
    if b != [] {
      OfNetFinds(b, b[0].netUsd);
      HeadIsHighest(a, b[0].netUsd);
      assert a == [a[0]] + a[1..] && b == [b[0]] + b[1..];
      forall v: real
        ensures OfNet(a[1..], v) == OfNet(b[1..], v)
      {
        assert OfNet(a, v) == OfNet(b, v);
        HeadIsHighest(a, a[0].netUsd);
        HeadIsHighest(b, a[0].netUsd);
        TailOfNet(a, v);
        TailOfNet(b, v);
      }
      StableOrderUnique(a[1..], b[1..]);
    }
  }

  lemma TailOfNet(s: seq<Routed>, v: real)
    requires s != []
    ensures OfNet(s[1..], v) == if s[0].netUsd == v then OfNet(s, v)[1..] else OfNet(s, v)
  {
  }

  /** The ranking is the only stable descending order of the candidates. */
  lemma RankedIff(s: seq<Routed>, r: seq<Routed>)
    ensures r == RankByNet(s) <==> Descending(r) && SameWithinNet(r, s)
  {
    RankedIsStable(s);
    if Descending(r) && SameWithinNet(r, s) {
      StableOrderUnique(r, RankByNet(s));
    }
  }

  /** Candidates of one net value are the same candidate. */
  predicate ToldApart(s: seq<Routed>) {
    forall i, j :: 0 <= i < |s| && 0 <= j < |s| && s[i].netUsd == s[j].netUsd ==> s[i] == s[j]
  }

  lemma FirstsAgree(a: seq<Routed>, b: seq<Routed>)
    requires Descending(a) && Descending(b) && multiset(a) == multiset(b) && ToldApart(a) && a != []
    ensures b != [] && b[0] == a[0]
  {
    assert a[0] in multiset(b);
    assert b[0] in multiset(a);
    var i :| 0 <= i < |a| && a[i] == b[0];
    var j :| 0 <= j < |b| && b[j] == a[0];
    assert a[0].netUsd >= a[i].netUsd && b[0].netUsd >= b[j].netUsd;
  }

  lemma RestContents(a: seq<Routed>, b: seq<Routed>)
    requires multiset(a) == multiset(b) && a != [] && b != [] && a[0] == b[0]
    ensures multiset(a[1..]) == multiset(b[1..])
  {
    assert a == [a[0]] + a[1..] && b == [b[0]] + b[1..];
    assert multiset(a[1..]) == multiset(a) - multiset{a[0]};
    assert multiset(b[1..]) == multiset(b) - multiset{b[0]};
  }

  lemma {:induction false} DescendingUnique(a: seq<Routed>, b: seq<Routed>)
    requires Descending(a) && Descending(b) && multiset(a) == multiset(b) && ToldApart(a)
    ensures a == b
  {
    if a == [] {
      assert |multiset(b)| == 0;
    } else {
      FirstsAgree(a, b);
      RestContents(a, b);
      DescendingUnique(a[1..], b[1..]);
      assert a == [a[0]] + a[1..] && b == [b[0]] + b[1..];
    }
  }

  /** When values tell the candidates apart, the order they arrive in is lost. */
  lemma ArrivalOrderIsLost(a: seq<Routed>, b: seq<Routed>)
    requires multiset(a) == multiset(b) && ToldApart(a)
    ensures RankByNet(a) == RankByNet(b)
  {
    RankedContents(a);
    RankedContents(b);
    RankedDescending(a);
    RankedDescending(b);
    hide RankByNet;
    var r := RankByNet(a);
    forall i, j | 0 <= i < |r| && 0 <= j < |r| && r[i].netUsd == r[j].netUsd
      ensures r[i] == r[j]
    {
      assert r[i] in multiset(a) && r[j] in multiset(a);
    }
    DescendingUnique(r, RankByNet(b));
  }

  lemma {:induction false} OfNetLast(s: seq<Routed>, x: Routed)
    ensures OfNet(s + [x], x.netUsd) == OfNet(s, x.netUsd) + [x]
  {
    if s == [] {
      assert s + [x] == [x] && [x][1..] == [];
    } else {
      assert (s + [x])[1..] == s[1..] + [x];
      OfNetLast(s[1..], x);
    }
  }

  lemma LastOfEquals(s: seq<Routed>, i: nat)
    requires i < |s|
    ensures var t := OfNet(RankByNet(MovedLast(s, i)), s[i].netUsd); t != [] && t[|t| - 1] == s[i]
  {
    RankedOfNet(MovedLast(s, i), s[i].netUsd);
    OfNetLast(s[..i] + s[i + 1..], s[i]);
  }

  /** The order of arrival is lost exactly when values tell the candidates apart. */
  lemma ArrivalOrderIsLostIff(s: seq<Routed>)
    ensures ToldApart(s) <==> forall t: seq<Routed> :: multiset(t) == multiset(s) ==> RankByNet(t) == RankByNet(s)
  {
    if ToldApart(s) {
      forall t: seq<Routed> | multiset(t) == multiset(s)
        ensures RankByNet(t) == RankByNet(s)
      {
        ArrivalOrderIsLost(s, t);
      }
    } else {
      var i, j :| 0 <= i < |s| && 0 <= j < |s| && s[i].netUsd == s[j].netUsd && s[i] != s[j];
      hide RankByNet, OfNet;
      LastOfEquals(s, i);
      LastOfEquals(s, j);
      assert RankByNet(MovedLast(s, i)) != RankByNet(s) || RankByNet(MovedLast(s, j)) != RankByNet(s);
    }
  }
}
