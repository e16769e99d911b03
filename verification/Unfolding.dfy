/**
 The balance equation over an arbitrary graph. Block hashes rule cycles out, so `Dag` assumes that
 links descend; here it is shown what that assumption stands for. Balance forces the blocks to be a
 finite unfolding of the demand exactly if no part of them pays for itself, that is, links to each
 of its own blocks as often as it lists them, and to nothing else.
 */
module Unfolding {
  import opened Basics
  import opened Dag

  /** The demand after a block has been taken: its links instead of the block. */
  ghost function Taken(g: Graph, demand: multiset<Cid>, x: Cid): multiset<Cid> {
    demand - multiset{x} + multiset(g.kids(x))
  }

  /** `s` is used up by taking a demanded block at a time and demanding its links instead. */
  ghost predicate Unfolds(g: Graph, demand: multiset<Cid>, s: multiset<Cid>)
    decreases |s|
  {
    if |s| == 0 then |demand| == 0
    else exists x :: x in demand && x in s && Unfolds(g, Taken(g, demand, x), s - multiset{x})
  }

  ghost predicate SelfPaying(g: Graph, u: seq<Cid>) {
    u != [] && multiset(u) == Asked(g, u)
  }

  ghost predicate HasSelfPayingPart(g: Graph, s: seq<Cid>) {
    exists u :: SelfPaying(g, u) && multiset(u) <= multiset(s)
  }

  // ----- Balance and no such part give an unfolding -----

  lemma {:induction false} BalancedUnfolds(g: Graph, demand: seq<Cid>, s: seq<Cid>)
    requires Balanced(g, demand, s) && !HasSelfPayingPart(g, s)
    ensures Unfolds(g, multiset(demand), multiset(s))
    decreases |s|
  {
    if s == [] {
      assert |multiset(demand)| == 0;
    } else if demand == [] {
      AllPays(g, s);
    } else {
      var x := demand[0];
      assert x in multiset(demand) && x in multiset(s);
      var j :| 0 <= j < |s| && s[j] == x;
      TakenBalances(g, demand, s, j);
      NoPartOfPart(g, s, j);
      BalancedUnfolds(g, demand[1..] + g.kids(x), Without(s, j));
    }
  }

  lemma AllPays(g: Graph, s: seq<Cid>)
    requires Balanced(g, [], s) && s != []
    ensures HasSelfPayingPart(g, s)
  {
    assert SelfPaying(g, s);
  }

  lemma TakenBalances(g: Graph, demand: seq<Cid>, s: seq<Cid>, j: nat)
    requires Balanced(g, demand, s) && demand != [] && j < |s| && s[j] == demand[0]
    ensures Balanced(g, demand[1..] + g.kids(s[j]), Without(s, j))
    ensures multiset(demand[1..] + g.kids(s[j])) == Taken(g, multiset(demand), s[j])
    ensures multiset(Without(s, j)) == multiset(s) - multiset{s[j]}
  {
    var x := s[j];
    assert demand == [x] + demand[1..];
    AskedWithout(g, s, j);
    Cancel(multiset(Without(s, j)), multiset(demand[1..] + g.kids(x)) + Asked(g, Without(s, j)), multiset{x});
  }

  lemma NoPartOfPart(g: Graph, s: seq<Cid>, j: nat)
    requires j < |s| && !HasSelfPayingPart(g, s)
    ensures !HasSelfPayingPart(g, Without(s, j))
  {
    assert multiset(Without(s, j)) <= multiset(s);
  }

  // ----- An unfolding has no such part -----

  lemma TakenFromSum(g: Graph, a: multiset<Cid>, b: multiset<Cid>, x: Cid)
    ensures x in a ==> Taken(g, a + b, x) == Taken(g, a, x) + b
    ensures x in b ==> Taken(g, a + b, x) == a + Taken(g, b, x)
  {
  }

  lemma NothingSplits(g: Graph, a: multiset<Cid>, b: multiset<Cid>)
    requires |a + b| == 0
    ensures Unfolds(g, a, multiset{}) && Unfolds(g, b, multiset{})
  {
    assert |a + b| == |a| + |b|;
  }

  lemma PutBack(s: multiset<Cid>, p: multiset<Cid>, q: multiset<Cid>, x: Cid)
    requires x in s && s - multiset{x} == p + q
    ensures s == (p + multiset{x}) + q == p + (q + multiset{x})
  {
    assert s == (s - multiset{x}) + multiset{x};
  }

  /** The unfolding of a demand splits with it. */
  lemma {:induction false} Splits(g: Graph, a: multiset<Cid>, b: multiset<Cid>, s: multiset<Cid>)
    returns (p: multiset<Cid>, q: multiset<Cid>)
    requires Unfolds(g, a + b, s)
    ensures s == p + q && Unfolds(g, a, p) && Unfolds(g, b, q)
    decreases |s|
  {
    if |s| == 0 {
      NothingSplits(g, a, b);
      p, q := multiset{}, multiset{};
    } else {
      var x :| x in a + b && x in s && Unfolds(g, Taken(g, a + b, x), s - multiset{x});
      TakenFromSum(g, a, b, x);
      if x in a {
        p, q := Splits(g, Taken(g, a, x), b, s - multiset{x});
        PutBack(s, p, q, x);
        p := Grown(g, a, p, x);
      } else {
        p, q := Splits(g, a, Taken(g, b, x), s - multiset{x});
        PutBack(s, p, q, x);
        q := Grown(g, b, q, x);
      }
    }
  }

  lemma Grown(g: Graph, a: multiset<Cid>, p: multiset<Cid>, x: Cid) returns (p': multiset<Cid>)
    requires x in a && Unfolds(g, Taken(g, a, x), p)
    ensures p' == p + multiset{x} && Unfolds(g, a, p')
  {
    p' := p + multiset{x};
    assert p' - multiset{x} == p;
    assert x in p' && |p'| != 0;
  }

  lemma SplitsOff(g: Graph, demand: multiset<Cid>, s: multiset<Cid>, x: Cid) returns (t: multiset<Cid>)
    requires Unfolds(g, demand, s) && x in demand
    ensures Unfolds(g, multiset{x}, t) && |t| <= |s|
  {
    assert demand == multiset{x} + (demand - multiset{x});
    var rest;
    t, rest := Splits(g, multiset{x}, demand - multiset{x}, s);
  }

  /** Every block of an unfolding has an unfolding of its own, within it. */
  lemma {:induction false} BlockUnfolds(g: Graph, demand: multiset<Cid>, s: multiset<Cid>, x: Cid)
    returns (t: multiset<Cid>)
    requires Unfolds(g, demand, s) && x in s
    ensures Unfolds(g, multiset{x}, t) && |t| <= |s|
    decreases |s|
  {
    var y :| y in demand && y in s && Unfolds(g, Taken(g, demand, y), s - multiset{y});
    if x == y {
      t := SplitsOff(g, demand, s, x);
    } else {
      t := BlockUnfolds(g, Taken(g, demand, y), s - multiset{y}, x);
    }
  }

  /** A block that is linked to has a smaller unfolding. */
  lemma KidUnfolds(g: Graph, x: Cid, t: multiset<Cid>, k: Cid) returns (t': multiset<Cid>)
    requires Unfolds(g, multiset{x}, t) && k in g.kids(x)
    ensures Unfolds(g, multiset{k}, t') && |t'| < |t|
  {
    assert |multiset{x}| == 1;
    var y :| y in multiset{x} && y in t && Unfolds(g, Taken(g, multiset{x}, y), t - multiset{y});
    var kids := multiset(g.kids(x));
    assert Taken(g, multiset{x}, x) == kids;
    t' := SplitsOff(g, kids, t - multiset{x}, k);
  }

  ghost predicate Sized(g: Graph, x: Cid, n: nat) {
    exists t :: Unfolds(g, multiset{x}, t) && |t| == n
  }

  ghost predicate LeastSize(g: Graph, x: Cid, n: nat) {
    Sized(g, x, n) && forall m: nat :: Sized(g, x, m) ==> n <= m
  }

  /** The block has a finite unfolding. */
  ghost predicate Finite(g: Graph, x: Cid) {
    exists n: nat :: Sized(g, x, n)
  }

  lemma {:induction false} LeastBelow(g: Graph, x: Cid, n: nat) returns (least: nat)
    requires Sized(g, x, n)
    ensures LeastSize(g, x, least)
    decreases n
  {
    if m: nat :| Sized(g, x, m) && m < n {
      least := LeastBelow(g, x, m);
    } else {
      least := n;
    }
  }

  lemma LeastExists(g: Graph, x: Cid)
    requires Finite(g, x)
    ensures exists n: nat :: LeastSize(g, x, n)
  {
    var n: nat :| Sized(g, x, n);
    var least := LeastBelow(g, x, n);
  }

  /** The size of the least unfolding of a block. */
  ghost function Size(g: Graph, x: Cid): (n: nat)
    ensures Finite(g, x) ==> LeastSize(g, x, n)
  {
    if Finite(g, x) then
      LeastExists(g, x);
      var n: nat :| LeastSize(g, x, n);
      n
    else 0
  }

  lemma PartIsFinite(g: Graph, demand: multiset<Cid>, s: seq<Cid>, u: seq<Cid>, i: nat)
    requires Unfolds(g, demand, multiset(s)) && multiset(u) <= multiset(s) && i < |u|
    ensures Finite(g, u[i])
  {
    assert u[i] in multiset(u);
    var t := BlockUnfolds(g, demand, multiset(s), u[i]);
    assert Sized(g, u[i], |t|);
  }

  lemma KidIsSmaller(g: Graph, parent: Cid, kid: Cid)
    requires Finite(g, parent) && Finite(g, kid) && kid in g.kids(parent)
    ensures Size(g, kid) < Size(g, parent)
  {
    var t :| Unfolds(g, multiset{parent}, t) && |t| == Size(g, parent);
    var t' := KidUnfolds(g, parent, t, kid);
    assert Sized(g, kid, |t'|);
  }

  /** A block of greatest size would have to be linked to by a greater one. */
  lemma UnfoldingPaysForNothing(g: Graph, demand: multiset<Cid>, s: seq<Cid>, u: seq<Cid>)
    requires Unfolds(g, demand, multiset(s)) && multiset(u) <= multiset(s)
    ensures !SelfPaying(g, u)
  {
    if SelfPaying(g, u) {
      var j := HighestIndex(Graph(g.kids, x => Size(g, x)), u);
      assert u[j] in multiset(u);
      var parent := AskedBy(g, u, u[j]);
      var i :| 0 <= i < |u| && u[i] == parent;
      PartIsFinite(g, demand, s, u, i);
      PartIsFinite(g, demand, s, u, j);
      KidIsSmaller(g, parent, u[j]);
    }
  }

  /**
   Over any graph: blocks that balance are an unfolding of the demand if and only if no part of them
   pays for itself.
   */
  lemma BalancedUnfoldsIff(g: Graph, demand: seq<Cid>, s: seq<Cid>)
    requires Balanced(g, demand, s)
    ensures Unfolds(g, multiset(demand), multiset(s)) <==> !HasSelfPayingPart(g, s)
  {
    if !HasSelfPayingPart(g, s) {
      BalancedUnfolds(g, demand, s);
    } else {
      var u :| SelfPaying(g, u) && multiset(u) <= multiset(s);
      if Unfolds(g, multiset(demand), multiset(s)) {
        UnfoldingPaysForNothing(g, multiset(demand), s, u);
      }
    }
  }

  /** Over an acyclic graph no blocks at all pay for themselves. */
  lemma AcyclicPaysForNothing(g: Graph, u: seq<Cid>)
    requires Acyclic(g)
    ensures !SelfPaying(g, u)
  {
    if SelfPaying(g, u) {
      var j := HighestIndex(g, u);
      assert u[j] in multiset(u);
      var parent := AskedBy(g, u, u[j]);
    }
  }
}
