/**
 The link graph of content-addressed blocks, its tree unfolding, and the balance
 equation that the sealing counters evaluate.

 A file is named by the CID of its root block. Every block carries the CIDs of its
 children. `Unfold` lists a block, then the unfolding of each of its children in
 turn, so a block occurs once for each path that leads to it. The main result is
 `BalancedIffUnfolding`: over an acyclic graph, a list of blocks is an ordering of
 the unfolding exactly when every CID occurs as often as it is asked for, by the
 root or by a link of a listed block.
 */
module Dag {
  import opened Basics

  type Cid = string

  /** `kids` gives the links of a block, in order; `rank` witnesses that links descend. */
  datatype Graph = Graph(kids: Cid -> seq<Cid>, rank: Cid -> nat)

  ghost predicate Acyclic(g: Graph) {
    forall x: Cid, k: Cid :: k in g.kids(x) ==> g.rank(k) < g.rank(x)
  }

  /** The least bound above the ranks of `xs`. */
  ghost function Height(g: Graph, xs: seq<Cid>): (h: nat)
    ensures forall x :: x in xs ==> g.rank(x) < h
  {
    if xs == [] then 0
    else
      var rest := Height(g, xs[1..]);
      if g.rank(xs[0]) < rest then rest else g.rank(xs[0]) + 1
  }

  lemma HeightIsLeast(g: Graph, xs: seq<Cid>, n: nat)
    requires forall x :: x in xs ==> g.rank(x) < n
    ensures Height(g, xs) <= n
  {
    if xs != [] {
      HeightIsLeast(g, xs[1..], n);
    }
  }

  /** The forest of `xs`, unfolded depth first. */
  ghost function Unfold(g: Graph, xs: seq<Cid>): seq<Cid>
    requires Acyclic(g)
    decreases Height(g, xs), |xs|
  {
    if xs == [] then []
    else
      HeightIsLeast(g, g.kids(xs[0]), g.rank(xs[0]));
      HeightIsLeast(g, xs[1..], Height(g, xs));
      [xs[0]] + Unfold(g, g.kids(xs[0])) + Unfold(g, xs[1..])
  }

  /** How often each CID is linked to by the blocks `s`. */
  ghost function Asked(g: Graph, s: seq<Cid>): multiset<Cid> {
    if s == [] then multiset{} else multiset(g.kids(s[0])) + Asked(g, s[1..])
  }

  /** Every CID is listed as often as `demand` and the links of the list ask for it. */
  ghost predicate Balanced(g: Graph, demand: seq<Cid>, s: seq<Cid>) {
    multiset(s) == multiset(demand) + Asked(g, s)
  }

  lemma {:induction false} UnfoldAppend(g: Graph, a: seq<Cid>, b: seq<Cid>)
    requires Acyclic(g)
    ensures Unfold(g, a + b) == Unfold(g, a) + Unfold(g, b)
    decreases |a|
  {
    if a == [] {
      assert a + b == b;
    } else {
      assert (a + b)[1..] == a[1..] + b;
      UnfoldAppend(g, a[1..], b);
    }
  }

  lemma {:induction false} AskedAppend(g: Graph, a: seq<Cid>, b: seq<Cid>)
    ensures Asked(g, a + b) == Asked(g, a) + Asked(g, b)
  {
    if a == [] {
      assert a + b == b;
    } else {
      assert (a + b)[1..] == a[1..] + b;
      AskedAppend(g, a[1..], b);
    }
  }

  lemma AskedWithout(g: Graph, s: seq<Cid>, i: nat)
    requires i < |s|
    ensures Asked(g, s) == multiset(g.kids(s[i])) + Asked(g, Without(s, i))
  {
    assert s == s[..i] + ([s[i]] + s[i + 1..]);
    AskedAppend(g, s[..i], [s[i]] + s[i + 1..]);
    AskedAppend(g, s[..i], s[i + 1..]);
    assert ([s[i]] + s[i + 1..])[1..] == s[i + 1..];
  }

  lemma UnfoldWithout(g: Graph, xs: seq<Cid>, i: nat)
    requires Acyclic(g) && i < |xs|
    ensures multiset(Unfold(g, xs)) ==
            multiset{xs[i]} + multiset(Unfold(g, g.kids(xs[i]))) + multiset(Unfold(g, Without(xs, i)))
  {
    var tail := [xs[i]] + xs[i + 1..];
    assert xs == xs[..i] + tail;
    UnfoldAppend(g, xs[..i], tail);
    UnfoldAppend(g, xs[..i], xs[i + 1..]);
    assert tail[1..] == xs[i + 1..];
    assert Unfold(g, tail) == [xs[i]] + Unfold(g, g.kids(xs[i])) + Unfold(g, xs[i + 1..]);
  }

  lemma Cancel<T>(a: multiset<T>, b: multiset<T>, c: multiset<T>)
    requires a + c == b + c
    ensures a == b
  {
    assert a == (a + c) - c;
    assert b == (b + c) - c;
  }

  /** Links are counted per listed block, whatever the order of the list. */
  lemma {:induction false} AskedOfPermutation(g: Graph, s: seq<Cid>, t: seq<Cid>)
    requires multiset(s) == multiset(t)
    ensures Asked(g, s) == Asked(g, t)
    decreases |s|
  {
    if s == [] {
      assert |multiset(t)| == 0;
    } else {
      assert s[0] in multiset(t);
      var i :| 0 <= i < |t| && t[i] == s[0];
      assert s == [s[0]] + s[1..];
      AskedWithout(g, t, i);
      Cancel(multiset(s[1..]), multiset(Without(t, i)), multiset{s[0]});
      AskedOfPermutation(g, s[1..], Without(t, i));
    }
  }

  lemma {:induction false} AskedBy(g: Graph, s: seq<Cid>, x: Cid) returns (b: Cid)
    requires x in Asked(g, s)
    ensures b in s && x in g.kids(b)
  {
    if x in g.kids(s[0]) {
      b := s[0];
    } else {
      b := AskedBy(g, s[1..], x);
    }
  }

  lemma HighestIndex(g: Graph, s: seq<Cid>) returns (j: nat)
    requires s != []
    ensures j < |s| && forall i :: 0 <= i < |s| ==> g.rank(s[i]) <= g.rank(s[j])
  {
    j := 0;
    for i := 1 to |s|
      invariant j < i && forall k :: 0 <= k < i ==> g.rank(s[k]) <= g.rank(s[j])
    {
      if g.rank(s[j]) < g.rank(s[i]) {
        j := i;
      }
    }
  }

  lemma JoinBalanced(g: Graph, x: Cid, inner: seq<Cid>, tail: seq<Cid>, rest: seq<Cid>)
    requires Balanced(g, g.kids(x), inner) && Balanced(g, tail, rest)
    ensures Balanced(g, [x] + tail, [x] + inner + rest)
  {
    AskedAppend(g, [x] + inner, rest);
    AskedAppend(g, [x], inner);
    AskedOne(g, x);
  }

  lemma {:induction false} UnfoldingIsBalanced(g: Graph, xs: seq<Cid>)
    requires Acyclic(g)
    ensures Balanced(g, xs, Unfold(g, xs))
    decreases Height(g, xs), |xs|
  {
    if xs != [] {
      HeightIsLeast(g, g.kids(xs[0]), g.rank(xs[0]));
      HeightIsLeast(g, xs[1..], Height(g, xs));
      UnfoldingIsBalanced(g, g.kids(xs[0]));
      UnfoldingIsBalanced(g, xs[1..]);
      JoinBalanced(g, xs[0], Unfold(g, g.kids(xs[0])), xs[1..], Unfold(g, xs[1..]));
      assert xs == [xs[0]] + xs[1..];
    }
  }

  /**
   A balanced list is the unfolding: a listed block of greatest rank has no listed
   parent, so the demand itself asks for it; strike it out on both sides, let its
   links join the demand, and repeat.
   */
  lemma {:induction false} BalancedIsUnfolding(g: Graph, demand: seq<Cid>, s: seq<Cid>)
    requires Acyclic(g) && Balanced(g, demand, s)
    ensures multiset(s) == multiset(Unfold(g, demand))
    decreases |s|
  {
    if s == [] {
      assert |multiset(demand)| == 0;
    } else {
      var j := HighestIndex(g, s);
      var x := s[j];
      assert x in multiset(s);
      if x !in multiset(demand) {
        var parent := AskedBy(g, s, x);
        assert false;
      }
      var i :| 0 <= i < |demand| && demand[i] == x;
      var demand' := Without(demand, i) + g.kids(x);
      AskedWithout(g, s, j);
      Cancel(multiset(Without(s, j)), multiset(demand') + Asked(g, Without(s, j)), multiset{x});
      BalancedIsUnfolding(g, demand', Without(s, j));
      UnfoldAppend(g, Without(demand, i), g.kids(x));
      UnfoldWithout(g, demand, i);
    }
  }

  /** Over an acyclic graph, balance decides whether exactly the whole forest is listed. */
  lemma BalancedIffUnfolding(g: Graph, demand: seq<Cid>, s: seq<Cid>)
    requires Acyclic(g)
    ensures Balanced(g, demand, s) <==> multiset(s) == multiset(Unfold(g, demand))
  {
    if Balanced(g, demand, s) {
      BalancedIsUnfolding(g, demand, s);
    }
    if multiset(s) == multiset(Unfold(g, demand)) {
      UnfoldingIsBalanced(g, demand);
      AskedOfPermutation(g, s, Unfold(g, demand));
    }
  }

  /** Without acyclicity balance decides nothing: a block that links to itself pays for itself. */
  lemma CycleBalancesForeignBlock()
    ensures exists g: Graph, root: Cid, s: seq<Cid> ::
              g.kids(root) == [] && Balanced(g, [root], s) && multiset(s) != multiset([root])
  {
    var g := Graph(x => if x == "loop" then ["loop"] else [], x => 0);
    var s := ["root"] + ["loop"];
    AskedAppend(g, ["root"], ["loop"]);
    AskedOne(g, "root");
    AskedOne(g, "loop");
    assert Balanced(g, ["root"], s);
    assert "loop" in multiset(s) && "loop" !in multiset(["root"]);
  }

  lemma AskedOne(g: Graph, x: Cid)
    ensures Asked(g, [x]) == multiset(g.kids(x))
  {
    assert [x][1..] == [];
  }
}
