/**
 What the counters of a file under seal mean (src/enclave/storage/Storage.cpp).

 The root is expected once (+1); a block that arrives is paid for (-1), and each of
 its links is expected (+1). storage_seal_file_end accepts the file when every counter
 is zero. `EndAcceptsIffWholeFile`: with collision-free identifiers and acyclic links,
 and with no call between the two sections that count a block and its links, that is
 so exactly when the blocks that arrived are the tree unfolding of the root, in
 whatever order they came.
 */
module SealingCounters {
  import opened Basics
  import opened Agreement
  import Dag
  import Base58
  import Links

  type Cid = string

  const EMPTY_BLOCK_CID := "QmdfTbBqBPQ7VNxZEYEj14VmRuZBkqFbiwReogJgS1zR1n"

  /** The identifier under which a block is counted. The empty block has a fixed one. */
  function BlockCid(sha: Bytes -> Hash, block: Bytes): Cid {
    if block == [] then EMPTY_BLOCK_CID else Base58.Cid(sha(block))
  }

  function CidsOfHashes(hashes: seq<Hash>): (cids: seq<Cid>)
    ensures |cids| == |hashes|
  {
    if hashes == [] then [] else [Base58.Cid(hashes[0])] + CidsOfHashes(hashes[1..])
  }

  /** The identifiers that a block links to. */
  function BlockLinks(wide: Links.Wide, block: Bytes): seq<Cid> {
    CidsOfHashes(Links.LinkHashes(wide, block))
  }

  /**
   The worker's view of blocks. `sha` is SHA-256 and `wide` a shift beyond the width of
   an integer; both lie outside the model. `cid` and `links` name what is computed from
   them, so that the counters can be reasoned about without its details.
   */
  datatype Env = Env(sha: Bytes -> Hash, wide: Links.Wide, cid: Bytes -> Cid, links: Bytes -> seq<Cid>)

  predicate Computed(env: Env, block: Bytes) {
    env.cid(block) == BlockCid(env.sha, block) && env.links(block) == BlockLinks(env.wide, block)
  }

  ghost predicate Real(env: Env) {
    forall b: Bytes {:trigger Computed(env, b)} :: Computed(env, b)
  }

  function CidsOf(env: Env, blocks: seq<Bytes>): seq<Cid> {
    if blocks == [] then [] else CidsOf(env, blocks[..|blocks| - 1]) + [env.cid(blocks[|blocks| - 1])]
  }

  /** How often the blocks link to each identifier. */
  function LinksOf(env: Env, blocks: seq<Bytes>): multiset<Cid> {
    if blocks == [] then multiset{}
    else LinksOf(env, blocks[..|blocks| - 1]) + multiset(env.links(blocks[|blocks| - 1]))
  }

  /**
   What has been counted for a file under seal: the roots that were expected (none, if a late block
   made the entry), the blocks that arrived, those whose links were counted, and those recorded as
   stored.
   */
  datatype Log = Log(roots: seq<Cid>, taken: seq<Bytes>, linked: seq<Bytes>, stored: seq<Bytes>)

  const NO_LOG := Log([], [], [], [])

  /** The counter of `c` is what was due (once for a root, once per link) less what has arrived. */
  ghost predicate TallyAt(env: Env, blocks: map<Cid, int>, log: Log, c: Cid) {
    Get(blocks, c) + multiset(CidsOf(env, log.taken))[c] == multiset(log.roots)[c] + LinksOf(env, log.linked)[c]
  }

  /** The counters are those that the log explains. */
  ghost predicate Tally(env: Env, blocks: map<Cid, int>, log: Log) {
    forall c: Cid {:trigger TallyAt(env, blocks, log, c)} :: TallyAt(env, blocks, log, c)
  }

  // ----- The counters -----

  lemma {:induction false} BumpAllCounts(blocks: map<Cid, int>, cs: seq<Cid>, c: Cid)
    ensures Get(BumpAll(blocks, cs), c) == Get(blocks, c) + multiset(cs)[c]
    decreases |cs|
  {
    if cs != [] {
      BumpAllCounts(Bump(blocks, cs[0], 1), cs[1..], c);
      assert cs == [cs[0]] + cs[1..];
    }
  }

  lemma NothingTallies(env: Env)
    ensures Tally(env, map[], NO_LOG)
  {
  }

  lemma StartTallies(env: Env, blocks: map<Cid, int>, log: Log, root: Cid)
    requires Tally(env, blocks, log)
    ensures Tally(env, Bump(blocks, root, 1), log.(roots := log.roots + [root]))
  {
    forall c
      ensures TallyAt(env, Bump(blocks, root, 1), log.(roots := log.roots + [root]), c)
    {
      assert TallyAt(env, blocks, log, c);
    }
  }

  lemma TakeTallies(env: Env, blocks: map<Cid, int>, log: Log, block: Bytes)
    requires Tally(env, blocks, log)
    ensures Tally(env, Bump(blocks, env.cid(block), -1), log.(taken := log.taken + [block]))
  {
    var log' := log.(taken := log.taken + [block]);
    assert log'.taken[..|log'.taken| - 1] == log.taken;
    forall c
      ensures TallyAt(env, Bump(blocks, env.cid(block), -1), log', c)
    {
      assert TallyAt(env, blocks, log, c);
    }
  }

  lemma LinkTallies(env: Env, blocks: map<Cid, int>, log: Log, block: Bytes)
    requires Tally(env, blocks, log)
    ensures Tally(env, BumpAll(blocks, env.links(block)), log.(linked := log.linked + [block]))
  {
    var log' := log.(linked := log.linked + [block]);
    assert log'.linked[..|log'.linked| - 1] == log.linked;
    forall c
      ensures TallyAt(env, BumpAll(blocks, env.links(block)), log', c)
    {
      assert TallyAt(env, blocks, log, c);
      BumpAllCounts(blocks, env.links(block), c);
    }
  }

  /** All counters are zero exactly if every identifier arrived as often as it was expected. */
  lemma AllZeroMeans(env: Env, blocks: map<Cid, int>, log: Log)
    requires Tally(env, blocks, log)
    ensures AllZero(blocks) <==> multiset(CidsOf(env, log.taken)) == multiset(log.roots) + LinksOf(env, log.linked)
  {
    var came, due := multiset(CidsOf(env, log.taken)), multiset(log.roots) + LinksOf(env, log.linked);
    forall c
      ensures Get(blocks, c) + came[c] == due[c]
    {
      assert TallyAt(env, blocks, log, c);
    }
    ZeroIff(blocks, came, due);
  }

  lemma ZeroIff(blocks: map<Cid, int>, came: multiset<Cid>, due: multiset<Cid>)
    requires forall c :: Get(blocks, c) + came[c] == due[c]
    ensures AllZero(blocks) <==> came == due
  {
    if AllZero(blocks) {
      assert forall c :: Get(blocks, c) == 0;
    }
    if came == due {
      forall c | c in blocks
        ensures blocks[c] == 0
      {
        assert Get(blocks, c) + came[c] == due[c];
      }
    }
  }

  // ----- The file -----

  /** The graph gives every listed block the links that its bytes hold. */
  ghost predicate Consistent(env: Env, g: Dag.Graph, blocks: seq<Bytes>) {
    forall b :: b in blocks ==> g.kids(env.cid(b)) == env.links(b)
  }

  lemma {:induction false} LinksAreAsked(env: Env, g: Dag.Graph, blocks: seq<Bytes>)
    requires Consistent(env, g, blocks)
    ensures LinksOf(env, blocks) == Dag.Asked(g, CidsOf(env, blocks))
  {
    if blocks != [] {
      var n := |blocks| - 1;
      var last := env.cid(blocks[n]);
      LinksAreAsked(env, g, blocks[..n]);
      Dag.AskedAppend(g, CidsOf(env, blocks[..n]), [last]);
      assert Dag.Asked(g, [last]) == multiset(g.kids(last)) + Dag.Asked(g, [last][1..]);
    }
  }

  lemma {:induction false} LinksOfPermutation(env: Env, a: seq<Bytes>, b: seq<Bytes>)
    requires multiset(a) == multiset(b)
    ensures LinksOf(env, a) == LinksOf(env, b)
    decreases |a|
  {
    if a == [] {
      assert |multiset(b)| == 0;
    } else {
      var n := |a| - 1;
      assert a[n] in multiset(b);
      var i :| 0 <= i < |b| && b[i] == a[n];
      assert a == a[..n] + [a[n]];
      Dag.Cancel(multiset(a[..n]), multiset(Without(b, i)), multiset{a[n]});
      LinksOfPermutation(env, a[..n], Without(b, i));
      LinksWithout(env, b, i);
    }
  }

  lemma {:induction false} LinksAppend(env: Env, a: seq<Bytes>, b: seq<Bytes>)
    ensures LinksOf(env, a + b) == LinksOf(env, a) + LinksOf(env, b)
    decreases |b|
  {
    if b == [] {
      assert a + b == a;
    } else {
      var n := |b| - 1;
      assert (a + b)[..|a + b| - 1] == a + b[..n];
      LinksAppend(env, a, b[..n]);
    }
  }

  lemma LinksWithout(env: Env, b: seq<Bytes>, i: nat)
    requires i < |b|
    ensures LinksOf(env, b) == LinksOf(env, Without(b, i)) + multiset(env.links(b[i]))
  {
    assert b == b[..i] + ([b[i]] + b[i + 1..]);
    LinksAppend(env, b[..i], [b[i]] + b[i + 1..]);
    LinksAppend(env, [b[i]], b[i + 1..]);
    LinksAppend(env, b[..i], b[i + 1..]);
    assert LinksOf(env, [b[i]]) == LinksOf(env, [b[i]][..0]) + multiset(env.links(b[i]));
  }

  /** The blocks that arrived are the tree unfolding of the root: every block once for each path to it. */
  ghost predicate WholeFile(env: Env, g: Dag.Graph, log: Log)
    requires Dag.Acyclic(g)
  {
    multiset(CidsOf(env, log.taken)) == multiset(Dag.Unfold(g, log.roots))
  }

  /** No call is between counting its block and counting the links of that block. */
  ghost predicate Quiet(log: Log) {
    multiset(log.taken) == multiset(log.linked)
  }

  /**
   An accepted file is whole exactly if as many links were counted as its blocks have: none is
   missing, because a call is between its sections, and none is too many, because a block was
   counted for an earlier sealing of the same root and its links for this one.
   */
  lemma AcceptedIsWholeIff(env: Env, g: Dag.Graph, blocks: map<Cid, int>, log: Log)
    requires Dag.Acyclic(g) && Consistent(env, g, log.taken) && Tally(env, blocks, log) && AllZero(blocks)
    ensures WholeFile(env, g, log) <==> LinksOf(env, log.linked) == LinksOf(env, log.taken)
  {
    AllZeroMeans(env, blocks, log);
    LinksAreAsked(env, g, log.taken);
    Dag.BalancedIffUnfolding(g, log.roots, CidsOf(env, log.taken));
    var came := multiset(CidsOf(env, log.taken));
    SameDemand(came, multiset(log.roots), LinksOf(env, log.linked), LinksOf(env, log.taken));
  }

  lemma SameDemand(came: multiset<Cid>, roots: multiset<Cid>, a: multiset<Cid>, b: multiset<Cid>)
    requires came == roots + a
    ensures came == roots + b <==> a == b
  {
    if came == roots + b {
      assert a + roots == came && b + roots == came;
      Dag.Cancel(a, b, roots);
    }
  }

  /** The end of sealing accepts exactly the whole file, for every order of arrival. */
  lemma EndAcceptsIffWholeFile(env: Env, g: Dag.Graph, blocks: map<Cid, int>, log: Log)
    requires Dag.Acyclic(g) && Consistent(env, g, log.taken) && Tally(env, blocks, log) && Quiet(log)
    ensures AllZero(blocks) <==> WholeFile(env, g, log)
  {
    AllZeroMeans(env, blocks, log);
    LinksOfPermutation(env, log.taken, log.linked);
    LinksAreAsked(env, g, log.taken);
    Dag.BalancedIffUnfolding(g, log.roots, CidsOf(env, log.taken));
  }

  /**
   If calls are under way at the end, `pending` being the blocks whose links are not
   counted yet, an accepted file is whole exactly if none of them has links.
   */
  lemma EarlyEndIsWholeIff(env: Env, g: Dag.Graph, blocks: map<Cid, int>, log: Log, pending: seq<Bytes>)
    requires Dag.Acyclic(g) && Consistent(env, g, log.taken) && Tally(env, blocks, log)
    requires multiset(log.taken) == multiset(log.linked) + multiset(pending) && AllZero(blocks)
    ensures WholeFile(env, g, log) <==> LinksOf(env, pending) == multiset{}
  {
    AcceptedIsWholeIff(env, g, blocks, log);
    LinksOfPermutation(env, log.taken, log.linked + pending);
    LinksAppend(env, log.linked, pending);
    if LinksOf(env, log.linked) == LinksOf(env, log.linked) + LinksOf(env, pending) {
      Dag.Cancel(multiset{}, LinksOf(env, pending), LinksOf(env, log.linked));
    }
  }

  /** Every block with links is such a case: as a root it is accepted alone, between its two sections. */
  lemma EarlyEndHappens(env: Env, g: Dag.Graph, b: Bytes)
    requires Dag.Acyclic(g) && g.kids(env.cid(b)) == env.links(b) && env.links(b) != []
    ensures var blocks := Bump(Bump(map[], env.cid(b), 1), env.cid(b), -1);
            var log := Log([env.cid(b)], [b], [], []);
            Tally(env, blocks, log) && AllZero(blocks) && !WholeFile(env, g, log)
  {
    var root := env.cid(b);
    NothingTallies(env);
    StartTallies(env, map[], NO_LOG, root);
    TakeTallies(env, Bump(map[], root, 1), Log([root], [], [], []), b);
    assert [] + [root] == [root] && [] + [b] == [b];
    OneBlock(env, b);
    AcceptedIsWholeIff(env, g, Bump(Bump(map[], root, 1), root, -1), Log([root], [b], [], []));
  }

  lemma OneBlock(env: Env, b: Bytes)
    ensures LinksOf(env, [b]) == multiset(env.links(b)) && (env.links(b) != [] ==> LinksOf(env, [b]) != multiset{})
  {
    assert [b][..0] == [];
    if env.links(b) != [] {
      assert env.links(b)[0] in multiset(env.links(b));
    }
  }

  // ----- Blocks that come too late -----

  lemma {:induction false} LinkedBy(env: Env, blocks: seq<Bytes>, c: Cid) returns (b: Bytes)
    requires c in LinksOf(env, blocks)
    ensures b in blocks && c in env.links(b)
  {
    var n := |blocks| - 1;
    if c in env.links(blocks[n]) {
      b := blocks[n];
    } else {
      b := LinkedBy(env, blocks[..n], c);
    }
  }

  lemma {:induction false} CidsHave(env: Env, blocks: seq<Bytes>)
    ensures |CidsOf(env, blocks)| == |blocks|
    ensures forall b :: b in blocks ==> env.cid(b) in CidsOf(env, blocks)
    ensures forall c :: c in CidsOf(env, blocks) ==> exists b :: b in blocks && env.cid(b) == c
  {
    if blocks != [] {
      CidsHave(env, blocks[..|blocks| - 1]);
    }
  }

  /** Blocks do not pay for each other: one of greatest rank has nobody among them who asks for it. */
  lemma NobodyAsks(env: Env, g: Dag.Graph, taken: seq<Bytes>, linked: seq<Bytes>)
    requires Dag.Acyclic(g) && Consistent(env, g, taken) && taken != [] && forall b :: b in linked ==> b in taken
    ensures multiset(CidsOf(env, taken)) != LinksOf(env, linked)
  {
    var cids := CidsOf(env, taken);
    if multiset(cids) == LinksOf(env, linked) {
      CidsHave(env, taken);
      var j := Dag.HighestIndex(g, cids);
      assert cids[j] in multiset(cids);
      var parent := LinkedBy(env, linked, cids[j]);
    }
  }

  /**
   An entry that late blocks have made, without a root, is refused, as long as no links are counted
   of blocks that were not.
   */
  lemma StrayIsRefused(env: Env, g: Dag.Graph, blocks: map<Cid, int>, log: Log)
    requires Dag.Acyclic(g) && Consistent(env, g, log.taken) && Tally(env, blocks, log)
    requires log.roots == [] && log.taken != [] && forall b :: b in log.linked ==> b in log.taken
    ensures !AllZero(blocks)
  {
    AllZeroMeans(env, blocks, log);
    NobodyAsks(env, g, log.taken, log.linked);
  }

  /** With links of a block that was counted for an earlier sealing it can pass, for every parent and child. */
  lemma StrayPasses(env: Env, parent: Bytes, child: Bytes)
    requires env.links(parent) == [env.cid(child)]
    ensures var blocks := BumpAll(Bump(map[], env.cid(child), -1), env.links(parent));
            Tally(env, blocks, Log([], [child], [parent], [])) && AllZero(blocks)
  {
    NothingTallies(env);
    TakeTallies(env, map[], NO_LOG, child);
    assert [] + [child] == [child] && [] + [parent] == [parent];
    LinkTallies(env, Bump(map[], env.cid(child), -1), Log([], [child], [], []), parent);
    PaidByLink(env.cid(child));
  }

  /**
   A sealing that starts after an earlier one of the same root: `stale` are the blocks that late
   calls have counted before or during it, `late` those whose links they have counted, though the
   blocks may belong to the earlier sealing. When the whole file is sent, it is accepted if and only
   if the late links pay for exactly the stale blocks.
   */
  lemma RestartAcceptsIff(
      env: Env, g: Dag.Graph, blocks: map<Cid, int>, root: Cid, stale: seq<Bytes>, late: seq<Bytes>, sent: seq<Bytes>,
      stored: seq<Bytes>)
    requires Dag.Acyclic(g) && Consistent(env, g, sent)
    requires Tally(env, blocks, Log([root], stale + sent, late + sent, stored))
    requires WholeFile(env, g, Log([root], sent, sent, stored))
    ensures AllZero(blocks) <==> multiset(CidsOf(env, stale)) == LinksOf(env, late)
  {
    AllZeroMeans(env, blocks, Log([root], stale + sent, late + sent, stored));
    CidsAppend(env, stale, sent);
    LinksAppend(env, late, sent);
    WholeIsDemanded(env, g, Log([root], sent, sent, stored));
    StaleDemand(multiset(CidsOf(env, stale)), LinksOf(env, late),
                multiset(CidsOf(env, sent)), multiset([root]), LinksOf(env, sent));
  }

  /** If links are counted late of stale blocks only, it is accepted if and only if nothing is stale. */
  lemma RestartOverOwnLinksIff(
      env: Env, g: Dag.Graph, blocks: map<Cid, int>, root: Cid, stale: seq<Bytes>, late: seq<Bytes>, sent: seq<Bytes>,
      stored: seq<Bytes>)
    requires Dag.Acyclic(g) && Consistent(env, g, stale + sent) && forall b :: b in late ==> b in stale
    requires Tally(env, blocks, Log([root], stale + sent, late + sent, stored))
    requires WholeFile(env, g, Log([root], sent, sent, stored))
    ensures AllZero(blocks) <==> stale == []
  {
    assert Consistent(env, g, stale) && Consistent(env, g, sent);
    RestartAcceptsIff(env, g, blocks, root, stale, late, sent, stored);
    if stale == [] {
      assert late != [] ==> late[0] in late;
    } else {
      NobodyAsks(env, g, stale, late);
    }
  }

  /** The links of one block of the earlier sealing are enough to refuse the whole file, though no block is stale. */
  lemma LateLinksRefuse(
      env: Env, g: Dag.Graph, blocks: map<Cid, int>, root: Cid, parent: Bytes, sent: seq<Bytes>, stored: seq<Bytes>)
    requires Dag.Acyclic(g) && Consistent(env, g, sent) && env.links(parent) != []
    requires Tally(env, blocks, Log([root], sent, [parent] + sent, stored))
    requires WholeFile(env, g, Log([root], sent, sent, stored))
    ensures !AllZero(blocks)
  {
    assert [] + sent == sent;
    RestartAcceptsIff(env, g, blocks, root, [], [parent], sent, stored);
    OneBlock(env, parent);
  }

  /** The links of a parent of the earlier sealing can pay for a stale child, and the whole file is accepted. */
  lemma LateLinksPay(
      env: Env, g: Dag.Graph, blocks: map<Cid, int>, root: Cid, parent: Bytes, child: Bytes, sent: seq<Bytes>,
      stored: seq<Bytes>)
    requires Dag.Acyclic(g) && Consistent(env, g, sent) && env.links(parent) == [env.cid(child)]
    requires Tally(env, blocks, Log([root], [child] + sent, [parent] + sent, stored))
    requires WholeFile(env, g, Log([root], sent, sent, stored))
    ensures AllZero(blocks)
  {
    RestartAcceptsIff(env, g, blocks, root, [child], [parent], sent, stored);
    OneBlock(env, parent);
    OneCid(env, child);
  }

  lemma OneCid(env: Env, b: Bytes)
    ensures CidsOf(env, [b]) == [env.cid(b)]
  {
    assert [b][..0] == [];
  }

  lemma WholeIsDemanded(env: Env, g: Dag.Graph, log: Log)
    requires Dag.Acyclic(g) && Consistent(env, g, log.taken) && WholeFile(env, g, log)
    ensures multiset(CidsOf(env, log.taken)) == multiset(log.roots) + LinksOf(env, log.taken)
  {
    LinksAreAsked(env, g, log.taken);
    Dag.BalancedIffUnfolding(g, log.roots, CidsOf(env, log.taken));
  }

  lemma StaleDemand(
      stale: multiset<Cid>, late: multiset<Cid>, sent: multiset<Cid>, root: multiset<Cid>, links: multiset<Cid>)
    requires sent == root + links
    ensures stale + sent == root + (late + links) <==> stale == late
  {
    assert root + (late + links) == late + sent;
    if stale + sent == late + sent {
      Dag.Cancel(stale, late, sent);
    }
  }

  lemma {:induction false} CidsAppend(env: Env, a: seq<Bytes>, b: seq<Bytes>)
    ensures CidsOf(env, a + b) == CidsOf(env, a) + CidsOf(env, b)
    decreases |b|
  {
    if b == [] {
      assert a + b == a;
    } else {
      var n := |b| - 1;
      assert (a + b)[..|a + b| - 1] == a + b[..n];
      CidsAppend(env, a, b[..n]);
    }
  }

  // ----- The size -----

  function SizeOf(blocks: seq<Bytes>): nat {
    if blocks == [] then 0 else SizeOf(blocks[..|blocks| - 1]) + |blocks[|blocks| - 1]|
  }

  /** The entry of a file under seal is explained by its log: the counters, and the size. */
  ghost predicate Explains(env: Env, s: Sealing, log: Log) {
    Tally(env, s.blocks, log) && s.size == SizeOf(log.stored)
  }

  lemma StoreExplains(env: Env, s: Sealing, log: Log, block: Bytes)
    requires Explains(env, s, log)
    ensures Explains(env, s.(size := s.size + |block|), log.(stored := log.stored + [block]))
  {
    var log' := log.(stored := log.stored + [block]);
    assert log'.stored[..|log'.stored| - 1] == log.stored;
    forall c
      ensures TallyAt(env, s.blocks, log', c)
    {
      assert TallyAt(env, s.blocks, log, c);
    }
  }

  lemma {:induction false} SizeAppend(a: seq<Bytes>, b: seq<Bytes>)
    ensures SizeOf(a + b) == SizeOf(a) + SizeOf(b)
    decreases |b|
  {
    if b == [] {
      assert a + b == a;
    } else {
      var n := |b| - 1;
      assert (a + b)[..|a + b| - 1] == a + b[..n];
      SizeAppend(a, b[..n]);
    }
  }

  lemma {:induction false} SizeOfPermutation(a: seq<Bytes>, b: seq<Bytes>)
    requires multiset(a) == multiset(b)
    ensures SizeOf(a) == SizeOf(b)
    decreases |a|
  {
    if a == [] {
      assert |multiset(b)| == 0;
    } else {
      var n := |a| - 1;
      assert a[n] in multiset(b);
      var i :| 0 <= i < |b| && b[i] == a[n];
      assert a == a[..n] + [a[n]];
      Dag.Cancel(multiset(a[..n]), multiset(Without(b, i)), multiset{a[n]});
      SizeOfPermutation(a[..n], Without(b, i));
      SizeWithout(b, i);
    }
  }

  lemma SizeWithout(b: seq<Bytes>, i: nat)
    requires i < |b|
    ensures SizeOf(b) == SizeOf(Without(b, i)) + |b[i]|
  {
    assert b == b[..i] + ([b[i]] + b[i + 1..]);
    SizeAppend(b[..i], [b[i]] + b[i + 1..]);
    SizeAppend([b[i]], b[i + 1..]);
    SizeAppend(b[..i], b[i + 1..]);
    assert SizeOf([b[i]]) == SizeOf([b[i]][..0]) + |b[i]|;
  }

  ghost predicate AllEmpty(blocks: seq<Bytes>) {
    forall i :: 0 <= i < |blocks| ==> blocks[i] == []
  }

  lemma {:induction false} NoSizeMeans(blocks: seq<Bytes>)
    ensures SizeOf(blocks) == 0 <==> AllEmpty(blocks)
  {
    if blocks != [] {
      var n := |blocks| - 1;
      NoSizeMeans(blocks[..n]);
      if AllEmpty(blocks[..n]) && blocks[n] == [] {
        forall i | 0 <= i < |blocks|
          ensures blocks[i] == []
        {
          assert i < n ==> blocks[..n][i] == [];
        }
      }
      if AllEmpty(blocks) {
        assert |blocks[n]| == 0;
      }
    }
  }

  /**
   The size of a file is that of all its blocks if and only if what was recorded besides them, for
   blocks that an earlier sealing had counted, is as large as what is missing, because a call is
   still under way or has left by an exit that skips the clean-up.
   */
  lemma SizeIsWholeIff(env: Env, s: Sealing, log: Log, extra: seq<Bytes>, missing: seq<Bytes>)
    requires Explains(env, s, log)
    requires multiset(log.taken) + multiset(extra) == multiset(log.stored) + multiset(missing)
    ensures s.size == SizeOf(log.taken) <==> SizeOf(extra) == SizeOf(missing)
  {
    SizeOfPermutation(log.taken + extra, log.stored + missing);
    SizeAppend(log.taken, extra);
    SizeAppend(log.stored, missing);
  }

  /** If only counted blocks are recorded, it is so if and only if every block with content is. */
  lemma SizeIsWholeIfStored(env: Env, s: Sealing, log: Log, missing: seq<Bytes>)
    requires Explains(env, s, log) && multiset(log.taken) == multiset(log.stored) + multiset(missing)
    ensures s.size == SizeOf(log.taken) <==> AllEmpty(missing)
  {
    SizeIsWholeIff(env, s, log, [], missing);
    NoSizeMeans(missing);
  }

  /** One block that an earlier sealing had counted makes the size of a whole, stored file too large. */
  lemma LateRecordOversizes(env: Env, s: Sealing, log: Log, b: Bytes)
    requires Explains(env, s, log) && multiset(log.stored) == multiset(log.taken) + multiset([b]) && b != []
    ensures s.size > SizeOf(log.taken)
  {
    SizeOfPermutation(log.stored, log.taken + [b]);
    SizeAppend(log.taken, [b]);
    assert [b][..0] == [] && SizeOf([b]) == SizeOf([b][..0]) + |b|;
  }

  // ----- A file that is sent undisturbed -----

  /** What a call of storage_seal_file leaves in the log; of an empty block nothing is linked or stored. */
  function WithBlock(log: Log, b: Bytes): Log {
    if b == [] then log.(taken := log.taken + [b])
    else Log(log.roots, log.taken + [b], log.linked + [b], log.stored + [b])
  }

  function WithBlocks(log: Log, bs: seq<Bytes>): Log {
    if bs == [] then log else WithBlock(WithBlocks(log, bs[..|bs| - 1]), bs[|bs| - 1])
  }

  /** The calls for the blocks of a file, one after the other: all are given, and all are saved. */
  function Sent(env: Env, w: World, root: Cid, bs: seq<Bytes>): World {
    if bs == [] then w
    else
      var b := bs[|bs| - 1];
      SealBlock(Sent(env, w, root, bs[..|bs| - 1]), root, env.cid(b), env.links(b), |b|, Given, Saved)
  }

  lemma {:induction false} NoLinksInEmpty(wide: Links.Wide)
    ensures BlockLinks(wide, []) == []
  {
  }

  lemma {:induction false} EmptyBlockHasNoLinks(env: Env)
    requires Real(env)
    ensures env.links([]) == []
  {
    NoLinksInEmpty(env.wide);
    assert Computed(env, []);
  }

  /** A saved call accounts for its block: itself, its links and its size. */
  lemma SealBlockExplains(env: Env, w: World, root: Cid, log: Log, b: Bytes)
    requires root in w.sealing && !w.upgrading && Explains(env, w.sealing[root], log)
    ensures var w' := SealBlock(w, root, env.cid(b), env.links(b), |b|, Given, Saved);
            root in w'.sealing && !w'.upgrading && Explains(env, w'.sealing[root], WithBlock(log, b))
  {
    var s := w.sealing[root];
    TakeTallies(env, s.blocks, log, b);
    if b != [] {
      var log1 := log.(taken := log.taken + [b]);
      var blocks1 := Bump(s.blocks, env.cid(b), -1);
      LinkTallies(env, blocks1, log1, b);
      StoreExplains(env, Sealing(BumpAll(blocks1, env.links(b)), s.size), log1.(linked := log1.linked + [b]), b);
    }
  }

  lemma {:induction false} SentExplains(env: Env, w: World, root: Cid, log: Log, bs: seq<Bytes>)
    requires root in w.sealing && !w.upgrading && Explains(env, w.sealing[root], log)
    ensures var w' := Sent(env, w, root, bs);
            root in w'.sealing && !w'.upgrading && Explains(env, w'.sealing[root], WithBlocks(log, bs))
  {
    if bs != [] {
      var n := |bs| - 1;
      SentExplains(env, w, root, log, bs[..n]);
      SealBlockExplains(env, Sent(env, w, root, bs[..n]), root, WithBlocks(log, bs[..n]), bs[n]);
    }
  }

  lemma OneSize(b: Bytes)
    ensures SizeOf([b]) == |b|
  {
    var bs: seq<Bytes> := [b];
    assert bs[..0] == [] && SizeOf(bs) == SizeOf(bs[..0]) + |b|;
  }

  /** As many links are counted as the blocks have, and as many bytes. */
  ghost predicate Settled(env: Env, log: Log) {
    LinksOf(env, log.linked) == LinksOf(env, log.taken) && SizeOf(log.stored) == SizeOf(log.taken)
  }

  lemma WithBlockSettles(env: Env, log: Log, b: Bytes)
    requires Real(env) && Settled(env, log)
    ensures Settled(env, WithBlock(log, b))
  {
    EmptyBlockHasNoLinks(env);
    LinksAppend(env, log.linked, [b]);
    LinksAppend(env, log.taken, [b]);
    SizeAppend(log.stored, [b]);
    SizeAppend(log.taken, [b]);
    OneBlock(env, b);
    OneSize(b);
  }

  lemma {:induction false} WithBlocksTakes(log: Log, bs: seq<Bytes>)
    ensures WithBlocks(log, bs).roots == log.roots && WithBlocks(log, bs).taken == log.taken + bs
  {
    if bs == [] {
      assert log.taken + bs == log.taken;
    } else {
      var n := |bs| - 1;
      WithBlocksTakes(log, bs[..n]);
      assert log.taken + bs == log.taken + bs[..n] + [bs[n]];
    }
  }

  lemma {:induction false} WithBlocksSettles(env: Env, log: Log, bs: seq<Bytes>)
    requires Real(env) && Settled(env, log)
    ensures Settled(env, WithBlocks(log, bs))
  {
    if bs != [] {
      var before := WithBlocks(log, bs[..|bs| - 1]);
      WithBlocksSettles(env, log, bs[..|bs| - 1]);
      WithBlockSettles(env, before, bs[|bs| - 1]);
    }
  }

  /** With as many links counted as its blocks have, the zero test decides the whole file. */
  lemma SettledAcceptsIff(env: Env, g: Dag.Graph, blocks: map<Cid, int>, log: Log)
    requires Dag.Acyclic(g) && Consistent(env, g, log.taken) && Tally(env, blocks, log)
    requires LinksOf(env, log.linked) == LinksOf(env, log.taken)
    ensures AllZero(blocks) <==> WholeFile(env, g, log)
  {
    AllZeroMeans(env, blocks, log);
    LinksAreAsked(env, g, log.taken);
    Dag.BalancedIffUnfolding(g, log.roots, CidsOf(env, log.taken));
  }

  /**
   From start to end: when the blocks `bs` are sent for a root that was not under seal, with nothing
   in between, the end finds the file complete if and only if the blocks are the tree unfolding of the
   root, in whatever order; and its size is the sum of their lengths.
   */
  lemma WholeSentIff(env: Env, g: Dag.Graph, w: World, c: Cid, rootCid: Cid, bs: seq<Bytes>)
    requires Real(env) && Dag.Acyclic(g) && Consistent(env, g, bs)
    requires c !in w.sealing && StartOutcome(w, c) == Started
    ensures var w' := Sent(env, SealStart(w, c, rootCid), c, bs);
            && c in w'.sealing && w'.sealing[c].size == SizeOf(bs)
            && (Complete(w', c) <==> multiset(CidsOf(env, bs)) == multiset(Dag.Unfold(g, [rootCid])))
  {
    var w1 := SealStart(w, c, rootCid);
    StartedSealing(env, w, c, rootCid);
    var log := WithBlocks(Log([rootCid], [], [], []), bs);
    SentExplains(env, w1, c, Log([rootCid], [], [], []), bs);
    WithBlocksSettles(env, Log([rootCid], [], [], []), bs);
    WithBlocksTakes(Log([rootCid], [], [], []), bs);
    assert [] + bs == bs;
    SettledAcceptsIff(env, g, Sent(env, w1, c, bs).sealing[c].blocks, log);
  }

  /** Sending touches no file: the entry is PENDING until the end. */
  lemma {:induction false} SentKeepsFiles(env: Env, w: World, root: Cid, bs: seq<Bytes>)
    requires root in w.sealing && !w.upgrading
    ensures var w' := Sent(env, w, root, bs); root in w'.sealing && !w'.upgrading && w'.files == w.files
  {
    if bs != [] {
      SentKeepsFiles(env, w, root, bs[..|bs| - 1]);
    }
  }

  lemma SentSize(env: Env, w: World, c: Cid, rootCid: Cid, bs: seq<Bytes>)
    requires Real(env) && c !in w.sealing && StartOutcome(w, c) == Started
    ensures var w' := Sent(env, SealStart(w, c, rootCid), c, bs);
            c in w'.sealing && w'.sealing[c].size == SizeOf(bs) && c in w'.files && w'.files[c].current.Pending?
  {
    var w1 := SealStart(w, c, rootCid);
    StartedSealing(env, w, c, rootCid);
    SentExplains(env, w1, c, Log([rootCid], [], [], []), bs);
    WithBlocksSettles(env, Log([rootCid], [], [], []), bs);
    WithBlocksTakes(Log([rootCid], [], [], []), bs);
    assert [] + bs == bs;
    SentKeepsFiles(env, w1, c, bs);
  }

  lemma StartedSealing(env: Env, w: World, c: Cid, rootCid: Cid)
    requires c !in w.sealing && StartOutcome(w, c) == Started
    ensures var w' := SealStart(w, c, rootCid);
            c in w'.sealing && !w'.upgrading && Explains(env, w'.sealing[c], Log([rootCid], [], [], []))
  {
    NothingTallies(env);
    StartTallies(env, map[], NO_LOG, rootCid);
    assert [] + [rootCid] == [rootCid];
  }

  // ----- Where a consistent graph comes from -----

  /** Blocks are told apart by their digests, and no digest is that of the empty block. */
  ghost predicate CollisionFree(env: Env, blocks: seq<Bytes>) {
    && (forall a, b :: a in blocks && b in blocks && a != [] && b != [] && env.sha(a) == env.sha(b) ==> a == b)
    && (forall a :: a in blocks && a != [] ==> Base58.Cid(env.sha(a)) != EMPTY_BLOCK_CID)
  }

  /** The links of the listed blocks, by identifier. */
  ghost function KidsOf(env: Env, blocks: seq<Bytes>, c: Cid): seq<Cid> {
    if exists b :: b in blocks && env.cid(b) == c then
      var b :| b in blocks && env.cid(b) == c;
      env.links(b)
    else []
  }

  lemma SameBlock(env: Env, blocks: seq<Bytes>, a: Bytes, b: Bytes)
    requires Real(env) && CollisionFree(env, blocks) && a in blocks && b in blocks && env.cid(a) == env.cid(b)
    ensures a == b
  {
    assert Computed(env, a) && Computed(env, b);
    if a != [] && b != [] {
      Base58.CidInjective(env.sha(a), env.sha(b));
    }
  }

  /** Distinct digests make the links of the blocks that arrived a well-defined graph. */
  lemma CollisionFreeIsConsistent(env: Env, blocks: seq<Bytes>, g: Dag.Graph)
    requires Real(env) && CollisionFree(env, blocks) && forall c :: g.kids(c) == KidsOf(env, blocks, c)
    ensures Consistent(env, g, blocks)
  {
    forall b | b in blocks
      ensures g.kids(env.cid(b)) == env.links(b)
    {
      var c := env.cid(b);
      var b' :| b' in blocks && env.cid(b') == c && KidsOf(env, blocks, c) == env.links(b');
      SameBlock(env, blocks, b, b');
    }
  }

  // ----- Computing them -----

  method Identify(env: Env, block: Bytes) returns (c: Cid)
    requires Real(env)
    ensures c == env.cid(block)
  {
    assert Computed(env, block);
    if |block| == 0 {
      return EMPTY_BLOCK_CID;
    }
    var text := Base58.HashToCid(env.sha(block));
    c := text.value;
  }

  /** The identifiers of the children of a block, one by one. */
  method IdentifyLinks(env: Env, block: Bytes) returns (cs: seq<Cid>)
    requires Real(env)
    ensures cs == env.links(block)
  {
    assert Computed(env, block);
    var hashes := Links.GetHashsFromBlock(env.wide, block);
    cs := [];
    assert hashes[0..] == hashes;
    for i := 0 to |hashes|
      invariant cs + CidsOfHashes(hashes[i..]) == env.links(block)
    {
      var text := Base58.HashToCid(hashes[i]);
      assert hashes[i..][1..] == hashes[i + 1..];
      assert cs + CidsOfHashes(hashes[i..]) == cs + [text.value] + CidsOfHashes(hashes[i + 1..]);
      cs := cs + [text.value];
    }
    assert cs + [] == cs;
  }
}
