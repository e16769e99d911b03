/**
 The list of srd gigabytes with its counters (src/enclave/workload/Workload.h and Workload.cpp),
 and the operations on it (src/enclave/srd/Srd.cpp): appending, marking for deletion by index,
 deleting the marked entries later, decreasing, and making room on single disks.
 */
module SrdStore {
  import opened Basics
  import Json

  const UUID_LENGTH := 8
  const SRD_LENGTH := 42

  /** The disk, the directory and the hash of one gigabyte. */
  type Item = b: Bytes | |b| == SRD_LENGTH witness seq(SRD_LENGTH, _ => 0)

  /** The disk of an entry. */
  function Uuid(item: Item): string { Json.Hex(item[..UUID_LENGTH]) }

  /** How many of the entries are on a disk. */
  function On(s: seq<Item>, u: string): nat {
    if s == [] then 0 else One(Uuid(s[0]) == u) + On(s[1..], u)
  }

  lemma {:induction false} OnSplits(s: seq<Item>, t: seq<Item>, u: string)
    ensures On(s + t, u) == On(s, u) + On(t, u)
  {
    if s == [] {
      assert s + t == t;
    } else {
      assert (s + t)[1..] == s[1..] + t;
      OnSplits(s[1..], t, u);
    }
  }

  lemma OnOne(item: Item, u: string)
    ensures On([item], u) == One(Uuid(item) == u)
  {
    assert [item][1..] == [];
  }

  // ----- Removing by index -----

  predicate Ascending(ix: seq<nat>) {
    forall i, j :: 0 <= i < j < |ix| ==> ix[i] < ix[j]
  }

  /** The entries at the other positions, in their order. */
  function Keep<T>(s: seq<T>, ix: seq<nat>): (r: seq<T>)
    ensures |r| <= |s|
  {
    if s == [] then []
    else
      var n := |s| - 1;
      if n in ix then Keep(s[..n], ix) else Keep(s[..n], ix) + [s[n]]
  }

  lemma {:induction false} KeepNone<T>(s: seq<T>, ix: seq<nat>)
    requires forall i :: 0 <= i < |s| ==> i !in ix
    ensures Keep(s, ix) == s
  {
    if s != [] {
      KeepNone(s[..|s| - 1], ix);
    }
  }

  lemma WithoutBefore<T>(s: seq<T>, i: nat, x: T)
    requires i < |s|
    ensures Without(s + [x], i) == Without(s, i) + [x]
  {
  }

  lemma KeepTop<T>(s: seq<T>, ix: seq<nat>)
    requires s != [] && forall j :: j in ix ==> |s| <= j
    ensures Keep(s, ix) == s && Keep(s, [|s| - 1] + ix) == Without(s, |s| - 1)
  {
    KeepNone(s, ix);
    KeepNone(s[..|s| - 1], [|s| - 1] + ix);
  }

  lemma KeepLast<T>(s: seq<T>, ix: seq<nat>)
    requires s != []
    ensures var n := |s| - 1; Keep(s, ix) == if n in ix then Keep(s[..n], ix) else Keep(s[..n], ix) + [s[n]]
  {
  }

  /** Erasing a position below all those removed so far is removing one position more. */
  lemma {:induction false} KeepOneMore<T>(s: seq<T>, i: nat, ix: seq<nat>)
    requires forall j :: j in ix ==> i < j
    ensures i >= |s| ==> Keep(s, [i] + ix) == Keep(s, ix)
    ensures i < |s| ==> i < |Keep(s, ix)| && Keep(s, [i] + ix) == Without(Keep(s, ix), i) && Keep(s, ix)[i] == s[i]
  {
    if s != [] {
      var n := |s| - 1;
      assert n in [i] + ix <==> n == i || n in ix;
      if i == n {
        KeepTop(s, ix);
      } else {
        KeepOneMore(s[..n], i, ix);
        KeepLast(s, ix);
        KeepLast(s, [i] + ix);
        if i < n && n !in ix {
          WithoutBefore(Keep(s[..n], ix), i, s[n]);
        }
      }
    }
  }

  lemma ErasedOn(s: seq<Item>, i: nat, u: string)
    requires i < |s|
    ensures On(Without(s, i), u) == On(s, u) - One(Uuid(s[i]) == u)
  {
    assert s == s[..i] + [s[i]] + s[i + 1..];
    OnSplits(s[..i] + [s[i]], s[i + 1..], u);
    OnSplits(s[..i], [s[i]], u);
    OnOne(s[i], u);
    OnSplits(s[..i], s[i + 1..], u);
  }

  // ----- The reference: entries that carry their own mark -----

  datatype Entry = Entry(item: Item, doomed: bool)

  /** The unmarked entries, in their order. */
  function Spared(es: seq<Entry>): (r: seq<Entry>)
  {
    if es == [] then []
    else
      var n := |es| - 1;
      if es[n].doomed then Spared(es[..n]) else Spared(es[..n]) + [es[n]]
  }

  /**
   A list and a buffer of indexes stand for the entries with their marks. An index beyond the list
   is in wait for the entry that will come to stand there.
   */
  ghost predicate Mirrors(s: seq<Item>, ix: seq<nat>, es: seq<Entry>) {
    |s| == |es| && Ascending(ix)
    && forall i :: 0 <= i < |s| ==> es[i].item == s[i] && (es[i].doomed <==> i in ix)
  }

  /** Removing the buffered indexes removes exactly the marked entries. */
  lemma {:induction false} KeepIsSpared(s: seq<Item>, ix: seq<nat>, es: seq<Entry>)
    requires |s| == |es| && forall i :: 0 <= i < |s| ==> es[i].item == s[i] && (es[i].doomed <==> i in ix)
    ensures Mirrors(Keep(s, ix), [], Spared(es))
  {
    if s != [] {
      KeepIsSpared(s[..|s| - 1], ix, es[..|es| - 1]);
    }
  }

  /** What is appended after marking does not shift what is removed. */
  lemma {:induction false} AppendedStays<T>(s: seq<T>, t: seq<T>, ix: seq<nat>)
    requires forall i :: i in ix ==> i < |s|
    ensures Keep(s + t, ix) == Keep(s, ix) + t
  {
    if t == [] {
      assert s + t == s;
    } else {
      var n := |t| - 1;
      AppendedStays(s, t[..n], ix);
      var all := s + t;
      assert all[..|s| + n] == s + t[..n] && all[|s| + n] == t[n];
      assert Keep(all, ix) == Keep(s, ix) + t[..n] + [t[n]];
    }
  }

  // ----- The buffer of indexes -----

  /** Insertion into a std::set. */
  function Inserted(ix: seq<nat>, i: nat): seq<nat> {
    if ix == [] || i < ix[0] then [i] + ix
    else if i == ix[0] then ix
    else [ix[0]] + Inserted(ix[1..], i)
  }

  lemma {:induction false} InsertedHas(ix: seq<nat>, i: nat, j: nat)
    ensures j in Inserted(ix, i) <==> j == i || j in ix
  {
    if ix != [] && i > ix[0] {
      InsertedHas(ix[1..], i, j);
      assert j in ix <==> j == ix[0] || j in ix[1..];
    } else if ix != [] && i == ix[0] {
      assert ix[0] in ix;
    }
  }

  lemma {:induction false} InsertedAscends(ix: seq<nat>, i: nat)
    requires Ascending(ix)
    ensures Ascending(Inserted(ix, i))
  {
    if ix != [] && i > ix[0] {
      InsertedAscends(ix[1..], i);
      var r := Inserted(ix[1..], i);
      forall k | 0 <= k < |r|
        ensures ix[0] < r[k]
      {
        assert r[k] in r;
        InsertedHas(ix[1..], i, r[k]);
      }
    }
  }

  lemma InsertedIs(ix: seq<nat>, i: nat)
    requires Ascending(ix)
    ensures Ascending(Inserted(ix, i)) && forall j :: j in Inserted(ix, i) <==> j == i || j in ix
  {
    InsertedAscends(ix, i);
    forall j
      ensures j in Inserted(ix, i) <==> j == i || j in ix
    {
      InsertedHas(ix, i, j);
    }
  }

  /** The last `n` positions below `top`. */
  function LastOnes(top: nat, n: nat): (ix: seq<nat>)
    requires n <= top
    ensures |ix| == n
  {
    if n == 0 then [] else [(top - n) as nat] + LastOnes(top, n - 1)
  }

  lemma {:induction false} LastOnesAre(top: nat, n: nat)
    requires n <= top
    ensures Ascending(LastOnes(top, n)) && forall i :: i in LastOnes(top, n) <==> top - n <= i < top
  {
    if n > 0 {
      LastOnesAre(top, n - 1);
      var r := LastOnes(top, n - 1);
      assert forall k :: 0 <= k < |r| ==> r[k] in r;
    }
  }

  lemma {:induction false} KeepFront<T>(s: seq<T>, ix: seq<nat>, n: nat)
    requires n <= |s| && forall i :: 0 <= i < |s| ==> (i in ix <==> n <= i)
    ensures Keep(s, ix) == s[..n]
  {
    if |s| > n {
      KeepFront(s[..|s| - 1], ix, n);
    } else {
      KeepNone(s, ix);
    }
  }

  ghost predicate Tallied(detail: map<string, int>, s: seq<Item>) {
    forall u :: Get(detail, u) == On(s, u)
  }

  lemma TalliedAppend(detail: map<string, int>, s: seq<Item>, item: Item)
    requires Tallied(detail, s)
    ensures Tallied(detail[Uuid(item) := Get(detail, Uuid(item)) + 1], s + [item])
  {
    forall u
      ensures Get(detail[Uuid(item) := Get(detail, Uuid(item)) + 1], u) == On(s + [item], u)
    {
      OnSplits(s, [item], u);
      OnOne(item, u);
    }
  }

  lemma TalliedErase(detail: map<string, int>, s: seq<Item>, i: nat)
    requires Tallied(detail, s) && i < |s|
    ensures Tallied(detail[Uuid(s[i]) := Get(detail, Uuid(s[i])) - 1], Without(s, i))
  {
    forall u
      ensures Get(detail[Uuid(s[i]) := Get(detail, Uuid(s[i])) - 1], u) == On(Without(s, i), u)
    {
      ErasedOn(s, i, u);
    }
  }

  // ----- Making room on single disks -----

  /** A member of the JSON object that srd_remove_space is given: so many entries of a disk are to go. */
  datatype Request = Request(uuid: string, num: nat)

  ghost predicate Distinct(req: seq<Request>) {
    forall i, j :: 0 <= i < j < |req| ==> req[i].uuid != req[j].uuid
  }

  function Want(req: seq<Request>, u: string): nat {
    if req == [] then 0 else if req[0].uuid == u then req[0].num else Want(req[1..], u)
  }

  function Total(req: seq<Request>): nat {
    if req == [] then 0 else Total(req[..|req| - 1]) + req[|req| - 1].num
  }

  lemma {:induction false} TotalCons(r: Request, req: seq<Request>)
    ensures Total([r] + req) == r.num + Total(req)
  {
    if req == [] {
      assert ([r] + req)[..0] == [];
    } else {
      var n := |req| - 1;
      assert ([r] + req)[..n + 1] == [r] + req[..n];
      TotalCons(r, req[..n]);
    }
  }

  /** One entry of a disk less to go. */
  function Taken(req: seq<Request>, u: string): seq<Request> {
    if req == [] then []
    else if req[0].uuid == u && req[0].num > 0 then [Request(u, req[0].num - 1)] + req[1..]
    else [req[0]] + Taken(req[1..], u)
  }

  lemma {:induction false} TakenTotal(req: seq<Request>, u: string)
    requires Want(req, u) > 0
    ensures Total(Taken(req, u)) == Total(req) - 1
  {
    assert req == [req[0]] + req[1..];
    TotalCons(req[0], req[1..]);
    if req[0].uuid == u {
      TotalCons(Request(u, req[0].num - 1), req[1..]);
    } else {
      TakenTotal(req[1..], u);
      TotalCons(req[0], Taken(req[1..], u));
    }
  }

  lemma {:induction false} TakenWant(req: seq<Request>, u: string, v: string)
    requires Want(req, u) > 0
    ensures Want(Taken(req, u), v) == Want(req, v) - One(u == v)
  {
    if req[0].uuid == u {
      var r := Request(u, req[0].num - 1);
      assert ([r] + req[1..])[1..] == req[1..];
    } else {
      TakenWant(req[1..], u, v);
      assert ([req[0]] + Taken(req[1..], u))[1..] == Taken(req[1..], u);
    }
  }

  lemma {:induction false} TakenKeys(req: seq<Request>, u: string)
    ensures |Taken(req, u)| == |req| && forall i :: 0 <= i < |req| ==> Taken(req, u)[i].uuid == req[i].uuid
  {
    if req != [] {
      TakenKeys(req[1..], u);
    }
  }

  lemma {:induction false} WantAt(req: seq<Request>, i: nat)
    requires Distinct(req) && i < |req|
    ensures Want(req, req[i].uuid) == req[i].num
  {
    if i > 0 {
      WantAt(req[1..], i - 1);
    }
  }

  lemma {:induction false} WantWithin(req: seq<Request>, u: string)
    ensures Want(req, u) <= Total(req)
  {
    if req != [] {
      assert req == [req[0]] + req[1..];
      TotalCons(req[0], req[1..]);
      WantWithin(req[1..], u);
    }
  }

  lemma {:induction false} SomeWanted(req: seq<Request>) returns (u: string)
    requires Distinct(req) && Total(req) > 0
    ensures Want(req, u) > 0
  {
    var n := |req| - 1;
    WantAt(req, n);
    u := req[n].uuid;
    if req[n].num == 0 {
      var v := SomeWanted(req[..n]);
      var i := PlaceOf(req[..n], v);
      WantAt(req[..n], i);
      WantAt(req, i);
      u := v;
    }
  }

  lemma {:induction false} PlaceOf(req: seq<Request>, u: string) returns (i: nat)
    requires Want(req, u) > 0
    ensures i < |req| && req[i].uuid == u
  {
    if req[0].uuid == u {
      i := 0;
    } else {
      var k := PlaceOf(req[1..], u);
      i := k + 1;
    }
  }

  /** Some disk is to lose more entries than it has. */
  ghost predicate Excessive(req: seq<Request>, s: seq<Item>) {
    exists u :: Want(req, u) > On(s, u)
  }

  /** An entry is among the last of its disk, as many as are to go. */
  predicate Latest(s: seq<Item>, i: nat, req: seq<Request>)
    requires i < |s|
  {
    On(s[i + 1..], Uuid(s[i])) < Want(req, Uuid(s[i]))
  }

  function LatestOn(s: seq<Item>, req: seq<Request>, u: string, k: nat): nat
    requires k <= |s|
    decreases |s| - k
  {
    if k == |s| then 0 else One(Uuid(s[k]) == u && Latest(s, k, req)) + LatestOn(s, req, u, k + 1)
  }

  lemma OnFrom(s: seq<Item>, k: nat, u: string)
    requires k < |s|
    ensures On(s[k..], u) == One(Uuid(s[k]) == u) + On(s[k + 1..], u)
  {
    assert s[k..][1..] == s[k + 1..];
  }

  /** Of each disk as many entries as asked for, or all if there are fewer. */
  lemma {:induction false} LatestAreAsked(s: seq<Item>, req: seq<Request>, u: string, k: nat)
    requires k <= |s|
    ensures LatestOn(s, req, u, k) == if Want(req, u) < On(s[k..], u) then Want(req, u) else On(s[k..], u)
    decreases |s| - k
  {
    if k < |s| {
      LatestAreAsked(s, req, u, k + 1);
      OnFrom(s, k, u);
    }
  }

  lemma {:induction false} OnGrows(s: seq<Item>, j: nat, k: nat, u: string)
    requires j <= k <= |s|
    ensures On(s[k..], u) <= On(s[j..], u)
    decreases k - j
  {
    if j < k {
      OnFrom(s, j, u);
      OnGrows(s, j + 1, k, u);
    }
  }

  /** What is left of the requests when the entries from `k` on have been looked at. */
  ghost predicate LeftAt(cur: seq<Request>, req: seq<Request>, s: seq<Item>, k: nat)
    requires k <= |s|
  {
    Distinct(cur)
    && forall u :: Want(cur, u) == if Want(req, u) < On(s[k..], u) then 0 else Want(req, u) - On(s[k..], u)
  }

  lemma LeftStep(cur: seq<Request>, req: seq<Request>, s: seq<Item>, k: nat)
    requires k < |s| && LeftAt(cur, req, s, k + 1)
    ensures Want(cur, Uuid(s[k])) > 0 <==> Latest(s, k, req)
    ensures Want(cur, Uuid(s[k])) > 0 ==>
              LeftAt(Taken(cur, Uuid(s[k])), req, s, k) && Total(Taken(cur, Uuid(s[k]))) == Total(cur) - 1
    ensures Want(cur, Uuid(s[k])) == 0 ==> LeftAt(cur, req, s, k)
  {
    forall u
      ensures On(s[k..], u) == One(Uuid(s[k]) == u) + On(s[k + 1..], u)
    {
      OnFrom(s, k, u);
    }
    var d := Uuid(s[k]);
    if Want(cur, d) > 0 {
      TakenTotal(cur, d);
      TakenKeys(cur, d);
      forall u
        ensures Want(Taken(cur, d), u) == Want(cur, u) - One(d == u)
      {
        TakenWant(cur, d, u);
      }
    }
  }

  /** When nothing is left, no earlier entry was to go. */
  lemma NoneLeft(cur: seq<Request>, req: seq<Request>, s: seq<Item>, k: nat)
    requires k <= |s| && LeftAt(cur, req, s, k) && Total(cur) == 0
    ensures forall j :: 0 <= j < k ==> !Latest(s, j, req)
    ensures !Excessive(req, s)
  {
    forall u
      ensures Want(req, u) <= On(s[k..], u)
    {
      WantWithin(cur, u);
      assert Want(cur, u) == 0;
    }
    forall j | 0 <= j < k
      ensures !Latest(s, j, req)
    {
      OnGrows(s, j + 1, k, Uuid(s[j]));
    }
    forall u
      ensures Want(req, u) <= On(s, u)
    {
      OnGrows(s, 0, k, u);
      assert s[0..] == s;
    }
  }

  lemma SomeLeft(cur: seq<Request>, req: seq<Request>, s: seq<Item>)
    requires LeftAt(cur, req, s, 0) && Total(cur) > 0
    ensures Excessive(req, s)
  {
    var u := SomeWanted(cur);
    assert s[0..] == s;
    assert Want(req, u) > On(s, u);
  }

  /** The entries with those marked that are to go, among the positions from `k` on. */
  ghost predicate MarkedFrom(before: seq<Entry>, after: seq<Entry>, s: seq<Item>, req: seq<Request>, k: nat)
    requires |before| == |s|
  {
    |after| == |s|
    && forall j :: 0 <= j < |s| ==>
         after[j].item == s[j] && (after[j].doomed <==> before[j].doomed || (j >= k && Latest(s, j, req)))
  }

  lemma MarkedStep(before: seq<Entry>, after: seq<Entry>, s: seq<Item>, req: seq<Request>, k: nat)
    requires |before| == |s| && k < |s| && MarkedFrom(before, after, s, req, k + 1)
    ensures Latest(s, k, req) ==> MarkedFrom(before, after[k := after[k].(doomed := true)], s, req, k)
    ensures !Latest(s, k, req) ==> MarkedFrom(before, after, s, req, k)
  {
  }

  lemma MarkedAll(before: seq<Entry>, after: seq<Entry>, s: seq<Item>, req: seq<Request>, k: nat)
    requires |before| == |s| && k <= |s| && MarkedFrom(before, after, s, req, k)
    requires forall j :: 0 <= j < k ==> !Latest(s, j, req)
    ensures MarkedFrom(before, after, s, req, 0)
  {
  }

  /**
   The entries that a second request takes in addition: those between the two numbers, counted from
   the end of the disk.
   */
  predicate Further(s: seq<Item>, j: nat, req: seq<Request>, req': seq<Request>)
    requires j < |s|
  {
    Want(req, Uuid(s[j])) <= On(s[j + 1..], Uuid(s[j])) < Want(req', Uuid(s[j]))
  }

  /**
   A second request, before the marked entries are dealt with, marks exactly the further entries that
   were not marked anyway.
   */
  lemma SecondRequestMarks(
      es: seq<Entry>, once: seq<Entry>, twice: seq<Entry>, s: seq<Item>, req: seq<Request>, req': seq<Request>)
    requires |es| == |s| && MarkedFrom(es, once, s, req, 0) && MarkedFrom(once, twice, s, req', 0)
    ensures forall j :: 0 <= j < |s| ==>
              (twice[j].doomed && !once[j].doomed <==> Further(s, j, req, req') && !es[j].doomed)
  {
    forall j | 0 <= j < |s|
      ensures twice[j].doomed && !once[j].doomed <==> Further(s, j, req, req') && !es[j].doomed
    {
      assert once[j].doomed <==> es[j].doomed || Latest(s, j, req);
    }
  }

  function FurtherOn(s: seq<Item>, req: seq<Request>, req': seq<Request>, u: string, k: nat): nat
    requires k <= |s|
    decreases |s| - k
  {
    if k == |s| then 0 else One(Uuid(s[k]) == u && Further(s, k, req, req')) + FurtherOn(s, req, req', u, k + 1)
  }

  /** Of each disk, as many as the second request exceeds the first, as far as there are entries. */
  lemma {:induction false} FurtherAreExcess(s: seq<Item>, req: seq<Request>, req': seq<Request>, u: string, k: nat)
    requires k <= |s|
    ensures FurtherOn(s, req, req', u, k)
         == Max(0, Min(Want(req', u), On(s[k..], u)) - Min(Want(req, u), On(s[k..], u)))
    decreases |s| - k
  {
    if k < |s| {
      FurtherAreExcess(s, req, req', u, k + 1);
      OnFrom(s, k, u);
    }
  }

  /** So asking again for no more frees nothing more. */
  lemma AskingAgainFreesNothing(
      es: seq<Entry>, once: seq<Entry>, twice: seq<Entry>, s: seq<Item>, req: seq<Request>, req': seq<Request>)
    requires |es| == |s| && MarkedFrom(es, once, s, req, 0) && MarkedFrom(once, twice, s, req', 0)
    requires forall u :: Want(req', u) <= Want(req, u)
    ensures twice == once
  {
    SecondRequestMarks(es, once, twice, s, req, req');
    forall j | 0 <= j < |s|
      ensures twice[j] == once[j]
    {
      assert Want(req', Uuid(s[j])) <= Want(req, Uuid(s[j]));
    }
  }

  // ----- The code -----

  /** The indexes of the last entries, gathered from the end and turned around. */
  method LastIndexes(top: nat, n: nat) returns (ix: seq<nat>)
    requires n <= top
    ensures ix == LastOnes(top, n)
  {
    ix := [];
    for i := 1 to n + 1
      invariant ix == LastOnes(top, i - 1)
    {
      ix := [(top - i) as nat] + ix;
    }
  }

  method SumUp(req: seq<Request>) returns (change: nat)
    ensures change == Total(req)
  {
    change := 0;
    for n := 0 to |req|
      invariant change == Total(req[..n])
    {
      assert req[..n + 1][..n] == req[..n];
      change := change + req[n].num;
    }
    assert req[..|req|] == req;
  }

  lemma NothingTaken(es: seq<Entry>, hashs: seq<Item>, req: seq<Request>)
    requires Distinct(req) && |es| == |hashs| && forall j :: 0 <= j < |es| ==> es[j].item == hashs[j]
    ensures LeftAt(req, req, hashs, |hashs|) && MarkedFrom(es, es, hashs, req, |hashs|)
  {
    assert hashs[|hashs|..] == [];
  }

  /** The part of the workload that keeps srd. The entries with their marks are not part of the program. */
  class Srd {
    var hashs: seq<Item>
    var complete: int
    var detail: map<string, int>
    var delIdx: seq<nat>
    ghost var entries: seq<Entry>

    ghost predicate Counted()
      reads this
    {
      complete == |hashs| && Tallied(detail, hashs)
    }

    ghost predicate Valid()
      reads this
    {
      Counted() && Mirrors(hashs, delIdx, entries)
    }

    constructor ()
      ensures Valid() && entries == []
    {
      hashs, complete, detail, delIdx, entries := [], 0, map[], [], [];
    }

    /** set_srd_info. */
    method SetSrdInfo(uuid: string, change: int)
      modifies this`complete, this`detail
      ensures complete == if old(complete) + change <= 0 then 0 else old(complete) + change
      ensures detail == old(detail)[uuid := Get(old(detail), uuid) + change]
    {
      complete := complete + change;
      if complete <= 0 {
        complete := 0;
      }
      detail := detail[uuid := Get(detail, uuid) + change];
    }

    /** The bookkeeping of srd_increase. */
    method Increase(item: Item)
      requires Valid()
      modifies this
      ensures Valid() && delIdx == old(delIdx) && entries == old(entries) + [Entry(item, |old(hashs)| in delIdx)]
    {
      TalliedAppend(detail, hashs, item);
      hashs := hashs + [item];
      entries := entries + [Entry(item, |entries| in delIdx)];
      SetSrdInfo(Uuid(item), 1);
    }

    /** add_srd_to_deleted_buffer. */
    method Mark(index: nat) returns (isNew: bool)
      requires Valid()
      modifies this`delIdx, this`entries
      ensures Valid() && forall i :: i in delIdx <==> i == index || i in old(delIdx)
      ensures entries == if index >= |hashs| then old(entries)
                         else old(entries)[index := old(entries)[index].(doomed := true)]
      ensures isNew <==> index !in old(delIdx)
    {
      isNew := index !in delIdx;
      InsertedIs(delIdx, index);
      delIdx := Inserted(delIdx, index);
      if index < |hashs| {
        entries := entries[index := entries[index].(doomed := true)];
      }
    }

    /** delete_srd_meta: erases from the highest index to the lowest. */
    method DeleteSrdMeta(ix: seq<nat>) returns (delNum: nat)
      requires Counted() && Ascending(ix)
      modifies this`hashs, this`complete, this`detail
      ensures Counted() && hashs == Keep(old(hashs), ix) && delNum == |old(hashs)| - |hashs|
    {
      delNum := 0;
      var r := |ix|;
      KeepNone(hashs, ix[r..]);
      while r > 0
        invariant r <= |ix| && Counted()
        invariant hashs == Keep(old(hashs), ix[r..]) && delNum == |old(hashs)| - |hashs|
      {
        r := r - 1;
        assert ix[r..] == [ix[r]] + ix[r + 1..];
        KeepOneMore(old(hashs), ix[r], ix[r + 1..]);
        if ix[r] < |hashs| {
          TalliedErase(detail, hashs, ix[r]);
          SetSrdInfo(Uuid(hashs[ix[r]]), -1);
          hashs := Without(hashs, ix[r]);
          delNum := delNum + 1;
        }
      }
      assert ix[0..] == ix;
    }

    /** deal_deleted_srd: removes exactly the entries that were marked, whatever has been appended since. */
    method DealDeleted()
      requires Valid()
      modifies this
      ensures Valid() && delIdx == [] && entries == Spared(old(entries))
    {
      var tmp := delIdx;
      delIdx := [];
      KeepIsSpared(hashs, tmp, entries);
      var _ := DeleteSrdMeta(tmp);
      entries := Spared(entries);
    }

    /** srd_decrease: after the marked entries, the last ones go. */
    method Decrease(change: nat) returns (gone: nat)
      requires Valid()
      modifies this
      ensures Valid() && delIdx == []
      ensures gone == if change < |Spared(old(entries))| then change else |Spared(old(entries))|
      ensures entries == Spared(old(entries))[..|Spared(old(entries))| - gone]
    {
      DealDeleted();
      gone := if change < |hashs| then change else |hashs|;
      if gone == 0 {
        return;
      }
      var ix := LastIndexes(|hashs|, gone);
      LastOnesAre(|hashs|, gone);
      KeepFront(hashs, ix, |hashs| - gone);
      var _ := DeleteSrdMeta(ix);
      entries := entries[..|entries| - gone];
    }

    /** One turn of the loop of srd_remove_space. */
    method TakeOne(k: nat, cur: seq<Request>, change: nat, ghost req: seq<Request>, ghost before: seq<Entry>)
      returns (cur': seq<Request>, change': nat)
      requires Valid() && k < |hashs| && LeftAt(cur, req, hashs, k + 1) && change == Total(cur)
      requires |before| == |hashs| && MarkedFrom(before, entries, hashs, req, k + 1)
      modifies this`delIdx, this`entries
      ensures Valid() && LeftAt(cur', req, hashs, k) && change' == Total(cur')
      ensures MarkedFrom(before, entries, hashs, req, k)
    {
      LeftStep(cur, req, hashs, k);
      MarkedStep(before, entries, hashs, req, k);
      cur', change' := cur, change;
      if Want(cur, Uuid(hashs[k])) > 0 {
        var _ := Mark(k);
        WantWithin(cur, Uuid(hashs[k]));
        cur', change' := Taken(cur, Uuid(hashs[k])), change - 1;
      }
    }

    /**
     srd_remove_space. The index is unsigned, so it wraps below zero instead of ending the loop;
     that happens exactly if some disk is to lose more entries than it has.
     */
    method RemoveSpace(req: seq<Request>) returns (wrapped: bool)
      requires Valid() && Distinct(req)
      modifies this`delIdx, this`entries
      ensures Valid()
      ensures wrapped <==> hashs != [] && Excessive(req, hashs)
      ensures !wrapped ==> MarkedFrom(old(entries), entries, hashs, req, 0)
    {
      var change := SumUp(req);
      if |hashs| == 0 {
        return false;
      }
      var cur, k := req, |hashs|;
      ghost var was := entries;
      NothingTaken(was, hashs, req);
      while change > 0
        invariant 0 <= k <= |hashs| && change == Total(cur) && LeftAt(cur, req, hashs, k)
        invariant Valid() && MarkedFrom(was, entries, hashs, req, k)
        decreases k
      {
        if k == 0 {
          SomeLeft(cur, req, hashs);
          return true;
        }
        k := k - 1;
        cur, change := TakeOne(k, cur, change, req, was);
      }
      NoneLeft(cur, req, hashs, k);
      MarkedAll(was, entries, hashs, req, k);
      wrapped := false;
    }
  }
}
