/**
 One srd turn outside the enclave (src/app/process/Srd.cpp): how many gigabytes each disk gets,
 the tasks that are started for them, and the room that is asked back for the reserve.
 */
module SrdTurn {
  import opened Basics
  import opened SrdStore

  function Sum(s: seq<nat>): nat {
    if s == [] then 0 else Sum(s[..|s| - 1]) + s[|s| - 1]
  }

  lemma {:induction false} SumPlusOne(s: seq<nat>, i: nat)
    requires i < |s|
    ensures Sum(s[i := s[i] + 1]) == Sum(s) + 1
  {
    var n := |s| - 1;
    var s' := s[i := s[i] + 1];
    if i == n {
      assert s'[..n] == s[..n];
    } else {
      assert s'[..n] == s[..n][i := s[i] + 1];
      SumPlusOne(s[..n], i);
    }
  }

  lemma {:induction false} SumWithin(a: seq<nat>, b: seq<nat>)
    requires |a| == |b| && forall i :: 0 <= i < |a| ==> a[i] <= b[i]
    ensures Sum(a) <= Sum(b)
  {
    if a != [] {
      SumWithin(a[..|a| - 1], b[..|b| - 1]);
    }
  }

  lemma {:induction false} SumZeros(s: seq<nat>)
    requires forall i :: 0 <= i < |s| ==> s[i] == 0
    ensures Sum(s) == 0
  {
    if s != [] {
      SumZeros(s[..|s| - 1]);
    }
  }

  // ----- Sharing out -----

  /** Every disk has got `level` gigabytes, the first `k` disks one more, or all that was available. */
  predicate Level(avail: seq<nat>, use: seq<nat>, level: nat, k: nat) {
    |use| == |avail|
    && forall i :: 0 <= i < |avail| ==> use[i] == Min(avail[i], if i < k then level + 1 else level)
  }

  lemma NextLevel(avail: seq<nat>, use: seq<nat>, level: nat)
    requires Level(avail, use, level, |avail|)
    ensures Level(avail, use, level + 1, 0)
  {
  }

  /** One pass over the disks of get_increase_srd_info_r, while there is something to share out. */
  method Pass(avail: seq<nat>, use0: seq<nat>, change0: nat, ghost level: nat)
    returns (use: seq<nat>, change: nat, some: bool, k: nat)
    requires Level(avail, use0, level, 0) && change0 > 0
    ensures k <= |avail| && Level(avail, use, level, k)
    ensures change + Sum(use) == change0 + Sum(use0)
    ensures change > 0 ==> k == |avail|
    ensures some <==> change < change0
    ensures !some ==> k == |avail| && use == use0 == avail
  {
    use, change, some, k := use0, change0, false, 0;
    while k < |avail| && change > 0
      invariant k <= |avail| && Level(avail, use, level, k)
      invariant change + Sum(use) == change0 + Sum(use0) && 0 <= change <= change0
      invariant some <==> change < change0
      invariant !some ==> use == use0 && forall i :: 0 <= i < k ==> avail[i] == use[i]
    {
      if avail[k] - use[k] > 0 {
        SumPlusOne(use, k);
        use := use[k := use[k] + 1];
        change := change - 1;
        some := true;
      }
      k := k + 1;
    }
  }

  /**
   get_increase_srd_info_r: `change` gigabytes are dealt out to the disks in turn. As many go out
   as fit, and they are spread evenly.
   */
  method ShareOut(avail: seq<nat>, change: int) returns (use: seq<nat>, left: int)
    ensures |use| == |avail| && Sum(use) == if change <= 0 then 0 else Min(change, Sum(avail))
    ensures left == change - Sum(use)
    ensures exists level: nat, k: nat {:trigger Level(avail, use, level, k)} ::
              k <= |avail| && Level(avail, use, level, k)
  {
    use, left := seq(|avail|, _ => 0), change;
    SumZeros(use);
    ghost var level: nat, k: nat := 0, 0;
    var some := true;
    while left > 0 && some
      invariant k <= |avail| && Level(avail, use, level, k) && left + Sum(use) == change
      invariant left > 0 && some ==> k == 0
      invariant change <= 0 ==> left == change
      invariant change > 0 ==> left >= 0
      invariant left > 0 && !some ==> use == avail
      decreases left, some
    {
      ghost var k';
      use, left, some, k' := Pass(avail, use, left, level);
      if left > 0 && some {
        NextLevel(avail, use, level);
        level, k := level + 1, 0;
      } else {
        k := k';
      }
    }
    SumWithin(use, avail);
  }

  // ----- Starting the tasks -----

  /** How many tasks were started for a disk. */
  function Started(tasks: seq<nat>, i: nat): nat {
    if tasks == [] then 0 else Started(tasks[..|tasks| - 1], i) + (if tasks[|tasks| - 1] == i then 1 else 0)
  }

  lemma StartedMore(tasks: seq<nat>, d: nat, i: nat)
    ensures Started(tasks + [d], i) == Started(tasks, i) + if d == i then 1 else 0
  {
    assert (tasks + [d])[..|tasks|] == tasks;
  }

  /** What a disk still has to start, and what it has started, make what it was given. */
  ghost predicate Balanced(use: seq<nat>, todo: seq<nat>, tasks: seq<nat>) {
    |todo| == |use| && forall i :: 0 <= i < |use| ==> todo[i] + Started(tasks, i) == use[i]
  }

  lemma StartOne(use: seq<nat>, todo: seq<nat>, tasks: seq<nat>, i: nat)
    requires Balanced(use, todo, tasks) && i < |todo| && todo[i] > 0
    ensures Balanced(use, todo[i := todo[i] - 1], tasks + [i]) && Sum(todo) == Sum(todo[i := todo[i] - 1]) + 1
  {
    var todo' := todo[i := todo[i] - 1];
    SumPlusOne(todo', i);
    assert todo'[i := todo'[i] + 1] == todo;
    forall j | 0 <= j < |use|
      ensures todo'[j] + Started(tasks + [i], j) == use[j]
    {
      StartedMore(tasks, i, j);
    }
  }

  lemma {:induction false} SumZeroMeans(s: seq<nat>)
    requires Sum(s) == 0
    ensures forall i :: 0 <= i < |s| ==> s[i] == 0
  {
    if s != [] {
      SumZeroMeans(s[..|s| - 1]);
    }
  }

  /** The loop of srd_change that starts the tasks: for each disk exactly as many as it was given. */
  method Dispatch(use: seq<nat>, trueIncrease: nat) returns (tasks: seq<nat>)
    requires trueIncrease == Sum(use)
    ensures forall i :: 0 <= i < |use| ==> Started(tasks, i) == use[i]
    ensures |tasks| == trueIncrease
  {
    tasks := [];
    var todo, task, end := use, trueIncrease, false;
    while task > 0 && !end
      invariant Balanced(use, todo, tasks) && task == Sum(todo) && |tasks| + task == trueIncrease
      invariant end ==> task == 0
      decreases task, !end
    {
      end := true;
      ghost var before := task;
      for i := 0 to |todo|
        invariant Balanced(use, todo, tasks) && task == Sum(todo) && |tasks| + task == trueIncrease
        invariant task <= before && (end <==> task == before)
        invariant end ==> forall j :: 0 <= j < i ==> todo[j] == 0
      {
        if todo[i] > 0 {
          StartOne(use, todo, tasks, i);
          task := task - 1;
          end := false;
          todo := todo[i := todo[i] - 1];
          tasks := tasks + [i];
        }
      }
      if end {
        SumZeros(todo);
      }
    }
    SumZeroMeans(todo);
  }

  // ----- Asking room back -----

  datatype Disk = Disk(uuid: string, avail: nat)

  /** What a disk is asked for: what its free space falls short of the reserve, but no more entries than it has. */
  function Shortfall(d: Disk, reserved: nat, detail: map<string, int>): nat {
    if d.avail < reserved then Max(0, Min(reserved - d.avail, Get(detail, d.uuid))) else 0
  }

  /** Giving back this many entries brings the free space up to the reserve. */
  predicate Restores(d: Disk, reserved: nat, n: nat) { d.avail + n >= reserved }

  /**
   What is asked for is the least number of entries, of those that the disk has, that brings its free
   space up to the reserve; if all of them do not, it is all of them.
   */
  lemma ShortfallIsLeast(d: Disk, reserved: nat, detail: map<string, int>, n: nat)
    requires Get(detail, d.uuid) >= 0
    ensures n == Shortfall(d, reserved, detail)
       <==> && n <= Get(detail, d.uuid) && (Restores(d, reserved, n) || n == Get(detail, d.uuid))
            && forall m: nat :: Restores(d, reserved, m) ==> n <= m
  {
    var least := if d.avail < reserved then reserved - d.avail else 0;
    assert Restores(d, reserved, least);
  }

  /** What the disks with a uuid are asked for together. */
  function Due(disks: seq<Disk>, u: string, reserved: nat, detail: map<string, int>): nat {
    if disks == [] then 0
    else
      var n := |disks| - 1;
      Due(disks[..n], u, reserved, detail) + if disks[n].uuid == u then Shortfall(disks[n], reserved, detail) else 0
  }

  /** `object[uuid].AddNum(n)`. */
  function Added(req: seq<Request>, u: string, n: nat): seq<Request> {
    if req == [] then [Request(u, n)]
    else if req[0].uuid == u then [Request(u, req[0].num + n)] + req[1..]
    else [req[0]] + Added(req[1..], u, n)
  }

  lemma {:induction false} AddedWant(req: seq<Request>, u: string, n: nat, v: string)
    ensures Want(Added(req, u, n), v) == Want(req, v) + if u == v then n else 0
  {
    if req == [] {
      assert [Request(u, n)][1..] == [];
    } else if req[0].uuid == u {
      assert ([Request(u, req[0].num + n)] + req[1..])[1..] == req[1..];
    } else {
      AddedWant(req[1..], u, n, v);
      assert ([req[0]] + Added(req[1..], u, n))[1..] == Added(req[1..], u, n);
    }
  }

  lemma {:induction false} AddedKeys(req: seq<Request>, u: string, n: nat, i: nat)
    requires i < |Added(req, u, n)|
    ensures Added(req, u, n)[i].uuid == u || (i < |req| && Added(req, u, n)[i].uuid == req[i].uuid)
  {
    if req != [] && req[0].uuid != u && i > 0 {
      AddedKeys(req[1..], u, n, i - 1);
    }
  }

  lemma {:induction false} AddedDistinct(req: seq<Request>, u: string, n: nat)
    requires Distinct(req)
    ensures Distinct(Added(req, u, n))
  {
    if req != [] && req[0].uuid != u {
      AddedDistinct(req[1..], u, n);
      var more := Added(req[1..], u, n);
      forall i | 0 <= i < |more|
        ensures more[i].uuid != req[0].uuid
      {
        AddedKeys(req[1..], u, n, i);
      }
    }
  }

  /**
   The loop of srd_check_reserved: every disk below the reserve is asked, and what is asked under one
   uuid adds up.
   */
  method AskBack(disks: seq<Disk>, reserved: nat, detail: map<string, int>) returns (req: seq<Request>)
    ensures Distinct(req) && forall u :: Want(req, u) == Due(disks, u, reserved, detail)
  {
    req := [];
    for n := 0 to |disks|
      invariant Distinct(req) && forall u :: Want(req, u) == Due(disks[..n], u, reserved, detail)
    {
      var d := disks[n];
      assert disks[..n + 1][..n] == disks[..n];
      var delSpace := 0;
      if d.avail < reserved {
        delSpace := Min(reserved - d.avail, Get(detail, d.uuid));
        if delSpace > 0 {
          AddedDistinct(req, d.uuid, delSpace);
          forall u
            ensures Want(Added(req, d.uuid, delSpace), u) == Want(req, u) + if d.uuid == u then delSpace else 0
          {
            AddedWant(req, d.uuid, delSpace, u);
          }
          req := Added(req, d.uuid, delSpace);
        }
      }
    }
    assert disks[..|disks|] == disks;
  }

  ghost predicate DistinctDisks(disks: seq<Disk>) {
    forall i, j :: 0 <= i < j < |disks| ==> disks[i].uuid != disks[j].uuid
  }

  lemma {:induction false} NotDue(disks: seq<Disk>, u: string, reserved: nat, detail: map<string, int>)
    requires forall i :: 0 <= i < |disks| ==> disks[i].uuid != u
    ensures Due(disks, u, reserved, detail) == 0
  {
    if disks != [] {
      NotDue(disks[..|disks| - 1], u, reserved, detail);
    }
  }

  lemma {:induction false} DueOnce(disks: seq<Disk>, u: string, reserved: nat, detail: map<string, int>)
    requires DistinctDisks(disks)
    ensures Due(disks, u, reserved, detail) <= Max(0, Get(detail, u))
  {
    if disks != [] {
      var n := |disks| - 1;
      if disks[n].uuid == u {
        NotDue(disks[..n], u, reserved, detail);
      } else {
        DueOnce(disks[..n], u, reserved, detail);
      }
    }
  }

  /** With counters that are up to date and disks with different uuids, no disk is asked for more than it has. */
  lemma AskedIsThere(req: seq<Request>, disks: seq<Disk>, reserved: nat, detail: map<string, int>, s: seq<Item>)
    requires Tallied(detail, s) && DistinctDisks(disks)
    requires forall u :: Want(req, u) == Due(disks, u, reserved, detail)
    ensures !Excessive(req, s)
  {
    forall u
      ensures Want(req, u) <= On(s, u)
    {
      DueOnce(disks, u, reserved, detail);
      assert Get(detail, u) == On(s, u);
    }
  }

  /** Two paths with one uuid, both short by all that it has, are asked for twice as much: the removal then overruns. */
  lemma SharedUuidAsksTooMuch(
      req: seq<Request>, d: Disk, e: Disk, reserved: nat, detail: map<string, int>, s: seq<Item>)
    requires Tallied(detail, s) && forall u :: Want(req, u) == Due([d, e], u, reserved, detail)
    requires d.uuid == e.uuid && On(s, d.uuid) > 0
    requires d.avail + On(s, d.uuid) <= reserved && e.avail + On(s, e.uuid) <= reserved
    ensures Want(req, d.uuid) == 2 * On(s, d.uuid) && Excessive(req, s)
  {
    assert Get(detail, d.uuid) == On(s, d.uuid);
    assert [d, e][..1] == [d] && [d][..0] == [];
    assert Due([d], d.uuid, reserved, detail) == On(s, d.uuid);
  }
}
