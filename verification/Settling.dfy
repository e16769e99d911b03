/**
 What reports are for, said on statuses and on the chain alone: after enough confirmed reports the
 chain holds exactly the files that are VALID. The condition is exact. A file that is VALID with
 ORIGIN = DELETED is never reported again; it comes about when a validation undoes a deletion that
 the chain has already taken (`RunSettlesIff`). The other pairs that stay behind do not come about.

 Also: what a validation does to the chain, by way of the next report.
 */
module Settling {
  import opened Basics
  import opened FileTable
  import opened Agreement
  import opened Reporting

  /** Pairs of statuses that no report settles. */
  predicate Stuck(f: File) {
    || (f.current == Valid && (f.origin == Deleted || f.origin == Pending))
    || (f.origin == Valid && (f.current == Unverified || f.current == Pending))
  }

  /** The files that are VALID, with their sizes. */
  ghost function ValidSizes(files: map<Cid, File>): map<Cid, nat> {
    map c | c in files && files[c].current == Valid :: files[c].size
  }

  // ----- The table after k reports -----

  lemma {:induction false} CountWithin(t: seq<Entry>)
    ensures Count(t) <= |t|
  {
    if t != [] {
      CountWithin(t[..|t| - 1]);
    }
  }

  lemma {:induction false} NoneOutstanding(t: seq<Entry>, i: nat)
    requires Count(t) == 0 && i < |t|
    ensures !Outstanding(t[i].file)
  {
    if i < |t| - 1 {
      NoneOutstanding(t[..|t| - 1], i);
    }
  }

  /** An entry keeps all but its ORIGIN, which is the old one, or CURRENT if that was to be reported. */
  ghost predicate Follows(e: Entry, e': Entry) {
    && e'.cid == e.cid && e'.file.current == e.file.current && e'.file.size == e.file.size
    && (e'.file.origin == e.file.origin || (Outstanding(e.file) && e'.file.origin == e.file.current))
  }

  lemma {:induction false} ReportsAt(t: seq<Entry>, k: nat, i: nat)
    requires Sorted(t) && i < |t|
    ensures Sorted(Reports(t, k)) && |Reports(t, k)| == |t| && Follows(t[i], Reports(t, k)[i])
  {
    if k != 0 {
      ReportsAt(t, k - 1, i);
      AfterReportSorted(Reports(t, k - 1));
      AfterReportAt(Reports(t, k - 1), i);
    }
  }

  /** With enough reports every entry that was to be reported has its status as ORIGIN. */
  lemma SettledAt(t: seq<Entry>, k: nat, i: nat)
    requires Sorted(t) && i < |t| && LIMIT * k >= |t|
    ensures |Reports(t, k)| == |t| && Follows(t[i], Reports(t, k)[i])
    ensures Reports(t, k)[i].file.origin == Valid <==> (t[i].file.current == Valid) != Stuck(t[i].file)
  {
    ReportsAt(t, k, i);
    CountWithin(t);
    ReportsDrainAll(t, k);
    NoneOutstanding(Reports(t, k), i);
  }

  ghost predicate NoneStuck(t: seq<Entry>) {
    forall i :: 0 <= i < |t| ==> !Stuck(t[i].file)
  }

  lemma SameFiles(t: seq<Entry>, k: nat, c: Cid)
    requires Sorted(t)
    ensures c in AsMap(t) <==> c in AsMap(Reports(t, k))
  {
    AsMapKeys(t, c);
    AsMapKeys(Reports(t, k), c);
    SameLength(t, k);
    forall i | 0 <= i < |t|
      ensures Reports(t, k)[i].cid == t[i].cid
    {
      ReportsAt(t, k, i);
    }
  }

  lemma {:induction false} SameLength(t: seq<Entry>, k: nat)
    requires Sorted(t)
    ensures Sorted(Reports(t, k)) && |Reports(t, k)| == |t|
  {
    if k != 0 {
      SameLength(t, k - 1);
      AfterReportSorted(Reports(t, k - 1));
    }
  }

  lemma EntryOf(t: seq<Entry>, k: nat, c: Cid) returns (i: nat)
    requires Sorted(t) && LIMIT * k >= |t| && c in AsMap(t)
    ensures i < |t| && t[i].cid == c && AsMap(t)[c] == t[i].file
    ensures c in AsMap(Reports(t, k)) && AsMap(Reports(t, k))[c].size == t[i].file.size
    ensures AsMap(Reports(t, k))[c].origin == Valid <==> (t[i].file.current == Valid) != Stuck(t[i].file)
  {
    AsMapKeys(t, c);
    i :| 0 <= i < |t| && t[i].cid == c;
    AsMapAt(t, i);
    SameLength(t, k);
    SettledAt(t, k, i);
    AsMapAt(Reports(t, k), i);
  }

  /** After enough reports the files with ORIGIN = VALID are the VALID ones, sizes included, iff no entry is stuck. */
  lemma SettlesIff(t: seq<Entry>, k: nat)
    requires Sorted(t) && 300 * k >= |t|
    ensures OriginSizes(AsMap(Reports(t, k))) == ValidSizes(AsMap(t)) <==> NoneStuck(t)
  {
    var after, goal := OriginSizes(AsMap(Reports(t, k))), ValidSizes(AsMap(t));
    if NoneStuck(t) {
      forall c
        ensures c in after <==> c in goal
        ensures c in after ==> after[c] == goal[c]
      {
        SameFiles(t, k, c);
        if c in AsMap(t) {
          var i := EntryOf(t, k, c);
        }
      }
      assert after == goal;
    } else {
      var i :| 0 <= i < |t| && Stuck(t[i].file);
      AsMapAt(t, i);
      var j := EntryOf(t, k, t[i].cid);
      SortedDistinct(t, i, j);
      assert t[i].cid in after <==> t[i].cid !in goal;
    }
  }

  // ----- The chain after k reports -----

  /** Reports are generated and confirmed in turn, with nothing in between. */
  function Rounds(w: World, t: seq<Entry>, k: nat): World {
    if k == 0 then w else Accept(Generate(Rounds(w, t, k - 1), Picked(Reports(t, k - 1))))
  }

  /** The table is that of the worker, and no report is under way. */
  ghost predicate AtRest(w: World, t: seq<Entry>) {
    Sorted(t) && AsMap(t) == w.files && Inv(w) && w.inFlight.None?
  }

  lemma OneRound(w: World, t: seq<Entry>)
    requires AtRest(w, t)
    ensures AtRest(Accept(Generate(w, Picked(t))), AfterReport(t))
  {
    PickedKeepsInv(t, w);
    AcceptKeeps(Generate(w, Picked(t)));
    AfterReportIsProtocol(t);
    AfterReportSorted(t);
  }

  lemma {:induction false} RoundsAre(w: World, t: seq<Entry>, k: nat)
    requires AtRest(w, t)
    ensures AtRest(Rounds(w, t, k), Reports(t, k))
  {
    if k != 0 {
      RoundsAre(w, t, k - 1);
      var w1, t1 := Rounds(w, t, k - 1), Reports(t, k - 1);
      OneRound(w1, t1);
      assert Reports(t, k) == AfterReport(t1);
    }
  }

  /** After enough confirmed reports the chain holds exactly the VALID files, sizes included, iff no entry is stuck. */
  lemma ChainSettlesIff(w: World, t: seq<Entry>, k: nat)
    requires AtRest(w, t) && 300 * k >= |t|
    ensures Rounds(w, t, k).chain == ValidSizes(w.files) <==> NoneStuck(t)
  {
    RoundsAre(w, t, k);
    SettlesIff(t, k);
  }

  // ----- What the condition is for the states that come about -----

  /** CURRENT is never UNVERIFIED and ORIGIN never PENDING. */
  ghost predicate Seen(files: map<Cid, File>) {
    forall c :: c in files ==> files[c].current != Unverified && files[c].origin != Pending
  }

  lemma AcceptKeepsSeen(w: World)
    requires Inv(w) && Seen(w.files)
    ensures Seen(Accept(w).files)
  {
    if w.inFlight.Some? {
      var r := w.inFlight.value;
      forall c | c in w.files && c in w.reported
        ensures w.files[c].waiting != Pending
      {
        assert c in r.added || c in r.deleted;
      }
    }
  }

  lemma StartKeepsSeen(w: World, c: Cid, rootCid: Cid)
    requires Seen(w.files)
    ensures Seen(SealStart(w, c, rootCid).files)
  {
  }

  lemma EndKeepsSeen(w: World, c: Cid, blockNum: nat, stored: bool)
    requires Seen(w.files)
    ensures Seen(SealEnd(w, c, blockNum, stored).files)
  {
  }

  lemma DeleteKeepsSeen(w: World, c: Cid, blockNum: nat, stored: bool)
    requires Seen(w.files)
    ensures Seen(Delete(w, c, blockNum, stored).files)
  {
    if c in w.files {
      var w' := w.(files := w.files[c := w.files[c].(current := Deleted)], buffer := w.buffer + {c});
      EndKeepsSeen(w', c, blockNum, stored);
    }
  }

  lemma SeenStep(w: World, a: Action)
    requires Inv(w) && Seen(w.files)
    ensures Seen(Apply(w, a).files)
  {
    match a
    case DoSealStart(c, rootCid) => StartKeepsSeen(w, c, rootCid);
    case DoSealEnd(c, blockNum, stored) => EndKeepsSeen(w, c, blockNum, stored);
    case DoDelete(c, blockNum, stored) => DeleteKeepsSeen(w, c, blockNum, stored);
    case DoAccept => AcceptKeepsSeen(w);
    case _ =>
  }

  lemma {:induction false} SeenRun(w: World, actions: seq<Action>)
    requires Inv(w) && w.lost == {} && Careful(w, actions) && Seen(w.files)
    ensures Inv(Run(w, actions)) && Seen(Run(w, actions).files)
    decreases |actions|
  {
    if actions != [] {
      StepKeeps(w, actions[0]);
      NothingLost(w, actions[0]);
      SeenStep(w, actions[0]);
      SeenRun(Apply(w, actions[0]), actions[1..]);
    }
  }

  /** A validation has undone a deletion that the chain had already taken. */
  ghost predicate Undone(f: File) {
    f.current == Valid && f.origin == Deleted
  }

  lemma StuckIsUndone(w: World, t: seq<Entry>)
    requires AtRest(w, t) && Seen(w.files)
    ensures NoneStuck(t) <==> forall c :: c in w.files ==> !Undone(w.files[c])
  {
    forall i | 0 <= i < |t|
      ensures t[i].cid in w.files && w.files[t[i].cid] == t[i].file
    {
      AsMapAt(t, i);
    }
    forall c | c in w.files
      ensures exists i :: 0 <= i < |t| && t[i].cid == c
    {
      AsMapKeys(t, c);
    }
  }

  /**
   After every careful run, from a state in which no report is under way, enough confirmed reports
   leave the chain with exactly the VALID files and their sizes, if and only if no file is VALID with
   ORIGIN = DELETED.
   */
  lemma RunSettlesIff(w: World, actions: seq<Action>, t: seq<Entry>, k: nat)
    requires Inv(w) && w.lost == {} && Seen(w.files) && Careful(w, actions)
    requires var w' := Run(w, actions); w'.inFlight.None? && Sorted(t) && AsMap(t) == w'.files
    requires 300 * k >= |t|
    ensures var w' := Run(w, actions);
            Rounds(w', t, k).chain == ValidSizes(w'.files)
            <==> forall c :: c in w'.files ==> !(w'.files[c].current == Valid && w'.files[c].origin == Deleted)
  {
    SeenRun(w, actions);
    var w' := Run(w, actions);
    ChainSettlesIff(w', t, k);
    StuckIsUndone(w', t);
  }

  // ----- Validation and the chain -----

  /** A file of the chain whose validation fails can be reported, and leaves the chain with any report that picks it. */
  lemma LostLeavesChain(w: World, c: Cid, snapshot: File, picked: set<Cid>)
    requires Inv(w) && w.inFlight.None? && c in w.files && c in w.chain && w.files[c].current == Valid
    requires snapshot.blockNum == w.files[c].blockNum > 0 && snapshot.current == Valid && c in picked
    ensures var w1 := Flip(w, c, snapshot);
            Enabled(w1, DoGenerate({c})) && c !in Accept(Generate(w1, picked)).chain
  {
    assert c in OriginSizes(w.files);
    var w1 := Flip(w, c, snapshot);
    FlipKeeps(w, c, snapshot);
    assert w1.files[c].origin == Valid;
    var r := ReportOf(w1.files, picked);
    assert c in r.deleted && c !in r.added;
  }

  /**
   A file that the chain knows as lost and that is found again can be reported, and is back with its
   size with any report that picks it.
   */
  lemma FoundReturnsToChain(w: World, c: Cid, snapshot: File, picked: set<Cid>)
    requires Inv(w) && w.inFlight.None? && c in w.files && w.files[c].current == Lost && w.files[c].origin == Lost
    requires snapshot.blockNum == w.files[c].blockNum > 0 && snapshot.current == Lost && c in picked
    ensures c !in w.chain
    ensures var w1 := Flip(w, c, snapshot);
            var chain := Accept(Generate(w1, picked)).chain;
            Enabled(w1, DoGenerate({c})) && c in chain && chain[c] == w.files[c].size
  {
    assert c !in OriginSizes(w.files);
    var w1 := Flip(w, c, snapshot);
    var r := ReportOf(w1.files, picked);
    assert c in r.added && r.added[c] == w.files[c].size;
  }

  /** Two changes, each of the entry as it is, restore everything. */
  lemma FlipTwiceRestores(w: World, c: Cid)
    requires c in w.files && (w.files[c].current == Valid || w.files[c].current == Lost)
    ensures var w1 := Flip(w, c, w.files[c]);
            c in w1.files && w1.files[c].current != w.files[c].current && Flip(w1, c, w1.files[c]) == w
  {
    var w1 := Flip(w, c, w.files[c]);
    var w2 := Flip(w1, c, w1.files[c]);
    assert w2.files[c] == w.files[c];
    assert w2.files == w.files;
  }

  /**
   How a file gets stuck: it is deleted, the chain takes that, a validation that was under way makes
   it LOST, and the next one VALID. It is then VALID for the worker and never reported.
   */
  lemma UndoneDeletionIsStuck(w: World, c: Cid, blockNum: nat, stored: bool)
    requires Inv(w) && w.inFlight.None? && c in w.files && c in w.chain
    requires w.files[c].current == Valid && w.files[c].blockNum > 0 && blockNum > 0
    ensures var gone := Accept(Generate(Delete(w, c, blockNum, stored), {c}));
            && Enabled(Delete(w, c, blockNum, stored), DoGenerate({c})) && c !in gone.chain && c in gone.files
            && var lost := Flip(gone, c, w.files[c]);
               c in lost.files
               && var back := Flip(lost, c, lost.files[c]);
                  c in back.files && back.files[c].current == Valid && Stuck(back.files[c])
  {
    assert c in OriginSizes(w.files);
    var w1 := Delete(w, c, blockNum, stored);
    assert w1.files[c].current == Deleted && w1.files[c].origin == Valid && w1.files[c].blockNum == w.files[c].blockNum;
    var r := ReportOf(w1.files, {c});
    assert c in r.deleted && c !in r.added;
  }

  /**
   Deleting a file under seal ends its sealing. If it is complete and can be stored, it is sealed
   instead of deleted: the clean-up leaves it, and the next report puts it on the chain with its size.
   Otherwise the clean-up collects it.
   */
  lemma DeletedPendingIsSealedIff(w: World, c: Cid, blockNum: nat, stored: bool)
    requires Inv(w) && w.inFlight.None? && c in w.files && w.files[c].current == Pending && blockNum > 0
    ensures var w' := DealDeleted(Delete(w, c, blockNum, stored));
            var chain := Accept(Generate(w', {c})).chain;
            && c !in w'.sealing && c !in w'.buffer
            && (c in w'.files <==> Complete(w, c) && stored) && (c in chain <==> Complete(w, c) && stored)
            && (c in chain ==> Enabled(w', DoGenerate({c})) && chain[c] == w.sealing[c].size)
  {
    var w1 := Delete(w, c, blockNum, stored);
    DeleteMeans(w, c, blockNum, stored);
    var w' := DealDeleted(w1);
    assert c !in w.chain by {
      assert c !in OriginSizes(w.files);
    }
    assert w'.chain == w.chain;
    if Complete(w, c) && stored {
      assert c !in Gone(w1);
      assert c in ReportOf(w'.files, {c}).added;
    } else {
      assert c in Gone(w1);
    }
  }

  // ----- What the chain has to do with collecting and sealing anew -----

  /** A deleted file that is to be collected goes exactly if the chain does not hold it; no other file goes. */
  lemma CollectedIff(w: World, c: Cid)
    requires Inv(w) && Seen(w.files) && c in w.files
    ensures c !in DealDeleted(w).files <==> c in w.buffer && w.files[c].current == Deleted && c !in w.chain
    ensures c in DealDeleted(w).files ==> DealDeleted(w).files[c] == w.files[c]
  {
    assert c in w.chain <==> w.files[c].origin == Valid by {
      assert w.chain == OriginSizes(w.files);
    }
  }

  /** A sealing starts exactly if there is room and the file is new, or deleted and neither on the chain nor lost. */
  lemma StartsIff(w: World, c: Cid)
    requires Inv(w) && Seen(w.files)
    ensures StartOutcome(w, c) == Started
       <==> && !w.upgrading && |w.files| < 400000 && |w.sealing| <= 500
            && (c in w.files ==> w.files[c].current == Deleted && w.files[c].origin != Lost && c !in w.chain)
  {
    if c in w.files {
      assert c in w.chain <==> w.files[c].origin == Valid by {
        assert w.chain == OriginSizes(w.files);
      }
    }
  }
}
