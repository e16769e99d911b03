/**
 The status scan of a work report (src/enclave/report/Report.cpp) and its
 confirmation (handle_report_result in src/enclave/workload/Workload.cpp).

 One pass over the sorted table freezes WAITING, lists the first 300 files that call
 for a report, and adds up the size that the worker claims. The scan is related to
 the report protocol on maps: what it lists is the report of exactly those files, and
 the size it claims is the total of the chain's files once the report is delivered.
 */
module Reporting {
  import opened Basics
  import opened Order
  import opened FileTable
  import opened Agreement

  /** WORKREPORT_FILE_LIMIT. */
  const LIMIT := 300

  /** How many files of the table call for a report. */
  function Count(t: seq<Entry>): nat {
    if t == [] then 0 else Count(t[..|t| - 1]) + (if Outstanding(t[|t| - 1].file) then 1 else 0)
  }

  /** The file at position `i` is among the first 300 that call for a report. */
  predicate Flagged(t: seq<Entry>, i: nat)
    requires i < |t|
  {
    Outstanding(t[i].file) && Count(t[..i]) < LIMIT
  }

  function PickedBefore(t: seq<Entry>, n: nat): set<Cid>
    requires n <= |t|
  {
    set i | 0 <= i < n && Flagged(t, i) :: t[i].cid
  }

  function Picked(t: seq<Entry>): set<Cid> { PickedBefore(t, |t|) }

  function Frozen(e: Entry): Entry { e.(file := e.file.(waiting := e.file.current)) }

  function Mark(t: seq<Entry>): seq<Entry> {
    seq(|t|, i requires 0 <= i < |t| => Frozen(t[i]))
  }

  function Confirmed(e: Entry, reported: set<Cid>): Entry {
    if e.cid in reported then e.(file := e.file.(origin := e.file.waiting)) else e
  }

  function ConfirmTable(t: seq<Entry>, reported: set<Cid>): seq<Entry> {
    seq(|t|, i requires 0 <= i < |t| => Confirmed(t[i], reported))
  }

  /** The total size of the files with ORIGIN = VALID. */
  function OriginTotal(t: seq<Entry>): nat {
    if t == [] then 0
    else OriginTotal(t[..|t| - 1]) + (if t[|t| - 1].file.origin == Valid then t[|t| - 1].file.size else 0)
  }

  lemma PickedAt(t: seq<Entry>, i: nat)
    requires Sorted(t) && i < |t|
    ensures t[i].cid in Picked(t) <==> Flagged(t, i)
  {
    if t[i].cid in Picked(t) {
      var j :| 0 <= j < |t| && Flagged(t, j) && t[j].cid == t[i].cid;
      SortedDistinct(t, i, j);
    }
  }

  lemma PickedStep(t: seq<Entry>, i: nat)
    requires i < |t|
    ensures PickedBefore(t, i + 1) == PickedBefore(t, i) + if Flagged(t, i) then {t[i].cid} else {}
  {
  }

  lemma CountStep(t: seq<Entry>, i: nat)
    requires i < |t|
    ensures Count(t[..i + 1]) == Count(t[..i]) + (if Outstanding(t[i].file) then 1 else 0)
  {
    assert t[..i + 1][..i] == t[..i];
  }

  lemma OriginTotalStep(t: seq<Entry>, i: nat)
    requires i < |t|
    ensures OriginTotal(t[..i + 1]) == OriginTotal(t[..i]) + (if t[i].file.origin == Valid then t[i].file.size else 0)
  {
    assert t[..i + 1][..i] == t[..i];
  }

  // ----- From the table to the map -----

  lemma MarkIsFreeze(t: seq<Entry>)
    requires Sorted(t)
    ensures Sorted(Mark(t)) && AsMap(Mark(t)) == Freeze(AsMap(t))
  {
    var t', m := Mark(t), Freeze(AsMap(t));
    forall i | 0 <= i < |t'|
      ensures t'[i].cid in m && m[t'[i].cid] == t'[i].file
    {
      AsMapAt(t, i);
    }
    ListsKeys(t, t', m);
    MapFromTable(t', m);
  }

  lemma ConfirmTableIsConfirm(t: seq<Entry>, reported: set<Cid>)
    requires Sorted(t)
    ensures Sorted(ConfirmTable(t, reported)) && AsMap(ConfirmTable(t, reported)) == Confirm(AsMap(t), reported)
  {
    var t', m := ConfirmTable(t, reported), Confirm(AsMap(t), reported);
    forall i | 0 <= i < |t'|
      ensures t'[i].cid in m && m[t'[i].cid] == t'[i].file
    {
      AsMapAt(t, i);
    }
    ListsKeys(t, t', m);
    MapFromTable(t', m);
  }

  lemma ListsKeys(t: seq<Entry>, t': seq<Entry>, m: map<Cid, File>)
    requires |t'| == |t| && m.Keys == AsMap(t).Keys && forall i :: 0 <= i < |t| ==> t'[i].cid == t[i].cid
    ensures forall c :: c in m ==> exists i :: 0 <= i < |t'| && t'[i].cid == c
  {
    forall c | c in m
      ensures exists i :: 0 <= i < |t'| && t'[i].cid == c
    {
      AsMapKeys(t, c);
      var i :| 0 <= i < |t| && t[i].cid == c;
      assert t'[i].cid == c;
    }
  }

  /** The sum of the values of a map. */
  ghost function Total(m: map<Cid, nat>): nat {
    if m == map[] then 0 else var c :| c in m; m[c] + Total(m - {c})
  }

  lemma {:induction false} TotalInsert(m: map<Cid, nat>, c: Cid, n: nat)
    requires c !in m
    ensures Total(m[c := n]) == Total(m) + n
    decreases |m|
  {
    var m' := m[c := n];
    var d :| d in m' && Total(m') == m'[d] + Total(m' - {d});
    if d == c {
      assert m' - {c} == m;
    } else {
      assert m' - {d} == (m - {d})[c := n];
      TotalInsert(m - {d}, c, n);
      TotalInsert(m - {d}, d, m[d]);
      assert (m - {d})[d := m[d]] == m;
    }
  }

  /** Adding up along the table or over the map makes no difference. */
  lemma {:induction false} OriginTotalIsTotal(t: seq<Entry>)
    requires Sorted(t)
    ensures OriginTotal(t) == Total(OriginSizes(AsMap(t)))
  {
    if t == [] {
      assert OriginSizes(map[]) == map[];
    } else {
      var n := |t| - 1;
      var front, e := t[..n], t[n];
      OriginTotalIsTotal(front);
      assert e.cid !in AsMap(front) by {
        AsMapKeys(front, e.cid);
        Irreflexive(e.cid);
      }
      OriginSizesInsert(AsMap(front), e.cid, e.file);
      if e.file.origin == Valid {
        TotalInsert(OriginSizes(AsMap(front)), e.cid, e.file.size);
      }
    }
  }

  lemma OriginSizesInsert(m: map<Cid, File>, c: Cid, f: File)
    requires c !in m
    ensures OriginSizes(m[c := f]) == if f.origin == Valid then OriginSizes(m)[c := f.size] else OriginSizes(m)
    ensures c !in OriginSizes(m)
  {
  }

  // ----- What a confirmed report leaves -----

  /** The table after a report on it has been generated and confirmed, with nothing in between. */
  function AfterReport(t: seq<Entry>): seq<Entry> { ConfirmTable(Mark(t), Picked(t)) }

  lemma AfterReportAt(t: seq<Entry>, i: nat)
    requires Sorted(t) && i < |t|
    ensures AfterReport(t)[i].cid == t[i].cid && AfterReport(t)[i].file.current == t[i].file.current
    ensures AfterReport(t)[i].file.size == t[i].file.size
    ensures AfterReport(t)[i].file.origin == if Flagged(t, i) then t[i].file.current else t[i].file.origin
  {
    PickedAt(t, i);
  }

  lemma AfterReportSorted(t: seq<Entry>)
    requires Sorted(t)
    ensures Sorted(AfterReport(t)) && |AfterReport(t)| == |t|
  {
    MarkIsFreeze(t);
    ConfirmTableIsConfirm(Mark(t), Picked(t));
  }

  lemma {:induction false} DrainedPrefix(t: seq<Entry>, n: nat)
    requires Sorted(t) && n <= |t|
    ensures Count(AfterReport(t)[..n]) == Count(t[..n]) - Min(LIMIT, Count(t[..n]))
  {
    if n != 0 {
      DrainedPrefix(t, n - 1);
      CountStep(t, n - 1);
      CountStep(AfterReport(t), n - 1);
      AfterReportAt(t, n - 1);
    }
  }

  /** A confirmed report settles the first 300 outstanding files and no others. */
  lemma ReportDrains(t: seq<Entry>)
    requires Sorted(t)
    ensures Count(AfterReport(t)) == Count(t) - Min(300, Count(t))
  {
    DrainedPrefix(t, |t|);
    assert t[..|t|] == t && AfterReport(t)[..|t|] == AfterReport(t);
  }

  function Reports(t: seq<Entry>, k: nat): seq<Entry> {
    if k == 0 then t else AfterReport(Reports(t, k - 1))
  }

  /** Without other changes, `k` confirmed reports leave 300 k fewer outstanding files, and none once that is enough. */
  lemma {:induction false} ReportsDrainAll(t: seq<Entry>, k: nat)
    requires Sorted(t)
    ensures Sorted(Reports(t, k))
    ensures Count(Reports(t, k)) == if Count(t) <= 300 * k then 0 else Count(t) - 300 * k
  {
    if k != 0 {
      ReportsDrainAll(t, k - 1);
      AfterReportSorted(Reports(t, k - 1));
      ReportDrains(Reports(t, k - 1));
    }
  }

  // ----- The scan -----

  /** The size claimed for the first `n` files: what the chain holds, changed by what is listed. */
  function Claimed(t: seq<Entry>, n: nat): int
    requires n <= |t|
  {
    if n == 0 then 0
    else
      var f := t[n - 1].file;
      Claimed(t, n - 1)
      + (if f.origin == Valid then f.size else 0)
      + (if !Flagged(t, n - 1) then 0 else if f.current == Valid then f.size else 0 - f.size)
  }

  lemma {:induction false} ClaimedIsOriginTotal(t: seq<Entry>, n: nat)
    requires Sorted(t) && n <= |t|
    ensures Claimed(t, n) == OriginTotal(AfterReport(t)[..n])
  {
    if n != 0 {
      ClaimedIsOriginTotal(t, n - 1);
      OriginTotalStep(AfterReport(t), n - 1);
      ClaimOfOne(t, n - 1);
    }
  }

  lemma ClaimOfOne(t: seq<Entry>, i: nat)
    requires Sorted(t) && i < |t|
    ensures |AfterReport(t)| == |t|
    ensures var f, g := t[i].file, AfterReport(t)[i].file;
            var change := if !Flagged(t, i) then 0 else if f.current == Valid then f.size else 0 - f.size;
            (if g.origin == Valid then g.size else 0) == (if f.origin == Valid then f.size else 0) + change
  {
    AfterReportAt(t, i);
  }

  /** Generating a report and confirming it at once is `AfterReport` on the table. */
  lemma AfterReportIsProtocol(t: seq<Entry>)
    requires Sorted(t)
    ensures AsMap(AfterReport(t)) == Confirm(Freeze(AsMap(t)), Picked(t))
  {
    MarkIsFreeze(t);
    ConfirmTableIsConfirm(Mark(t), Picked(t));
  }

  lemma PickedIsOutstanding(t: seq<Entry>, c: Cid)
    requires Sorted(t) && c in Picked(t)
    ensures c in AsMap(t) && Outstanding(AsMap(t)[c])
  {
    var i :| 0 <= i < |t| && Flagged(t, i) && t[i].cid == c;
    AsMapAt(t, i);
  }

  lemma ConfirmedIsDelivered(files: map<Cid, File>, picked: set<Cid>)
    requires forall c :: c in picked ==> c in files && Outstanding(files[c])
    ensures OriginSizes(Confirm(Freeze(files), picked)) == Delivered(OriginSizes(files), ReportOf(files, picked))
  {
  }

  /**
   The size a report claims is the total of the chain's files once the report is
   delivered, provided the chain holds the files with ORIGIN = VALID before.
   */
  lemma ClaimIsDeliveredTotal(t: seq<Entry>, chain: map<Cid, nat>)
    requires Sorted(t) && chain == OriginSizes(AsMap(t))
    ensures Claimed(t, |t|) == Total(Delivered(chain, ReportOf(AsMap(t), Picked(t))))
  {
    ClaimedIsOriginTotal(t, |t|);
    AfterReportSorted(t);
    assert AfterReport(t)[..|t|] == AfterReport(t);
    OriginTotalIsTotal(AfterReport(t));
    AfterReportIsProtocol(t);
    forall c | c in Picked(t)
      ensures c in AsMap(t) && Outstanding(AsMap(t)[c])
    {
      PickedIsOutstanding(t, c);
    }
    ConfirmedIsDelivered(AsMap(t), Picked(t));
  }

  /** `l` lists, in table order, the flagged files among the first `n` that are (or are not) VALID now. */
  ghost predicate Lists(t: seq<Entry>, n: nat, valid: bool, l: seq<Entry>) {
    && n <= |t| && Sorted(l)
    && (forall e ::
          e in l <==> exists i :: 0 <= i < n && Flagged(t, i) && (t[i].file.current == Valid) == valid && t[i] == e)
  }

  lemma ListsMore(t: seq<Entry>, n: nat, valid: bool, l: seq<Entry>)
    requires Sorted(t) && n < |t| && Lists(t, n, valid, l)
    ensures Flagged(t, n) && (t[n].file.current == Valid) == valid ==> Lists(t, n + 1, valid, l + [t[n]])
    ensures !(Flagged(t, n) && (t[n].file.current == Valid) == valid) ==> Lists(t, n + 1, valid, l)
  {
    if Flagged(t, n) && (t[n].file.current == Valid) == valid {
      forall e | e in l
        ensures Less(e.cid, t[n].cid)
      {
        var i :| 0 <= i < n && Flagged(t, i) && (t[i].file.current == Valid) == valid && t[i] == e;
      }
      assert forall i :: 0 <= i < |l| ==> l[i] in l;
    }
  }

  /** The two lists are the two halves of the report on the picked files. */
  lemma ListsAreReport(t: seq<Entry>, added: seq<Entry>, deleted: seq<Entry>)
    requires Sorted(t) && Lists(t, |t|, true, added) && Lists(t, |t|, false, deleted)
    ensures var r := ReportOf(AsMap(t), Picked(t));
            && (forall c :: c in r.added ==> exists e :: e in added && e.cid == c && e.file.size == r.added[c])
            && (forall e :: e in added ==> e.cid in r.added && r.added[e.cid] == e.file.size)
            && (forall c :: c in r.deleted ==> exists e :: e in deleted && e.cid == c)
            && (forall e :: e in deleted ==> e.cid in r.deleted)
  {
    var r := ReportOf(AsMap(t), Picked(t));
    forall c | c in Picked(t)
      ensures c in r.added ==> exists e :: e in added && e.cid == c && e.file.size == r.added[c]
      ensures c in r.deleted ==> exists e :: e in deleted && e.cid == c
    {
      var i :| 0 <= i < |t| && Flagged(t, i) && t[i].cid == c;
      AsMapAt(t, i);
      assert t[i] in if t[i].file.current == Valid then added else deleted;
    }
    forall e | e in added
      ensures e.cid in r.added && r.added[e.cid] == e.file.size
    {
      var i :| 0 <= i < |t| && Flagged(t, i) && t[i].file.current == Valid && t[i] == e;
      AsMapAt(t, i);
    }
    forall e | e in deleted
      ensures e.cid in r.deleted
    {
      var i :| 0 <= i < |t| && Flagged(t, i) && t[i].file.current != Valid && t[i] == e;
      AsMapAt(t, i);
    }
  }

  /** What the scan of gen_work_report gathers. */
  datatype Scan = Scan(acc: int, reported: set<Cid>, added: seq<Entry>, deleted: seq<Entry>, filesSize: int)

  ghost predicate Scanned(t: seq<Entry>, i: nat, s: Scan)
    requires i <= |t|
  {
    && s.acc == Min(LIMIT, Count(t[..i])) && |s.added| + |s.deleted| == s.acc
    && s.reported == PickedBefore(t, i)
    && Lists(t, i, true, s.added) && Lists(t, i, false, s.deleted)
    && s.filesSize == Claimed(t, i)
  }

  /** One entry of the scan. */
  method ScanEntry(t: seq<Entry>, i: nat, s: Scan) returns (s': Scan)
    requires Sorted(t) && i < |t| && Scanned(t, i, s)
    ensures Scanned(t, i + 1, s')
  {
    var e := t[i];
    CountStep(t, i);
    PickedStep(t, i);
    ListsMore(t, i, true, s.added);
    ListsMore(t, i, false, s.deleted);
    s' := s;
    if e.file.origin == Valid {
      s' := s'.(filesSize := s'.filesSize + e.file.size);
    }
    if s'.acc < LIMIT {
      if Outstanding(e.file) {
        if e.file.current == Deleted || e.file.current == Lost {
          s' := s'.(deleted := s'.deleted + [e], filesSize := s'.filesSize - e.file.size);
        } else if e.file.current == Valid {
          s' := s'.(added := s'.added + [e], filesSize := s'.filesSize + e.file.size);
        }
        s' := s'.(reported := s'.reported + {e.cid}, acc := s'.acc + 1);
      }
    }
  }

  /**
   The scan of gen_work_report: WAITING is frozen in every entry, at most 300 changes
   are listed in table order, and the claimed size is accumulated.
   */
  method ScanTable(t: seq<Entry>)
    returns (marked: seq<Entry>, reported: set<Cid>, added: seq<Entry>, deleted: seq<Entry>, filesSize: int)
    requires Sorted(t)
    ensures marked == Mark(t) && reported == Picked(t)
    ensures Lists(t, |t|, true, added) && Lists(t, |t|, false, deleted)
    ensures |added| + |deleted| == Min(LIMIT, Count(t))
    ensures filesSize == Total(Delivered(OriginSizes(AsMap(t)), ReportOf(AsMap(t), Picked(t))))
  {
    marked, reported, added, deleted, filesSize := t, {}, [], [], 0;
    var reportedAcc := 0;
    assert Count(t[..0]) == 0;
    for i := 0 to |t|
      invariant |marked| == |t|
      invariant forall k :: 0 <= k < |t| ==> marked[k] == if k < i then Frozen(t[k]) else t[k]
      invariant Scanned(t, i, Scan(reportedAcc, reported, added, deleted, filesSize))
    {
      var e := t[i];
      marked := marked[i := e.(file := e.file.(waiting := e.file.current))];
      var s := ScanEntry(t, i, Scan(reportedAcc, reported, added, deleted, filesSize));
      reportedAcc, reported, added, deleted, filesSize := s.acc, s.reported, s.added, s.deleted, s.filesSize;
    }
    assert t[..|t|] == t;
    ClaimIsDeliveredTotal(t, OriginSizes(AsMap(t)));
  }

  lemma PickedKeepsInv(t: seq<Entry>, w: World)
    requires Sorted(t) && AsMap(t) == w.files && Inv(w) && w.inFlight.None?
    ensures Inv(Generate(w, Picked(t)))
  {
    forall c | c in Picked(t)
      ensures c in w.files && Outstanding(w.files[c])
    {
      PickedIsOutstanding(t, c);
    }
    GenerateKeeps(w, Picked(t));
  }

  /**
   The claim of a report holds when it is confirmed, whatever careful steps other threads take in
   between: it is then the total size of the files with ORIGIN = VALID in the table.
   */
  lemma ClaimHoldsWhenConfirmed(t: seq<Entry>, w: World, actions: seq<Action>, t': seq<Entry>)
    requires Sorted(t) && AsMap(t) == w.files && Inv(w) && w.inFlight.None?
    requires Careful(Generate(w, Picked(t)), actions) && forall a :: a in actions ==> InWindow(a)
    requires Sorted(t') && AsMap(t') == Accept(Run(Generate(w, Picked(t)), actions)).files
    ensures Claimed(t, |t|) == OriginTotal(t')
  {
    var w1 := Generate(w, Picked(t));
    PickedKeepsInv(t, w);
    RunAgrees(w1, actions);
    var w2 := Run(w1, actions);
    WindowKeepsReport(w1, actions);
    AcceptKeeps(w2);
    ClaimIsDeliveredTotal(t, w.chain);
    OriginTotalIsTotal(t');
  }

  /** The size of the files that are VALID both now and on the chain. */
  function SettledTotal(t: seq<Entry>): nat {
    if t == [] then 0
    else
      var f := t[|t| - 1].file;
      SettledTotal(t[..|t| - 1]) + (if f.current == Valid && f.origin == Valid then f.size else 0)
  }

  /** The scan of an upgraded worker. */
  method ScanForUpgrade(t: seq<Entry>) returns (filesSize: int)
    ensures filesSize == SettledTotal(t)
  {
    filesSize := 0;
    for i := 0 to |t|
      invariant filesSize == SettledTotal(t[..i])
    {
      assert t[..i + 1][..i] == t[..i];
      if t[i].file.current == Valid && t[i].file.origin == Valid {
        filesSize := filesSize + t[i].file.size;
      }
    }
    assert t[..|t|] == t;
  }

  /** With no transition outstanding, the upgraded worker claims exactly what the chain holds. */
  lemma {:induction false} SettledIsOriginTotal(t: seq<Entry>)
    ensures SettledTotal(t) <= OriginTotal(t)
    ensures (forall i :: 0 <= i < |t| && t[i].file.origin == Valid ==> t[i].file.current == Valid) ==>
              SettledTotal(t) == OriginTotal(t)
  {
    if t != [] {
      SettledIsOriginTotal(t[..|t| - 1]);
    }
  }

  /** handle_report_result: each reported file that is still in the table takes its WAITING as ORIGIN. */
  method ConfirmFiles(t: seq<Entry>, reported: set<Cid>) returns (t': seq<Entry>)
    requires Sorted(t)
    ensures t' == ConfirmTable(t, reported)
  {
    t' := t;
    var left := reported;
    while left != {}
      invariant left <= reported && |t'| == |t|
      invariant forall i :: 0 <= i < |t| ==> t'[i] == Confirmed(t[i], reported - left)
      decreases left
    {
      var c :| c in left;
      SameOrder(t, t');
      var found, pos := Search(t', c);
      ConfirmOne(t, t', c, found, pos, reported - left);
      if found {
        t' := t'[pos := t'[pos].(file := t'[pos].file.(origin := t'[pos].file.waiting))];
      }
      left := left - {c};
      assert reported - left == (reported - (left + {c})) + {c};
    }
    assert reported - {} == reported;
  }

  lemma SameOrder(t: seq<Entry>, t': seq<Entry>)
    requires Sorted(t) && |t'| == |t| && forall i :: 0 <= i < |t| ==> t'[i].cid == t[i].cid
    ensures Sorted(t')
  {
  }

  lemma ConfirmOne(t: seq<Entry>, t': seq<Entry>, c: Cid, found: bool, pos: nat, done: set<Cid>)
    requires Sorted(t) && |t'| == |t| && c !in done
    requires forall i :: 0 <= i < |t| ==> t'[i] == Confirmed(t[i], done)
    requires found ==> pos < |t'| && t'[pos].cid == c
    requires !found ==> Belongs(t', c, pos)
    ensures forall i :: 0 <= i < |t| && !(found && i == pos) ==> t'[i] == Confirmed(t[i], done + {c})
    ensures found ==> t'[pos].(file := t'[pos].file.(origin := t'[pos].file.waiting)) == Confirmed(t[pos], done + {c})
  {
    forall i | 0 <= i < |t| && !(found && i == pos)
      ensures t[i].cid != c
    {
      if found {
        if t[i].cid == c {
          SortedDistinct(t, i, pos);
        }
      } else {
        Irreflexive(c);
        assert t'[i].cid == t[i].cid;
      }
    }
  }
}
