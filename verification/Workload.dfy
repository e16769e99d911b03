/**
 The worker's file state (src/enclave/workload/Workload.cpp, src/enclave/storage/Storage.cpp,
 src/enclave/report/Report.cpp): the sorted table of files, the counters of files under
 seal, the buffer of deleted files and the set of reported files, changed in place.

 Each method is one operation of the protocol in `Agreement`, on the map that the table
 stands for. Ghost fields follow the chain, the open report and, for each file under
 seal, the blocks that have been counted.
 */
module FileWorkload {
  import opened Basics
  import opened FileTable
  import opened Agreement
  import opened SealingCounters
  import Reporting
  import Dag

  lemma {:induction false} AsMapSize(t: seq<Entry>)
    requires Sorted(t)
    ensures |AsMap(t)| == |t|
  {
    if t != [] {
      var n := |t| - 1;
      AsMapSize(t[..n]);
      FoundNowhere(t[..n], t[n].cid, n);
    }
  }

  /** Every file under seal is explained by its log. */
  ghost predicate Tallied(env: Env, pending: map<Cid, Sealing>, logs: map<Cid, Log>) {
    logs.Keys == pending.Keys
    && forall r {:trigger TalliedAt(env, pending, logs, r)} :: TalliedAt(env, pending, logs, r)
  }

  ghost predicate TalliedAt(env: Env, pending: map<Cid, Sealing>, logs: map<Cid, Log>, r: Cid) {
    r in pending && r in logs ==> Explains(env, pending[r], logs[r])
  }

  lemma TalliedUpdate(env: Env, pending: map<Cid, Sealing>, logs: map<Cid, Log>, r: Cid, s: Sealing, log: Log)
    requires Tallied(env, pending, logs) && Explains(env, s, log)
    ensures Tallied(env, pending[r := s], logs[r := log])
  {
    var pending', logs' := pending[r := s], logs[r := log];
    forall x
      ensures TalliedAt(env, pending', logs', x)
    {
      assert TalliedAt(env, pending, logs, x);
    }
  }

  lemma TalliedRemove(env: Env, pending: map<Cid, Sealing>, logs: map<Cid, Log>, r: Cid)
    requires Tallied(env, pending, logs)
    ensures Tallied(env, pending - {r}, logs - {r})
  {
    var pending', logs' := pending - {r}, logs - {r};
    forall x
      ensures TalliedAt(env, pending', logs', x)
    {
      assert TalliedAt(env, pending, logs, x);
    }
  }

  function LogOf(logs: map<Cid, Log>, r: Cid): Log { if r in logs then logs[r] else NO_LOG }

  /** The entry that `operator[]` gives, new or not, is explained. */
  lemma EntryExplained(env: Env, pending: map<Cid, Sealing>, logs: map<Cid, Log>, r: Cid)
    requires Tallied(env, pending, logs)
    ensures Explains(env, SealingOf(pending, r), LogOf(logs, r))
  {
    NothingTallies(env);
    assert TalliedAt(env, pending, logs, r);
  }

  ghost predicate TableShows(t: seq<Entry>, w: World) {
    Sorted(t) && AsMap(t) == w.files
  }

  /** What the root adds to the entry of a file under seal. */
  function WithRoot(s: Sealing, rootCid: Cid): Sealing { s.(blocks := Bump(s.blocks, rootCid, 1)) }

  /** What a successful start leaves: a fresh entry and a file under seal that waits for its root. */
  lemma StartedWorld(w: World, c: Cid, rootCid: Cid)
    requires StartCheck(w, c) == Started
    ensures SealStart(w, c, rootCid).files
         == if |w.sealing| > MAX_PENDING then w.files[c := FRESH] - {c} else w.files[c := FRESH]
    ensures SealStart(w, c, rootCid).sealing
         == if |w.sealing| > MAX_PENDING then w.sealing
            else w.sealing[c := WithRoot(SealingOf(w.sealing, c), rootCid)]
  {
    ReplacedEntry(w.files, c, FRESH);
    var d := Drop(w, {c});
    assert d.files == w.files - {c} && d.sealing == w.sealing;
    BegunWorld(d, c, rootCid);
  }

  lemma BegunWorld(d: World, c: Cid, rootCid: Cid)
    ensures Begin(d, c, rootCid).files == d.files[c := FRESH]
    ensures Begin(d, c, rootCid).sealing == d.sealing[c := WithRoot(SealingOf(d.sealing, c), rootCid)]
  {
  }

  lemma ReplacedEntry(files: map<Cid, File>, c: Cid, f: File)
    ensures (files - {c})[c := f] == files[c := f] && files[c := f] - {c} == files - {c}
  {
  }

  datatype EndResult = Sealed | NotFound | Refused

  /**
   `world` is the protocol state that the fields show, with the chain's side of it.
   Every method makes one step of `Agreement` in it, so `Inv(world)` is kept by
   `Agreement.StepKeeps`; `Valid` is what the representation adds.
   */
  class Workload {
    const env: Env
    var sealedFiles: seq<Entry>
    var pendingFiles: map<Cid, Sealing>
    var fileDelCids: set<Cid>
    var reportedFiles: set<Cid>
    var upgrading: bool
    ghost var world: World
    ghost var logs: map<Cid, Log>

    ghost predicate Valid()
      reads this
    {
      && Real(env) && TableShows(sealedFiles, world) && Tallied(env, pendingFiles, logs)
      && pendingFiles == world.sealing && fileDelCids == world.buffer
      && reportedFiles == world.reported && upgrading == world.upgrading
    }

    constructor (env: Env)
      requires Real(env)
      ensures Valid() && this.env == env && Inv(world)
      ensures world == World(map[], map[], {}, {}, false, map[], None, {})
    {
      this.env := env;
      sealedFiles, pendingFiles, fileDelCids, reportedFiles, upgrading := [], map[], {}, {}, false;
      world, logs := World(map[], map[], {}, {}, false, map[], None, {}), map[];
      new;
      assert OriginSizes(map[]) == map[];
    }

    /** check_seal_file_dup: on success the CID has a fresh PENDING entry in the table. */
    method CheckSealFileDup(cid: Cid) returns (r: StartResult)
      requires Sorted(sealedFiles) && AsMap(sealedFiles) == world.files && !world.upgrading && |world.files| < MAX_FILES
      modifies this`sealedFiles
      ensures r == StartCheck(world, cid) && Sorted(sealedFiles)
      ensures AsMap(sealedFiles) == if r == Started then world.files[cid := FRESH] else world.files
    {
      var found, pos := Search(sealedFiles, cid);
      if found {
        var file := sealedFiles[pos].file;
        if file.current == Pending {
          return BeingSealed;
        } else if file.current == Deleted {
          if file.origin == Deleted || file.origin == Unverified {
            EraseIsMapRemove(sealedFiles, pos);
            EraseShape(sealedFiles, pos);
            sealedFiles := Without(sealedFiles, pos);
          } else {
            return BeingDeleted;
          }
        } else {
          return Duplicate;
        }
      }
      InsertIsMapInsert(sealedFiles, pos, Entry(cid, FRESH));
      sealedFiles := Insert(sealedFiles, pos, Entry(cid, FRESH));
      ReplacedEntry(world.files, cid, FRESH);
      r := Started;
    }

    /** del_file_nolock. */
    method DelFile(cid: Cid)
      requires Sorted(sealedFiles)
      modifies this`sealedFiles
      ensures Sorted(sealedFiles) && AsMap(sealedFiles) == old(AsMap(sealedFiles)) - {cid}
    {
      var found, pos := Search(sealedFiles, cid);
      if found {
        EraseIsMapRemove(sealedFiles, pos);
        sealedFiles := Without(sealedFiles, pos);
      }
    }

    /** storage_seal_file_start. */
    method SealFileStart(cid: Cid, rootCid: Cid) returns (r: StartResult)
      requires Valid()
      modifies this`sealedFiles, this`pendingFiles, this`logs, this`world
      ensures Valid() && world == SealStart(old(world), cid, rootCid)
      ensures r == StartOutcome(old(world), cid)
    {
      if upgrading {
        return Upgrading;
      }
      AsMapSize(sealedFiles);
      if |sealedFiles| >= MAX_FILES {
        return TooMany;
      }
      r := CheckSealFileDup(cid);
      if r != Started {
        return;
      }
      r := EnterFile(cid, rootCid);
    }

    /** The rest of storage_seal_file_start, when the entry is in the table. */
    method EnterFile(cid: Cid, rootCid: Cid) returns (r: StartResult)
      requires StartCheck(world, cid) == Started
      requires Sorted(sealedFiles) && AsMap(sealedFiles) == world.files[cid := FRESH]
      requires Tallied(env, pendingFiles, logs)
      requires pendingFiles == world.sealing
      modifies this`sealedFiles, this`pendingFiles, this`logs, this`world
      ensures world == SealStart(old(world), cid, rootCid) && r == StartOutcome(old(world), cid)
      ensures TableShows(sealedFiles, world) && Tallied(env, pendingFiles, logs) && pendingFiles == world.sealing
      ensures world.buffer == old(world).buffer && world.reported == old(world).reported
      ensures world.upgrading == old(world).upgrading
    {
      StartedWorld(world, cid, rootCid);
      r := AdmitFile(cid, rootCid);
      world := SealStart(world, cid, rootCid);
    }

    /** The new entry goes again if too many files are under seal. */
    method AdmitFile(cid: Cid, rootCid: Cid) returns (r: StartResult)
      requires Sorted(sealedFiles) && Tallied(env, pendingFiles, logs)
      modifies this`sealedFiles, this`pendingFiles, this`logs
      ensures Sorted(sealedFiles) && Tallied(env, pendingFiles, logs)
      ensures |old(pendingFiles)| > MAX_PENDING ==>
                r == TooMany && AsMap(sealedFiles) == old(AsMap(sealedFiles)) - {cid}
                && pendingFiles == old(pendingFiles)
      ensures |old(pendingFiles)| <= MAX_PENDING ==>
                r == Started && AsMap(sealedFiles) == old(AsMap(sealedFiles)) &&
                pendingFiles == old(pendingFiles)[cid := WithRoot(SealingOf(old(pendingFiles), cid), rootCid)]
    {
      if |pendingFiles| > MAX_PENDING {
        DelFile(cid);
        return TooMany;
      }
      ExpectRoot(cid, rootCid);
      r := Started;
    }

    /** The root is expected once more, also on top of what late blocks have left. */
    method ExpectRoot(cid: Cid, rootCid: Cid)
      requires Tallied(env, pendingFiles, logs)
      modifies this`pendingFiles, this`logs
      ensures pendingFiles == old(pendingFiles)[cid := WithRoot(SealingOf(old(pendingFiles), cid), rootCid)]
      ensures logs == old(logs)[cid := LogOf(old(logs), cid).(roots := LogOf(old(logs), cid).roots + [rootCid])]
      ensures Tallied(env, pendingFiles, logs)
    {
      EntryExplained(env, pendingFiles, logs, cid);
      var s := SealingOf(pendingFiles, cid);
      ghost var log := LogOf(logs, cid);
      StartTallies(env, s.blocks, log, rootCid);
      PutExplained(cid, WithRoot(s, rootCid), log.(roots := log.roots + [rootCid]));
    }

    /** The section of storage_seal_file that looks the file up and counts the block. */
    method CountBlock(root: Cid, block: Bytes) returns (ok: bool)
      requires Valid()
      modifies this`pendingFiles, this`logs, this`world
      ensures Valid() && world == TakeBlock(old(world), root, env.cid(block))
      ensures ok <==> root in old(pendingFiles)
      ensures ok ==> logs == old(logs)[root := old(logs)[root].(taken := old(logs)[root].taken + [block])]
      ensures !ok ==> logs == old(logs)
    {
      ok := root in pendingFiles;
      if ok {
        CountFetched(root, block);
      }
    }

    /** The same for a block that was fetched since the look-up: the entry of the file is made if it is gone. */
    method CountFetched(root: Cid, block: Bytes)
      requires Valid()
      modifies this`pendingFiles, this`logs, this`world
      ensures Valid() && world == TakeFetched(old(world), root, env.cid(block))
      ensures logs == old(logs)[root := LogOf(old(logs), root).(taken := LogOf(old(logs), root).taken + [block])]
    {
      var c := Identify(env, block);
      EntryExplained(env, pendingFiles, logs, root);
      var s := SealingOf(pendingFiles, root);
      ghost var log := LogOf(logs, root);
      TakeTallies(env, s.blocks, log, block);
      PutExplained(root, s.(blocks := Bump(s.blocks, c, -1)), log.(taken := log.taken + [block]));
      world := TakeFetched(world, root, c);
    }

    /** The section that counts the links of the block. */
    method CountLinks(root: Cid, block: Bytes) returns (ok: bool)
      requires Valid()
      modifies this`pendingFiles, this`logs, this`world
      ensures Valid() && world == LinkBlock(old(world), root, env.links(block))
      ensures ok <==> root in old(pendingFiles)
      ensures ok ==> logs == old(logs)[root := old(logs)[root].(linked := old(logs)[root].linked + [block])]
      ensures !ok ==> logs == old(logs)
    {
      var children := IdentifyLinks(env, block);
      if root !in pendingFiles {
        return false;
      }
      var s := pendingFiles[root];
      ghost var log := logs[root];
      assert TalliedAt(env, pendingFiles, logs, root);
      var blocks := Expect(s.blocks, children);
      LinkTallies(env, s.blocks, log, block);
      PutExplained(root, s.(blocks := blocks), log.(linked := log.linked + [block]));
      world := LinkBlock(world, root, children);
      ok := true;
    }

    method PutExplained(root: Cid, s: Sealing, ghost log: Log)
      requires Tallied(env, pendingFiles, logs) && Explains(env, s, log)
      modifies this`pendingFiles, this`logs
      ensures Tallied(env, pendingFiles, logs)
      ensures pendingFiles == old(pendingFiles)[root := s] && logs == old(logs)[root := log]
    {
      TalliedUpdate(env, pendingFiles, logs, root, s, log);
      pendingFiles := pendingFiles[root := s];
      logs := logs[root := log];
    }

    /** The section that records a block that is on disk. */
    method CountBytes(root: Cid, block: Bytes) returns (ok: bool)
      requires Valid()
      modifies this`pendingFiles, this`logs, this`world
      ensures Valid() && world == RecordBlock(old(world), root, |block|)
      ensures ok <==> root in old(pendingFiles)
      ensures ok ==> logs == old(logs)[root := old(logs)[root].(stored := old(logs)[root].stored + [block])]
      ensures !ok ==> logs == old(logs)
    {
      if root !in pendingFiles {
        return false;
      }
      var s := pendingFiles[root];
      ghost var log := logs[root];
      assert TalliedAt(env, pendingFiles, logs, root);
      StoreExplains(env, s, log, block);
      ghost var log' := log.(stored := log.stored + [block]);
      var s' := s.(size := s.size + |block|);
      PutExplained(root, s', log');
      world := RecordBlock(world, root, |block|);
      ok := true;
    }

    /** The clean-up of a failed call: the file is no longer under seal, and a PENDING entry goes. */
    method CleanUp(root: Cid)
      requires Valid()
      modifies this`sealedFiles, this`pendingFiles, this`logs, this`world
      ensures Valid() && world == Abandon(old(world), root)
    {
      TalliedRemove(env, pendingFiles, logs, root);
      pendingFiles := pendingFiles - {root};
      logs := logs - {root};
      ErasePending(root);
      world := Abandon(world, root);
    }

    method ErasePending(root: Cid)
      requires Sorted(sealedFiles)
      modifies this`sealedFiles
      ensures Sorted(sealedFiles)
      ensures var m := old(AsMap(sealedFiles));
              AsMap(sealedFiles) == if root in m && m[root].current == Pending then m - {root} else m
    {
      var found, pos := Search(sealedFiles, root);
      if found && sealedFiles[pos].file.current == Pending {
        EraseIsMapRemove(sealedFiles, pos);
        sealedFiles := Without(sealedFiles, pos);
      }
    }

    /** storage_seal_file, undisturbed. `fetch` and `save` say how its input and output went. */
    method SealFile(root: Cid, block: Bytes, fetch: Fetch, save: Save) returns (ok: bool)
      requires Valid()
      modifies this`sealedFiles, this`pendingFiles, this`logs, this`world
      ensures Valid()
      ensures world == SealBlock(old(world), root, env.cid(block), env.links(block), |block|, fetch, save)
      ensures ok <==> root in old(pendingFiles)
                      && (block == [] || (!old(upgrading) && (fetch.Given? || fetch.Fetched?) && save.Saved?))
      ensures ok ==> logs == old(logs)[root := WithBlock(old(logs)[root], block)]
    {
      if |block| == 0 {
        ok := CountBlock(root, block);
        return;
      }
      if upgrading || root !in pendingFiles || fetch.Unfetched? {
        CleanUp(root);
        return false;
      }
      if fetch.BadLinks? {
        return false;
      }
      if fetch.Fetched? {
        CountFetched(root, block);
      } else {
        ok := CountBlock(root, block);
      }
      ok := CountLinks(root, block);
      ok := FinishBlock(root, block, save);
    }

    /** The end of storage_seal_file, behind the counters. */
    method FinishBlock(root: Cid, block: Bytes, save: Save) returns (ok: bool)
      requires Valid() && root in pendingFiles
      modifies this`sealedFiles, this`pendingFiles, this`logs, this`world
      ensures Valid() && ok == save.Saved?
      ensures ok ==> logs == old(logs)[root := old(logs)[root].(stored := old(logs)[root].stored + [block])]
      ensures world == match save
                       case Saved => RecordBlock(old(world), root, |block|)
                       case Unsaved => Abandon(old(world), root)
                       case Skipped => old(world)
    {
      match save
      case Saved => ok := CountBytes(root, block);
      case Unsaved =>
        CleanUp(root);
        ok := false;
      case Skipped => ok := false;
    }

    /**
     storage_seal_file_end. For every acyclic graph that gives the counted blocks their links, an
     accepted file is the whole unfolding of its root if and only if as many links were counted as
     its blocks have; in particular if no call is between counting a block and counting its links.
     Its size is that of the blocks that were recorded.
     */
    method SealFileEnd(root: Cid, blockNum: nat, stored: bool) returns (r: EndResult)
      requires Valid()
      modifies this`sealedFiles, this`pendingFiles, this`fileDelCids, this`logs, this`world
      ensures Valid() && world == SealEnd(old(world), root, blockNum, stored)
      ensures r == if root !in old(pendingFiles) then NotFound
                   else if Complete(old(world), root) && stored then Sealed else Refused
      ensures r == Sealed ==>
                var log := old(logs)[root];
                root in world.files && world.files[root].size == SizeOf(log.stored)
                && forall g: Dag.Graph :: Dag.Acyclic(g) && SealingCounters.Consistent(env, g, log.taken) ==>
                     (WholeFile(env, g, log) <==> LinksOf(env, log.linked) == LinksOf(env, log.taken))
    {
      if root !in pendingFiles {
        return NotFound;
      }
      var s := pendingFiles[root];
      if upgrading {
        CleanUp(root);
        return Refused;
      }
      var zero := CheckCounters(s.blocks);
      if !zero || !stored {
        CleanUp(root);
        return Refused;
      }
      assert TalliedAt(env, pendingFiles, logs, root);
      AcceptedIsWhole(env, s.blocks, logs[root]);
      InsertSealed(root, File(s.size, blockNum, Status.Valid, Unverified, Unverified));
      TalliedRemove(env, pendingFiles, logs, root);
      pendingFiles := pendingFiles - {root};
      logs := logs - {root};
      world := SealEnd(world, root, blockNum, stored);
      r := Sealed;
    }

    /**
     A file from start to end, with nothing in between: it is sealed if and only if the blocks that
     are sent are the tree unfolding of the root, and its size is the sum of their lengths.
     */
    method SealWholeFile(cid: Cid, rootCid: Cid, blocks: seq<Bytes>, blockNum: nat) returns (r: EndResult)
      requires Valid() && StartOutcome(world, cid) == Started && cid !in pendingFiles
      modifies this
      ensures Valid()
      ensures forall g: Dag.Graph :: Dag.Acyclic(g) && SealingCounters.Consistent(env, g, blocks) ==>
                (r == Sealed <==> multiset(CidsOf(env, blocks)) == multiset(Dag.Unfold(g, [rootCid])))
      ensures r == Sealed ==>
                cid in world.files
                && world.files[cid] == File(SizeOf(blocks), blockNum, Status.Valid, Unverified, Unverified)
      ensures r != Sealed ==> cid !in world.files
    {
      ghost var w := world;
      var start := SealFileStart(cid, rootCid);
      ghost var w1 := world;
      for i := 0 to |blocks|
        invariant Valid() && world == Sent(env, w1, cid, blocks[..i])
      {
        assert blocks[..i + 1][..i] == blocks[..i];
        var ok := SealFile(cid, blocks[i], Given, Saved);
      }
      assert blocks[..|blocks|] == blocks;
      forall g: Dag.Graph | Dag.Acyclic(g) && SealingCounters.Consistent(env, g, blocks)
        ensures Complete(world, cid) <==> multiset(CidsOf(env, blocks)) == multiset(Dag.Unfold(g, [rootCid]))
      {
        WholeSentIff(env, g, w, cid, rootCid, blocks);
      }
      SentSize(env, w, cid, rootCid, blocks);
      r := SealFileEnd(cid, blockNum, true);
    }

    /** The new entry replaces what the CID had; a deleted file is recovered from the buffer. */
    method InsertSealed(root: Cid, file: File)
      requires Sorted(sealedFiles)
      modifies this`sealedFiles, this`fileDelCids
      ensures Sorted(sealedFiles) && AsMap(sealedFiles) == old(AsMap(sealedFiles))[root := file]
      ensures var m := old(AsMap(sealedFiles));
              fileDelCids == if root in m && m[root].current == Deleted then old(fileDelCids) - {root}
                             else old(fileDelCids)
    {
      var found, pos := Search(sealedFiles, root);
      if found {
        if sealedFiles[pos].file.current == Deleted {
          fileDelCids := fileDelCids - {root};
        }
        UpdateIsMapUpdate(sealedFiles, pos, file);
        sealedFiles := sealedFiles[pos := Entry(root, file)];
      } else {
        InsertIsMapInsert(sealedFiles, pos, Entry(root, file));
        sealedFiles := Insert(sealedFiles, pos, Entry(root, file));
      }
    }

    /** storage_delete_file. */
    method DeleteFile(cid: Cid, blockNum: nat, stored: bool) returns (found: bool)
      requires Valid()
      modifies this`sealedFiles, this`pendingFiles, this`fileDelCids, this`logs, this`world
      ensures Valid() && world == Delete(old(world), cid, blockNum, stored)
      ensures found <==> cid in old(world).files
    {
      var pos;
      found, pos := Search(sealedFiles, cid);
      if !found || sealedFiles[pos].file.current == Deleted {
        return;
      }
      var was := sealedFiles[pos].file;
      UpdateIsMapUpdate(sealedFiles, pos, was.(current := Deleted));
      fileDelCids := fileDelCids + {cid};
      sealedFiles := sealedFiles[pos := Entry(cid, was.(current := Deleted))];
      world := world.(files := world.files[cid := was.(current := Deleted)], buffer := world.buffer + {cid});
      if was.current == Pending {
        var _ := SealFileEnd(cid, blockNum, stored);
      }
    }

    /** One changed file of a validation round, with the entry that was validated. */
    method ChangeStatus(cid: Cid, snapshot: File)
      requires Valid()
      modifies this`sealedFiles, this`world
      ensures Valid() && world == Flip(old(world), cid, snapshot)
    {
      var found, pos := Search(sealedFiles, cid);
      if found && sealedFiles[pos].file.blockNum == snapshot.blockNum
         && (snapshot.current == Status.Valid || snapshot.current == Lost) {
        var file := sealedFiles[pos].file.(current := if snapshot.current == Status.Valid then Lost else Status.Valid);
        UpdateIsMapUpdate(sealedFiles, pos, file);
        sealedFiles := sealedFiles[pos := Entry(cid, file)];
      }
      world := Flip(world, cid, snapshot);
    }

    /** deal_deleted_file. */
    method DealDeletedFile()
      requires Valid()
      modifies this`sealedFiles, this`fileDelCids, this`world
      ensures Valid() && world == DealDeleted(old(world))
    {
      var kept;
      sealedFiles, kept := Collect(sealedFiles, fileDelCids);
      fileDelCids := kept;
      assert Erasables(world.files, world.buffer) == Gone(world);
      world := DealDeleted(world);
    }

    /**
     gen_work_report behind its gates, with the lists it signs. The claimed size is the
     total of what the chain will hold once it has taken the report.
     */
    method GenWorkReport() returns (added: seq<Entry>, deleted: seq<Entry>, filesSize: int)
      requires Valid() && Inv(world) && world.inFlight.None?
      modifies this`sealedFiles, this`reportedFiles, this`world
      ensures Valid() && world == Generate(old(world), Reporting.Picked(old(sealedFiles))) && world.inFlight.Some?
      ensures Enabled(old(world), DoGenerate(Reporting.Picked(old(sealedFiles))))
      ensures Reporting.Lists(old(sealedFiles), |old(sealedFiles)|, true, added)
      ensures Reporting.Lists(old(sealedFiles), |old(sealedFiles)|, false, deleted)
      ensures filesSize == Reporting.Total(Delivered(world.chain, world.inFlight.value))
    {
      var t := sealedFiles;
      PickedIsEnabled(t, world);
      Reporting.MarkIsFreeze(t);
      sealedFiles, reportedFiles, added, deleted, filesSize := Reporting.ScanTable(t);
      world := Generate(world, reportedFiles);
    }

    /** The report of an upgraded worker lists nothing and changes no status. */
    method GenUpgradeReport() returns (filesSize: int)
      requires Valid() && world.inFlight.None?
      modifies this`reportedFiles, this`world
      ensures Valid() && world == GenerateForUpgrade(old(world))
      ensures filesSize == Reporting.SettledTotal(sealedFiles)
    {
      reportedFiles := {};
      filesSize := Reporting.ScanForUpgrade(sealedFiles);
      world := GenerateForUpgrade(world);
    }

    /** ocall_upload_workreport has succeeded: the chain has taken the report. */
    method HandleReportResult()
      requires Valid() && world.inFlight.Some?
      modifies this`sealedFiles, this`reportedFiles, this`world
      ensures Valid() && world == Accept(old(world))
    {
      Reporting.ConfirmTableIsConfirm(sealedFiles, reportedFiles);
      sealedFiles := Reporting.ConfirmFiles(sealedFiles, reportedFiles);
      reportedFiles := {};
      world := Accept(world);
    }
  }

  lemma PickedIsEnabled(t: seq<Entry>, w: World)
    requires TableShows(t, w) && w.inFlight.None?
    ensures Enabled(w, DoGenerate(Reporting.Picked(t)))
  {
    forall c | c in Reporting.Picked(t)
      ensures c in w.files && Outstanding(w.files[c])
    {
      Reporting.PickedIsOutstanding(t, c);
    }
  }

  ghost function Erasables(files: map<Cid, File>, cs: set<Cid>): set<Cid> {
    set c | c in cs && c in files && Erasable(files[c])
  }

  /** Erases the deleted files of the buffer that the chain does not hold; the others stay in the buffer. */
  method Collect(t: seq<Entry>, buffer: set<Cid>) returns (t': seq<Entry>, kept: set<Cid>)
    requires Sorted(t)
    ensures Sorted(t') && AsMap(t') == AsMap(t) - Erasables(AsMap(t), buffer)
    ensures kept == buffer - Erasables(AsMap(t), buffer)
  {
    t', kept := t, buffer;
    ghost var files := AsMap(t);
    var left := buffer;
    assert files - {} == files;
    while left != {}
      invariant left <= buffer && Sorted(t')
      invariant AsMap(t') == files - Erasables(files, buffer - left)
      invariant kept == buffer - Erasables(files, buffer - left)
      decreases left
    {
      var c :| c in left;
      CollectOne(files, buffer - left, c);
      var found, pos := Search(t', c);
      if found && Erasable(t'[pos].file) {
        EraseIsMapRemove(t', pos);
        t' := Without(t', pos);
        kept := kept - {c};
      }
      left := left - {c};
      assert buffer - left == (buffer - (left + {c})) + {c};
    }
    assert buffer - {} == buffer;
  }

  lemma CollectOne(files: map<Cid, File>, done: set<Cid>, c: Cid)
    requires c !in done
    ensures Erasables(files, done + {c})
         == Erasables(files, done) + if c in files && Erasable(files[c]) then {c} else {}
    ensures var m := files - Erasables(files, done);
            (c in m <==> c in files) && (c in m ==> m[c] == files[c])
    ensures files - (Erasables(files, done) + {c}) == (files - Erasables(files, done)) - {c}
  {
  }

  /** The loop over the children: each is expected once more. */
  method Expect(blocks: map<Cid, int>, children: seq<Cid>) returns (r: map<Cid, int>)
    ensures r == BumpAll(blocks, children)
  {
    r := blocks;
    assert children[0..] == children;
    for i := 0 to |children|
      invariant BumpAll(blocks, children) == BumpAll(r, children[i..])
    {
      assert children[i..][1..] == children[i + 1..];
      r := Bump(r, children[i], 1);
    }
  }

  /** The test of storage_seal_file_end, counter by counter. */
  method CheckCounters(blocks: map<Cid, int>) returns (zero: bool)
    ensures zero <==> AllZero(blocks)
  {
    var left := blocks.Keys;
    while left != {}
      invariant left <= blocks.Keys
      invariant forall c :: c in blocks && c !in left ==> blocks[c] == 0
      decreases left
    {
      var c :| c in left;
      if blocks[c] != 0 {
        return false;
      }
      left := left - {c};
    }
    zero := true;
  }

  lemma AcceptedIsWhole(env: Env, blocks: map<Cid, int>, log: Log)
    requires Tally(env, blocks, log) && AllZero(blocks)
    ensures forall g: Dag.Graph :: Dag.Acyclic(g) && SealingCounters.Consistent(env, g, log.taken) ==>
              (WholeFile(env, g, log) <==> LinksOf(env, log.linked) == LinksOf(env, log.taken))
  {
    forall g: Dag.Graph | Dag.Acyclic(g) && SealingCounters.Consistent(env, g, log.taken)
      ensures WholeFile(env, g, log) <==> LinksOf(env, log.linked) == LinksOf(env, log.taken)
    {
      AcceptedIsWholeIff(env, g, blocks, log);
    }
  }
}
