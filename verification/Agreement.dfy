/**
 The incremental report protocol between the worker and the chain.

 Every file carries three statuses: CURRENT (what the worker knows now), WAITING (the
 CURRENT of the moment the last report was generated) and ORIGIN (what the chain was
 last told). A report lists files whose CURRENT and ORIGIN differ; when the chain
 confirms it, the WAITING of each listed file becomes its ORIGIN. Between generation
 and confirmation other threads seal, delete, validate and clean up.

 The worker's operations are functions on `World`; a run is a list of actions. The
 files the chain holds are those with ORIGIN = VALID, in every state of every run in
 which no step erases a file that is listed as added in the report under way, and none
 seals a file over an entry that the chain knows as valid (`RunAgrees`). Both conditions
 are exact: otherwise confirmation (`AcceptAgreesIff`) or the end of the sealing
 (`SealEndAgreesIff`) leaves worker and chain in disagreement.
 */
module Agreement {
  import opened Basics
  import opened FileTable

  /** FILE_NUMBER_UPPER_LIMIT, FILE_PENDING_LIMIT. */
  const MAX_FILES := 400000
  const MAX_PENDING := 500

  /** A file whose blocks are still arriving: the counter of each CID and the bytes so far. */
  datatype Sealing = Sealing(blocks: map<Cid, int>, size: nat)

  /** The increments of a report: files added, with their sizes, and files deleted. */
  datatype Report = Report(added: map<Cid, nat>, deleted: set<Cid>)

  /**
   `files`, `sealing`, `buffer` and `reported` are the worker's tables; `chain` is what
   the chain holds; `inFlight` is the report that awaits confirmation, and `lost` the
   files it lists as added whose entries have been erased since it was generated.
   */
  datatype World = World(
    files: map<Cid, File>,
    sealing: map<Cid, Sealing>,
    buffer: set<Cid>,
    reported: set<Cid>,
    upgrading: bool,
    chain: map<Cid, nat>,
    inFlight: Option<Report>,
    lost: set<Cid>)

  // ----- Operations -----

  function Listed(w: World): set<Cid> {
    if w.inFlight.Some? then w.inFlight.value.added.Keys else {}
  }

  /** Erases entries from the table; `lost` remembers those that an open report adds. */
  function Drop(w: World, cs: set<Cid>): World {
    w.(files := w.files - cs, lost := w.lost + cs * w.files.Keys * Listed(w))
  }

  function Bump(blocks: map<Cid, int>, c: Cid, n: int): map<Cid, int> {
    blocks[c := (if c in blocks then blocks[c] else 0) + n]
  }

  function BumpAll(blocks: map<Cid, int>, cs: seq<Cid>): map<Cid, int>
    decreases |cs|
  {
    if cs == [] then blocks else BumpAll(Bump(blocks, cs[0], 1), cs[1..])
  }

  predicate AllZero(blocks: map<Cid, int>) {
    forall c :: c in blocks ==> blocks[c] == 0
  }

  datatype StartResult = Started | Upgrading | TooMany | Duplicate | BeingSealed | BeingDeleted

  /** check_seal_file_dup: a deleted file may be sealed again unless the chain still holds or has lost it. */
  function StartCheck(w: World, c: Cid): StartResult {
    if w.upgrading then Upgrading
    else if |w.files| >= MAX_FILES then TooMany
    else if c !in w.files then Started
    else match w.files[c].current
         case Pending => BeingSealed
         case Deleted =>
           if w.files[c].origin == Deleted || w.files[c].origin == Unverified then Started else BeingDeleted
         case _ => Duplicate
  }

  function StartOutcome(w: World, c: Cid): StartResult {
    if StartCheck(w, c) == Started && |w.sealing| > MAX_PENDING then TooMany else StartCheck(w, c)
  }

  const FRESH := File(0, 0, Pending, Unverified, Unverified)

  /** storage_seal_file_start: the entry becomes PENDING and the root is expected once. */
  function SealStart(w: World, c: Cid, rootCid: Cid): World {
    if StartCheck(w, c) != Started then w
    else if |w.sealing| > MAX_PENDING then Drop(w, {c})
    else Begin(Drop(w, {c}), c, rootCid)
  }

  /** What is under seal for a root; `operator[]` makes an empty entry if there is none. */
  function SealingOf(sealing: map<Cid, Sealing>, root: Cid): Sealing {
    if root in sealing then sealing[root] else Sealing(map[], 0)
  }

  function Begin(w: World, c: Cid, rootCid: Cid): World {
    var was := SealingOf(w.sealing, c);
    w.(files := w.files[c := FRESH], sealing := w.sealing[c := was.(blocks := Bump(was.blocks, rootCid, 1))])
  }

  /** The first critical section of storage_seal_file: the block itself has arrived, and its file is looked up. */
  function TakeBlock(w: World, root: Cid, block: Cid): World {
    if root !in w.sealing then w else TakeFetched(w, root, block)
  }

  /**
   The same for a block that had to be fetched: the lock was given up after the look-up, so the
   file may be gone. The counter is then entered for a file that is no longer under seal.
   */
  function TakeFetched(w: World, root: Cid, block: Cid): World {
    var was := SealingOf(w.sealing, root);
    w.(sealing := w.sealing[root := was.(blocks := Bump(was.blocks, block, -1))])
  }

  /** The second one: its links are expected. */
  function LinkBlock(w: World, root: Cid, links: seq<Cid>): World {
    if root !in w.sealing then w
    else w.(sealing := w.sealing[root := w.sealing[root].(blocks := BumpAll(w.sealing[root].blocks, links))])
  }

  /** The third one: the sealed block is on disk. */
  function RecordBlock(w: World, root: Cid, size: nat): World {
    if root !in w.sealing then w
    else w.(sealing := w.sealing[root := w.sealing[root].(size := w.sealing[root].size + size)])
  }

  /** The clean-up after a failed block or an incomplete end. */
  function Abandon(w: World, root: Cid): World {
    var w' := w.(sealing := w.sealing - {root});
    if root in w.files && w.files[root].current == Pending then Drop(w', {root}) else w'
  }

  /** How a call comes by its block; `BadLinks` is an exit that skips the clean-up. */
  datatype Fetch = Given | Fetched | Unfetched | BadLinks

  /** Whether the sealed block reaches the disk; `Skipped` stands for the exits that skip the clean-up. */
  datatype Save = Saved | Unsaved | Skipped

  /** storage_seal_file as a whole, with nothing in between. */
  function SealBlock(w: World, root: Cid, block: Cid, links: seq<Cid>, size: nat, fetch: Fetch, save: Save): World {
    if size == 0 then TakeBlock(w, root, block)
    else if w.upgrading || root !in w.sealing || fetch.Unfetched? then Abandon(w, root)
    else if fetch.BadLinks? then w
    else
      var w' := LinkBlock(TakeBlock(w, root, block), root, links);
      match save
      case Saved => RecordBlock(w', root, size)
      case Unsaved => Abandon(w', root)
      case Skipped => w'
  }

  predicate Complete(w: World, root: Cid) {
    root in w.sealing && !w.upgrading && AllZero(w.sealing[root].blocks)
  }

  /** The entry of a sealed file takes the place of whatever entry the table has for the root. */
  function Replace(w: World, root: Cid, size: nat, blockNum: nat): World {
    Drop(w, {root}).(
       files := w.files[root := File(size, blockNum, Valid, Unverified, Unverified)],
       buffer := if root in w.files && w.files[root].current == Deleted then w.buffer - {root} else w.buffer)
  }

  /** storage_seal_file_end: the file becomes VALID if all its blocks are here and its tree could be stored. */
  function SealEnd(w: World, root: Cid, blockNum: nat, stored: bool): World {
    if root !in w.sealing then w
    else if Complete(w, root) && stored then
      Replace(w, root, w.sealing[root].size, blockNum).(sealing := w.sealing - {root})
    else Abandon(w, root)
  }

  /** storage_delete_file: a pending file is ended at once, whatever the outcome. */
  function Delete(w: World, c: Cid, blockNum: nat, stored: bool): World {
    if c !in w.files || w.files[c].current == Deleted then w
    else
      var w' := w.(files := w.files[c := w.files[c].(current := Deleted)], buffer := w.buffer + {c});
      if w.files[c].current == Pending then SealEnd(w', c, blockNum, stored) else w'
  }

  /** The outcome of a validation round: VALID and LOST change places, if the entry is still the validated one. */
  function Flip(w: World, c: Cid, snapshot: File): World {
    if c !in w.files || w.files[c].blockNum != snapshot.blockNum then w
    else match snapshot.current
         case Valid => w.(files := w.files[c := w.files[c].(current := Lost)])
         case Lost => w.(files := w.files[c := w.files[c].(current := Valid)])
         case _ => w
  }

  predicate Erasable(f: File) {
    f.current == Deleted && (f.origin == Deleted || f.origin == Unverified || f.origin == Lost)
  }

  function Gone(w: World): set<Cid> {
    set c | c in w.buffer && c in w.files && Erasable(w.files[c])
  }

  /** deal_deleted_file: deleted files that the chain does not hold leave the table. */
  function DealDeleted(w: World): World {
    Drop(w, Gone(w)).(buffer := w.buffer - Gone(w))
  }

  /** A file whose CURRENT and ORIGIN call for a report. */
  predicate Outstanding(f: File) {
    || (f.current == Valid && f.origin == Unverified)
    || (f.current == Lost && f.origin == Valid)
    || (f.current == Valid && f.origin == Lost)
    || (f.current == Deleted && f.origin == Valid)
  }

  function Freeze(files: map<Cid, File>): map<Cid, File> {
    map c | c in files :: files[c].(waiting := files[c].current)
  }

  function ReportOf(files: map<Cid, File>, picked: set<Cid>): Report {
    Report(map c | c in picked && c in files && files[c].current == Valid :: files[c].size,
           set c | c in picked && c in files && files[c].current != Valid)
  }

  /** gen_work_report: WAITING is frozen for all files, and the picked ones are reported. */
  function Generate(w: World, picked: set<Cid>): World {
    w.(files := Freeze(w.files), reported := picked, inFlight := Some(ReportOf(w.files, picked)))
  }

  /** The report of an upgraded worker: no increments. */
  function GenerateForUpgrade(w: World): World {
    w.(reported := {}, inFlight := Some(Report(map[], {})))
  }

  function Confirm(files: map<Cid, File>, reported: set<Cid>): map<Cid, File> {
    map c | c in files :: if c in reported then files[c].(origin := files[c].waiting) else files[c]
  }

  function Delivered(chain: map<Cid, nat>, r: Report): map<Cid, nat> {
    (chain - r.deleted) + r.added
  }

  /** The chain takes the report, and handle_report_result makes WAITING the ORIGIN of the reported files. */
  function Accept(w: World): World {
    if w.inFlight.None? then w
    else w.(chain := Delivered(w.chain, w.inFlight.value), files := Confirm(w.files, w.reported),
            reported := {}, inFlight := None, lost := {})
  }

  function Reject(w: World): World {
    w.(inFlight := None, lost := {})
  }

  // ----- Runs -----

  datatype Action =
    | DoSealStart(cid: Cid, rootCid: Cid)
    | DoTakeBlock(cid: Cid, block: Cid)
    | DoTakeFetched(cid: Cid, block: Cid)
    | DoLinkBlock(cid: Cid, links: seq<Cid>)
    | DoRecordBlock(cid: Cid, size: nat)
    | DoAbandon(cid: Cid)
    | DoSealEnd(cid: Cid, blockNum: nat, stored: bool)
    | DoDelete(cid: Cid, blockNum: nat, stored: bool)
    | DoFlip(cid: Cid, snapshot: File)
    | DoDealDeleted
    | DoGenerate(picked: set<Cid>)
    | DoGenerateForUpgrade
    | DoAccept
    | DoReject
    | DoSetUpgrading(upgrading: bool)

  function Apply(w: World, a: Action): World {
    match a
    case DoSealStart(c, rootCid) => SealStart(w, c, rootCid)
    case DoTakeBlock(c, block) => TakeBlock(w, c, block)
    case DoTakeFetched(c, block) => TakeFetched(w, c, block)
    case DoLinkBlock(c, links) => LinkBlock(w, c, links)
    case DoRecordBlock(c, size) => RecordBlock(w, c, size)
    case DoAbandon(c) => Abandon(w, c)
    case DoSealEnd(c, blockNum, stored) => SealEnd(w, c, blockNum, stored)
    case DoDelete(c, blockNum, stored) => Delete(w, c, blockNum, stored)
    case DoFlip(c, snapshot) => Flip(w, c, snapshot)
    case DoDealDeleted => DealDeleted(w)
    case DoGenerate(picked) => Generate(w, picked)
    case DoGenerateForUpgrade => GenerateForUpgrade(w)
    case DoAccept => Accept(w)
    case DoReject => Reject(w)
    case DoSetUpgrading(u) => w.(upgrading := u)
  }

  /**
   One report at a time (the generation mutex), only outstanding files in it; chain
   heights are positive, and a validated snapshot is of a sealed file.
   */
  predicate Enabled(w: World, a: Action) {
    match a
    case DoSealEnd(_, blockNum, _) => blockNum > 0
    case DoDelete(_, blockNum, _) => blockNum > 0
    case DoFlip(_, snapshot) => snapshot.blockNum > 0
    case DoGenerate(picked) => w.inFlight.None? && forall c :: c in picked ==> c in w.files && Outstanding(w.files[c])
    case DoGenerateForUpgrade => w.inFlight.None?
    case DoAccept => w.inFlight.Some?
    case DoReject => w.inFlight.Some?
    case _ => true
  }

  function Run(w: World, actions: seq<Action>): World
    decreases |actions|
  {
    if actions == [] then w else Run(Apply(w, actions[0]), actions[1..])
  }

  // ----- The invariant -----

  ghost function OriginSizes(files: map<Cid, File>): map<Cid, nat> {
    map c | c in files && files[c].origin == Valid :: files[c].size
  }

  /** The chain holds exactly the files with ORIGIN = VALID, with their sizes. */
  ghost predicate Agrees(w: World) {
    w.chain == OriginSizes(w.files)
  }

  /** The file has never been in a report. */
  ghost predicate Unreported(f: File) {
    f.origin == Unverified && (f.waiting == Unverified || f.waiting == Pending)
  }

  /** A PENDING file is new to the chain. It need not be under seal, nor a file under seal PENDING. */
  ghost predicate PendingFilesOk(w: World) {
    forall c :: c in w.files && w.files[c].current == Pending ==> Unreported(w.files[c]) && w.files[c].blockNum == 0
  }

  /** A report is a legal increment: it adds absent files and deletes present ones. */
  ghost predicate LegalIncrement(r: Report, chain: map<Cid, nat>) {
    r.added.Keys !! chain.Keys && r.deleted <= chain.Keys
  }

  /** While a report is open, WAITING remembers what it says about every file it lists. */
  ghost predicate WindowOk(w: World, r: Report) {
    && LegalIncrement(r, w.chain) && w.reported == r.added.Keys + r.deleted && w.lost <= r.added.Keys
    && (forall c :: c in r.added && c !in w.lost ==>
          c in w.files && w.files[c].waiting == Valid && w.files[c].size == r.added[c])
    && (forall c :: c in w.lost && c in w.files ==> w.files[c].waiting == Unverified && w.files[c].origin == Unverified)
    && (forall c :: c in r.deleted ==> c in w.files && (w.files[c].waiting == Lost || w.files[c].waiting == Deleted))
  }

  ghost predicate Core(w: World) {
    && Agrees(w)
    && (w.inFlight.Some? ==> WindowOk(w, w.inFlight.value))
    && (w.inFlight.None? ==> w.lost == {})
  }

  ghost predicate Inv(w: World) {
    Core(w) && PendingFilesOk(w)
  }

  // ----- Every operation keeps it -----

  /** Erasing files that the chain does not hold changes no origin, and is noted. */
  lemma DropKeepsCore(w: World, cs: set<Cid>)
    requires Core(w) && forall c :: c in cs && c in w.files ==> w.files[c].origin != Valid
    ensures Core(Drop(w, cs))
  {
    assert OriginSizes(w.files - cs) == OriginSizes(w.files);
  }

  /** A new, unreported entry touches neither the chain nor an open report. */
  lemma PutKeepsCore(w: World, c: Cid, f: File)
    requires Core(w) && f.waiting == Unverified && f.origin == Unverified
    requires c in w.files ==> Unreported(w.files[c])
    ensures Core(w.(files := w.files[c := f]))
  {
    assert OriginSizes(w.files[c := f]) == OriginSizes(w.files);
  }

  lemma SetCurrentKeepsCore(w: World, c: Cid, s: Status)
    requires Core(w) && c in w.files
    ensures Core(w.(files := w.files[c := w.files[c].(current := s)]))
  {
    assert OriginSizes(w.files[c := w.files[c].(current := s)]) == OriginSizes(w.files);
  }

  lemma BeginKeeps(w: World, c: Cid, rootCid: Cid)
    requires Inv(w) && c !in w.files
    ensures Inv(Begin(w, c, rootCid))
  {
    PutKeepsCore(w, c, FRESH);
  }

  lemma DropKeeps(w: World, c: Cid)
    requires Inv(w) && (c in w.files ==> w.files[c].origin != Valid && w.files[c].current != Pending)
    ensures Inv(Drop(w, {c})) && c !in Drop(w, {c}).files
  {
    DropKeepsCore(w, {c});
  }

  lemma StartedMeans(w: World, c: Cid)
    requires StartCheck(w, c) == Started
    ensures c in w.files ==> w.files[c].origin != Valid && w.files[c].current != Pending
  {
  }

  lemma SealStartKeeps(w: World, c: Cid, rootCid: Cid)
    requires Inv(w)
    ensures Inv(SealStart(w, c, rootCid))
  {
    if StartCheck(w, c) == Started {
      StartedMeans(w, c);
      DropKeeps(w, c);
      BeginKeeps(Drop(w, {c}), c, rootCid);
    }
  }

  lemma AbandonKeepsCore(w: World, root: Cid)
    requires Core(w) && (root in w.files && w.files[root].current == Pending ==> w.files[root].origin == Unverified)
    ensures Core(Abandon(w, root))
  {
    if root in w.files && w.files[root].current == Pending {
      DropKeepsCore(w, {root});
    }
  }

  /** The step seals a file anew over an entry that the chain knows as valid. */
  predicate Overwrites(w: World, a: Action) {
    a.DoSealEnd? && a.stored && Complete(w, a.cid) && a.cid in w.files && w.files[a.cid].origin == Valid
  }

  lemma ReplaceKeepsCore(w: World, root: Cid, size: nat, blockNum: nat)
    requires Core(w) && (root in w.files ==> w.files[root].origin != Valid)
    ensures Core(Replace(w, root, size, blockNum))
  {
    DropKeepsCore(w, {root});
    var f := File(size, blockNum, Valid, Unverified, Unverified);
    PutKeepsCore(Drop(w, {root}), root, f);
    assert (w.files - {root})[root := f] == w.files[root := f];
  }

  lemma SealEndKeepsCore(w: World, root: Cid, blockNum: nat, stored: bool)
    requires Core(w) && (root in w.files && w.files[root].current == Pending ==> w.files[root].origin == Unverified)
    requires !Overwrites(w, DoSealEnd(root, blockNum, stored))
    ensures Core(SealEnd(w, root, blockNum, stored))
  {
    AbandonKeepsCore(w, root);
    if Complete(w, root) && stored {
      ReplaceKeepsCore(w, root, w.sealing[root].size, blockNum);
    }
  }

  lemma SealEndKeeps(w: World, root: Cid, blockNum: nat, stored: bool)
    requires Inv(w) && !Overwrites(w, DoSealEnd(root, blockNum, stored))
    ensures Inv(SealEnd(w, root, blockNum, stored))
  {
    SealEndKeepsCore(w, root, blockNum, stored);
  }

  lemma AbandonKeeps(w: World, root: Cid)
    requires Inv(w)
    ensures Inv(Abandon(w, root))
  {
    AbandonKeepsCore(w, root);
  }

  lemma DeleteKeeps(w: World, c: Cid, blockNum: nat, stored: bool)
    requires Inv(w)
    ensures Inv(Delete(w, c, blockNum, stored))
  {
    if c in w.files && w.files[c].current != Deleted {
      SetCurrentKeepsCore(w, c, Deleted);
      var w' := w.(files := w.files[c := w.files[c].(current := Deleted)], buffer := w.buffer + {c});
      if w.files[c].current == Pending {
        SealEndKeepsCore(w', c, blockNum, stored);
      }
    }
  }

  lemma FlipKeeps(w: World, c: Cid, snapshot: File)
    requires Inv(w) && snapshot.blockNum > 0
    ensures Inv(Flip(w, c, snapshot))
  {
    if c in w.files {
      SetCurrentKeepsCore(w, c, Lost);
      SetCurrentKeepsCore(w, c, Valid);
    }
  }

  lemma DealDeletedKeeps(w: World)
    requires Inv(w)
    ensures Inv(DealDeleted(w))
  {
    DropKeepsCore(w, Gone(w));
  }

  lemma GenerateKeeps(w: World, picked: set<Cid>)
    requires Inv(w) && Enabled(w, DoGenerate(picked))
    ensures Inv(Generate(w, picked))
  {
  }

  lemma AcceptKeeps(w: World)
    requires Inv(w) && w.inFlight.Some? && w.lost == {}
    ensures Inv(Accept(w))
  {
  }

  lemma GenerateForUpgradeKeeps(w: World)
    requires Inv(w) && w.inFlight.None?
    ensures Inv(GenerateForUpgrade(w))
  {
  }

  lemma CloseKeeps(w: World)
    requires Inv(w)
    ensures Inv(Reject(w))
  {
  }

  /** What is under seal is of no account to the chain. */
  lemma CountingKeeps(w: World, w': World)
    requires Inv(w) && w' == w.(sealing := w'.sealing, upgrading := w'.upgrading)
    ensures Inv(w')
  {
  }

  // ----- Results over runs -----

  lemma StepKeeps(w: World, a: Action)
    requires Inv(w) && Enabled(w, a) && (a.DoAccept? ==> w.lost == {}) && !Overwrites(w, a)
    ensures Inv(Apply(w, a))
  {
    match a
    case DoSealStart(c, rootCid) => SealStartKeeps(w, c, rootCid);
    case DoTakeBlock(c, block) => CountingKeeps(w, TakeBlock(w, c, block));
    case DoTakeFetched(c, block) => CountingKeeps(w, TakeFetched(w, c, block));
    case DoLinkBlock(c, links) => CountingKeeps(w, LinkBlock(w, c, links));
    case DoRecordBlock(c, size) => CountingKeeps(w, RecordBlock(w, c, size));
    case DoAbandon(c) => AbandonKeeps(w, c);
    case DoSealEnd(c, blockNum, stored) => SealEndKeeps(w, c, blockNum, stored);
    case DoDelete(c, blockNum, stored) => DeleteKeeps(w, c, blockNum, stored);
    case DoFlip(c, snapshot) => FlipKeeps(w, c, snapshot);
    case DoDealDeleted => DealDeletedKeeps(w);
    case DoGenerate(picked) => GenerateKeeps(w, picked);
    case DoGenerateForUpgrade => GenerateForUpgradeKeeps(w);
    case DoAccept => AcceptKeeps(w);
    case DoReject => CloseKeeps(w);
    case DoSetUpgrading(u) => CountingKeeps(w, w.(upgrading := u));
  }

  /**
   The step erases the entry of `c`: it is sealed anew, at the start or at the end of
   its sealing, or the clean-up collects it. (A failed sealing erases pending entries
   only, and those are never reported.)
   */
  predicate Erases(w: World, a: Action, c: Cid) {
    || (a.DoSealStart? && a.cid == c && c in w.files && StartCheck(w, c) == Started)
    || (a.DoSealEnd? && a.cid == c && c in w.files && Complete(w, c) && a.stored)
    || (a.DoDealDeleted? && c in Gone(w))
  }

  /** Nothing that an open report adds gets lost, as long as no step erases it. */
  lemma NothingLost(w: World, a: Action)
    requires Inv(w) && Enabled(w, a) && w.lost == {}
    ensures Apply(w, a).lost == {} <==> forall c :: c in Listed(w) && !a.DoAccept? && !a.DoReject? ==> !Erases(w, a, c)
  {
    match a
    case DoAbandon(c) => PendingNotLost(w, c);
    case DoSealEnd(c, _, stored) =>
      PendingNotLost(w, c);
      assert c in w.files && Complete(w, c) && stored && c in Listed(w) ==> c in {c} * w.files.Keys * Listed(w);
    case DoDelete(c, _, _) => PendingNotLost(w, c);
    case DoSealStart(c, _) =>
      assert c in w.files && StartCheck(w, c) == Started && c in Listed(w) ==> c in {c} * w.files.Keys * Listed(w);
    case DoDealDeleted =>
      assert forall c :: c in Gone(w) * w.files.Keys * Listed(w) <==> c in Gone(w) && c in Listed(w);
    case _ =>
  }

  lemma PendingNotLost(w: World, c: Cid)
    requires Inv(w) && w.lost == {}
    ensures c in w.files && w.files[c].current == Pending ==> c !in Listed(w)
  {
  }

  /**
   A run whose steps are enabled, never erase a file that an open report lists as added, and never
   seal a file over an entry that the chain knows as valid.
   */
  ghost predicate Careful(w: World, actions: seq<Action>)
    decreases |actions|
  {
    actions == [] ||
    (&& Enabled(w, actions[0]) && !Overwrites(w, actions[0])
     && (forall c :: c in Listed(w) && !actions[0].DoAccept? && !actions[0].DoReject? ==> !Erases(w, actions[0], c))
     && Careful(Apply(w, actions[0]), actions[1..]))
  }

  /** Worker and chain agree after every careful run, and an open report is a legal increment. */
  lemma {:induction false} RunAgrees(w: World, actions: seq<Action>)
    requires Inv(w) && w.lost == {} && Careful(w, actions)
    ensures Inv(Run(w, actions)) && Run(w, actions).lost == {}
    ensures Agrees(Run(w, actions))
    ensures var w' := Run(w, actions); w'.inFlight.Some? ==> LegalIncrement(w'.inFlight.value, w'.chain)
    decreases |actions|
  {
    if actions != [] {
      StepKeeps(w, actions[0]);
      NothingLost(w, actions[0]);
      RunAgrees(Apply(w, actions[0]), actions[1..]);
    }
  }

  /** What other threads do while a report is open. */
  predicate InWindow(a: Action) {
    !a.DoGenerate? && !a.DoGenerateForUpgrade? && !a.DoAccept? && !a.DoReject?
  }

  /** The chain and the open report are as before. */
  predicate SameReport(w: World, w': World) { w'.chain == w.chain && w'.inFlight == w.inFlight }

  lemma StartKeepsReport(w: World, c: Cid, rootCid: Cid)
    ensures SameReport(w, SealStart(w, c, rootCid))
  {
  }

  lemma EndKeepsReport(w: World, c: Cid, blockNum: nat, stored: bool)
    ensures SameReport(w, SealEnd(w, c, blockNum, stored))
  {
  }

  lemma DeleteKeepsReport(w: World, c: Cid, blockNum: nat, stored: bool)
    ensures SameReport(w, Delete(w, c, blockNum, stored))
  {
    if c in w.files {
      var w' := w.(files := w.files[c := w.files[c].(current := Deleted)], buffer := w.buffer + {c});
      EndKeepsReport(w', c, blockNum, stored);
    }
  }

  lemma WindowStep(w: World, a: Action)
    requires InWindow(a)
    ensures SameReport(w, Apply(w, a))
  {
    match a
    case DoSealStart(c, rootCid) => StartKeepsReport(w, c, rootCid);
    case DoSealEnd(c, blockNum, stored) => EndKeepsReport(w, c, blockNum, stored);
    case DoDelete(c, blockNum, stored) => DeleteKeepsReport(w, c, blockNum, stored);
    case _ =>
  }

  lemma {:induction false} WindowKeepsReport(w: World, actions: seq<Action>)
    requires forall a :: a in actions ==> InWindow(a)
    ensures Run(w, actions).chain == w.chain && Run(w, actions).inFlight == w.inFlight
    decreases |actions|
  {
    if actions != [] {
      WindowStep(w, actions[0]);
      WindowKeepsReport(Apply(w, actions[0]), actions[1..]);
    }
  }

  /** What confirmation relies on: each file that the report adds is still in the table, with WAITING = VALID. */
  predicate Intact(w: World) {
    w.inFlight.Some? ==>
      forall c :: c in w.inFlight.value.added ==> c in w.files && w.files[c].waiting == Valid
  }

  lemma IntactMeans(w: World)
    requires Inv(w) && w.inFlight.Some?
    ensures Intact(w) <==> w.lost == {}
  {
  }

  /** Confirming a report leaves worker and chain in agreement if and only if what it adds is intact. */
  lemma AcceptAgreesIff(w: World)
    requires Inv(w) && w.inFlight.Some?
    ensures Agrees(Accept(w)) <==> Intact(w)
  {
    IntactMeans(w);
    if w.lost == {} {
      AcceptKeeps(w);
    } else {
      var c :| c in w.lost;
      assert c in Accept(w).chain;
      assert c !in OriginSizes(Accept(w).files);
    }
  }

  /** The end of a sealing keeps the agreement if and only if the chain does not know the file as valid already. */
  lemma SealEndAgreesIff(w: World, c: Cid, blockNum: nat, stored: bool)
    requires Inv(w) && blockNum > 0
    ensures Agrees(SealEnd(w, c, blockNum, stored)) <==> !Overwrites(w, DoSealEnd(c, blockNum, stored))
  {
    if Overwrites(w, DoSealEnd(c, blockNum, stored)) {
      assert c in OriginSizes(w.files);
      assert c !in OriginSizes(SealEnd(w, c, blockNum, stored).files);
    } else {
      SealEndKeeps(w, c, blockNum, stored);
    }
  }

  /**
   That can come about: for every file that worker and chain hold, a block fetched for it too late
   and the links of a parent, also counted too late, make counters that are all zero. Ending that
   sealing replaces the entry, and the chain holds a file that the worker takes for a new one.
   */
  lemma LateBlocksDisagree(w: World, c: Cid, block: Cid, blockNum: nat)
    requires Inv(w) && c in w.files && w.files[c].origin == Valid && c !in w.sealing && !w.upgrading && blockNum > 0
    ensures var w' := SealEnd(LinkBlock(TakeFetched(w, c, block), c, [block]), c, blockNum, true);
            c in w'.chain && c in w'.files && w'.files[c].origin == Unverified && !Agrees(w')
  {
    var w1 := TakeFetched(w, c, block);
    CountingKeeps(w, w1);
    var w2 := LinkBlock(w1, c, [block]);
    CountingKeeps(w1, w2);
    PaidByLink(block);
    SealEndAgreesIff(w2, c, blockNum, true);
  }

  lemma PaidByLink(block: Cid)
    ensures BumpAll(Bump(map[], block, -1), [block]) == map[block := 0]
  {
    var paid := Bump(map[], block, -1);
    assert [block][1..] == [];
    assert BumpAll(paid, [block]) == BumpAll(Bump(paid, block, 1), []);
  }

  /**
   A block that is counted for one sealing can count its links, and its size, for the next one: the
   clean-up of another call and a new start may come in between.
   */
  lemma LateSectionsReachNextSealing(w: World, c: Cid, rootCid: Cid, block: Cid, links: seq<Cid>, size: nat)
    requires c !in w.files && c !in w.sealing && !w.upgrading && |w.files| < MAX_FILES && |w.sealing| <= MAX_PENDING
    ensures var again := SealStart(Abandon(TakeBlock(SealStart(w, c, rootCid), c, block), c), c, rootCid);
            var w' := RecordBlock(LinkBlock(again, c, links), c, size);
            c in w'.sealing && w'.sealing[c] == Sealing(BumpAll(Bump(map[], rootCid, 1), links), size)
  {
    var w1 := TakeBlock(SealStart(w, c, rootCid), c, block);
    StartsFresh(w, c, rootCid);
    var w2 := Abandon(w1, c);
    AbandonedStart(w, c, rootCid, block);
    StartsFresh(w2, c, rootCid);
  }

  lemma AbandonedStart(w: World, c: Cid, rootCid: Cid, block: Cid)
    requires c !in w.files && c !in w.sealing && !w.upgrading && |w.files| < MAX_FILES && |w.sealing| <= MAX_PENDING
    ensures var w' := Abandon(TakeBlock(SealStart(w, c, rootCid), c, block), c);
            w'.files == w.files && w'.sealing == w.sealing && !w'.upgrading
  {
    var w1 := SealStart(w, c, rootCid);
    StartsFresh(w, c, rootCid);
    assert w1.files == (w.files - {c})[c := FRESH];
    var x := w1.sealing[c];
    assert w1.sealing == w.sealing[c := x];
    PutAndRemove(w.files, c, FRESH, FRESH);
    var w2 := TakeBlock(w1, c, block);
    PutAndRemove(w.sealing, c, x, w2.sealing[c]);
    assert w2.sealing == w1.sealing[c := w2.sealing[c]];
  }

  lemma PutAndRemove<K, V>(m: map<K, V>, k: K, v: V, v': V)
    requires k !in m
    ensures m[k := v][k := v'] - {k} == m && (m - {k})[k := v] - {k} == m
  {
  }

  lemma EndedAtOnce(w: World, c: Cid, rootCid: Cid, blockNum: nat)
    requires Inv(w) && c !in w.files && c !in w.sealing && w.inFlight.None? && !w.upgrading && blockNum > 0
    requires |w.files| < MAX_FILES && |w.sealing| <= MAX_PENDING
    ensures var w' := SealEnd(TakeBlock(SealStart(w, c, rootCid), c, rootCid), c, blockNum, true);
            Inv(w') && w'.inFlight.None? && c !in w'.sealing && !w'.upgrading
            && c in w'.files && w'.files[c].current == Valid && w'.files[c].origin == Unverified
  {
    var w1 := SealStart(w, c, rootCid);
    SealStartKeeps(w, c, rootCid);
    StartsFresh(w, c, rootCid);
    var w2 := TakeBlock(w1, c, rootCid);
    CountingKeeps(w1, w2);
    PaidRoot(rootCid);
    EndsComplete(w2, c, blockNum);
  }

  lemma StartsFresh(w: World, c: Cid, rootCid: Cid)
    requires c !in w.files && c !in w.sealing && !w.upgrading && |w.files| < MAX_FILES && |w.sealing| <= MAX_PENDING
    ensures var w' := SealStart(w, c, rootCid);
            c in w'.sealing && w'.sealing[c] == Sealing(Bump(map[], rootCid, 1), 0)
            && c in w'.files && w'.files[c] == FRESH && w'.inFlight == w.inFlight && w'.upgrading == w.upgrading
  {
  }

  lemma PaidRoot(rootCid: Cid)
    ensures AllZero(Bump(Bump(map[], rootCid, 1), rootCid, -1))
  {
  }

  lemma EndsComplete(w: World, c: Cid, blockNum: nat)
    requires Inv(w) && Complete(w, c) && c in w.files && w.files[c].current == Pending && blockNum > 0
    ensures var w' := SealEnd(w, c, blockNum, true);
            Inv(w') && w'.inFlight == w.inFlight && c !in w'.sealing && w'.upgrading == w.upgrading
            && c in w'.files && w'.files[c].current == Valid && w'.files[c].origin == Unverified
  {
    SealEndKeeps(w, c, blockNum, true);
  }

  lemma ReportedAlone(w: World, c: Cid)
    requires Inv(w) && w.inFlight.None? && c in w.files
    requires w.files[c].current == Valid && w.files[c].origin == Unverified
    ensures var w' := Accept(Generate(w, {c}));
            Inv(w') && w'.sealing == w.sealing && w'.upgrading == w.upgrading
            && c in w'.files && w'.files[c].origin == Valid
  {
    GenerateKeeps(w, {c});
    AcceptKeeps(Generate(w, {c}));
  }

  /** Such a file is soon there: its sealing was ended between the two sections of its root, and it was reported. */
  lemma LateBlocksReachable(w: World, c: Cid, rootCid: Cid, blockNum: nat)
    requires Inv(w) && c !in w.files && c !in w.sealing && w.inFlight.None? && !w.upgrading && blockNum > 0
    requires |w.files| < MAX_FILES && |w.sealing| <= MAX_PENDING
    ensures var ended := SealEnd(TakeBlock(SealStart(w, c, rootCid), c, rootCid), c, blockNum, true);
            var w' := Accept(Generate(ended, {c}));
            Inv(w') && c in w'.files && w'.files[c].origin == Valid && c !in w'.sealing && !w'.upgrading
  {
    var w3 := SealEnd(TakeBlock(SealStart(w, c, rootCid), c, rootCid), c, blockNum, true);
    EndedAtOnce(w, c, rootCid, blockNum);
    ReportedAlone(w3, c);
  }

  /**
   The condition is not idle: for every file that is waiting to be reported as added,
   deleting it and cleaning up between report and confirmation leaves it on the chain
   while the worker has forgotten it.
   */
  lemma DeletedInWindowDisagrees(w: World, c: Cid, blockNum: nat)
    requires Inv(w) && w.inFlight.None? && c in w.files && blockNum > 0
    requires Outstanding(w.files[c]) && w.files[c].current == Valid
    ensures var w' := Accept(DealDeleted(Delete(Generate(w, {c}), c, blockNum, true)));
            c in w'.chain && c !in w'.files && !Agrees(w')
  {
    var w1 := Generate(w, {c});
    assert c in w1.inFlight.value.added && w1.files[c].current == Valid && w1.files[c].origin == w.files[c].origin;
    var w2 := Delete(w1, c, blockNum, true);
    assert w2.inFlight == w1.inFlight && c in w2.buffer && Erasable(w2.files[c]);
    CollectedThenAccepted(w2, c);
  }

  lemma CollectedThenAccepted(w: World, c: Cid)
    requires w.inFlight.Some? && c in w.inFlight.value.added && c in w.buffer && c in w.files && Erasable(w.files[c])
    ensures var w' := Accept(DealDeleted(w)); c in w'.chain && c !in w'.files && !Agrees(w')
  {
    assert c in Gone(w);
    var w' := Accept(DealDeleted(w));
    assert c in w'.chain && c !in w'.files;
    assert c !in OriginSizes(w'.files);
  }

  /**
   A deletion between the validation of a file and the change of its status is undone: the file
   stays in the table, as LOST or VALID, and is not collected, if and only if the snapshot is of
   the same sealing and was VALID or LOST. Worker and chain still agree.
   */
  lemma ValidationUndoesDeletionIff(w: World, c: Cid, blockNum: nat, stored: bool, snapshot: File)
    requires Inv(w) && c in w.files && w.files[c].current != Pending && blockNum > 0 && snapshot.blockNum > 0
    ensures var w' := DealDeleted(Flip(Delete(w, c, blockNum, stored), c, snapshot));
            && (c in w'.files && w'.files[c].current != Deleted
                <==> snapshot.blockNum == w.files[c].blockNum
                     && (snapshot.current == Valid || snapshot.current == Lost))
            && Agrees(w')
  {
    UndoneInWindow(w, c, blockNum, stored, snapshot);
    StepKeeps(w, DoDelete(c, blockNum, stored));
    var w1 := Delete(w, c, blockNum, stored);
    StepKeeps(w1, DoFlip(c, snapshot));
    StepKeeps(Flip(w1, c, snapshot), DoDealDeleted);
  }

  lemma UndoneInWindow(w: World, c: Cid, blockNum: nat, stored: bool, snapshot: File)
    requires c in w.files && w.files[c].current != Pending
    ensures var w' := DealDeleted(Flip(Delete(w, c, blockNum, stored), c, snapshot));
            c in w'.files && w'.files[c].current != Deleted
            <==> snapshot.blockNum == w.files[c].blockNum && (snapshot.current == Valid || snapshot.current == Lost)
  {
    var w1 := Delete(w, c, blockNum, stored);
    assert w1.files[c].current == Deleted && w1.files[c].blockNum == w.files[c].blockNum;
  }

  /**
   What deleting a file does by its status. A file under seal is ended on the way: if it is complete
   and can be stored, it is there afterwards as a VALID file that is not to be collected, and
   otherwise as a DELETED one that is.
   */
  lemma DeleteMeans(w: World, c: Cid, blockNum: nat, stored: bool)
    requires c in w.files
    ensures var w' := Delete(w, c, blockNum, stored);
            var f := w.files[c];
            var sealed := f.current == Pending && Complete(w, c) && stored;
            && c in w'.files
            && (sealed <==> f.current == Pending && w'.files[c].current == Valid)
            && (sealed ==> w'.files[c] == File(w.sealing[c].size, blockNum, Valid, Unverified, Unverified))
            && (sealed ==> c !in w'.buffer)
            && (!sealed ==> w'.files[c] == f.(current := Deleted))
            && (!sealed && f.current != Deleted ==> c in w'.buffer)
            && (f.current == Pending ==> c !in w'.sealing)
            && (f.current != Pending ==> w'.sealing == w.sealing)
            && w'.files - {c} == w.files - {c} && w'.buffer - {c} == w.buffer - {c}
            && w'.sealing - {c} == w.sealing - {c}
  {
  }
}
