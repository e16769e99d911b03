/**
 When a work report may be made (src/enclave/report/Report.cpp:60-86 and
 src/enclave/workload/Workload.cpp:766-855), within one lifetime of the enclave, and the height
 at which the last report before an upgrade is made (src/enclave/identity/Identity.cpp:848-863).
 */
module Gate {
  const SLOT := 1200
  const MAX_PROOFS := 2

  datatype Verdict = Expired | Restarted | NoFiles | NotValidated | Generated

  /** The height of the last report, the restart flag, whether files are reported, and the proofs since. */
  datatype Gate = Gate(height: nat, restart: int, files: bool, srdProofs: int, fileProofs: int)

  datatype Event =
    | SrdProof
    | FileProof
    | FilesFlag(files: bool)
    | Attempt(block: nat)

  predicate HeightPasses(g: Gate, block: nat) { block != 0 && g.height + SLOT <= block }

  function Judge(g: Gate, block: nat): Verdict {
    if !HeightPasses(g, block) then Expired
    else if g.restart > 0 then Restarted
    else if !g.files then NoFiles
    else if !(g.srdProofs > 0 && g.fileProofs > 0) then NotValidated
    else Generated
  }

  function OneMore(n: int): int { if n >= MAX_PROOFS then MAX_PROOFS else n + 1 }

  function After(g: Gate, e: Event): Gate {
    match e
    case SrdProof => g.(srdProofs := OneMore(g.srdProofs))
    case FileProof => g.(fileProofs := OneMore(g.fileProofs))
    case FilesFlag(b) => g.(files := b)
    case Attempt(block) =>
      if !HeightPasses(g, block) then g
      else Gate(block, if g.restart <= 0 then 0 else g.restart - 1, true, 0, 0)
  }

  /** The state after a run of events from a start at which nothing is proved. */
  function Reached(g: Gate, events: seq<Event>): Gate {
    if events == [] then g else After(Reached(g, events[..|events| - 1]), events[|events| - 1])
  }

  /** The event is an attempt that passes the height check. */
  predicate Passes(g: Gate, events: seq<Event>, i: nat) {
    i < |events| && events[i].Attempt? && HeightPasses(Reached(g, events[..i]), events[i].block)
  }

  /** The event is an attempt that leads to a report. */
  predicate Reports(g: Gate, events: seq<Event>, i: nat) {
    i < |events| && events[i].Attempt? && Judge(Reached(g, events[..i]), events[i].block).Generated?
  }

  lemma ReachedNext(g: Gate, events: seq<Event>, i: nat)
    requires i < |events|
    ensures Reached(g, events[..i + 1]) == After(Reached(g, events[..i]), events[i])
  {
    assert events[..i + 1][..i] == events[..i];
  }

  lemma {:induction false} HeightGrows(g: Gate, events: seq<Event>, i: nat, j: nat)
    requires i <= j <= |events|
    ensures Reached(g, events[..i]).height <= Reached(g, events[..j]).height
    decreases j
  {
    if i < j {
      HeightGrows(g, events, i, j - 1);
      ReachedNext(g, events, j - 1);
    }
  }

  /** Heights that pass are at least one slot apart. */
  lemma SlotsApart(g: Gate, events: seq<Event>, i: nat, j: nat)
    requires i < j && Passes(g, events, i) && Passes(g, events, j)
    ensures events[i].block + 1200 <= events[j].block
  {
    ReachedNext(g, events, i);
    HeightGrows(g, events, i + 1, j);
  }

  /** A proof that is counted was given since the last attempt that passed. */
  ghost predicate ProvedSince(g: Gate, events: seq<Event>, n: nat, proof: Event)
    requires n <= |events|
  {
    exists k :: 0 <= k < n && events[k] == proof && forall i :: k <= i < n ==> !Passes(g, events, i)
  }

  lemma ProvedSinceStays(g: Gate, events: seq<Event>, n: nat, proof: Event)
    requires n < |events| && ProvedSince(g, events, n, proof) && !Passes(g, events, n)
    ensures ProvedSince(g, events, n + 1, proof)
  {
    var k :| 0 <= k < n && events[k] == proof && forall i :: k <= i < n ==> !Passes(g, events, i);
    assert forall i :: k <= i < n + 1 ==> !Passes(g, events, i);
  }

  lemma {:induction false} CountedIsProved(g: Gate, events: seq<Event>, n: nat)
    requires n <= |events| && g.srdProofs == 0 && g.fileProofs == 0
    ensures Reached(g, events[..n]).srdProofs > 0 ==> ProvedSince(g, events, n, SrdProof)
    ensures Reached(g, events[..n]).fileProofs > 0 ==> ProvedSince(g, events, n, FileProof)
    ensures Reached(g, events[..n]).srdProofs >= 0 && Reached(g, events[..n]).fileProofs >= 0
  {
    if n > 0 {
      var m := n - 1;
      CountedIsProved(g, events, m);
      ReachedNext(g, events, m);
      if events[m] == SrdProof || events[m] == FileProof {
        assert forall i :: m <= i < n ==> !Passes(g, events, i);
        assert ProvedSince(g, events, n, events[m]);
      }
      if !Passes(g, events, m) {
        if ProvedSince(g, events, m, SrdProof) {
          ProvedSinceStays(g, events, m, SrdProof);
        }
        if ProvedSince(g, events, m, FileProof) {
          ProvedSinceStays(g, events, m, FileProof);
        }
      }
    }
  }

  lemma {:induction false} ProvedIsCounted(g: Gate, events: seq<Event>, n: nat)
    requires n <= |events| && g.srdProofs == 0 && g.fileProofs == 0
    ensures ProvedSince(g, events, n, SrdProof) ==> Reached(g, events[..n]).srdProofs > 0
    ensures ProvedSince(g, events, n, FileProof) ==> Reached(g, events[..n]).fileProofs > 0
  {
    if n > 0 {
      var m := n - 1;
      ProvedIsCounted(g, events, m);
      CountedIsProved(g, events, m);
      ReachedNext(g, events, m);
      if ProvedSince(g, events, n, SrdProof) {
        ProvedBefore(g, events, n, SrdProof);
      }
      if ProvedSince(g, events, n, FileProof) {
        ProvedBefore(g, events, n, FileProof);
      }
    }
  }

  lemma ProvedBefore(g: Gate, events: seq<Event>, n: nat, proof: Event)
    requires 0 < n <= |events| && ProvedSince(g, events, n, proof)
    ensures !Passes(g, events, n - 1) && (events[n - 1] == proof || ProvedSince(g, events, n - 1, proof))
  {
    var k :| 0 <= k < n && events[k] == proof && forall i :: k <= i < n ==> !Passes(g, events, i);
  }

  // ----- The verdict, told from the events alone -----

  /** How many attempts passed the height check. */
  ghost function PassCount(g: Gate, events: seq<Event>, n: nat): nat {
    if n == 0 then 0 else PassCount(g, events, n - 1) + if Passes(g, events, n - 1) then 1 else 0
  }

  /** The height of the last attempt that passed. */
  ghost function LastPass(g: Gate, events: seq<Event>, n: nat): nat
    requires n <= |events|
  {
    if n == 0 then g.height
    else if Passes(g, events, n - 1) then events[n - 1].block
    else LastPass(g, events, n - 1)
  }

  /** What was last said about the files; an attempt that passes takes back a refusal. */
  ghost function FilesWanted(g: Gate, events: seq<Event>, n: nat): bool
    requires n <= |events|
  {
    if n == 0 then g.files
    else if events[n - 1].FilesFlag? then events[n - 1].files
    else Passes(g, events, n - 1) || FilesWanted(g, events, n - 1)
  }

  lemma {:induction false} ReachedFromTrace(g: Gate, events: seq<Event>, n: nat)
    requires n <= |events|
    ensures var now := Reached(g, events[..n]);
            && now.height == LastPass(g, events, n) && now.files == FilesWanted(g, events, n)
            && (now.restart > 0 <==> PassCount(g, events, n) < g.restart)
            && (now.restart > 0 ==> now.restart == g.restart - PassCount(g, events, n))
  {
    if n > 0 {
      ReachedFromTrace(g, events, n - 1);
      ReachedNext(g, events, n - 1);
    }
  }

  /**
   An attempt passes exactly if it is a slot or more behind the last one that passed. It is then turned away
   for the restart as long as fewer attempts have passed than the flag said at the start; after that, for
   the files if they were last said not to be reported; after that, if one of the proofs was not
   given since the last attempt that passed. Otherwise, and only then, it leads to a report.
   */
  lemma VerdictFromTrace(g: Gate, events: seq<Event>, j: nat)
    requires g.srdProofs == 0 && g.fileProofs == 0 && j < |events| && events[j].Attempt?
    ensures Passes(g, events, j) <==> events[j].block != 0 && LastPass(g, events, j) + 1200 <= events[j].block
    ensures var proved := ProvedSince(g, events, j, SrdProof) && ProvedSince(g, events, j, FileProof);
            Judge(Reached(g, events[..j]), events[j].block)
            == if !Passes(g, events, j) then Expired
               else if PassCount(g, events, j) < g.restart then Restarted
               else if !FilesWanted(g, events, j) then NoFiles
               else if !proved then NotValidated else Generated
  {
    ReachedFromTrace(g, events, j);
    CountedIsProved(g, events, j);
    ProvedIsCounted(g, events, j);
  }

  /** Every report rests on a srd proof and a file proof given since the last attempt that passed the height check. */
  lemma ReportIsProved(g: Gate, events: seq<Event>, j: nat)
    requires g.srdProofs == 0 && g.fileProofs == 0 && Reports(g, events, j)
    ensures ProvedSince(g, events, j, SrdProof) && ProvedSince(g, events, j, FileProof)
  {
    CountedIsProved(g, events, j);
  }

  /** So between two attempts that pass, the later of which leads to a report, both proofs were given. */
  lemma ProofsBetween(g: Gate, events: seq<Event>, i: nat, j: nat)
    requires g.srdProofs == 0 && g.fileProofs == 0 && i < j && Passes(g, events, i) && Reports(g, events, j)
    ensures exists k :: i < k < j && events[k] == SrdProof
    ensures exists k :: i < k < j && events[k] == FileProof
  {
    ReportIsProved(g, events, j);
    var k :| 0 <= k < j && events[k] == SrdProof && forall i :: k <= i < j ==> !Passes(g, events, i);
    assert k > i;
    var l :| 0 <= l < j && events[l] == FileProof && forall i :: l <= i < j ==> !Passes(g, events, i);
    assert l > i;
  }

  // ----- The height of the last report -----

  datatype UpgradeStart = HeightExpired | WaitForNextEra | Go

  lemma SameRemainder(h: nat, r: nat)
    requires r % SLOT == h % SLOT
    ensures (r + SLOT) % SLOT == h % SLOT
  {
  }

  /**
   The height loop of id_gen_upgrade_data. The height it yields passes the check of the report
   unless the block is exactly one slot ahead: then it is the height of the last report itself.
   */
  method UpgradeHeight(g: Gate, block: nat) returns (start: UpgradeStart, height: nat)
    ensures start == if block <= g.height then HeightExpired else if block < g.height + SLOT then WaitForNextEra else Go
    ensures block >= g.height + SLOT ==> height % SLOT == g.height % SLOT && g.height <= height < block <= height + SLOT
    ensures block > g.height + SLOT ==> g.height + SLOT <= height
    ensures block >= g.height + SLOT ==> (HeightPasses(g, height) <==> block != g.height + SLOT)
  {
    start, height := Go, g.height;
    if block <= g.height {
      return HeightExpired, g.height;
    }
    if block < SLOT + g.height {
      return WaitForNextEra, g.height;
    }
    while block > SLOT + height
      invariant g.height <= height < block && height % SLOT == g.height % SLOT
      invariant height == g.height || g.height + SLOT <= height
      decreases block - height
    {
      SameRemainder(g.height, height);
      height := height + SLOT;
    }
  }

  // ----- The code -----

  /** The part of the workload that the checks of gen_work_report look at. */
  class ReportGate {
    var reportHeight: nat
    var restartFlag: int
    var reportFiles: bool
    var srdProof: int
    var fileProof: int

    constructor (files: bool)
      ensures Now() == Gate(0, 0, files, 0, 0)
    {
      reportHeight, restartFlag, reportFiles, srdProof, fileProof := 0, 0, files, 0, 0;
    }

    function Now(): Gate
      reads this
    {
      Gate(reportHeight, restartFlag, reportFiles, srdProof, fileProof)
    }

    method AddValidatedSrdProof()
      modifies this
      ensures Now() == After(old(Now()), SrdProof)
    {
      if srdProof >= MAX_PROOFS {
        srdProof := MAX_PROOFS;
      } else {
        srdProof := srdProof + 1;
      }
    }

    method AddValidatedFileProof()
      modifies this
      ensures Now() == After(old(Now()), FileProof)
    {
      if fileProof >= MAX_PROOFS {
        fileProof := MAX_PROOFS;
      } else {
        fileProof := fileProof + 1;
      }
    }

    method SetReportFileFlag(flag: bool)
      modifies this
      ensures Now() == After(old(Now()), FilesFlag(flag))
    {
      reportFiles := flag;
    }

    /** The checks of gen_work_report; whatever they say, an attempt that passes the first of them resets the state. */
    method Check(block: nat) returns (verdict: Verdict)
      modifies this
      ensures verdict == Judge(old(Now()), block) && Now() == After(old(Now()), Attempt(block))
    {
      if block == 0 || reportHeight + SLOT > block {
        return Expired;
      }
      if restartFlag > 0 {
        verdict := Restarted;
      } else if !reportFiles {
        verdict := NoFiles;
      } else if !(srdProof > 0 && fileProof > 0) {
        verdict := NotValidated;
      } else {
        verdict := Generated;
      }
      reportHeight := block;
      reportFiles := true;
      restartFlag := restartFlag - 1;
      if restartFlag < 0 {
        restartFlag := 0;
      }
      srdProof, fileProof := 0, 0;
    }
  }
}
