/**
 The end of a sealing, section by section (src/enclave/storage/Storage.cpp:287-431). The code copies
 what is under seal, lets go of the lock, tests the copy, and writes the table much later; then it
 erases what is under seal, and the PENDING entry if there still is one. Deleting a file marks its
 entry and then ends its sealing in the same way. Between these sections other threads seal, delete,
 report and end, also for the same root.

 Undisturbed, the sections are `Agreement.SealEnd` (`Undisturbed`). Disturbed, worker and chain still
 agree if no two ends of one root are between their copy and their write, and each begins while the
 table has no older entry for the root (`OrderlyRunAgrees`); two such ends can make them disagree
 (`TwoEndsDisagree`). The write itself keeps the agreement if and only if it does not replace an
 entry that the chain knows as valid (`WriteAgreesIff`).
 */
module Ending {
  import opened Basics
  import opened FileTable
  import opened Agreement
  import Runs

  /** Where an end stands between its sections. */
  datatype Phase =
    | Copied               // has its copy
    | Checked(ok: bool)    // has tested it
    | Written              // is through with the table
    | Erased               // has erased what is under seal

  datatype End = End(root: Cid, copy: Sealing, phase: Phase)

  datatype State = State(w: World, ends: map<nat, End>)

  datatype Step =
    | Other(a: Action)                             // a step of the protocol that is no end and no deletion
    | Mark(cid: Cid)                               // the first section of storage_delete_file
    | Copy(id: nat, root: Cid)
    | Check(id: nat)
    | Write(id: nat, blockNum: nat, stored: bool)
    | Erase(id: nat)
    | Clear(id: nat)

  predicate At(s: State, id: nat, phase: Phase) { id in s.ends && s.ends[id].phase == phase }

  predicate CanTake(s: State, step: Step) {
    match step
    case Other(a) => !a.DoSealEnd? && !a.DoDelete? && Enabled(s.w, a)
    case Mark(_) => true
    case Copy(id, root) => id !in s.ends && root in s.w.sealing
    case Check(id) => At(s, id, Copied)
    case Write(id, blockNum, _) => (At(s, id, Checked(true)) || At(s, id, Checked(false))) && blockNum > 0
    case Erase(id) => At(s, id, Written)
    case Clear(id) => At(s, id, Erased)
  }

  function Marked(w: World, c: Cid): World {
    if c !in w.files || w.files[c].current == Deleted then w
    else w.(files := w.files[c := w.files[c].(current := Deleted)], buffer := w.buffer + {c})
  }

  function Cleared(w: World, root: Cid): World {
    if root in w.files && w.files[root].current == Pending then Drop(w, {root}) else w
  }

  /** The write happens: the copy has passed the test, and its tree could be stored. */
  predicate Writes(e: End, stored: bool) { e.phase == Checked(true) && stored }

  function Take(s: State, step: Step): State
    requires CanTake(s, step)
  {
    match step
    case Other(a) => s.(w := Apply(s.w, a))
    case Mark(c) => s.(w := Marked(s.w, c))
    case Copy(id, root) => s.(ends := s.ends[id := End(root, s.w.sealing[root], Copied)])
    case Check(id) =>
      var e := s.ends[id];
      s.(ends := s.ends[id := e.(phase := Checked(!s.w.upgrading && AllZero(e.copy.blocks)))])
    case Write(id, blockNum, stored) =>
      var e := s.ends[id];
      State(if Writes(e, stored) then Replace(s.w, e.root, e.copy.size, blockNum) else s.w,
            s.ends[id := e.(phase := Written)])
    case Erase(id) =>
      var e := s.ends[id];
      State(s.w.(sealing := s.w.sealing - {e.root}), s.ends[id := e.(phase := Erased)])
    case Clear(id) => State(Cleared(s.w, s.ends[id].root), s.ends - {id})
  }

  function Next(s: State, step: Step): Option<State> {
    if CanTake(s, step) then Some(Take(s, step)) else None
  }

  ghost predicate Run(s: State, steps: seq<Step>, s': State) {
    Runs.Run(Next, s, steps, s')
  }

  // ----- Undisturbed -----

  /** All sections of an end in a row. */
  function Through(s: State, id: nat, root: Cid, blockNum: nat, stored: bool): State
    requires CanTake(s, Copy(id, root)) && blockNum > 0
  {
    Take(Take(Take(Take(Take(s, Copy(id, root)), Check(id)), Write(id, blockNum, stored)), Erase(id)), Clear(id))
  }

  lemma Undisturbed(s: State, id: nat, root: Cid, blockNum: nat, stored: bool)
    requires id !in s.ends && root in s.w.sealing && blockNum > 0
    ensures Through(s, id, root, blockNum, stored) == State(SealEnd(s.w, root, blockNum, stored), s.ends)
  {
    var s1 := Take(s, Copy(id, root));
    var s2 := Take(s1, Check(id));
    var s3 := Take(s2, Write(id, blockNum, stored));
    var s4 := Take(s3, Erase(id));
    assert s1.ends[id].root == root && s2.ends[id].root == root && s3.ends[id].root == root && s4.ends[id].root == root;
    assert s.ends[id := s4.ends[id]] - {id} == s.ends;
    assert s4.ends == s.ends[id := s4.ends[id]];
  }

  // ----- Every section keeps the invariant -----

  /** The file has never been VALID: its entry comes from a start, or a deletion since. */
  predicate Young(f: File) {
    f.origin == Unverified && f.blockNum == 0 && (f.current == Pending || f.current == Deleted)
    && f.waiting != Valid && f.waiting != Lost
  }

  predicate YoungOrNone(w: World, c: Cid) { c in w.files ==> Young(w.files[c]) }

  /** The end has yet to write the table. */
  predicate Early(e: End) { e.phase.Copied? || e.phase.Checked? }

  /** The ends that have yet to write are of different roots, and the table has no older entry for them. */
  ghost predicate Own(s: State) {
    (forall i :: i in s.ends && Early(s.ends[i]) ==> YoungOrNone(s.w, s.ends[i].root))
    && forall i, j :: i in s.ends && j in s.ends && i != j && Early(s.ends[i]) && Early(s.ends[j]) ==>
         s.ends[i].root != s.ends[j].root
  }

  ghost predicate Good(s: State) {
    Inv(s.w) && s.w.lost == {} && Own(s)
  }

  /** The step erases no file that an open report adds, and no end begins beside another one or over an older entry. */
  ghost predicate Fair(s: State, step: Step) {
    match step
    case Other(a) => forall c :: c in Listed(s.w) && !a.DoAccept? && !a.DoReject? ==> !Erases(s.w, a, c)
    case Copy(_, root) =>
      YoungOrNone(s.w, root) && forall i :: i in s.ends && Early(s.ends[i]) ==> s.ends[i].root != root
    case _ => true
  }

  lemma YoungIsUnlisted(w: World, c: Cid)
    requires Inv(w) && w.lost == {} && c in w.files && Young(w.files[c])
    ensures c !in Listed(w) && (w.inFlight.Some? ==> c !in w.reported)
  {
  }

  lemma StartStaysYoung(w: World, c: Cid, started: Cid, rootCid: Cid)
    requires YoungOrNone(w, c)
    ensures YoungOrNone(SealStart(w, started, rootCid), c)
  {
  }

  lemma ReportStaysYoung(w: World, c: Cid, a: Action)
    requires Inv(w) && w.lost == {} && Enabled(w, a) && YoungOrNone(w, c)
    requires a.DoGenerate? || a.DoGenerateForUpgrade? || a.DoAccept? || a.DoReject?
    ensures YoungOrNone(Apply(w, a), c)
  {
    if c in w.files {
      YoungIsUnlisted(w, c);
    }
  }

  /** No other step makes a young entry older. */
  lemma StaysYoung(w: World, c: Cid, a: Action)
    requires Inv(w) && w.lost == {} && Enabled(w, a) && !a.DoSealEnd? && !a.DoDelete? && YoungOrNone(w, c)
    ensures YoungOrNone(Apply(w, a), c)
  {
    match a
    case DoSealStart(started, rootCid) => StartStaysYoung(w, c, started, rootCid);
    case DoGenerate(_) => ReportStaysYoung(w, c, a);
    case DoGenerateForUpgrade => ReportStaysYoung(w, c, a);
    case DoAccept => ReportStaysYoung(w, c, a);
    case DoReject => ReportStaysYoung(w, c, a);
    case _ =>
  }

  lemma MarkKeeps(w: World, c: Cid)
    requires Inv(w) && w.lost == {}
    ensures Inv(Marked(w, c)) && Marked(w, c).lost == {}
  {
    if c in w.files {
      SetCurrentKeepsCore(w, c, Deleted);
    }
  }

  lemma ClearKeeps(w: World, root: Cid)
    requires Inv(w) && w.lost == {}
    ensures Inv(Cleared(w, root)) && Cleared(w, root).lost == {}
  {
    if root in w.files && w.files[root].current == Pending {
      DropKeepsCore(w, {root});
      PendingNotLost(w, root);
    }
  }

  lemma WriteKeeps(w: World, root: Cid, size: nat, blockNum: nat)
    requires Inv(w) && w.lost == {} && YoungOrNone(w, root)
    ensures Inv(Replace(w, root, size, blockNum)) && Replace(w, root, size, blockNum).lost == {}
  {
    ReplaceKeepsCore(w, root, size, blockNum);
    if root in w.files {
      YoungIsUnlisted(w, root);
    }
  }

  /** The part of the step that concerns the protocol state. */
  lemma WorldKeeps(s: State, step: Step)
    requires Good(s) && CanTake(s, step) && Fair(s, step)
    ensures Inv(Take(s, step).w) && Take(s, step).w.lost == {}
  {
    match step
    case Other(a) =>
      StepKeeps(s.w, a);
      NothingLost(s.w, a);
    case Mark(c) => MarkKeeps(s.w, c);
    case Write(id, blockNum, stored) =>
      if Writes(s.ends[id], stored) {
        WriteKeeps(s.w, s.ends[id].root, s.ends[id].copy.size, blockNum);
      }
    case Erase(id) => CountingKeeps(s.w, Take(s, step).w);
    case Clear(id) => ClearKeeps(s.w, s.ends[id].root);
    case _ =>
  }

  lemma OwnKeeps(s: State, step: Step)
    requires Good(s) && CanTake(s, step) && Fair(s, step)
    ensures Own(Take(s, step))
  {
    var s' := Take(s, step);
    forall i | i in s'.ends && Early(s'.ends[i])
      ensures YoungOrNone(s'.w, s'.ends[i].root)
    {
      if step.Other? {
        StaysYoung(s.w, s.ends[i].root, step.a);
      }
    }
  }

  lemma {:induction false} RunKeeps(s: State, steps: seq<Step>, s': State)
    requires Good(s) && Run(s, steps, s') && Orderly(s, steps)
    ensures Good(s')
    decreases |steps|
  {
    if steps != [] {
      WorldKeeps(s, steps[0]);
      OwnKeeps(s, steps[0]);
      RunKeeps(Take(s, steps[0]), steps[1..], s');
    }
  }

  ghost predicate Orderly(s: State, steps: seq<Step>)
    decreases |steps|
  {
    steps != [] && CanTake(s, steps[0]) ==> Fair(s, steps[0]) && Orderly(Take(s, steps[0]), steps[1..])
  }

  /** Worker and chain agree after every orderly run, whatever happens between the sections of its ends. */
  lemma OrderlyRunAgrees(w: World, steps: seq<Step>, s': State)
    requires Inv(w) && w.lost == {} && Run(State(w, map[]), steps, s') && Orderly(State(w, map[]), steps)
    ensures Agrees(s'.w)
    ensures s'.w.inFlight.Some? ==> LegalIncrement(s'.w.inFlight.value, s'.w.chain)
  {
    RunKeeps(State(w, map[]), steps, s');
  }

  // ----- Two ends of one root -----

  /** The write keeps the agreement if and only if it does not replace an entry that the chain knows as valid. */
  lemma WriteAgreesIff(s: State, id: nat, blockNum: nat)
    requires Inv(s.w) && At(s, id, Checked(true)) && blockNum > 0
    ensures var root := s.ends[id].root;
            Agrees(Take(s, Write(id, blockNum, true)).w) <==> !(root in s.w.files && s.w.files[root].origin == Valid)
  {
    var root := s.ends[id].root;
    if root in s.w.files && s.w.files[root].origin == Valid {
      assert root in OriginSizes(s.w.files);
      assert root !in OriginSizes(Take(s, Write(id, blockNum, true)).w.files);
    } else {
      ReplaceKeepsCore(s.w, root, s.ends[id].copy.size, blockNum);
    }
  }

  lemma RunAppend(s: State, a: seq<Step>, m: State, b: seq<Step>, s': State)
    requires Run(s, a, m) && Run(m, b, s')
    ensures Run(s, a + b, s')
  {
    Runs.RunAppend(Next, s, a, m, b, s');
  }

  lemma RunOne(s: State, step: Step)
    requires CanTake(s, step)
    ensures Run(s, [step], Take(s, step))
  {
    Runs.RunOne(Next, s, step);
  }

  /** Two steps in a row. */
  lemma RunTwo(s: State, a: Step, b: Step)
    requires CanTake(s, a) && CanTake(Take(s, a), b)
    ensures Run(s, [a, b], Take(Take(s, a), b))
  {
    RunOne(s, a);
    RunOne(Take(s, a), b);
    RunAppend(s, [a], Take(s, a), [b], Take(Take(s, a), b));
    assert [a] + [b] == [a, b];
  }

  /** An end copies what is under seal and finds it complete. */
  lemma CopiesComplete(s: State, id: nat, c: Cid)
    requires id !in s.ends && Complete(s.w, c)
    ensures Run(s, [Copy(id, c), Check(id)], s.(ends := s.ends[id := End(c, s.w.sealing[c], Checked(true))]))
  {
    RunTwo(s, Copy(id, c), Check(id));
    var s1 := Take(s, Copy(id, c));
    assert s1.ends[id := End(c, s.w.sealing[c], Checked(true))] == s.ends[id := End(c, s.w.sealing[c], Checked(true))];
  }

  /** An end that has found it complete goes through with the rest. */
  lemma GoesThrough(s: State, id: nat, blockNum: nat) returns (s': State)
    requires Inv(s.w) && At(s, id, Checked(true)) && blockNum > 0 && s.w.inFlight.None?
    requires s.ends[id].root in s.w.files && s.w.files[s.ends[id].root].current == Pending
    ensures Run(s, [Write(id, blockNum, true), Erase(id)] + [Clear(id)], s')
    ensures s'.ends == s.ends - {id} && Inv(s'.w) && s'.w.inFlight.None?
    ensures var c := s.ends[id].root;
            c in s'.w.files && s'.w.files[c].current == Valid && s'.w.files[c].origin == Unverified
  {
    var c := s.ends[id].root;
    var s1 := Take(s, Write(id, blockNum, true));
    ReplaceKeepsCore(s.w, c, s.ends[id].copy.size, blockNum);
    var s2 := Take(s1, Erase(id));
    CountingKeeps(s1.w, s2.w);
    s' := Take(s2, Clear(id));
    RunTwo(s, Write(id, blockNum, true), Erase(id));
    RunOne(s2, Clear(id));
    RunAppend(s, [Write(id, blockNum, true), Erase(id)], s2, [Clear(id)], s');
  }

  /** The file is reported alone, and the report is confirmed. */
  lemma IsReported(s: State, c: Cid) returns (s': State)
    requires Inv(s.w) && s.w.inFlight.None? && c in s.w.files
    requires s.w.files[c].current == Valid && s.w.files[c].origin == Unverified
    ensures Run(s, [Other(DoGenerate({c})), Other(DoAccept)], s')
    ensures s'.ends == s.ends && Inv(s'.w) && c in s'.w.files && s'.w.files[c].origin == Valid
  {
    RunTwo(s, Other(DoGenerate({c})), Other(DoAccept));
    ReportedAlone(s.w, c);
    s' := Take(Take(s, Other(DoGenerate({c}))), Other(DoAccept));
  }

  /**
   Two ends of one root, for every complete file: both copy it; the first goes through, and the file
   is reported and confirmed; then the second writes the table, and the chain holds a file that the
   worker takes for a new one.
   */
  lemma TwoEndsDisagree(w: World, c: Cid, blockNum: nat) returns (steps: seq<Step>, s': State)
    requires Inv(w) && w.inFlight.None? && Complete(w, c) && blockNum > 0
    requires c in w.files && w.files[c].current == Pending
    ensures Run(State(w, map[]), steps, s')
    ensures c in s'.w.chain && c in s'.w.files && s'.w.files[c].origin == Unverified && !Agrees(s'.w)
  {
    var e := End(c, w.sealing[c], Checked(true));
    var s0, s1, s2 := State(w, map[]), State(w, map[1 := e]), State(w, map[1 := e][2 := e]);
    CopiesComplete(s0, 1, c);
    assert map[][1 := e] == map[1 := e];
    CopiesComplete(s1, 2, c);
    RunAppend(s0, [Copy(1, c), Check(1)], s1, [Copy(2, c), Check(2)], s2);
    steps := [Copy(1, c), Check(1)] + [Copy(2, c), Check(2)];
    var s3 := GoesThrough(s2, 1, blockNum);
    RunAppend(s0, steps, s2, [Write(1, blockNum, true), Erase(1)] + [Clear(1)], s3);
    steps := steps + ([Write(1, blockNum, true), Erase(1)] + [Clear(1)]);
    var s4 := IsReported(s3, c);
    RunAppend(s0, steps, s3, [Other(DoGenerate({c})), Other(DoAccept)], s4);
    steps := steps + [Other(DoGenerate({c})), Other(DoAccept)];
    RunOne(s4, Write(2, blockNum, true));
    s' := Take(s4, Write(2, blockNum, true));
    RunAppend(s0, steps, s4, [Write(2, blockNum, true)], s');
    steps := steps + [Write(2, blockNum, true)];
    WriteAgreesIff(s4, 2, blockNum);
    assert c in s4.w.chain;
  }
}
