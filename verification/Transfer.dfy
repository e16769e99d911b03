/**
 Data that is too large for one call crosses the enclave boundary in pieces
 (src/app/utils/Common.cpp:490-519 and src/enclave/Enclave.cpp:399-451). The sender draws a key and
 sends piece after piece; the enclave gathers the pieces of each key in a buffer of a pool, and
 when the last one has come it calls the handler and frees the buffer.

 A session is one run of the sender. Sessions interleave, a key may be drawn again, and a sender
 may give up in the middle, which leaves its buffer in the pool. Every session is delivered exactly
 if each one starts while no unfinished session holds its key and no shorter buffer is left behind
 under it (`ExactlyOnce`, `UnsafeStartLoses`).
 */
module Transfer {
  import opened Basics
  import Runs

  const THRESHOLD := 4194304

  /** The status a call returns: the handler may refuse what it is given. */
  datatype Status = Success | MallocFailed | Refused

  /**
   What a call of ecall_safe_store2 comes to. `Overrun` stands for a write or a read beyond the
   buffer, after which nothing is certain. `Handled` has the bytes that the handler was given, or
   none, if it was given a null pointer, and the status it returned.
   */
  datatype Received =
    | Overrun
    | NoMemory
    | Kept(pool: map<nat, Bytes>)
    | Handled(pool: map<nat, Bytes>, data: Option<Bytes>, status: Status)

  /** memcpy into a buffer. */
  function Written(buffer: Bytes, offset: nat, piece: Bytes): (b: Bytes)
    requires offset + |piece| <= |buffer|
    ensures |b| == |buffer|
  {
    buffer[..offset] + piece + buffer[offset + |piece|..]
  }

  /** ecall_safe_store2; `memory` says whether malloc succeeds, `verdict` what the handler returns. */
  function Receive(
      pool: map<nat, Bytes>, key: nat, total: nat, offset: nat, piece: Bytes, memory: bool, verdict: Status): Received
  {
    if offset >= total then
      if key !in pool then Handled(pool, None, verdict)
      else if total > |pool[key]| then Overrun
      else Handled(pool - {key}, Some(pool[key][..total]), verdict)
    else if key !in pool && !memory then NoMemory
    else Store(pool, key, if key in pool then pool[key] else Zeros(total), total, offset, piece, verdict)
  }

  function Store(
      pool: map<nat, Bytes>, key: nat, buffer: Bytes, total: nat, offset: nat, piece: Bytes, verdict: Status): Received
  {
    if offset + |piece| > |buffer| then Overrun
    else
      var b := Written(buffer, offset, piece);
      if offset + |piece| < total then Kept(pool[key := b]) else Handled(pool - {key}, Some(b[..total]), verdict)
  }

  // ----- Sessions -----

  /**
   What is to be sent under which key, how much of it has been, whether the sender is still at it,
   and what the handler got.
   */
  datatype Session = Session(key: nat, data: Bytes, offset: nat, sending: bool, handled: seq<Bytes>)

  datatype State = State(pool: map<nat, Bytes>, sessions: map<nat, Session>, corrupt: bool)

  datatype Action =
    | Open(id: nat, key: nat, data: Bytes)             // a sender draws a key
    | Send(id: nat, memory: bool, verdict: Status)     // its next piece is sent
    | GiveUp(id: nat)                                  // its call fails outside the enclave

  function PieceAt(data: Bytes, offset: nat): (piece: Bytes)
    requires offset < |data|
    ensures 0 < |piece| <= |data| - offset && |piece| <= THRESHOLD
    ensures |piece| < THRESHOLD ==> offset + |piece| == |data|
  {
    var size := if |data| - offset < THRESHOLD then |data| - offset else THRESHOLD;
    data[offset..offset + size]
  }

  predicate Enabled(s: State, a: Action) {
    !s.corrupt
    && match a
       case Open(id, _, _) => id !in s.sessions
       case Send(id, _, _) =>
         id in s.sessions && s.sessions[id].sending && s.sessions[id].offset < |s.sessions[id].data|
       case GiveUp(id) => id in s.sessions && s.sessions[id].sending
  }

  /** The session whose piece was received; one that is handled is over, whatever the handler says. */
  function Progress(x: Session, piece: Bytes, r: Received): Session {
    match r
    case Overrun => x
    case NoMemory => x.(sending := false)
    case Kept(_) => x.(offset := x.offset + |piece|)
    case Handled(_, data, _) =>
      x.(offset := x.offset + |piece|, sending := false,
         handled := if data.Some? then x.handled + [data.value] else x.handled)
  }

  function PoolAfter(pool: map<nat, Bytes>, r: Received): map<nat, Bytes> {
    match r
    case Overrun => pool
    case NoMemory => pool
    case Kept(p) => p
    case Handled(p, _, _) => p
  }

  function ReceiveFrom(pool: map<nat, Bytes>, x: Session, memory: bool, verdict: Status): Received
    requires x.offset < |x.data|
  {
    Receive(pool, x.key, |x.data|, x.offset, PieceAt(x.data, x.offset), memory, verdict)
  }

  function Apply(s: State, a: Action): State
    requires Enabled(s, a)
  {
    match a
    case Open(id, key, data) => s.(sessions := s.sessions[id := Session(key, data, 0, true, [])])
    case GiveUp(id) => s.(sessions := s.sessions[id := s.sessions[id].(sending := false)])
    case Send(id, memory, verdict) =>
      var x := s.sessions[id];
      var r := ReceiveFrom(s.pool, x, memory, verdict);
      State(PoolAfter(s.pool, r), s.sessions[id := Progress(x, PieceAt(x.data, x.offset), r)], r.Overrun?)
  }

  function Next(s: State, a: Action): Option<State> {
    if Enabled(s, a) then Some(Apply(s, a)) else None
  }

  ghost predicate Run(s: State, actions: seq<Action>, s': State) {
    Runs.Run(Next, s, actions, s')
  }

  const START := State(map[], map[], false)

  // ----- When a session may start -----

  /** The session has sent some of its pieces, and more are to come. */
  predicate Holds(x: Session) { x.sending && 0 < x.offset < |x.data| }

  /** The first piece of a session is sent while its key is free, up to a buffer that is left behind and long enough. */
  ghost predicate Safe(s: State, a: Action) {
    a.Send? && a.id in s.sessions && s.sessions[a.id].offset == 0 ==>
      var x := s.sessions[a.id];
      && (forall i :: i in s.sessions && Holds(s.sessions[i]) ==> s.sessions[i].key != x.key)
      && (x.key in s.pool ==> |x.data| <= |s.pool[x.key]|)
  }

  /** Every session of the run starts so. */
  ghost predicate Careful(s: State, actions: seq<Action>)
    decreases |actions|
  {
    actions != [] && Enabled(s, actions[0]) ==>
      Safe(s, actions[0]) && Careful(Apply(s, actions[0]), actions[1..])
  }

  // ----- Careful runs deliver -----

  predicate Done(x: Session) { !x.sending && x.offset == |x.data| }

  /** What the pool holds of a session, and what the handler got of it. */
  predicate Tracks(pool: map<nat, Bytes>, x: Session) {
    && x.offset <= |x.data| && (x.sending && x.offset == |x.data| ==> x.data == [])
    && (Holds(x) ==> x.key in pool && |x.data| <= |pool[x.key]| && pool[x.key][..x.offset] == x.data[..x.offset])
    && x.handled == if Done(x) && x.data != [] then [x.data] else []
  }

  ghost predicate Inv(s: State) {
    && !s.corrupt
    && (forall i :: i in s.sessions ==> Tracks(s.pool, s.sessions[i]))
    && (forall i, j ::
          i in s.sessions && j in s.sessions && Holds(s.sessions[i]) && Holds(s.sessions[j]) && i != j ==>
            s.sessions[i].key != s.sessions[j].key)
  }

  lemma PieceContinues(data: Bytes, b: Bytes, offset: nat)
    requires offset < |data| <= |b| && b[..offset] == data[..offset]
    ensures var piece := PieceAt(data, offset);
            var b' := Written(b, offset, piece);
            b'[..offset + |piece|] == data[..offset + |piece|] && (offset + |piece| == |data| ==> b'[..|data|] == data)
  {
    var piece := PieceAt(data, offset);
    assert data[..offset + |piece|] == data[..offset] + piece;
  }

  /** The session whose piece is received. */
  lemma ReceiveTracks(pool: map<nat, Bytes>, x: Session, memory: bool, verdict: Status)
    requires Tracks(pool, x) && x.sending && x.offset < |x.data|
    requires x.offset == 0 && x.key in pool ==> |x.data| <= |pool[x.key]|
    ensures var r := ReceiveFrom(pool, x, memory, verdict);
            !r.Overrun? && Tracks(PoolAfter(pool, r), Progress(x, PieceAt(x.data, x.offset), r))
  {
    PieceContinues(x.data, if x.key in pool then pool[x.key] else Zeros(|x.data|), x.offset);
  }

  /** The other keys. */
  lemma ReceiveLeaves(pool: map<nat, Bytes>, x: Session, memory: bool, verdict: Status, key: nat)
    requires x.offset < |x.data| && key != x.key
    ensures var pool' := PoolAfter(pool, ReceiveFrom(pool, x, memory, verdict));
            (key in pool' <==> key in pool) && (key in pool ==> pool'[key] == pool[key])
  {
  }

  lemma SendKeeps(s: State, a: Action)
    requires Inv(s) && Enabled(s, a) && Safe(s, a) && a.Send?
    ensures Inv(Apply(s, a))
  {
    var x := s.sessions[a.id];
    ReceiveTracks(s.pool, x, a.memory, a.verdict);
    var s' := Apply(s, a);
    forall i | i in s'.sessions
      ensures Tracks(s'.pool, s'.sessions[i])
    {
      if i != a.id {
        OtherTracks(s, a, i);
      }
    }
  }

  lemma OtherTracks(s: State, a: Action, i: nat)
    requires Inv(s) && Enabled(s, a) && Safe(s, a) && a.Send? && i in s.sessions && i != a.id
    ensures Tracks(Apply(s, a).pool, s.sessions[i])
  {
    var x, y := s.sessions[a.id], s.sessions[i];
    assert Tracks(s.pool, x) && Tracks(s.pool, y);
    if y.key != x.key {
      ReceiveLeaves(s.pool, x, a.memory, a.verdict, y.key);
    }
  }

  lemma StepKeeps(s: State, a: Action)
    requires Inv(s) && Enabled(s, a) && Safe(s, a)
    ensures Inv(Apply(s, a))
  {
    if a.Send? {
      SendKeeps(s, a);
    }
  }

  lemma {:induction false} CarefulKeeps(s: State, actions: seq<Action>, s': State)
    requires Inv(s) && Run(s, actions, s') && Careful(s, actions)
    ensures Inv(s')
    decreases |actions|
  {
    if actions != [] {
      StepKeeps(s, actions[0]);
      CarefulKeeps(Apply(s, actions[0]), actions[1..], s');
    }
  }

  /**
   However careful sessions interleave and whatever keys they share: the handler runs exactly once
   for a session whose pieces have all been sent, on exactly its bytes; before that, for a session
   that is given up, and for no bytes at all, it does not run; and nothing is overrun.
   */
  lemma ExactlyOnce(actions: seq<Action>, s: State, id: nat)
    requires Run(START, actions, s) && Careful(START, actions) && id in s.sessions
    ensures var x := s.sessions[id]; x.handled == if Done(x) && x.data != [] then [x.data] else []
    ensures !s.corrupt
  {
    CarefulKeeps(START, actions, s);
  }

  /** When a session is done its buffer is gone from the pool. */
  lemma DoneIsFreed(s: State, a: Action)
    requires Inv(s) && Enabled(s, a) && Safe(s, a) && a.Send?
    ensures var s' := Apply(s, a); Done(s'.sessions[a.id]) ==> s'.sessions[a.id].key !in s'.pool
  {
    var x := s.sessions[a.id];
    assert Tracks(s.pool, x);
    ReceiveTracks(s.pool, x, a.memory, a.verdict);
  }

  // ----- Any other start loses a session -----

  /** No other session of its key has the first byte of the session `id`, which is not zero. */
  ghost predicate Marked(sessions: map<nat, Session>, id: nat) {
    id in sessions
    && var x := sessions[id];
       x.data != [] && x.data[0] != 0
       && forall i :: i in sessions && i != id && sessions[i].key == x.key && sessions[i].data != [] ==>
            sessions[i].data[0] != x.data[0]
  }

  /** ... and none that the actions open. */
  ghost predicate MarkedAmong(s: State, id: nat, actions: seq<Action>) {
    Marked(s.sessions, id)
    && forall a :: a in actions && a.Open? && a.key == s.sessions[id].key && a.data != [] ==>
         a.data[0] != s.sessions[id].data[0]
  }

  /**
   The buffer under its key cannot become the data of the session: it is too short, or its first byte
   is another's.
   */
  predicate Spoils(pool: map<nat, Bytes>, x: Session)
    requires x.data != []
  {
    x.key in pool ==> |pool[x.key]| < |x.data| || pool[x.key][0] != x.data[0]
  }

  /** The session has begun, has not been delivered, and what it still needs is not there. */
  predicate Lost(s: State, id: nat) {
    id in s.sessions && s.sessions[id].data != [] && s.sessions[id].offset > 0
    && s.sessions[id].handled != [s.sessions[id].data]
    && (s.corrupt || (s.sessions[id].sending ==> s.sessions[id].handled == [] && Spoils(s.pool, s.sessions[id])))
  }

  /** Its own further pieces do not help: the first byte is behind it. */
  lemma OwnPieceLoses(s: State, id: nat, memory: bool, verdict: Status)
    requires Lost(s, id) && Enabled(s, Send(id, memory, verdict)) && s.sessions[id].data[0] != 0
    ensures Lost(Apply(s, Send(id, memory, verdict)), id)
  {
    var x := s.sessions[id];
    ZerosAreZero(|x.data|, 0);
    var r := ReceiveFrom(s.pool, x, memory, verdict);
    if r.Handled? {
      assert r.data.value[0] != x.data[0];
      assert [r.data.value][0] != [x.data][0];
    }
  }

  lemma {:induction false} ZerosAreZero(n: nat, i: nat)
    requires i < n
    ensures Zeros(n)[i] == 0
  {
    if i < n - 1 {
      ZerosAreZero(n - 1, i);
    }
  }

  /** Nor do the pieces of others, whose first bytes are different. */
  lemma OtherPieceLoses(s: State, id: nat, a: Action)
    requires Lost(s, id) && Marked(s.sessions, id) && Enabled(s, a) && a.Send? && a.id != id
    ensures Lost(Apply(s, a), id)
  {
    var x, y := s.sessions[id], s.sessions[a.id];
    if y.key != x.key {
      ReceiveLeaves(s.pool, y, a.memory, a.verdict, x.key);
    } else if x.sending {
      OtherPieceSpoils(s.pool, x, y, a.memory, a.verdict);
    }
  }

  lemma OtherPieceSpoils(pool: map<nat, Bytes>, x: Session, y: Session, memory: bool, verdict: Status)
    requires x.data != [] && x.data[0] != 0 && y.offset < |y.data| && y.data[0] != x.data[0] && y.key == x.key
    requires Spoils(pool, x)
    ensures Spoils(PoolAfter(pool, ReceiveFrom(pool, y, memory, verdict)), x)
  {
    if y.key !in pool {
      ZerosAreZero(|y.data|, 0);
    }
  }

  lemma StepLoses(s: State, id: nat, a: Action)
    requires Lost(s, id) && Marked(s.sessions, id) && Enabled(s, a)
    ensures Lost(Apply(s, a), id)
  {
    if a.Send? {
      if a.id == id {
        OwnPieceLoses(s, id, a.memory, a.verdict);
      } else {
        OtherPieceLoses(s, id, a);
      }
    }
  }

  lemma {:induction false} RunLoses(s: State, id: nat, actions: seq<Action>, s': State)
    requires Lost(s, id) && MarkedAmong(s, id, actions) && Run(s, actions, s')
    ensures Lost(s', id)
    decreases |actions|
  {
    if actions != [] {
      StepLoses(s, id, actions[0]);
      MarkedAfter(s, id, actions);
      RunLoses(Apply(s, actions[0]), id, actions[1..], s');
    }
  }

  lemma MarkedAfter(s: State, id: nat, actions: seq<Action>)
    requires actions != [] && MarkedAmong(s, id, actions) && Enabled(s, actions[0])
    ensures MarkedAmong(Apply(s, actions[0]), id, actions[1..])
  {
    var s', x := Apply(s, actions[0]), s.sessions[id];
    assert actions[0] in actions;
    assert s'.sessions[id].key == x.key && s'.sessions[id].data == x.data;
    forall i | i in s'.sessions && i != id && s'.sessions[i].key == x.key && s'.sessions[i].data != []
      ensures s'.sessions[i].data[0] != x.data[0]
    {
      if i in s.sessions {
        assert s'.sessions[i].key == s.sessions[i].key && s'.sessions[i].data == s.sessions[i].data;
      }
    }
  }

  /** A session that starts under a key that another one holds spoils that one. */
  lemma StartOverHolder(s: State, a: Action, i: nat)
    requires Inv(s) && Enabled(s, a) && a.Send? && s.sessions[a.id].offset == 0
    requires i in s.sessions && Holds(s.sessions[i]) && s.sessions[i].key == s.sessions[a.id].key
    requires Marked(s.sessions, i)
    ensures Lost(Apply(s, a), i)
  {
    var x, y := s.sessions[i], s.sessions[a.id];
    assert Tracks(s.pool, x);
    assert i != a.id;
    assert y.data[0] != x.data[0];
  }

  /** One that starts over a shorter buffer, left behind by a session that was given up, loses itself. */
  lemma StartOverRest(s: State, a: Action)
    requires Inv(s) && Enabled(s, a) && a.Send? && s.sessions[a.id].offset == 0
    requires var x := s.sessions[a.id]; x.key in s.pool && |s.pool[x.key]| < |x.data|
    ensures Lost(Apply(s, a), a.id) || (Apply(s, a).corrupt && Apply(s, a).sessions[a.id].handled == [])
  {
    assert Tracks(s.pool, s.sessions[a.id]);
  }

  /**
   The condition is exact. A start that is not safe loses a session for good, whatever sessions come
   and go afterwards: the holder of the key, or, over a shorter buffer that is left behind, the
   session that starts. (A byte that happens to be the same, or zero, could hide it; so the first
   byte of the lost session is one that the others do not have.)
   */
  lemma UnsafeStartLoses(s: State, a: Action, actions: seq<Action>, s': State) returns (id: nat)
    requires Inv(s) && Enabled(s, a) && !Safe(s, a) && Run(Apply(s, a), actions, s')
    requires forall i :: i in s.sessions && s.sessions[i].key == s.sessions[a.id].key && s.sessions[i].data != [] ==>
               MarkedAmong(s, i, actions)
    ensures id in s.sessions && id in s'.sessions && s'.sessions[id].handled != [s'.sessions[id].data]
  {
    var x := s.sessions[a.id];
    if i :| i in s.sessions && Holds(s.sessions[i]) && s.sessions[i].key == x.key {
      id := i;
      StartOverHolder(s, a, i);
      MarkedAfter(s, i, [a] + actions);
      assert ([a] + actions)[1..] == actions;
      RunLoses(Apply(s, a), i, actions, s');
    } else {
      id := a.id;
      StartOverRest(s, a);
      MarkedAfter(s, a.id, [a] + actions);
      assert ([a] + actions)[1..] == actions;
      if Apply(s, a).corrupt {
        assert actions == [];
      } else {
        RunLoses(Apply(s, a), a.id, actions, s');
      }
    }
  }

  /**
   Two senders of equally long data that draw the same key: the handler gets the first piece of one
   and the rest of the other.
   */
  lemma SharedKeyMixes(pool: map<nat, Bytes>, key: nat, d: Bytes, e: Bytes, verdict: Status)
    requires |d| == |e| && THRESHOLD < |d| <= 2 * THRESHOLD && key !in pool
    ensures var r1 := Receive(pool, key, |d|, 0, PieceAt(d, 0), true, verdict);
            r1.Kept?
            && var r2 := Receive(r1.pool, key, |e|, 0, PieceAt(e, 0), true, verdict);
               r2.Kept?
               && Receive(r2.pool, key, |d|, THRESHOLD, PieceAt(d, THRESHOLD), true, verdict)
                  == Handled(r2.pool - {key}, Some(e[..THRESHOLD] + d[THRESHOLD..]), verdict)
  {
    var r1 := Receive(pool, key, |d|, 0, PieceAt(d, 0), true, verdict);
    var r2 := Receive(r1.pool, key, |e|, 0, PieceAt(e, 0), true, verdict);
    var b := r2.pool[key];
    assert b[..THRESHOLD] == e[..THRESHOLD];
    assert PieceAt(d, THRESHOLD) == d[THRESHOLD..];
    var b' := Written(b, THRESHOLD, d[THRESHOLD..]);
    assert b' == e[..THRESHOLD] + d[THRESHOLD..] && b'[..|d|] == b';
  }

  /** If the data differ in length, the longer sender writes beyond the buffer of the shorter. */
  lemma LongerOverruns(pool: map<nat, Bytes>, key: nat, e: Bytes, offset: nat, memory: bool, verdict: Status)
    requires key in pool && offset < |e|
    ensures Receive(pool, key, |e|, offset, PieceAt(e, offset), memory, verdict).Overrun?
       <==> offset + |PieceAt(e, offset)| > |pool[key]|
  {
  }

  // ----- The code -----

  /** The pool in the enclave; what the handler is given is recorded. */
  class Enclave {
    var pool: map<nat, Bytes>
    var calls: seq<Option<Bytes>>

    constructor ()
      ensures pool == map[] && calls == []
    {
      pool, calls := map[], [];
    }

    /** ecall_safe_store2; nothing is returned after an overrun. */
    method SafeStore2(data: Bytes, total: nat, offset: nat, key: nat, memory: bool, verdict: Status)
      returns (status: Option<Status>)
      modifies this
      ensures var r := Receive(old(pool), key, total, offset, data, memory, verdict);
              && pool == PoolAfter(old(pool), r)
              && calls == (if r.Handled? then old(calls) + [r.data] else old(calls))
              && status == match r
                           case Overrun => None
                           case NoMemory => Some(MallocFailed)
                           case Kept(_) => Some(Success)
                           case Handled(_, _, v) => Some(v)
    {
      if offset >= total {
        if key !in pool {
          calls := calls + [None];
          return Some(verdict);
        }
        if total > |pool[key]| {
          return None;
        }
        calls := calls + [Some(pool[key][..total])];
        pool := pool - {key};
        return Some(verdict);
      }
      var buffer;
      if key in pool {
        buffer := pool[key];
      } else if memory {
        buffer := Zeros(total);
      } else {
        return Some(MallocFailed);
      }
      if offset + |data| > |buffer| {
        return None;
      }
      buffer := Written(buffer, offset, data);
      if offset + |data| < total {
        pool := pool[key := buffer];
        return Some(Success);
      }
      calls := calls + [Some(buffer[..total])];
      pool := pool - {key};
      status := Some(verdict);
    }

    /** safe_ecall_store2, undisturbed, with a key that is free: the handler gets the bytes, once, if there are any. */
    method SendAll(data: Bytes, key: nat, memory: bool, verdict: Status) returns (status: Status)
      requires key !in pool
      modifies this
      ensures pool == old(pool)
      ensures status == if data == [] then Success else if !memory then MallocFailed else verdict
      ensures calls == if data != [] && memory then old(calls) + [Some(data)] else old(calls)
    {
      status := Success;
      var offset := 0;
      while |data| > offset
        invariant offset <= |data| && (offset > 0 ==> memory)
        invariant 0 < offset < |data| ==>
                    status == Success && calls == old(calls) && key in pool && pool == old(pool)[key := pool[key]]
                    && |pool[key]| == |data| && pool[key][..offset] == data[..offset]
        invariant offset == 0 ==> pool == old(pool) && calls == old(calls) && status == Success
        invariant 0 < offset == |data| ==> pool == old(pool) && calls == old(calls) + [Some(data)] && status == verdict
        decreases |data| - offset
      {
        var piece := PieceAt(data, offset);
        PieceContinues(data, if key in pool then pool[key] else Zeros(|data|), offset);
        var st := SafeStore2(piece, |data|, offset, key, memory, verdict);
        status := st.value;
        if status != Success {
          return;
        }
        offset := offset + |piece|;
      }
    }
  }
}
