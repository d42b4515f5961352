/**
 * A replica against a server over a network that loses, repeats, reorders and delays messages: no
 * operation of the replica is forgotten while its update is unacknowledged.
 */
module RoomRuns {
  import opened Prelude
  import opened Transfers
  import opened RoomReplica

  /**
   * One replica's lifetime. A message that was ever sent may be delivered any number of times, at any
   * later point, or never, which covers every reconnect.
   */
  datatype World = World(
    client: ReplicaState, durable: set<Op>, toServer: set<ClientMessage>, toClient: set<ServerMessage>,
    payload: map<UpdateId, set<Op>>, sent: Sent)

  datatype Step =
    | Edit(added: set<Op>, tag: string)
    | StartSync
    | CatchUp(version: set<Op>)
    | Deliver(message: ServerMessage)
    | Commit(update: ClientMessage)
    | PeerCommit(peer: set<Op>)
    | AnswerSync(transferId: string, parts: seq<Bytes>, meta: Meta)
    | Announce(notice: ServerMessage)

  /** The update a client message carries is remembered under its id. */
  function Sending(w: World, s: ReplicaState, m: ClientMessage): World {
    w.(client := s, toServer := w.toServer + {m},
       payload := if m.DocumentUpdate? then w.payload[m.updateId := m.update] else w.payload)
  }

  function Chunks(w: World, transferId: string, parts: seq<Bytes>, meta: Meta): set<ServerMessage> {
    set i | 0 <= i < |parts| :: DocumentChunk(w.client.documentId, Chunk(transferId, i, |parts|, meta, parts[i]))
  }

  ghost predicate Enabled(w: World, decode: Bytes -> set<Op>, step: Step) {
    match step
    case CatchUp(version) => DocumentSynced(w.client.documentId, version) in w.toClient
    case Deliver(m) => m in w.toClient
    case Commit(m) => m in w.toServer && m.DocumentUpdate?
    case AnswerSync(id, parts, _) => id !in w.sent && decode(Concat(parts)) <= w.durable
    case Announce(m) => m.ResyncRequired? || m.DocumentError? || m.Unrelated?
    case _ => true
  }

  ghost function After(w: World, decode: Bytes -> set<Op>, step: Step): World {
    var id := w.client.documentId;
    match step
    case Edit(added, tag) => var (s, m) := AfterEdit(w.client, added, tag); Sending(w, s, m)
    case StartSync => var (s, m) := AfterSync(w.client); Sending(w, s, m)
    case CatchUp(version) =>
      var (s, m) := AfterCatchUp(w.client, version);
      if m.Some? then Sending(w, s, m.value) else w.(client := s)
    case Deliver(m) => w.(client := AfterIngest(w.client, decode, m).0)
    case Commit(m) =>
      if !m.DocumentUpdate? then w else
        w.(durable := w.durable + m.update,
           toClient := w.toClient + {DocumentUpdateAck(id, m.updateId), DocumentUpdateCommitted(id, m.update)})
    case PeerCommit(update) =>
      w.(durable := w.durable + update, toClient := w.toClient + {DocumentUpdateCommitted(id, update)})
    case AnswerSync(transferId, parts, meta) =>
      w.(sent := w.sent[transferId := parts],
         toClient := w.toClient + Chunks(w, transferId, parts, meta) + {DocumentSynced(id, w.durable)})
    case Announce(m) => w.(toClient := w.toClient + {m})
  }

  /** The server keeps every operation a message says it has. */
  ghost predicate Backed(w: World, m: ServerMessage) {
    match m
    case DocumentChunk(_, c) => IsPart(w.sent, c)
    case DocumentSynced(_, version) => version <= w.durable
    case DocumentUpdateAck(_, id) => id in w.payload && w.payload[id] <= w.durable
    case DocumentUpdateCommitted(_, update) => update <= w.durable
    case _ => true
  }

  /** Each operation of the replica is on the server or in an update that still awaits its acknowledgement. */
  ghost predicate Covered(w: World) {
    forall op :: op in w.client.ops ==> op in w.durable || Awaits(w, op)
  }

  ghost predicate Awaits(w: World, op: Op) {
    exists id :: id in w.client.pending && id in w.payload && op in w.payload[id]
  }

  ghost predicate Sound(w: World, decode: Bytes -> set<Op>) {
    && Bounded(w.client.open) && Faithful(w.sent, w.client.open)
    && (forall id :: id in w.sent ==> decode(Concat(w.sent[id])) <= w.durable)
    && (forall m :: m in w.toClient ==> Backed(w, m))
    && (forall m :: m in w.toServer && m.DocumentUpdate? ==> m.updateId in w.payload && w.payload[m.updateId] == m.update)
    && (forall id :: id in w.payload ==> id.serial <= w.client.serial)
    && w.client.pending <= w.payload.Keys
  }

  ghost predicate Inv(w: World, decode: Bytes -> set<Op>, anchored: bool) {
    Sound(w, decode) && (anchored ==> Covered(w))
  }

  // ----- The first moment -----

  ghost predicate Init(w: World) {
    w.client.pending == {} && w.client.open == map[] && w.toServer == {} && w.toClient == {} && w.payload == map[] && w.sent == map[]
  }

  lemma {:induction false} InitInv(w: World, decode: Bytes -> set<Op>)
    requires Init(w)
    ensures Inv(w, decode, w.client.ops <= w.durable)
  {
  }

  // ----- Every step -----

  /** Messages stay backed while the server and the records grow. */
  lemma {:induction false} BackedGrows(w: World, w': World, m: ServerMessage)
    requires Backed(w, m) && w.durable <= w'.durable
    requires forall id :: id in w.payload ==> id in w'.payload && w'.payload[id] == w.payload[id]
    requires forall id :: id in w.sent ==> id in w'.sent && w'.sent[id] == w.sent[id]
    ensures Backed(w', m)
  {
  }

  /** A fresh id does not disturb what is remembered. */
  lemma {:induction false} SendingKeeps(w: World, decode: Bytes -> set<Op>, s: ReplicaState, m: ClientMessage)
    requires Sound(w, decode) && w.client.serial <= s.serial && (s.open == w.client.open || s.open == map[])
    requires m.DocumentUpdate? ==> w.client.serial < m.updateId.serial <= s.serial
    requires s.pending <= w.client.pending + (if m.DocumentUpdate? then {m.updateId} else {})
    ensures Sound(Sending(w, s, m), decode)
    ensures forall id :: id in w.payload ==> id in Sending(w, s, m).payload && Sending(w, s, m).payload[id] == w.payload[id]
  {
    hide Bounded, Faithful, Backed;
    assert Bounded(map[]) && Faithful(w.sent, map[]) by { NothingOpen(w.sent); }
    var w' := Sending(w, s, m);
    if m.DocumentUpdate? {
      assert m.updateId !in w.payload;
    }
    forall x | x in w'.toClient ensures Backed(w', x) { BackedGrows(w, w', x); }
  }

  lemma {:induction false} NothingOpen(sent: Sent)
    ensures Bounded(map[]) && Faithful(sent, map[])
  {
  }

  lemma {:induction false} EditKeeps(w: World, decode: Bytes -> set<Op>, anchored: bool, added: set<Op>, tag: string)
    requires Inv(w, decode, anchored)
    ensures Inv(After(w, decode, Edit(added, tag)), decode, anchored)
  {
    hide Sound;
    var (s, m) := AfterEdit(w.client, added, tag);
    SendingKeeps(w, decode, s, m);
    var w' := Sending(w, s, m);
    if anchored {
      forall op | op in w'.client.ops ensures op in w'.durable || Awaits(w', op) {
        if op in w.client.ops {
          if op !in w.durable {
            assert Awaits(w, op);
            var id :| id in w.client.pending && id in w.payload && op in w.payload[id];
            assert id in w'.client.pending && id in w'.payload && op in w'.payload[id];
          }
        } else {
          assert m.updateId in w'.client.pending && op in w'.payload[m.updateId];
        }
      }
    }
  }

  lemma {:induction false} SyncKeeps(w: World, decode: Bytes -> set<Op>, anchored: bool)
    requires Inv(w, decode, anchored)
    ensures Inv(After(w, decode, StartSync), decode, anchored)
  {
    hide Sound;
    var (s, m) := AfterSync(w.client);
    SendingKeeps(w, decode, s, m);
    var w' := Sending(w, s, m);
    forall op | Awaits(w, op) ensures Awaits(w', op) {}
  }

  /** After a catch-up everything is covered, whatever was so before. */
  lemma {:induction false} CatchUpAnchors(w: World, decode: Bytes -> set<Op>, version: set<Op>)
    requires Sound(w, decode) && Enabled(w, decode, CatchUp(version))
    ensures Inv(After(w, decode, CatchUp(version)), decode, true)
  {
    var (s, m) := AfterCatchUp(w.client, version);
    assert Backed(w, DocumentSynced(w.client.documentId, version));
    if m.Some? {
      hide Sound;
      SendingKeeps(w, decode, s, m.value);
      var w' := Sending(w, s, m.value);
      forall op | op in w'.client.ops ensures op in w'.durable || Awaits(w', op) {
        if op !in version {
          assert m.value.updateId in w'.client.pending && op in w'.payload[m.value.updateId];
        }
      }
    } else {
      var w' := w.(client := s);
      forall x | x in w'.toClient ensures Backed(w', x) { BackedGrows(w, w', x); }
    }
  }

  /** What an ingested message adds to the replica is on the server, and what it acknowledges is too. */
  lemma {:induction false} IngestAdds(w: World, decode: Bytes -> set<Op>, m: ServerMessage)
    requires Sound(w, decode) && m in w.toClient
    ensures var s := AfterIngest(w.client, decode, m).0;
      && Bounded(s.open) && Faithful(w.sent, s.open)
      && w.client.ops <= s.ops <= w.client.ops + w.durable && s.serial == w.client.serial && s.pending <= w.client.pending
      && forall id :: id in w.client.pending && id !in s.pending ==> w.payload[id] <= w.durable
  {
    hide Bounded, Faithful, Fault, Accepted, Retained;
    assert Backed(w, m);
    NothingOpen(w.sent);
    if m.DocumentChunk? && m.documentId == w.client.documentId && Fault(w.client.open, Retained(w.client.open), m.chunk).None? {
      AssemblyFaithful(w.sent, w.client.open, m.chunk);
      AcceptedBounded(w.client.open, m.chunk);
      assert m.chunk.transferId in w.sent;
    }
  }

  lemma {:induction false} DeliverKeeps(w: World, decode: Bytes -> set<Op>, anchored: bool, m: ServerMessage)
    requires Inv(w, decode, anchored) && m in w.toClient
    ensures Inv(After(w, decode, Deliver(m)), decode, anchored)
  {
    hide Bounded, Faithful, AfterIngest, Backed;
    IngestAdds(w, decode, m);
    var w' := After(w, decode, Deliver(m));
    forall x | x in w'.toClient ensures Backed(w', x) { BackedGrows(w, w', x); }
    if anchored {
      forall op | op in w'.client.ops ensures op in w'.durable || Awaits(w', op) {
        if op !in w.durable {
          assert op in w.client.ops && Awaits(w, op);
          var id :| id in w.client.pending && id in w.payload && op in w.payload[id];
          assert id in w'.client.pending;
        }
      }
    }
  }

  /** The server only adds: to what is durable, to what it sends and to its transfers. */
  lemma {:induction false} ServerKeeps(w: World, decode: Bytes -> set<Op>, anchored: bool, w': World)
    requires Inv(w, decode, anchored) && w'.client == w.client && w'.toServer == w.toServer && w'.payload == w.payload
    requires w.durable <= w'.durable
    requires forall id :: id in w.sent ==> id in w'.sent && w'.sent[id] == w.sent[id]
    requires forall id :: id in w'.sent ==> decode(Concat(w'.sent[id])) <= w'.durable
    requires forall m :: m in w'.toClient && m !in w.toClient ==> Backed(w', m)
    ensures Inv(w', decode, anchored)
  {
    hide Bounded, Concat, Backed;
    forall m | m in w'.toClient ensures Backed(w', m) {
      if m in w.toClient {
        BackedGrows(w, w', m);
      }
    }
    forall op | Awaits(w, op) ensures Awaits(w', op) {}
  }

  lemma {:induction false} CommitKeeps(w: World, decode: Bytes -> set<Op>, anchored: bool, step: Step)
    requires Inv(w, decode, anchored) && Enabled(w, decode, step) && (step.Commit? || step.PeerCommit?)
    ensures Inv(After(w, decode, step), decode, anchored)
  {
    hide Bounded, Faithful, Concat;
    var w' := After(w, decode, step);
    assert forall id :: id in w.sent ==> decode(Concat(w.sent[id])) <= w.durable;
    ServerKeeps(w, decode, anchored, w');
  }

  lemma {:induction false} AnswerKeeps(w: World, decode: Bytes -> set<Op>, anchored: bool, step: Step)
    requires Inv(w, decode, anchored) && Enabled(w, decode, step) && (step.AnswerSync? || step.Announce?)
    ensures Inv(After(w, decode, step), decode, anchored)
  {
    hide Bounded, Faithful, Concat;
    var w' := After(w, decode, step);
    assert forall id :: id in w.sent ==> decode(Concat(w.sent[id])) <= w.durable;
    ServerKeeps(w, decode, anchored, w');
  }

  /** Every step keeps the invariant, and a catch-up establishes its second half. */
  lemma {:induction false} StepKeeps(w: World, decode: Bytes -> set<Op>, anchored: bool, step: Step)
    requires Inv(w, decode, anchored) && Enabled(w, decode, step)
    ensures Inv(After(w, decode, step), decode, anchored || step.CatchUp?)
  {
    hide Inv, After, Enabled;
    match step {
      case Edit(added, tag) => EditKeeps(w, decode, anchored, added, tag);
      case StartSync => SyncKeeps(w, decode, anchored);
      case CatchUp(version) =>
        assert Sound(w, decode) by { InvSound(w, decode, anchored); }
        CatchUpAnchors(w, decode, version);
      case Deliver(m) =>
        assert m in w.toClient by { DeliverEnabled(w, decode, m); }
        DeliverKeeps(w, decode, anchored, m);
      case Commit(_) => CommitKeeps(w, decode, anchored, step);
      case PeerCommit(_) => CommitKeeps(w, decode, anchored, step);
      case AnswerSync(_, _, _) => AnswerKeeps(w, decode, anchored, step);
      case Announce(_) => AnswerKeeps(w, decode, anchored, step);
    }
  }

  lemma {:induction false} InvSound(w: World, decode: Bytes -> set<Op>, anchored: bool)
    requires Inv(w, decode, anchored)
    ensures Sound(w, decode)
  {
  }

  lemma {:induction false} DeliverEnabled(w: World, decode: Bytes -> set<Op>, m: ServerMessage)
    requires Enabled(w, decode, Deliver(m))
    ensures m in w.toClient
  {
  }

  // ----- Whole runs -----

  ghost function RunTo(start: World, decode: Bytes -> set<Op>, steps: seq<Step>): World {
    if steps == [] then start else After(RunTo(start, decode, steps[..|steps| - 1]), decode, steps[|steps| - 1])
  }

  ghost predicate IsRun(start: World, decode: Bytes -> set<Op>, steps: seq<Step>) {
    if steps == [] then Init(start)
    else (IsRun(start, decode, steps[..|steps| - 1])
          && Enabled(RunTo(start, decode, steps[..|steps| - 1]), decode, steps[|steps| - 1]))
  }

  ghost predicate CaughtUp(steps: seq<Step>) {
    exists step: Step :: step in steps && step.CatchUp?
  }

  lemma {:induction false} RunKeeps(start: World, decode: Bytes -> set<Op>, steps: seq<Step>)
    requires IsRun(start, decode, steps)
    ensures Inv(RunTo(start, decode, steps), decode, start.client.ops <= start.durable || CaughtUp(steps))
  {
    hide Inv, After, Enabled;
    if steps == [] {
      InitInv(start, decode);
    } else {
      var most, last := steps[..|steps| - 1], steps[|steps| - 1];
      assert steps == most + [last];
      RunKeeps(start, decode, most);
      StepKeeps(RunTo(start, decode, most), decode, start.client.ops <= start.durable || CaughtUp(most), last);
      assert CaughtUp(steps) == (CaughtUp(most) || last.CatchUp?);
    }
  }

  /** Every operation of the replica is durable or in a pending update; with nothing pending all are durable. */
  ghost predicate NothingLost(w: World) {
    && (forall op :: op in w.client.ops ==> op in w.durable || Awaits(w, op))
    && (w.client.pending == {} ==> w.client.ops <= w.durable)
  }

  /** Nothing is lost in a run that began with nothing the server lacks, or has caught up once. */
  lemma {:induction false} NothingIsLost(start: World, decode: Bytes -> set<Op>, steps: seq<Step>)
    requires IsRun(start, decode, steps) && (start.client.ops <= start.durable || CaughtUp(steps))
    ensures NothingLost(RunTo(start, decode, steps))
  {
    hide IsRun, CaughtUp, Sound, RunTo;
    RunKeeps(start, decode, steps);
  }

  ghost predicate NeverLoses(start: World, decode: Bytes -> set<Op>) {
    forall steps :: IsRun(start, decode, steps) ==> NothingLost(RunTo(start, decode, steps))
  }

  /**
   * Over all runs that is the exact condition: none of the runs from a start loses anything if and only
   * if the server has every operation the replica starts with.
   */
  lemma {:induction false} NeverLosesIff(start: World, decode: Bytes -> set<Op>)
    requires Init(start)
    ensures NeverLoses(start, decode) <==> start.client.ops <= start.durable
  {
    hide NothingLost, IsRun, RunTo, CaughtUp;
    EmptyRun(start, decode);
    if start.client.ops <= start.durable {
      forall steps | IsRun(start, decode, steps) ensures NothingLost(RunTo(start, decode, steps)) {
        NothingIsLost(start, decode, steps);
      }
      assert NeverLoses(start, decode);
    }
  }

  lemma {:induction false} EmptyRun(start: World, decode: Bytes -> set<Op>)
    requires Init(start)
    ensures IsRun(start, decode, [])
    ensures NothingLost(RunTo(start, decode, [])) ==> start.client.ops <= start.durable
  {
  }

  /** Before the first catch-up a replica from a snapshot may hold operations the server has never seen. */
  lemma {:induction false} SnapshotExample(decode: Bytes -> set<Op>) returns (start: World)
    ensures IsRun(start, decode, []) && !CaughtUp([]) && start.client.pending == {} && !(start.client.ops <= start.durable)
  {
    start := World(ReplicaState(1, 7, {1}, {}, map[], 0), {}, {}, {}, map[], map[]);
    assert 1 in start.client.ops && 1 !in start.durable;
  }
}
