/** The client replica of a room document: local edits, acknowledgements, resync and catch-up. */
module RoomReplica {
  import opened Prelude
  import opened Transfers

  /** The document is a grow-only set of operations: import is union, export is difference. */
  type Op = nat

  datatype UpdateId = UpdateId(replica: nat, tag: string, serial: nat)

  datatype ClientMessage =
    | DocumentSync(requestId: UpdateId, documentId: int, replicaId: nat, known: set<Op>)
    | DocumentUpdate(requestId: UpdateId, updateId: UpdateId, documentId: int, replicaId: nat, update: set<Op>)

  datatype ServerMessage =
    | DocumentChunk(documentId: int, chunk: Chunk)
    | DocumentSynced(documentId: int, version: set<Op>)
    | DocumentUpdateAck(documentId: int, updateId: UpdateId)
    | DocumentUpdateCommitted(documentId: int, update: set<Op>)
    | ResyncRequired
    | DocumentError(documentId: int, code: string)
    | Unrelated

  datatype Ingest = Progress | Synced(version: set<Op>) | Acked(id: UpdateId) | Resync | Rejected(code: string) | Ignored

  datatype IngestError = BadTransfer(error: TransferError) | IncompleteSync

  datatype ReplicaState = ReplicaState(
    documentId: int, replicaId: nat, ops: set<Op>, pending: set<UpdateId>, open: Open, serial: nat)

  // ----- Transitions -----

  function IdAt(s: ReplicaState, tag: string, offset: nat): UpdateId {
    UpdateId(s.replicaId, tag, s.serial + offset)
  }

  /** `sync_message` */
  function AfterSync(s: ReplicaState): (ReplicaState, ClientMessage) {
    (s.(open := map[], serial := s.serial + 1), DocumentSync(IdAt(s, "sync", 1), s.documentId, s.replicaId, s.ops))
  }

  /** `update_since`: what the replica holds beyond `since` goes out under a fresh pending id. */
  function AfterUpdateSince(s: ReplicaState, since: set<Op>, tag: string): (ReplicaState, ClientMessage) {
    var id := IdAt(s, tag, 1);
    (s.(pending := s.pending + {id}, serial := s.serial + 2),
     DocumentUpdate(IdAt(s, "req", 2), id, s.documentId, s.replicaId, s.ops - since))
  }

  /** A local insert or delete that adds `added`, or an editor's update that holds `added`. */
  function AfterEdit(s: ReplicaState, added: set<Op>, tag: string): (ReplicaState, ClientMessage) {
    AfterUpdateSince(s.(ops := s.ops + added), s.ops, tag)
  }

  /** `catch_up`: everything the server version lacks, under one id that replaces all pending ones. */
  function AfterCatchUp(s: ReplicaState, version: set<Op>): (ReplicaState, Option<ClientMessage>) {
    if s.ops <= version then (s.(pending := {}), None)
    else
      var id := IdAt(s, "catchup", 1);
      (s.(pending := {id}, serial := s.serial + 2),
       Some(DocumentUpdate(IdAt(s, "req", 2), id, s.documentId, s.replicaId, s.ops - version)))
  }

  ghost function AfterIngest(s: ReplicaState, decode: Bytes -> set<Op>, m: ServerMessage): (ReplicaState, Result<Ingest, IngestError>) {
    match m
    case DocumentChunk(id, c) =>
      if id != s.documentId then (s, Ok(Ignored))
      else
        var fault := Fault(s.open, Retained(s.open), c);
        if fault.Some? then (s.(open := map[]), Err(BadTransfer(fault.value)))
        else
          var (open, bytes) := Accepted(s.open, c);
          (s.(open := open, ops := if bytes.Some? && bytes.value != [] then s.ops + decode(bytes.value) else s.ops), Ok(Progress))
    case DocumentSynced(id, version) =>
      if id != s.documentId then (s, Ok(Ignored))
      else if s.open != map[] then (s.(open := map[]), Err(IncompleteSync)) else (s, Ok(Synced(version)))
    case DocumentUpdateAck(id, updateId) =>
      if id != s.documentId then (s, Ok(Ignored)) else (s.(pending := s.pending - {updateId}), Ok(Acked(updateId)))
    case DocumentUpdateCommitted(id, update) =>
      if id != s.documentId then (s, Ok(Ignored)) else (s.(ops := s.ops + update), Ok(Progress))
    case ResyncRequired => (s.(open := map[]), Ok(Resync))
    case DocumentError(id, code) =>
      if id != s.documentId then (s, Ok(Ignored)) else (s.(open := map[]), Ok(Rejected(code)))
    case Unrelated => (s, Ok(Ignored))
  }

  class Replica {
    const documentId: int
    const replicaId: nat
    const decode: Bytes -> set<Op>
    const transfers: Assembly
    var replica: set<Op>
    var pending: set<UpdateId>
    var serial: nat

    /** An empty replica, or one from a snapshot. */
    constructor (documentId: int, replicaId: nat, decode: Bytes -> set<Op>, snapshot: Option<set<Op>>)
      ensures State() == ReplicaState(documentId, replicaId, if snapshot.Some? then snapshot.value else {}, {}, map[], 0)
      ensures fresh(transfers) && this.decode == decode
    {
      this.documentId, this.replicaId, this.decode := documentId, replicaId, decode;
      transfers := new Assembly();
      replica := if snapshot.Some? then snapshot.value else {};
      pending, serial := {}, 0;
    }

    ghost function State(): ReplicaState
      reads this, transfers
    {
      ReplicaState(documentId, replicaId, replica, pending, transfers.open, serial)
    }

    method NextId(tag: string) returns (id: UpdateId)
      modifies this`serial
      ensures serial == old(serial) + 1 && id == UpdateId(replicaId, tag, serial)
    {
      serial := serial + 1;
      id := UpdateId(replicaId, tag, serial);
    }

    method SyncMessage() returns (m: ClientMessage)
      modifies this, transfers
      ensures State() == AfterSync(old(State())).0 && m == AfterSync(old(State())).1
    {
      transfers.Clear();
      var requestId := NextId("sync");
      m := DocumentSync(requestId, documentId, replicaId, replica);
    }

    method UpdateSince(since: set<Op>, tag: string) returns (m: ClientMessage)
      modifies this
      ensures State() == AfterUpdateSince(old(State()), since, tag).0 && m == AfterUpdateSince(old(State()), since, tag).1
    {
      var update := replica - since;
      var updateId := NextId(tag);
      var requestId := NextId("req");
      pending := pending + {updateId};
      m := DocumentUpdate(requestId, updateId, documentId, replicaId, update);
    }

    /** `local_insert`, `local_delete` and `import_local_update`, which differ in the tag only. */
    method LocalEdit(added: set<Op>, tag: string) returns (m: ClientMessage)
      modifies this
      ensures State() == AfterEdit(old(State()), added, tag).0 && m == AfterEdit(old(State()), added, tag).1
    {
      var since := replica;
      replica := replica + added;
      m := UpdateSince(since, tag);
    }

    method CatchUp(version: set<Op>) returns (m: Option<ClientMessage>)
      modifies this
      ensures State() == AfterCatchUp(old(State()), version).0 && m == AfterCatchUp(old(State()), version).1
    {
      var update := replica - version;
      assert forall op :: op in replica && op !in version ==> op in update;
      assert replica <= version ==> update == {};
      pending := {};
      if update == {} {
        return None;
      }
      var updateId := NextId("catchup");
      var requestId := NextId("req");
      pending := pending + {updateId};
      m := Some(DocumentUpdate(requestId, updateId, documentId, replicaId, update));
    }

    method IngestMessage(m: ServerMessage) returns (r: Result<Ingest, IngestError>)
      requires Bounded(transfers.open)
      modifies this, transfers
      ensures State() == AfterIngest(old(State()), decode, m).0 && r == AfterIngest(old(State()), decode, m).1
      ensures Bounded(transfers.open)
    {
      assert Bounded(map[]);
      hide Bounded, Fault, Accepted, Retained;
      match m {
        case DocumentChunk(id, c) =>
          if id != documentId {
            return Ok(Ignored);
          }
          var out := transfers.Ingest(c);
          if out.Err? {
            return Err(BadTransfer(out.error));
          }
          if out.value.Some? && out.value.value != [] {
            replica := replica + decode(out.value.value);
          }
          return Ok(Progress);
        case DocumentSynced(id, version) =>
          if id != documentId {
            return Ok(Ignored);
          }
          if transfers.open != map[] {
            transfers.Clear();
            return Err(IncompleteSync);
          }
          return Ok(Synced(version));
        case DocumentUpdateAck(id, updateId) =>
          if id != documentId {
            return Ok(Ignored);
          }
          pending := pending - {updateId};
          return Ok(Acked(updateId));
        case DocumentUpdateCommitted(id, update) =>
          if id != documentId {
            return Ok(Ignored);
          }
          replica := replica + update;
          return Ok(Progress);
        case ResyncRequired =>
          transfers.Clear();
          return Ok(Resync);
        case DocumentError(id, code) =>
          if id != documentId {
            return Ok(Ignored);
          }
          transfers.Clear();
          return Ok(Rejected(code));
        case Unrelated =>
          return Ok(Ignored);
      }
    }
  }
}
