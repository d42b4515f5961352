/** Chunk assembly for one document: bounded, in any arrival order, with duplicates. */
module Transfers {
  import opened Prelude

  type Bytes = seq<bv8>

  const MAX_TRANSFER_BYTES: nat := 256 * 1024 * 1024
  const MAX_CHUNK_BYTES: nat := 1024 * 1024
  const MAX_CHUNKS: nat := 4096
  const MAX_TRANSFERS: nat := 4

  /** What every chunk of a transfer repeats; the version stands for the operations it covers. */
  datatype Meta = Meta(requestId: string, snapshot: bool, version: set<nat>, snapshotSeq: int)

  datatype Chunk = Chunk(transferId: string, index: nat, count: nat, meta: Meta, payload: Bytes)

  datatype Transfer = Transfer(meta: Meta, chunks: seq<Option<Bytes>>, received: nat, bytes: nat)

  datatype TransferError =
    | InvalidIndex | ChunkTooLarge | TooManyTransfers | MetadataChanged | ContentsChanged | TransfersTooLarge

  type Open = map<string, Transfer>

  // ----- What is retained -----

  function Received(chunks: seq<Option<Bytes>>): nat {
    if chunks == [] then 0 else Received(chunks[..|chunks| - 1]) + if chunks[|chunks| - 1].Some? then 1 else 0
  }

  function Length(chunks: seq<Option<Bytes>>): nat {
    if chunks == [] then 0
    else Length(chunks[..|chunks| - 1]) + if chunks[|chunks| - 1].Some? then |chunks[|chunks| - 1].value| else 0
  }

  /** The bytes of all open transfers. */
  ghost function Retained(open: Open): nat {
    if open == map[] then 0 else
      var id :| id in open;
      open[id].bytes + Retained(open - {id})
  }

  lemma {:induction false} RetainedSplit(open: Open, id: string)
    requires id in open
    ensures Retained(open) == open[id].bytes + Retained(open - {id})
    decreases |open|
  {
    var k :| k in open && Retained(open) == open[k].bytes + Retained(open - {k});
    if k != id {
      RetainedSplit(open - {k}, id);
      RetainedSplit(open - {id}, k);
      assert open - {k} - {id} == open - {id} - {k};
    }
  }

  method SumRetained(open: Open) returns (total: nat)
    ensures total == Retained(open)
  {
    total := 0;
    var rest := open;
    while rest != map[]
      invariant total + Retained(rest) == Retained(open)
      decreases |rest|
    {
      var id :| id in rest;
      RetainedSplit(rest, id);
      total := total + rest[id].bytes;
      rest := rest - {id};
    }
  }

  ghost predicate TransferValid(t: Transfer) {
    && 0 < |t.chunks| <= MAX_CHUNKS && t.received == Received(t.chunks) < |t.chunks| && t.bytes == Length(t.chunks)
    && forall i :: 0 <= i < |t.chunks| && t.chunks[i].Some? ==> |t.chunks[i].value| <= MAX_CHUNK_BYTES
  }

  /** Few transfers, each unfinished, within the byte budget together. */
  ghost predicate Bounded(open: Open) {
    |open| <= MAX_TRANSFERS && Retained(open) <= MAX_TRANSFER_BYTES && forall id :: id in open ==> TransferValid(open[id])
  }

  // ----- One chunk -----

  function Started(c: Chunk): Transfer {
    Transfer(c.meta, seq(c.count, _ => None), 0, 0)
  }

  function Placed(t: Transfer, c: Chunk): Transfer
    requires c.index < |t.chunks|
  {
    t.(chunks := t.chunks[c.index := Some(c.payload)], bytes := t.bytes + |c.payload|, received := t.received + 1)
  }

  function Joined(chunks: seq<Option<Bytes>>): Bytes {
    if chunks == [] then [] else
      Joined(chunks[..|chunks| - 1]) + if chunks[|chunks| - 1].Some? then chunks[|chunks| - 1].value else []
  }

  /** The transfer a chunk belongs to, new or open. */
  function Target(open: Open, c: Chunk): Transfer {
    if c.transferId in open then open[c.transferId] else Started(c)
  }

  /** The checks of `ingest_chunk`, in their order; `retained` is what is held before this chunk. */
  function Fault(open: Open, retained: nat, c: Chunk): Option<TransferError> {
    var t := Target(open, c);
    if c.count == 0 || c.count > MAX_CHUNKS || c.index >= c.count then Some(InvalidIndex)
    else if |c.payload| > MAX_CHUNK_BYTES then Some(ChunkTooLarge)
    else if c.transferId !in open && |open| >= MAX_TRANSFERS then Some(TooManyTransfers)
    else if |t.chunks| != c.count || t.meta != c.meta then Some(MetadataChanged)
    else if t.chunks[c.index].Some? then if t.chunks[c.index].value != c.payload then Some(ContentsChanged) else None
    else if |c.payload| > MAX_TRANSFER_BYTES - retained then Some(TransfersTooLarge)
    else None
  }

  /** An accepted chunk: what stays open, and the payload when it was the last one missing. */
  function Accepted(open: Open, c: Chunk): (Open, Option<Bytes>)
    requires c.index < |Target(open, c).chunks|
  {
    var t := Target(open, c);
    if t.chunks[c.index].Some? then (open[c.transferId := t], None)
    else
      var placed := Placed(t, c);
      if placed.received != |placed.chunks| then (open[c.transferId := placed], None)
      else (open - {c.transferId}, Some(Joined(placed.chunks)))
  }

  class Assembly {
    var open: Open

    constructor ()
      ensures open == map[]
    {
      open := map[];
    }

    method Clear()
      modifies this
      ensures open == map[]
    {
      open := map[];
    }

    /** `ingest`: a faulty chunk also drops everything assembled so far. */
    method Ingest(c: Chunk) returns (r: Result<Option<Bytes>, TransferError>)
      requires Bounded(open)
      modifies this
      ensures Bounded(open)
      ensures var fault := Fault(old(open), Retained(old(open)), c);
        if fault.Some? then r == Err(fault.value) && open == map[]
        else r.Ok? && open == Accepted(old(open), c).0 && r.value == Accepted(old(open), c).1
    {
      r := IngestChunk(c);
      if r.Err? {
        Clear();
      }
    }

    method IngestChunk(c: Chunk) returns (r: Result<Option<Bytes>, TransferError>)
      requires Bounded(open)
      modifies this
      ensures var fault := Fault(old(open), Retained(old(open)), c);
        if fault.Some? then r == Err(fault.value)
        else r.Ok? && open == Accepted(old(open), c).0 && r.value == Accepted(old(open), c).1 && Bounded(open)
    {
      hide Bounded, Received, Length, Joined, Retained;
      ghost var before := open;
      if Fault(open, Retained(open), c).None? {
        AcceptedBounded(open, c);
      }
      if c.count == 0 || c.count > MAX_CHUNKS || c.index >= c.count {
        return Err(InvalidIndex);
      }
      if |c.payload| > MAX_CHUNK_BYTES {
        return Err(ChunkTooLarge);
      }
      var retained := SumRetained(open);
      if c.transferId !in open && |open| >= MAX_TRANSFERS {
        return Err(TooManyTransfers);
      }
      if c.transferId !in open {
        open := open[c.transferId := Started(c)];
      }
      var t := open[c.transferId];
      if |t.chunks| != c.count || t.meta != c.meta {
        return Err(MetadataChanged);
      }
      if t.chunks[c.index].Some? {
        if t.chunks[c.index].value != c.payload {
          return Err(ContentsChanged);
        }
        assert c.transferId in before && t == Target(before, c) && open == before[c.transferId := t];
        return Ok(None);
      }
      if |c.payload| > MAX_TRANSFER_BYTES - retained {
        return Err(TransfersTooLarge);
      }
      t := Placed(t, c);
      open := open[c.transferId := t];
      if t.received != |t.chunks| {
        return Ok(None);
      }
      open := open - {c.transferId};
      assert open == before - {c.transferId};
      r := Ok(Some(Joined(t.chunks)));
    }
  }

  lemma {:induction false} PlacedCounts(chunks: seq<Option<Bytes>>, i: nat, payload: Bytes)
    requires i < |chunks| && chunks[i].None?
    ensures var more := chunks[i := Some(payload)];
      Received(more) == Received(chunks) + 1 && Length(more) == Length(chunks) + |payload|
  {
    var more := chunks[i := Some(payload)];
    if i < |chunks| - 1 {
      PlacedCounts(chunks[..|chunks| - 1], i, payload);
      assert more[..|more| - 1] == chunks[..|chunks| - 1][i := Some(payload)];
    } else {
      assert more[..|more| - 1] == chunks[..|chunks| - 1];
    }
  }

  lemma {:induction false} NoneReceived(n: nat)
    ensures Received(seq(n, _ => None)) == 0 && Length(seq(n, _ => None)) == 0
  {
    if n > 0 {
      NoneReceived(n - 1);
      var s: seq<Option<Bytes>> := seq(n, _ => None);
      assert s[..n - 1] == seq(n - 1, _ => None);
    }
  }

  lemma {:induction false} ReceivedAtMost(chunks: seq<Option<Bytes>>)
    ensures Received(chunks) <= |chunks|
    ensures Received(chunks) == |chunks| <==> forall i :: 0 <= i < |chunks| ==> chunks[i].Some?
  {
    if chunks != [] {
      ReceivedAtMost(chunks[..|chunks| - 1]);
      assert chunks == chunks[..|chunks| - 1] + [chunks[|chunks| - 1]];
    }
  }

  lemma {:induction false} TargetValid(open: Open, c: Chunk)
    requires Bounded(open) && Fault(open, Retained(open), c).None?
    ensures TransferValid(Target(open, c)) && c.index < |Target(open, c).chunks| && Target(open, c).meta == c.meta
    ensures c.transferId !in open ==> Target(open, c).bytes == 0
  {
    hide Retained, Received, Length;
    if c.transferId !in open {
      NoneReceived(c.count);
    }
  }

  lemma {:induction false} PlacedValid(t: Transfer, c: Chunk)
    requires TransferValid(t) && c.index < |t.chunks| && t.chunks[c.index].None? && |c.payload| <= MAX_CHUNK_BYTES
    ensures Placed(t, c).received == Received(Placed(t, c).chunks) && Placed(t, c).bytes == Length(Placed(t, c).chunks)
    ensures Placed(t, c).received != |t.chunks| ==> TransferValid(Placed(t, c))
  {
    hide Received, Length;
    PlacedCounts(t.chunks, c.index, c.payload);
    ReceivedAtMost(Placed(t, c).chunks);
  }

  lemma {:induction false} UpdateRetained(open: Open, id: string, t: Transfer)
    ensures Retained(open[id := t]) == t.bytes + Retained(open - {id})
    ensures id in open ==> Retained(open) == open[id].bytes + Retained(open - {id})
    ensures id !in open ==> open - {id} == open
  {
    RetainedSplit(open[id := t], id);
    assert open[id := t] - {id} == open - {id};
    if id in open {
      RetainedSplit(open, id);
    }
  }

  /** A chunk that is accepted leaves everything within the bounds. */
  lemma {:induction false} AcceptedBounded(open: Open, c: Chunk)
    requires Bounded(open) && Fault(open, Retained(open), c).None?
    ensures c.index < |Target(open, c).chunks| && Bounded(Accepted(open, c).0)
  {
    hide Retained, TransferValid, Joined;
    TargetValid(open, c);
    var t, id := Target(open, c), c.transferId;
    UpdateRetained(open, id, t);
    if t.chunks[c.index].None? {
      PlacedValid(t, c);
      UpdateRetained(open, id, Placed(t, c));
      assert |open - {id}| <= |open|;
    }
    assert id in open ==> open[id := t].Keys == open.Keys;
    assert id !in open ==> |open[id := t]| == |open| + 1;
  }

  // ----- Faithful assembly -----

  /** The parts each transfer was cut into. */
  type Sent = map<string, seq<Bytes>>

  ghost predicate IsPart(sent: Sent, c: Chunk) {
    c.transferId in sent && c.count == |sent[c.transferId]| && c.index < c.count && c.payload == sent[c.transferId][c.index]
  }

  /** Every slot that is filled holds the part it was cut from. */
  ghost predicate Faithful(sent: Sent, open: Open) {
    forall id :: id in open ==> id in sent && |open[id].chunks| == |sent[id]| && Holds(sent[id], open[id].chunks)
  }

  ghost predicate Holds(parts: seq<Bytes>, chunks: seq<Option<Bytes>>) {
    |parts| == |chunks| && forall i :: 0 <= i < |chunks| && chunks[i].Some? ==> chunks[i].value == parts[i]
  }

  lemma {:induction false} JoinedIsConcat(parts: seq<Bytes>, chunks: seq<Option<Bytes>>)
    requires Holds(parts, chunks) && forall i :: 0 <= i < |chunks| ==> chunks[i].Some?
    ensures Joined(chunks) == Concat(parts)
  {
    if chunks != [] {
      JoinedIsConcat(parts[..|parts| - 1], chunks[..|chunks| - 1]);
    }
  }

  /**
   * Whatever order the chunks arrive in and however often, a transfer that completes yields exactly
   * the payload that was cut up.
   */
  lemma {:induction false} AssemblyFaithful(sent: Sent, open: Open, c: Chunk)
    requires Bounded(open) && Faithful(sent, open) && IsPart(sent, c) && Fault(open, Retained(open), c).None?
    ensures c.index < |Target(open, c).chunks| && Faithful(sent, Accepted(open, c).0)
    ensures Accepted(open, c).1.Some? ==> Accepted(open, c).1.value == Concat(sent[c.transferId])
  {
    hide Retained, Bounded, Joined, Received, Length, TransferValid;
    TargetValid(open, c);
    var t := Target(open, c);
    assert Holds(sent[c.transferId], t.chunks);
    if t.chunks[c.index].None? {
      assert TransferValid(t) && |c.payload| <= MAX_CHUNK_BYTES;
      PlacedValid(t, c);
      var placed := Placed(t, c);
      assert Holds(sent[c.transferId], placed.chunks);
      ReceivedAtMost(placed.chunks);
      if placed.received == |placed.chunks| {
        JoinedIsConcat(sent[c.transferId], placed.chunks);
      }
    }
  }
}
