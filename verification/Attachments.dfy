// Resumable attachment upload: a query registers the upload and names the
// chunks still missing, each upload stages one chunk, and the last one
// assembles, verifies and promotes the content into the store.
module Attachments {
  import opened Prelude
  import opened Chunks

  type Hash = string

  /** The content digest; nothing about it is assumed. */
  type Digest = Bytes -> Hash

  /** Sixty-four lower-case hexadecimal digits. */
  predicate ValidHash(h: Hash) {
    |h| == 64 && forall i :: 0 <= i < |h| ==> '0' <= h[i] <= '9' || 'a' <= h[i] <= 'f'
  }

  datatype Upload = Upload(totalSize: int, chunkSize: int) {
    predicate Typed() {
      IsInt64(totalSize) && IsInt32(chunkSize)
    }

    function Count(): int
      requires Typed()
    {
      ChunkCount(totalSize, chunkSize)
    }
  }

  type UploadMeta = u: Upload | u.Typed() witness Upload(0, 0)

  /** All the office keeps under one hash: the finished object, the registered
      upload, the recorded chunk indices and the staged chunk files. */
  datatype Slot = Slot(object_: Option<Bytes>, upload: Option<UploadMeta>, recorded: set<int>, chunks: map<int, Bytes>)

  const NOTHING := Slot(None, None, {}, map[])

  datatype QueryAnswer = QueryInvalid | AlreadyComplete | Missing(indices: seq<int>)

  datatype UploadAnswer = InvalidArgument | FailedPrecondition | Incomplete | Complete | DataLoss | InternalError

  /** Writing a chunk file: a failed write may leave some bytes behind. */
  datatype StageFault = Written | NotWritten(left: Option<Bytes>)

  /** What goes wrong while a chunk is handled: writing its file, recording it,
      listing the recorded ones; then reading or writing the assembled file, moving
      it into the store, removing the staged files (some are left), and deleting
      the upload record. */
  datatype Fault = Fault(stage: StageFault, record: bool, listing: bool, assembly: bool, promote: bool,
                         left: Option<set<int>>, delete: bool)

  const NO_FAULT := Fault(Written, false, false, false, false, None, false)

  // ---- Specification ----

  /** Indices 0..n-1 not yet recorded, in order. */
  function MissingIndices(recorded: set<int>, n: int): seq<int> {
    if n <= 0 then []
    else MissingIndices(recorded, n - 1) + if n - 1 in recorded then [] else [n - 1]
  }

  lemma {:induction false} MissingIff(recorded: set<int>, n: int, i: int)
    ensures i in MissingIndices(recorded, n) <==> 0 <= i < n && i !in recorded
  {
    if n > 0 { MissingIff(recorded, n - 1, i); }
  }

  function AfterQuery(h: Hash, s: Slot, declared: UploadMeta): (Slot, QueryAnswer) {
    if !ValidHash(h) then (s, QueryInvalid)
    else if s.object_.Some? then (s, AlreadyComplete)
    else
      var upload := if s.upload.Some? then s.upload.value else declared;
      (s.(upload := Some(upload)), Missing(MissingIndices(s.recorded, upload.Count())))
  }

  /** Removing the staged files; a failed removal leaves those of these indices. */
  function Cleaned(s: Slot, left: Option<set<int>>): Slot {
    match left
    case None => s.(chunks := map[])
    case Some(kept) => s.(chunks := map i | i in s.chunks && i in kept :: s.chunks[i])
  }

  /** Deleting the upload record deletes its recorded indices with it. */
  function Deleted(s: Slot): Slot {
    s.(upload := None, recorded := {})
  }

  function AfterAssembly(digest: Digest, h: Hash, s: Slot, fault: Fault): (Slot, UploadAnswer)
    requires s.upload.Some?
  {
    var joined := Joined(s.chunks, s.upload.value.Count());
    if joined.None? || fault.assembly then (Cleaned(s, fault.left), DataLoss)
    else if digest(joined.value) != h || fault.promote then
      (if fault.delete then Cleaned(s, fault.left) else Deleted(Cleaned(s, fault.left)), DataLoss)
    else
      var promoted := Cleaned(s.(object_ := joined), fault.left);
      if fault.delete then (promoted, DataLoss) else (Deleted(promoted), Complete)
  }

  function Staged(s: Slot, i: int, data: Bytes): Slot {
    s.(chunks := s.chunks[i := data])
  }

  function Recorded(s: Slot, i: int): Slot {
    s.(recorded := s.recorded + {i})
  }

  function AfterStaging(digest: Digest, h: Hash, s: Slot, i: int, data: Bytes, fault: Fault): (Slot, UploadAnswer)
    requires s.upload.Some?
  {
    if fault.stage.NotWritten? then
      (if fault.stage.left.Some? then Staged(s, i, fault.stage.left.value) else s, InternalError)
    else if fault.record then (Staged(s, i, data), InternalError)
    else
      var t := Recorded(Staged(s, i, data), i);
      if fault.listing then (t, InternalError)
      else if MissingIndices(t.recorded, t.upload.value.Count()) != [] then (t, Incomplete)
      else AfterAssembly(digest, h, t, fault)
  }

  function AfterUpload(digest: Digest, h: Hash, s: Slot, i: int, data: Bytes, fault: Fault): (Slot, UploadAnswer) {
    if !ValidHash(h) || i < 0 then (s, InvalidArgument)
    else if s.object_.Some? then (s, Complete)
    else if s.upload.None? then (s, FailedPrecondition)
    else AfterStaging(digest, h, s, i, data, fault)
  }

  // ---- The server ----

  class Server {
    const digest: Digest
    var objects: map<Hash, Bytes>
    var uploads: map<Hash, UploadMeta>
    var received: map<Hash, set<int>>
    var staged: map<Hash, map<int, Bytes>>

    function At(h: Hash): Slot
      reads this
    {
      Slot(if h in objects then Some(objects[h]) else None,
           if h in uploads then Some(uploads[h]) else None,
           if h in received then received[h] else {},
           if h in staged then staged[h] else map[])
    }

    /** Nothing changes under any other hash. */
    twostate predicate OthersSame(h: Hash)
      reads this
    {
      forall g :: g != h ==> At(g) == old(At(g))
    }

    constructor (digest: Digest)
      ensures this.digest == digest && forall h :: At(h) == NOTHING
    {
      this.digest := digest;
      objects, uploads, received, staged := map[], map[], map[], map[];
    }

    method MissingChunkIndices(h: Hash) returns (missing: seq<int>)
      requires h in uploads
      ensures missing == MissingIndices(At(h).recorded, uploads[h].Count())
    {
      var got := if h in received then received[h] else {};
      var total := uploads[h].Count();
      missing := [];
      var i := 0;
      while i < total
        invariant 0 <= i && (i <= total || i == 0)
        invariant missing == MissingIndices(got, i)
      {
        if i !in got { missing := missing + [i]; }
        i := i + 1;
      }
    }

    method QueryMissingAttachmentChunks(h: Hash, declared: UploadMeta) returns (answer: QueryAnswer)
      modifies this
      ensures (At(h), answer) == AfterQuery(h, old(At(h)), declared) && OthersSame(h)
    {
      if !ValidHash(h) { return QueryInvalid; }
      if h in objects { return AlreadyComplete; }
      if h !in uploads { uploads := uploads[h := declared]; }
      var missing := MissingChunkIndices(h);
      return Missing(missing);
    }

    method UploadAttachmentChunk(h: Hash, i: int, data: Bytes, fault: Fault) returns (answer: UploadAnswer)
      modifies this
      ensures (At(h), answer) == AfterUpload(digest, h, old(At(h)), i, data, fault) && OthersSame(h)
    {
      if !ValidHash(h) { return InvalidArgument; }
      if i < 0 { return InvalidArgument; }
      if h in objects { return Complete; }
      if h !in uploads { return FailedPrecondition; }
      var ok := WriteChunk(h, i, data, fault.stage);
      if !ok { return InternalError; }
      if fault.record { return InternalError; }
      received := received[h := (if h in received then received[h] else {}) + {i}];
      if fault.listing { return InternalError; }
      var missing := MissingChunkIndices(h);
      if |missing| > 0 { return Incomplete; }
      answer := AssembleAndPromote(h, fault);
    }

    method WriteChunk(h: Hash, i: int, data: Bytes, fault: StageFault) returns (ok: bool)
      modifies this`staged
      ensures ok <==> fault.Written?
      ensures At(h) == match fault
                       case Written => Staged(old(At(h)), i, data)
                       case NotWritten(Some(left)) => Staged(old(At(h)), i, left)
                       case NotWritten(None) => old(At(h))
      ensures OthersSame(h)
    {
      var bytes := if fault.Written? then Some(data) else fault.left;
      if bytes.Some? {
        staged := staged[h := (if h in staged then staged[h] else map[])[i := bytes.value]];
      }
      ok := fault.Written?;
    }

    method AssembleAndPromote(h: Hash, fault: Fault) returns (answer: UploadAnswer)
      requires h in uploads
      modifies this
      ensures (At(h), answer) == AfterAssembly(digest, h, old(At(h)), fault) && OthersSame(h)
    {
      var joined := AssembleChunkFile(if h in staged then staged[h] else map[], uploads[h].Count());
      if joined.None? || fault.assembly {
        CleanupStaging(h, fault.left);
        return DataLoss;
      }
      if digest(joined.value) != h || fault.promote {
        CleanupStaging(h, fault.left);
        if !fault.delete { DeleteAttachmentUpload(h); }
        return DataLoss;
      }
      objects := objects[h := joined.value];
      CleanupStaging(h, fault.left);
      if fault.delete { return DataLoss; }
      DeleteAttachmentUpload(h);
      return Complete;
    }

    method CleanupStaging(h: Hash, left: Option<set<int>>)
      modifies this`staged
      ensures At(h) == Cleaned(old(At(h)), left) && OthersSame(h)
    {
      if left.None? {
        staged := staged - {h};
      } else {
        var files := if h in staged then staged[h] else map[];
        staged := staged[h := map i | i in files && i in left.value :: files[i]];
      }
    }

    method DeleteAttachmentUpload(h: Hash)
      modifies this`uploads, this`received
      ensures At(h) == Deleted(old(At(h))) && OthersSame(h)
    {
      uploads := uploads - {h};
      received := received - {h};
    }
  }

  // ---- The vessel's side ----

  /** What becomes of the query. */
  datatype QueryFate = QueryLost | QueryUnanswered | QueryAnswered

  /** What becomes of one chunk: it cannot be read, its request does not arrive,
      or the server handles it and the answer arrives or not. */
  datatype Delivery = Unreadable | RequestLost | Handled(fault: Fault, answered: bool)

  type Deliveries = nat -> Delivery

  function AfterSend(digest: Digest, h: Hash, s: Slot, i: int, data: Bytes, d: Delivery): (Slot, bool) {
    match d
    case Handled(fault, answered) =>
      var (t, answer) := AfterUpload(digest, h, s, i, data, fault);
      (t, answered && (answer.Complete? || answer.Incomplete?))
    case _ => (s, false)
  }

  /** Sends these chunks in turn until one fails. */
  function AfterSending(digest: Digest, h: Hash, s: Slot, content: Bytes, chunkSize: nat, indices: seq<int>,
                        deliveries: Deliveries): (Slot, bool)
  {
    if indices == [] then (s, true)
    else
      var n := |indices| - 1;
      var (before, ok) := AfterSending(digest, h, s, content, chunkSize, indices[..n], deliveries);
      if !ok || indices[n] < 0 then (before, false)
      else AfterSend(digest, h, before, indices[n], Chunk(content, indices[n], chunkSize), deliveries(n))
  }

  function AfterClientUpload(digest: Digest, h: Hash, s: Slot, content: Bytes, chunkSize: int, query: QueryFate,
                             deliveries: Deliveries): (Slot, bool)
    requires IsInt64(|content|) && 0 < chunkSize <= MAX_INT32
  {
    var (t, answer) := AfterQuery(h, s, Upload(|content|, chunkSize));
    match query
    case QueryLost => (s, false)
    case QueryUnanswered => (t, false)
    case QueryAnswered =>
      match answer
      case QueryInvalid => (t, false)
      case AlreadyComplete => (t, true)
      case Missing(indices) => AfterSending(digest, h, t, content, chunkSize, indices, deliveries)
  }

  /** Sends exactly the chunks the office reports missing; stops at the first error. */
  method UploadAttachment(server: Server, h: Hash, content: Bytes, chunkSize: int, query: QueryFate,
                          deliveries: Deliveries)
    returns (ok: bool)
    requires IsInt64(|content|) && 0 < chunkSize <= MAX_INT32
    modifies server
    ensures (server.At(h), ok)
         == AfterClientUpload(server.digest, h, old(server.At(h)), content, chunkSize, query, deliveries)
  {
    if query.QueryLost? { return false; }
    var answer := server.QueryMissingAttachmentChunks(h, Upload(|content|, chunkSize));
    if query.QueryUnanswered? || answer.QueryInvalid? { return false; }
    if answer.AlreadyComplete? { return true; }
    ghost var s := server.At(h);
    var indices := answer.indices;
    for n := 0 to |indices|
      invariant (server.At(h), true) == AfterSending(server.digest, h, s, content, chunkSize, indices[..n], deliveries)
    {
      assert indices[n] in indices;
      MissingIff(s.recorded, s.upload.value.Count(), indices[n]);
      ok := SendChunk(server, h, indices[n], Chunk(content, indices[n], chunkSize), deliveries(n));
      SendingStep(server.digest, h, s, content, chunkSize, indices, deliveries, n);
      if !ok {
        SendingFailed(server.digest, h, s, content, chunkSize, indices, deliveries, n + 1);
        return false;
      }
    }
    assert indices[..|indices|] == indices;
    return true;
  }

  method SendChunk(server: Server, h: Hash, i: int, data: Bytes, d: Delivery) returns (ok: bool)
    modifies server
    ensures (server.At(h), ok) == AfterSend(server.digest, h, old(server.At(h)), i, data, d)
  {
    if !d.Handled? { return false; }
    var answer := server.UploadAttachmentChunk(h, i, data, d.fault);
    return d.answered && (answer.Complete? || answer.Incomplete?);
  }

  lemma SendingStep(digest: Digest, h: Hash, s: Slot, content: Bytes, chunkSize: nat, indices: seq<int>,
                    deliveries: Deliveries, n: nat)
    requires n < |indices| && indices[n] >= 0
    requires AfterSending(digest, h, s, content, chunkSize, indices[..n], deliveries).1
    ensures AfterSending(digest, h, s, content, chunkSize, indices[..n + 1], deliveries)
         == AfterSend(digest, h, AfterSending(digest, h, s, content, chunkSize, indices[..n], deliveries).0, indices[n],
                      Chunk(content, indices[n], chunkSize), deliveries(n))
  {
    assert indices[..n + 1][..n] == indices[..n];
  }

  lemma {:induction false} SendingFailed(digest: Digest, h: Hash, s: Slot, content: Bytes, chunkSize: nat,
                                         indices: seq<int>, deliveries: Deliveries, n: nat)
    requires n <= |indices| && !AfterSending(digest, h, s, content, chunkSize, indices[..n], deliveries).1
    ensures AfterSending(digest, h, s, content, chunkSize, indices, deliveries)
         == (AfterSending(digest, h, s, content, chunkSize, indices[..n], deliveries).0, false)
    decreases |indices|
  {
    if n == |indices| {
      assert indices[..n] == indices;
    } else {
      assert indices[..|indices| - 1][..n] == indices[..n];
      SendingFailed(digest, h, s, content, chunkSize, indices[..|indices| - 1], deliveries, n);
    }
  }
}
