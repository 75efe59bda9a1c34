// What every interleaving of queries and chunk uploads keeps, exactly when an
// upload can no longer complete, and when the vessel's report of success is true.
module AttachmentLaws {
  import opened Prelude
  import opened Chunks
  import opened Attachments

  // ---- Runs ----

  datatype Call = Query(declared: UploadMeta) | Send(index: int, data: Bytes, fault: Fault)

  function Step(digest: Digest, h: Hash, s: Slot, call: Call): Slot {
    match call
    case Query(declared) => AfterQuery(h, s, declared).0
    case Send(index, data, fault) => AfterUpload(digest, h, s, index, data, fault).0
  }

  function Steps(digest: Digest, h: Hash, s: Slot, calls: seq<Call>): Slot {
    if calls == [] then s else Step(digest, h, Steps(digest, h, s, calls[..|calls| - 1]), calls[|calls| - 1])
  }

  lemma StepsOfOneMore(digest: Digest, h: Hash, s: Slot, calls: seq<Call>, call: Call)
    ensures Steps(digest, h, s, calls + [call]) == Step(digest, h, Steps(digest, h, s, calls), call)
  {
    assert (calls + [call])[..|calls|] == calls;
  }

  lemma {:induction false} StepsOfBoth(digest: Digest, h: Hash, s: Slot, first: seq<Call>, second: seq<Call>)
    ensures Steps(digest, h, s, first + second) == Steps(digest, h, Steps(digest, h, s, first), second)
    decreases |second|
  {
    if second == [] {
      assert first + second == first;
    } else {
      var k := |second| - 1;
      StepsOfBoth(digest, h, s, first, second[..k]);
      StepsOfOneMore(digest, h, s, first + second[..k], second[k]);
      assert first + second[..k] + [second[k]] == first + second;
    }
  }

  /** A call about one hash, among calls about any others. */
  datatype Request = Request(h: Hash, call: Call)

  type Office = map<Hash, Slot>

  function At(office: Office, h: Hash): Slot {
    if h in office then office[h] else NOTHING
  }

  function After(digest: Digest, office: Office, requests: seq<Request>): Office {
    if requests == [] then office
    else
      var before := After(digest, office, requests[..|requests| - 1]);
      var r := requests[|requests| - 1];
      before[r.h := Step(digest, r.h, At(before, r.h), r.call)]
  }

  function CallsAbout(h: Hash, requests: seq<Request>): seq<Call> {
    if requests == [] then []
    else
      CallsAbout(h, requests[..|requests| - 1])
      + if requests[|requests| - 1].h == h then [requests[|requests| - 1].call] else []
  }

  /** In every interleaving what happens to one hash depends on the calls about it alone. */
  lemma {:induction false} RunsAreLocal(digest: Digest, office: Office, requests: seq<Request>, h: Hash)
    ensures At(After(digest, office, requests), h) == Steps(digest, h, At(office, h), CallsAbout(h, requests))
  {
    if requests != [] {
      var before, r := requests[..|requests| - 1], requests[|requests| - 1];
      RunsAreLocal(digest, office, before, h);
      assert CallsAbout(h, before) + [] == CallsAbout(h, before);
      if r.h == h { StepsOfOneMore(digest, h, At(office, h), CallsAbout(h, before), r.call); }
    }
  }

  // ---- The content store ----

  /** The stored object is named by its own digest. */
  predicate Addressed(digest: Digest, h: Hash, s: Slot) {
    s.object_.Some? ==> digest(s.object_.value) == h
  }

  lemma StepKeepsObject(digest: Digest, h: Hash, s: Slot, call: Call)
    ensures s.object_.Some? ==> Step(digest, h, s, call).object_ == s.object_
    ensures Addressed(digest, h, s) ==> Addressed(digest, h, Step(digest, h, s, call))
  {
  }

  lemma {:induction false} StepsKeepObject(digest: Digest, h: Hash, s: Slot, calls: seq<Call>)
    ensures s.object_.Some? ==> Steps(digest, h, s, calls).object_ == s.object_
    ensures Addressed(digest, h, s) ==> Addressed(digest, h, Steps(digest, h, s, calls))
  {
    if calls != [] {
      StepsKeepObject(digest, h, s, calls[..|calls| - 1]);
      StepKeepsObject(digest, h, Steps(digest, h, s, calls[..|calls| - 1]), calls[|calls| - 1]);
    }
  }

  /** Over every interleaving, with whatever chunks and failures: each stored
      object's digest is its name, and no stored object is altered or removed. */
  lemma RunsKeepObjects(digest: Digest, office: Office, requests: seq<Request>, h: Hash)
    requires Addressed(digest, h, At(office, h))
    ensures Addressed(digest, h, At(After(digest, office, requests), h))
    ensures At(office, h).object_.Some? ==>
              At(After(digest, office, requests), h).object_ == At(office, h).object_
  {
    RunsAreLocal(digest, office, requests, h);
    StepsKeepObject(digest, h, At(office, h), CallsAbout(h, requests));
  }

  /** "Complete" is answered exactly when the object is in the store, but for
      the call that stores it and then fails to delete the upload record. */
  lemma CompleteMeansStored(digest: Digest, h: Hash, s: Slot, i: int, data: Bytes, fault: Fault, declared: UploadMeta)
    ensures var (after, answer) := AfterUpload(digest, h, s, i, data, fault);
            answer == Complete <==>
              ValidHash(h) && i >= 0 && after.object_.Some? && (s.object_.Some? || !fault.delete)
    ensures AfterQuery(h, s, declared).1 == AlreadyComplete <==> ValidHash(h) && s.object_.Some?
  {
  }

  /** A chunk that could not be written or recorded is not on record, and what
      lies staged for it is what was written of it, if anything, even over an
      earlier copy; sending it again has the very effect it would have had at first. */
  lemma FailedChunkCanBeResent(digest: Digest, h: Hash, s: Slot, i: int, data: Bytes, fault: Fault)
    requires ValidHash(h) && i >= 0 && s.object_.None? && s.upload.Some? && (fault.stage.NotWritten? || fault.record)
    ensures var after := AfterUpload(digest, h, s, i, data, fault).0;
            && after == s.(chunks := after.chunks)
            && after.chunks == (match fault.stage
                                case Written => s.chunks[i := data]
                                case NotWritten(Some(left)) => s.chunks[i := left]
                                case NotWritten(None) => s.chunks)
            && AfterUpload(digest, h, after, i, data, NO_FAULT) == AfterUpload(digest, h, s, i, data, NO_FAULT)
  {
    var after := AfterUpload(digest, h, s, i, data, fault).0;
    assert after.chunks[i := data] == s.chunks[i := data];
    assert Recorded(Staged(after, i, data), i) == Recorded(Staged(s, i, data), i);
  }

  /** A query never changes an upload once registered, whatever it declares. */
  lemma QueryKeepsRegistration(h: Hash, s: Slot, declared: UploadMeta)
    ensures s.upload.Some? ==> AfterQuery(h, s, declared).0 == s
    ensures ValidHash(h) && s.object_.None? && s.upload.None? ==>
              AfterQuery(h, s, declared).0 == s.(upload := Some(declared))
  {
  }

  /** The call that completes an upload leaves the object and nothing else: no
      record, and no staged chunk but what the cleanup failed to remove. */
  lemma CompletionLeavesOnlyTheObject(digest: Digest, h: Hash, s: Slot, i: int, data: Bytes, fault: Fault)
    requires s.object_.None? && AfterUpload(digest, h, s, i, data, fault).1 == Complete
    ensures var after := AfterUpload(digest, h, s, i, data, fault).0;
            && after.object_.Some? && after.upload == None && after.recorded == {}
            && (fault.left == None ==> after.chunks == map[])
            && (fault.left.Some? ==> after.chunks.Keys <= fault.left.value)
  {
  }

  // ---- Records and staged chunks ----

  predicate AllStaged(recorded: set<int>, chunks: map<int, Bytes>) {
    forall i :: i in recorded ==> i in chunks
  }

  /** Until the object is stored, recorded indices have a staged chunk and belong to a registered upload. */
  predicate Sound(s: Slot) {
    s.object_.None? ==> AllStaged(s.recorded, s.chunks) && (s.upload.None? ==> s.recorded == {})
  }

  /** The failures after which the record does not outlive its chunks. */
  predicate InStep(fault: Fault) {
    !fault.assembly && !fault.delete
  }

  /** Once no index is missing, all chunks are there to be joined. */
  lemma RecordedChunksJoin(recorded: set<int>, chunks: map<int, Bytes>, n: int)
    requires MissingIndices(recorded, n) == [] && AllStaged(recorded, chunks)
    ensures Joined(chunks, n).Some?
  {
    forall i | 0 <= i < n ensures i in chunks {
      MissingIff(recorded, n, i);
    }
    JoinedIff(chunks, n);
  }

  /** The assembly of recorded and staged chunks either stores them or drops the upload. */
  lemma AssemblyClears(digest: Digest, h: Hash, s: Slot, fault: Fault)
    requires InStep(fault) && s.upload.Some? && AllStaged(s.recorded, s.chunks)
    requires MissingIndices(s.recorded, s.upload.value.Count()) == []
    ensures var (after, answer) := AfterAssembly(digest, h, s, fault);
            && after.upload == None && after.recorded == {}
            && (answer == DataLoss ==> after.object_ == s.object_)
  {
    RecordedChunksJoin(s.recorded, s.chunks, s.upload.value.Count());
  }

  lemma SendKeepsSound(digest: Digest, h: Hash, s: Slot, i: int, data: Bytes, fault: Fault)
    requires Sound(s) && InStep(fault)
    ensures Sound(AfterUpload(digest, h, s, i, data, fault).0)
  {
    if ValidHash(h) && i >= 0 && s.object_.None? && s.upload.Some? {
      var t := Recorded(Staged(s, i, data), i);
      assert AllStaged(t.recorded, t.chunks);
      if MissingIndices(t.recorded, t.upload.value.Count()) == [] { AssemblyClears(digest, h, t, fault); }
    }
  }

  /** After any calls without assembly or deletion failures, whatever fails to
      be written, listed, promoted or cleaned up, each recorded index has its
      staged chunk, and the upload is not stuck. */
  lemma {:induction false} RunsKeepSound(digest: Digest, h: Hash, calls: seq<Call>)
    requires forall k :: 0 <= k < |calls| && calls[k].Send? ==> InStep(calls[k].fault)
    ensures Sound(Steps(digest, h, NOTHING, calls)) && !Stuck(h, Steps(digest, h, NOTHING, calls))
  {
    var s := Steps(digest, h, NOTHING, calls);
    if calls != [] {
      var k := |calls| - 1;
      RunsKeepSound(digest, h, calls[..k]);
      if calls[k].Send? {
        SendKeepsSound(digest, h, Steps(digest, h, NOTHING, calls[..k]), calls[k].index, calls[k].data, calls[k].fault);
      }
    }
    SoundIsNotStuck(h, s);
  }

  lemma {:induction false} NothingRecorded(n: int)
    ensures MissingIndices({}, n) == if n <= 0 then [] else seq(n, i => i)
  {
    if n > 0 { NothingRecorded(n - 1); }
  }

  /** Content that does not match its hash is discarded, and the next query asks for every chunk again. */
  lemma MismatchStartsOver(digest: Digest, h: Hash, s: Slot, i: int, data: Bytes, fault: Fault, declared: UploadMeta)
    requires Sound(s) && InStep(fault)
    requires AfterUpload(digest, h, s, i, data, fault).1 == DataLoss
    ensures var after := AfterUpload(digest, h, s, i, data, fault).0;
            && after.object_ == None && after.upload == None && after.recorded == {}
            && (fault.left == None ==> after.chunks == map[])
            && AfterQuery(h, after, declared).1
               == Missing(if declared.Count() <= 0 then [] else seq(declared.Count(), k => k))
  {
    var t := Recorded(Staged(s, i, data), i);
    assert AllStaged(t.recorded, t.chunks);
    AssemblyClears(digest, h, t, fault);
    NothingRecorded(declared.Count());
  }

  // ---- Progress ----

  lemma {:induction false} MissingShrinks(recorded: set<int>, i: int, n: int)
    ensures |MissingIndices(recorded + {i}, n)|
         == |MissingIndices(recorded, n)| - if 0 <= i < n && i !in recorded then 1 else 0
  {
    if n > 0 {
      MissingShrinks(recorded, i, n - 1);
      assert n - 1 in recorded + {i} <==> n - 1 in recorded || n - 1 == i;
    }
  }

  /** A chunk whose index was missing leaves exactly one fewer missing; any
      other chunk, duplicate or past the end, leaves the missing set as it is. */
  lemma UploadShrinksMissing(digest: Digest, h: Hash, s: Slot, i: int, data: Bytes, fault: Fault)
    requires s.upload.Some? && AfterUpload(digest, h, s, i, data, fault).1 == Incomplete
    ensures var after := AfterUpload(digest, h, s, i, data, fault).0;
            var n := s.upload.value.Count();
            && after.upload == s.upload
            && |MissingIndices(after.recorded, n)|
               == |MissingIndices(s.recorded, n)| - if i in MissingIndices(s.recorded, n) then 1 else 0
  {
    MissingShrinks(s.recorded, i, s.upload.value.Count());
    MissingIff(s.recorded, s.upload.value.Count(), i);
  }

  // ---- Stuck uploads ----

  /** At least two chunk files of 0..n-1 are gone. */
  predicate LacksTwo(chunks: map<int, Bytes>, n: int) {
    exists j, k :: 0 <= j < k < n && j !in chunks && k !in chunks
  }

  /** Every index is on record, so that any chunk sent starts the assembly, and two chunk files are gone. */
  predicate Stuck(h: Hash, s: Slot) {
    && ValidHash(h) && s.object_.None? && s.upload.Some?
    && MissingIndices(s.recorded, s.upload.value.Count()) == [] && LacksTwo(s.chunks, s.upload.value.Count())
  }

  lemma SoundIsNotStuck(h: Hash, s: Slot)
    requires Sound(s)
    ensures !Stuck(h, s)
  {
    if Stuck(h, s) {
      var n := s.upload.value.Count();
      var j, k :| 0 <= j < k < n && j !in s.chunks && k !in s.chunks;
      MissingIff(s.recorded, n, j);
    }
  }

  lemma {:induction false} MoreRecordedNoneMissing(recorded: set<int>, i: int, n: int)
    requires MissingIndices(recorded, n) == []
    ensures MissingIndices(recorded + {i}, n) == []
  {
    if n > 0 { MoreRecordedNoneMissing(recorded, i, n - 1); }
  }

  lemma OneChunkIsNotEnough(chunks: map<int, Bytes>, n: int, i: int, data: Bytes)
    requires LacksTwo(chunks, n)
    ensures Joined(chunks[i := data], n).None?
  {
    var j, k :| 0 <= j < k < n && j !in chunks && k !in chunks;
    var lost := if i == j then k else j;
    assert lost !in chunks[i := data];
    JoinedIff(chunks[i := data], n);
  }

  /** Chunk files are written whole or not at all, recorded, listed and removed as they should be. */
  predicate Steady(fault: Fault) {
    && (fault.stage.NotWritten? ==> fault.stage.left == None)
    && !fault.record && !fault.listing && fault.left == None
  }

  lemma StepKeepsStuck(digest: Digest, h: Hash, s: Slot, call: Call)
    requires Stuck(h, s) && (call.Send? ==> Steady(call.fault))
    ensures Stuck(h, Step(digest, h, s, call))
  {
    if call.Send? && call.index >= 0 && call.fault.stage.Written? {
      MoreRecordedNoneMissing(s.recorded, call.index, s.upload.value.Count());
      OneChunkIsNotEnough(s.chunks, s.upload.value.Count(), call.index, call.data);
      var j, k :| 0 <= j < k < s.upload.value.Count() && j !in s.chunks && k !in s.chunks;
      var after := Step(digest, h, s, call);
      assert j !in after.chunks && k !in after.chunks;
    }
  }

  /** From a stuck upload no sequence of queries and steadily handled chunks stores the object. */
  lemma {:induction false} StuckForever(digest: Digest, h: Hash, s: Slot, calls: seq<Call>)
    requires Stuck(h, s) && forall k :: 0 <= k < |calls| && calls[k].Send? ==> Steady(calls[k].fault)
    ensures Stuck(h, Steps(digest, h, s, calls))
  {
    if calls != [] {
      StuckForever(digest, h, s, calls[..|calls| - 1]);
      StepKeepsStuck(digest, h, Steps(digest, h, s, calls[..|calls| - 1]), calls[|calls| - 1]);
    }
  }

  // ---- Uploads that can complete ----

  predicate Faultless(calls: seq<Call>) {
    forall k :: 0 <= k < |calls| && calls[k].Send? ==> calls[k].fault == NO_FAULT
  }

  /** Some calls, none of them failing, put the object into the store. */
  ghost predicate CanComplete(digest: Digest, h: Hash, s: Slot) {
    exists calls :: Faultless(calls) && Steps(digest, h, s, calls).object_.Some?
  }

  lemma CompletesAfter(digest: Digest, h: Hash, s: Slot, calls: seq<Call>)
    requires Faultless(calls) && CanComplete(digest, h, Steps(digest, h, s, calls))
    ensures CanComplete(digest, h, s)
  {
    var more :| Faultless(more) && Steps(digest, h, Steps(digest, h, s, calls), more).object_.Some?;
    StepsOfBoth(digest, h, s, calls, more);
    assert Faultless(calls + more);
  }

  lemma CompletesAfterSend(digest: Digest, h: Hash, s: Slot, i: int, data: Bytes)
    requires CanComplete(digest, h, AfterUpload(digest, h, s, i, data, NO_FAULT).0)
    ensures CanComplete(digest, h, s)
  {
    var call := Send(i, data, NO_FAULT);
    StepsOfOneMore(digest, h, s, [], call);
    assert [] + [call] == [call];
    CompletesAfter(digest, h, s, [call]);
  }

  lemma StoredCompletes(digest: Digest, h: Hash, s: Slot)
    requires s.object_.Some?
    ensures CanComplete(digest, h, s)
  {
    assert Faultless([]) && Steps(digest, h, s, []).object_.Some?;
  }

  lemma CompletesAfterQuery(digest: Digest, h: Hash, s: Slot, declared: UploadMeta)
    requires CanComplete(digest, h, AfterQuery(h, s, declared).0)
    ensures CanComplete(digest, h, s)
  {
    var call := Query(declared);
    StepsOfOneMore(digest, h, s, [], call);
    assert [] + [call] == [call];
    CompletesAfter(digest, h, s, [call]);
  }

  lemma OnlyChunk(chunks: map<int, Bytes>, content: Bytes)
    ensures Joined(chunks[0 := content], 1) == Some(content)
    ensures MissingIndices({0}, 1) == []
  {
    assert Joined(chunks[0 := content], 0) == Some([]) && [] + content == content;
    assert MissingIndices({0}, 0) == [];
  }

  lemma SingleChunkStores(digest: Digest, h: Hash, s: Slot, content: Bytes)
    requires ValidHash(h) && digest(content) == h && s.object_.None? && s.upload.Some? && s.recorded == {}
    requires s.upload.value.Count() == 1
    ensures AfterUpload(digest, h, s, 0, content, NO_FAULT).0.object_.Some?
  {
    OnlyChunk(s.chunks, content);
    assert {} + {0} == {0};
  }

  lemma OneByteIsOneChunk() returns (declared: UploadMeta)
    ensures declared.Count() == 1
  {
    declared := Upload(1, 1);
  }

  lemma RegisteredCompletes(digest: Digest, h: Hash, s: Slot, content: Bytes, declared: UploadMeta)
    requires ValidHash(h) && digest(content) == h && s.object_.None? && s.upload.None? && s.recorded == {}
    requires declared.Count() == 1
    ensures CanComplete(digest, h, AfterQuery(h, s, declared).0)
  {
    var t := s.(upload := Some(declared));
    SingleChunkStores(digest, h, t, content);
    StoredCompletes(digest, h, AfterUpload(digest, h, t, 0, content, NO_FAULT).0);
    CompletesAfterSend(digest, h, t, 0, content);
  }

  /** Nothing registered: one query and the content as a single chunk are enough. */
  lemma FreshCompletes(digest: Digest, h: Hash, s: Slot, content: Bytes)
    requires ValidHash(h) && digest(content) == h && s.object_.None? && s.upload.None? && s.recorded == {}
    ensures CanComplete(digest, h, s)
  {
    var declared := OneByteIsOneChunk();
    RegisteredCompletes(digest, h, s, content, declared);
    CompletesAfterQuery(digest, h, s, declared);
  }

  /** A chunk that leaves nothing missing and no file gone: stored, or dropped to start over. */
  lemma LastChunkCompletes(digest: Digest, h: Hash, s: Slot, i: int, data: Bytes, content: Bytes)
    requires ValidHash(h) && digest(content) == h && s.object_.None? && s.upload.Some? && i >= 0
    requires MissingIndices(s.recorded + {i}, s.upload.value.Count()) == []
    requires Joined(s.chunks[i := data], s.upload.value.Count()).Some?
    ensures CanComplete(digest, h, s)
  {
    var after := AfterUpload(digest, h, s, i, data, NO_FAULT).0;
    if after.object_.Some? {
      StoredCompletes(digest, h, after);
    } else {
      FreshCompletes(digest, h, after, content);
    }
    CompletesAfterSend(digest, h, s, i, data);
  }

  /** The chunks 0..k-1 but one, each empty. */
  function AllBut(m: int, k: nat): (calls: seq<Call>)
    ensures Faultless(calls)
  {
    if k == 0 then []
    else
      var before := AllBut(m, k - 1);
      if k - 1 == m then before else before + [Send(k - 1, [], NO_FAULT)]
  }

  /** The upload is open, `m` is off the record, and 0..k-1 but `m` are staged. */
  predicate StagedBut(s: Slot, t: Slot, m: int, k: nat) {
    && t.object_.None? && t.upload == s.upload && m !in t.recorded
    && (forall i :: 0 <= i < k && i != m ==> i in t.recorded && i in t.chunks)
    && forall i :: i in s.recorded ==> i in t.recorded
  }

  lemma SendIncomplete(digest: Digest, h: Hash, s: Slot, i: int, data: Bytes, m: int)
    requires ValidHash(h) && s.object_.None? && s.upload.Some? && i >= 0 && i != m
    requires 0 <= m < s.upload.value.Count() && m !in s.recorded
    ensures AfterUpload(digest, h, s, i, data, NO_FAULT) == (Recorded(Staged(s, i, data), i), Incomplete)
  {
    MissingIff(s.recorded + {i}, s.upload.value.Count(), m);
  }

  lemma SendOneMore(digest: Digest, h: Hash, s: Slot, t: Slot, m: int, k: nat)
    requires ValidHash(h) && s.upload.Some? && 0 <= m < s.upload.value.Count()
    requires k > 0 && k - 1 != m && StagedBut(s, t, m, k - 1)
    ensures StagedBut(s, Step(digest, h, t, Send(k - 1, [], NO_FAULT)), m, k)
  {
    SendIncomplete(digest, h, t, k - 1, [], m);
  }

  lemma {:induction false} SendAllBut(digest: Digest, h: Hash, s: Slot, m: int, k: nat)
    requires ValidHash(h) && s.object_.None? && s.upload.Some?
    requires 0 <= m < s.upload.value.Count() && m !in s.recorded
    ensures StagedBut(s, Steps(digest, h, s, AllBut(m, k)), m, k)
  {
    if k > 0 {
      SendAllBut(digest, h, s, m, k - 1);
      if k - 1 != m {
        StepsOfOneMore(digest, h, s, AllBut(m, k - 1), Send(k - 1, [], NO_FAULT));
        SendOneMore(digest, h, s, Steps(digest, h, s, AllBut(m, k - 1)), m, k);
      }
    }
  }

  /** While an index is missing, sending the others first and it last completes. */
  lemma MissingCompletes(digest: Digest, h: Hash, s: Slot, content: Bytes, m: int)
    requires ValidHash(h) && digest(content) == h && s.object_.None? && s.upload.Some?
    requires m in MissingIndices(s.recorded, s.upload.value.Count())
    ensures CanComplete(digest, h, s)
  {
    var n := s.upload.value.Count();
    MissingIff(s.recorded, n, m);
    SendAllBut(digest, h, s, m, n);
    var t := Steps(digest, h, s, AllBut(m, n));
    EveryIndexThere(t.recorded + {m}, n);
    JoinedIff(t.chunks[m := []], n);
    LastChunkCompletes(digest, h, t, m, [], content);
    CompletesAfter(digest, h, s, AllBut(m, n));
  }

  lemma {:induction false} EveryIndexThere(recorded: set<int>, n: int)
    requires forall i :: 0 <= i < n ==> i in recorded
    ensures MissingIndices(recorded, n) == []
  {
    if n > 0 { EveryIndexThere(recorded, n - 1); }
  }

  lemma TheOneLost(chunks: map<int, Bytes>, n: int) returns (i: nat)
    requires !LacksTwo(chunks, n)
    ensures forall k :: 0 <= k < n ==> k in chunks || k == i
  {
    i := 0;
    if k :| 0 <= k < n && k !in chunks { i := k; }
  }

  /** With everything on record and at most one file gone, sending that one completes. */
  lemma OneLostCompletes(digest: Digest, h: Hash, s: Slot, content: Bytes)
    requires ValidHash(h) && digest(content) == h && s.object_.None? && s.upload.Some?
    requires MissingIndices(s.recorded, s.upload.value.Count()) == []
    requires !LacksTwo(s.chunks, s.upload.value.Count())
    ensures CanComplete(digest, h, s)
  {
    var n := s.upload.value.Count();
    var i := TheOneLost(s.chunks, n);
    JoinedIff(s.chunks[i := []], n);
    MoreRecordedNoneMissing(s.recorded, i, n);
    LastChunkCompletes(digest, h, s, i, [], content);
  }

  /** Whatever failed before: an unfinished upload of existing content can
      still be completed exactly when it is not stuck. */
  lemma CompletableIff(digest: Digest, h: Hash, s: Slot, content: Bytes)
    requires ValidHash(h) && digest(content) == h && (s.upload.None? ==> s.recorded == {})
    ensures CanComplete(digest, h, s) <==> s.object_.Some? || !Stuck(h, s)
  {
    if s.object_.Some? {
      StoredCompletes(digest, h, s);
    } else if Stuck(h, s) {
      forall calls | Faultless(calls) ensures Steps(digest, h, s, calls).object_.None? {
        StuckForever(digest, h, s, calls);
      }
    } else if s.upload.None? {
      FreshCompletes(digest, h, s, content);
    } else {
      var missing := MissingIndices(s.recorded, s.upload.value.Count());
      if missing != [] {
        MissingCompletes(digest, h, s, content, missing[0]);
      } else {
        OneLostCompletes(digest, h, s, content);
      }
    }
  }

  /** The upload record outlives a failed assembly. */
  predicate RecordKept(digest: Digest, h: Hash, chunks: map<int, Bytes>, n: int, fault: Fault) {
    var joined := Joined(chunks, n);
    joined.None? || fault.assembly || ((digest(joined.value) != h || fault.promote) && fault.delete)
  }

  function Remaining(chunks: map<int, Bytes>, left: Option<set<int>>): map<int, Bytes> {
    match left
    case None => map[]
    case Some(kept) => map i | i in chunks && i in kept :: chunks[i]
  }

  lemma NoneRemaining(n: int)
    ensures LacksTwo(map[], n) <==> n >= 2
  {
    var none: map<int, Bytes> := map[];
    if n >= 2 { assert 0 <= 0 < 1 < n && 0 !in none && 1 !in none; }
  }

  /** The chunk that leaves no index missing starts the assembly. Whatever then
      fails, the upload can still be completed unless the record is kept while
      the cleanup removes two chunks or more; a cleanup that works removes all. */
  lemma FailedAssemblyRecoversIff(digest: Digest, h: Hash, s: Slot, i: int, data: Bytes, fault: Fault, content: Bytes)
    requires ValidHash(h) && digest(content) == h && s.object_.None? && s.upload.Some? && i >= 0
    requires fault.stage.Written? && !fault.record && !fault.listing
    requires MissingIndices(s.recorded + {i}, s.upload.value.Count()) == []
    ensures var n := s.upload.value.Count();
            CanComplete(digest, h, AfterUpload(digest, h, s, i, data, fault).0) <==>
              !(RecordKept(digest, h, s.chunks[i := data], n, fault)
                && LacksTwo(Remaining(s.chunks[i := data], fault.left), n))
    ensures LacksTwo(Remaining(s.chunks[i := data], None), s.upload.value.Count()) <==> s.upload.value.Count() >= 2
  {
    var after := AfterUpload(digest, h, s, i, data, fault).0;
    NoneRemaining(s.upload.value.Count());
    CompletableIff(digest, h, after, content);
  }

  // ---- The vessel's report of success ----

  lemma {:induction false} MissingIncreasing(recorded: set<int>, n: int)
    ensures forall a, b :: 0 <= a < b < |MissingIndices(recorded, n)| ==>
                             MissingIndices(recorded, n)[a] < MissingIndices(recorded, n)[b]
    ensures forall a :: 0 <= a < |MissingIndices(recorded, n)| ==> 0 <= MissingIndices(recorded, n)[a] < n
  {
    if n > 0 { MissingIncreasing(recorded, n - 1); }
  }

  function Elements(indices: seq<int>): set<int> {
    set i | i in indices
  }

  lemma RecordedSoFar(recorded: set<int>, indices: seq<int>, k: nat)
    requires k < |indices|
    ensures recorded + Elements(indices[..k]) + {indices[k]} == recorded + Elements(indices[..k + 1])
  {
    assert indices[..k + 1] == indices[..k] + [indices[k]];
  }

  /** Recording a proper prefix of the missing indices leaves some missing. */
  lemma SomeLeft(recorded: set<int>, n: int, k: nat)
    requires k < |MissingIndices(recorded, n)|
    ensures MissingIndices(recorded + Elements(MissingIndices(recorded, n)[..k]), n) != []
  {
    var missing := MissingIndices(recorded, n);
    assert missing[k] in missing;
    MissingIff(recorded, n, missing[k]);
    MissingIncreasing(recorded, n);
    assert missing[k] !in Elements(missing[..k]);
    MissingIff(recorded + Elements(missing[..k]), n, missing[k]);
  }

  lemma NoneLeft(recorded: set<int>, n: int)
    ensures MissingIndices(recorded + Elements(MissingIndices(recorded, n)), n) == []
  {
    var sent := Elements(MissingIndices(recorded, n));
    forall i | 0 <= i < n ensures i in recorded + sent {
      MissingIff(recorded, n, i);
    }
    EveryIndexThere(recorded + sent, n);
  }

  /** An acknowledged chunk was recorded, and stored with the rest if it was the last missing. */
  lemma AcknowledgedSend(digest: Digest, h: Hash, s: Slot, i: int, data: Bytes, d: Delivery)
    requires ValidHash(h) && s.object_.None? && s.upload.Some? && AfterSend(digest, h, s, i, data, d).1
    ensures var after := AfterSend(digest, h, s, i, data, d).0;
            if MissingIndices(s.recorded + {i}, s.upload.value.Count()) == [] then after.object_.Some?
            else after == Recorded(Staged(s, i, data), i)
  {
  }

  /** The first `k` of the missing chunks are on record, and the upload is still open. */
  predicate OpenAfter(s: Slot, t: Slot, sent: seq<int>) {
    t.object_.None? && t.upload == s.upload && t.recorded == s.recorded + Elements(sent)
  }

  /** As long as every chunk is acknowledged and some are left, the upload stays open. */
  lemma {:induction false} SomeSent(digest: Digest, h: Hash, s: Slot, content: Bytes, chunkSize: nat, missing: seq<int>,
                                    deliveries: Deliveries, k: nat)
    requires ValidHash(h) && s.object_.None? && s.upload.Some?
    requires missing == MissingIndices(s.recorded, s.upload.value.Count()) && (k < |missing| || k == 0)
    requires AfterSending(digest, h, s, content, chunkSize, missing[..k], deliveries).1
    ensures OpenAfter(s, AfterSending(digest, h, s, content, chunkSize, missing[..k], deliveries).0, missing[..k])
  {
    if k == 0 {
      assert missing[..0] == [];
    } else {
      assert missing[..k][..k - 1] == missing[..k - 1];
      SomeSent(digest, h, s, content, chunkSize, missing, deliveries, k - 1);
      var t := AfterSending(digest, h, s, content, chunkSize, missing[..k - 1], deliveries).0;
      var i := missing[k - 1];
      RecordedSoFar(s.recorded, missing, k - 1);
      SomeLeft(s.recorded, s.upload.value.Count(), k);
      AcknowledgedSend(digest, h, t, i, Chunk(content, i, chunkSize), deliveries(k - 1));
    }
  }

  /** When all of the missing chunks are acknowledged, the object is in the store. */
  lemma AllSent(digest: Digest, h: Hash, s: Slot, content: Bytes, chunkSize: nat, missing: seq<int>,
                deliveries: Deliveries)
    requires ValidHash(h) && s.object_.None? && s.upload.Some?
    requires missing == MissingIndices(s.recorded, s.upload.value.Count()) && missing != []
    requires AfterSending(digest, h, s, content, chunkSize, missing, deliveries).1
    ensures AfterSending(digest, h, s, content, chunkSize, missing, deliveries).0.object_.Some?
  {
    var k := |missing| - 1;
    SomeSent(digest, h, s, content, chunkSize, missing, deliveries, k);
    var t := AfterSending(digest, h, s, content, chunkSize, missing[..k], deliveries).0;
    RecordedSoFar(s.recorded, missing, k);
    assert missing[..k + 1] == missing;
    NoneLeft(s.recorded, s.upload.value.Count());
    AcknowledgedSend(digest, h, t, missing[k], Chunk(content, missing[k], chunkSize), deliveries(k));
  }

  /** The indices a query of this upload reports missing. */
  function MissingOf(s: Slot, declared: UploadMeta): seq<int> {
    MissingIndices(s.recorded, (if s.upload.Some? then s.upload.value else declared).Count())
  }

  /** Whatever the office holds and whatever fails on the way: a success the
      vessel reports is true exactly when the object was stored already or some
      chunk was missing. With none missing it reports success and nothing is stored. */
  lemma SuccessIsTrueIff(digest: Digest, h: Hash, s: Slot, content: Bytes, chunkSize: int, query: QueryFate,
                         deliveries: Deliveries)
    requires IsInt64(|content|) && 0 < chunkSize <= MAX_INT32
    requires AfterClientUpload(digest, h, s, content, chunkSize, query, deliveries).1
    ensures AfterClientUpload(digest, h, s, content, chunkSize, query, deliveries).0.object_.Some? <==>
              s.object_.Some? || MissingOf(s, Upload(|content|, chunkSize)) != []
  {
    if s.object_.None? {
      var t := AfterQuery(h, s, Upload(|content|, chunkSize)).0;
      var missing := MissingOf(s, Upload(|content|, chunkSize));
      if missing != [] { AllSent(digest, h, t, content, chunkSize, missing, deliveries); }
    }
  }

  /** A registered upload with no index missing, be it stuck or merely not
      assembled: the vessel's upload is a success that changes nothing. */
  lemma StuckClientUpload(digest: Digest, h: Hash, s: Slot, content: Bytes, chunkSize: int, deliveries: Deliveries)
    requires ValidHash(h) && s.upload.Some? && s.object_.None? && IsInt64(|content|) && 0 < chunkSize <= MAX_INT32
    ensures AfterClientUpload(digest, h, s, content, chunkSize, QueryAnswered, deliveries) == (s, true) <==>
              MissingIndices(s.recorded, s.upload.value.Count()) == []
  {
    var missing := MissingIndices(s.recorded, s.upload.value.Count());
    if missing != [] && AfterClientUpload(digest, h, s, content, chunkSize, QueryAnswered, deliveries).1 {
      AllSent(digest, h, s, content, chunkSize, missing, deliveries);
    }
  }

  // ---- Honest content ----

  /** The content, its hash and its declared sizes fit together. */
  ghost predicate Honest(digest: Digest, h: Hash, content: Bytes, chunkSize: int) {
    && ValidHash(h) && digest(content) == h && IsInt64(|content|)
    && 0 < chunkSize <= MAX_INT32 && |content| <= MAX_INT32 * chunkSize
  }

  ghost predicate RecordedAs(content: Bytes, chunkSize: nat, recorded: set<int>, chunks: map<int, Bytes>) {
    forall i :: i in recorded && i >= 0 ==> i in chunks && chunks[i] == Chunk(content, i, chunkSize)
  }

  /** What is recorded of the upload is staged as the content has it. */
  ghost predicate HonestAt(s: Slot, content: Bytes, chunkSize: nat) {
    && (s.upload.Some? ==> s.upload.value == Upload(|content|, chunkSize))
    && (s.upload.None? ==> s.recorded == {})
    && RecordedAs(content, chunkSize, s.recorded, s.chunks)
  }

  lemma RecordedOneMore(content: Bytes, chunkSize: nat, s: Slot, i: nat)
    requires RecordedAs(content, chunkSize, s.recorded, s.chunks)
    ensures var t := Staged(s, i, Chunk(content, i, chunkSize));
            && RecordedAs(content, chunkSize, t.recorded, t.chunks)
            && RecordedAs(content, chunkSize, Recorded(t, i).recorded, t.chunks)
  {
  }

  lemma HonestChunksJoin(digest: Digest, h: Hash, s: Slot, content: Bytes, chunkSize: int)
    requires Honest(digest, h, content, chunkSize) && HonestAt(s, content, chunkSize) && s.upload.Some?
    requires MissingIndices(s.recorded, s.upload.value.Count()) == []
    ensures Joined(s.chunks, s.upload.value.Count()) == Some(content)
  {
    var n := s.upload.value.Count();
    forall k | 0 <= k < n ensures k in s.chunks && s.chunks[k] == Chunk(content, k, chunkSize) {
      MissingIff(s.recorded, n, k);
    }
    ChunkRoundTrip(content, s.chunks, chunkSize);
  }

  /** Handled without a failure that shows, and answered. */
  predicate Smooth(d: Delivery) {
    && d.Handled? && d.answered && d.fault.stage.Written?
    && !d.fault.record && !d.fault.listing && !d.fault.assembly && !d.fault.promote && !d.fault.delete
  }

  lemma HonestSend(digest: Digest, h: Hash, s: Slot, content: Bytes, chunkSize: int, i: nat, d: Delivery)
    requires Honest(digest, h, content, chunkSize) && HonestAt(s, content, chunkSize) && Smooth(d)
    requires s.object_.None? && s.upload.Some?
    ensures var (after, ok) := AfterSend(digest, h, s, i, Chunk(content, i, chunkSize), d);
            && ok
            && if MissingIndices(s.recorded + {i}, s.upload.value.Count()) == [] then after.object_ == Some(content)
               else HonestAt(after, content, chunkSize)
  {
    RecordedOneMore(content, chunkSize, s, i);
    var t := Recorded(Staged(s, i, Chunk(content, i, chunkSize)), i);
    if MissingIndices(t.recorded, t.upload.value.Count()) == [] {
      HonestChunksJoin(digest, h, t, content, chunkSize);
    }
  }

  /** After the first `k` of the missing chunks: acknowledged, and stored if they are all. */
  ghost predicate SentSmoothly(s: Slot, content: Bytes, chunkSize: nat, missing: seq<int>, k: nat, after: Slot,
                               ok: bool)
    requires k <= |missing|
  {
    && ok
    && if k < |missing| || k == 0 then HonestAt(after, content, chunkSize) && OpenAfter(s, after, missing[..k])
       else after.object_ == Some(content)
  }

  lemma SmoothStep(digest: Digest, h: Hash, s: Slot, t: Slot, content: Bytes, chunkSize: int, missing: seq<int>,
                   k: nat, d: Delivery)
    requires Honest(digest, h, content, chunkSize) && Smooth(d) && s.upload.Some?
    requires missing == MissingIndices(s.recorded, s.upload.value.Count()) && k < |missing| && missing[k] >= 0
    requires SentSmoothly(s, content, chunkSize, missing, k, t, true)
    ensures var (after, ok) := AfterSend(digest, h, t, missing[k], Chunk(content, missing[k], chunkSize), d);
            SentSmoothly(s, content, chunkSize, missing, k + 1, after, ok)
  {
    RecordedSoFar(s.recorded, missing, k);
    if k + 1 < |missing| {
      SomeLeft(s.recorded, s.upload.value.Count(), k + 1);
    } else {
      assert missing[..k + 1] == missing;
      NoneLeft(s.recorded, s.upload.value.Count());
    }
    HonestSend(digest, h, t, content, chunkSize, missing[k], d);
    AcknowledgedSend(digest, h, t, missing[k], Chunk(content, missing[k], chunkSize), d);
  }

  /** Over honest staging and smooth deliveries every missing chunk is acknowledged. */
  lemma {:induction false} SmoothSending(digest: Digest, h: Hash, s: Slot, content: Bytes, chunkSize: int,
                                         missing: seq<int>, deliveries: Deliveries, k: nat)
    requires Honest(digest, h, content, chunkSize) && HonestAt(s, content, chunkSize)
    requires s.object_.None? && s.upload.Some? && forall n :: Smooth(deliveries(n))
    requires missing == MissingIndices(s.recorded, s.upload.value.Count()) && k <= |missing|
    ensures var (after, ok) := AfterSending(digest, h, s, content, chunkSize, missing[..k], deliveries);
            SentSmoothly(s, content, chunkSize, missing, k, after, ok)
  {
    if k == 0 {
      assert missing[..0] == [];
    } else {
      SmoothSending(digest, h, s, content, chunkSize, missing, deliveries, k - 1);
      MissingIncreasing(s.recorded, s.upload.value.Count());
      SendingStep(digest, h, s, content, chunkSize, missing, deliveries, k - 1);
      var t := AfterSending(digest, h, s, content, chunkSize, missing[..k - 1], deliveries).0;
      SmoothStep(digest, h, s, t, content, chunkSize, missing, k - 1, deliveries(k - 1));
    }
  }

  /** The vessel's smooth upload of honest content over honest staging reports
      success, and stores the content exactly when some chunk was missing. */
  lemma ClientUpload(digest: Digest, h: Hash, s: Slot, content: Bytes, chunkSize: int, deliveries: Deliveries)
    requires Honest(digest, h, content, chunkSize) && HonestAt(s, content, chunkSize)
    requires s.object_.None? && forall n :: Smooth(deliveries(n))
    ensures var (after, ok) := AfterClientUpload(digest, h, s, content, chunkSize, QueryAnswered, deliveries);
            ok && after.object_ == if MissingOf(s, Upload(|content|, chunkSize)) != [] then Some(content) else None
  {
    var t := AfterQuery(h, s, Upload(|content|, chunkSize)).0;
    var missing := MissingOf(s, Upload(|content|, chunkSize));
    SmoothSending(digest, h, t, content, chunkSize, missing, deliveries, |missing|);
    assert missing[..|missing|] == missing;
  }

  /** The call declares and carries the content itself. */
  ghost predicate HonestCall(call: Call, content: Bytes, chunkSize: nat) {
    match call
    case Query(declared) => declared == Upload(|content|, chunkSize)
    case Send(index, data, _) => index >= 0 ==> data == Chunk(content, index, chunkSize)
  }

  /** Chunk files are written whole or not at all, what is recorded is acted
      on, and the record does not outlive its chunks. */
  predicate Orderly(fault: Fault) {
    InStep(fault) && !fault.listing && (fault.stage.NotWritten? ==> fault.stage.left == None)
  }

  /** Honest, and some chunk of an unfinished upload that has any is missing. */
  ghost predicate Resumable(s: Slot, content: Bytes, chunkSize: nat) {
    && HonestAt(s, content, chunkSize) && Sound(s)
    && (s.object_.None? && s.upload.Some? && s.upload.value.Count() >= 1 ==>
          MissingIndices(s.recorded, s.upload.value.Count()) != [])
  }

  lemma SendKeepsResumable(digest: Digest, h: Hash, s: Slot, content: Bytes, chunkSize: nat, i: nat, fault: Fault)
    requires Resumable(s, content, chunkSize) && Orderly(fault)
    ensures Resumable(AfterUpload(digest, h, s, i, Chunk(content, i, chunkSize), fault).0, content, chunkSize)
  {
    SendKeepsSound(digest, h, s, i, Chunk(content, i, chunkSize), fault);
    RecordedOneMore(content, chunkSize, s, i);
    if ValidHash(h) && s.object_.None? && s.upload.Some? {
      var t := Recorded(Staged(s, i, Chunk(content, i, chunkSize)), i);
      assert AllStaged(t.recorded, t.chunks);
      if MissingIndices(t.recorded, t.upload.value.Count()) == [] { AssemblyClears(digest, h, t, fault); }
    }
  }

  lemma {:induction false} RunsKeepResumable(digest: Digest, h: Hash, calls: seq<Call>, content: Bytes, chunkSize: nat)
    requires forall k :: 0 <= k < |calls| ==> HonestCall(calls[k], content, chunkSize)
    requires forall k :: 0 <= k < |calls| && calls[k].Send? ==> Orderly(calls[k].fault)
    ensures Resumable(Steps(digest, h, NOTHING, calls), content, chunkSize)
  {
    if calls != [] {
      var k := |calls| - 1;
      RunsKeepResumable(digest, h, calls[..k], content, chunkSize);
      var s := Steps(digest, h, NOTHING, calls[..k]);
      match calls[k]
      case Query(declared) => NothingRecorded(declared.Count());
      case Send(index, data, fault) =>
        if index >= 0 { SendKeepsResumable(digest, h, s, content, chunkSize, index, fault); }
    }
  }

  lemma SmallCovers(n: int, totalSize: nat, chunkSize: nat)
    requires chunkSize > 0 && Covers(n, totalSize, chunkSize)
    ensures n <= 0 <==> totalSize == 0
  {
    assert 0 * chunkSize == 0;
    if n >= 1 { ProductMonotone(0, n - 1, chunkSize); }
    if n <= 0 { ProductMonotone(n, 0, chunkSize); }
  }

  lemma NoChunksIffEmpty(content: Bytes, chunkSize: int)
    requires IsInt64(|content|) && 0 < chunkSize <= MAX_INT32 && |content| <= MAX_INT32 * chunkSize
    ensures ChunkCount(|content|, chunkSize) <= 0 <==> content == []
  {
    ChunkCountCoversIff(|content|, chunkSize);
    SmallCovers(ChunkCount(|content|, chunkSize), |content|, chunkSize);
  }

  /** After any queries and honest chunks for this hash, in any order, with any
      repetitions and with failures to write, record, promote or clean up, a
      smooth upload by the vessel reports success, and the content is then in
      the store exactly when it is not empty or was there already. */
  lemma UploadStoresIffNotEmpty(digest: Digest, h: Hash, calls: seq<Call>, content: Bytes, chunkSize: int,
                                deliveries: Deliveries)
    requires Honest(digest, h, content, chunkSize) && forall n :: Smooth(deliveries(n))
    requires forall k :: 0 <= k < |calls| ==> HonestCall(calls[k], content, chunkSize)
    requires forall k :: 0 <= k < |calls| && calls[k].Send? ==> Orderly(calls[k].fault)
    ensures var s := Steps(digest, h, NOTHING, calls);
            var (after, ok) := AfterClientUpload(digest, h, s, content, chunkSize, QueryAnswered, deliveries);
            && ok
            && after.object_ == if s.object_.Some? then s.object_ else if content != [] then Some(content) else None
  {
    var s := Steps(digest, h, NOTHING, calls);
    RunsKeepResumable(digest, h, calls, content, chunkSize);
    if s.object_.None? {
      ClientUpload(digest, h, s, content, chunkSize, deliveries);
      NoChunksIffEmpty(content, chunkSize);
      NothingRecorded(ChunkCount(|content|, chunkSize));
    }
  }
}
