/** What an upload is answered, and what the answer says of the store. */
module IngestAnswers {
  import opened Common
  import opened Ingest

  ghost predicate KnownBytes(s: Store, hash: Hash) {
    exists d :: d in s.documents && s.documents[d].hash == hash
  }

  /** Nothing stands in the way of storing the upload. */
  ghost predicate Storable(s: Store, i: SourceId, u: Upload, digest: Bytes -> Hash) {
    u.valid && !KnownBytes(s, digest(u.data)) && u.data != [] && i !in s.sources && u.document !in s.documents
  }

  ghost function AnswerAlone(s: Store, i: SourceId, u: Upload, digest: Bytes -> Hash): Answer {
    var pc := Alone(s, i, u, Checking, CLEAN, digest).1;
    if pc.Done? then AnswerOf(pc.outcome) else PersistenceError
  }

  const CLEAN: seq<Fault> := [NoFault, NoFault, NoFault, NoFault, NoFault, NoFault]

  /** The store with the upload's document, source and blob. */
  function Uploaded(s: Store, i: SourceId, u: Upload, digest: Bytes -> Hash): Store {
    var hash := digest(u.data);
    Store(s.documents[u.document := Document(hash, i, u.status, u.chunks)],
          s.sources[i := Source(hash, u.status)],
          if hash in s.blobs then s.blobs else s.blobs[hash := u.data])
  }

  lemma FindsKnown(s: Store, hash: Hash)
    ensures Find(s.documents, hash).Some? <==> KnownBytes(s, hash)
    ensures Find(s.documents, hash).Some? ==>
              Find(s.documents, hash).value in s.documents &&
              s.documents[Find(s.documents, hash).value].hash == hash
  {
    if KnownBytes(s, hash) {
      var d :| d in s.documents && s.documents[d].hash == hash;
      assert HasHash(s.documents, d, hash);
    }
  }

  /** From the creation of the source on. */
  lemma CreatingLeaves(s: Store, i: SourceId, u: Upload, digest: Bytes -> Hash)
    requires u.valid && !KnownBytes(s, digest(u.data))
    ensures var (t, pc) := Alone(s, i, u, Creating, CLEAN[2..], digest);
            && pc.Done?
            && (if Storable(s, i, u, digest) then pc.outcome == Stored && t == Uploaded(s, i, u, digest)
                else AnswerOf(pc.outcome) == PersistenceError && t.documents == s.documents && t.sources == s.sources)
  {
    hide Alone, Find;
    AloneNext(s, i, u, Creating, CLEAN, 2, digest);
    var (t, pc) := Step(s, i, u, Creating, NoFault, digest);
    if pc == Storing {
      StoringLeaves(s, t, i, u, digest);
    } else {
      AloneIsOver(t, i, u, pc, CLEAN[3..], digest);
    }
  }

  lemma AloneIsOver(s: Store, i: SourceId, u: Upload, pc: Pc, faults: seq<Fault>, digest: Bytes -> Hash)
    requires pc.Done?
    ensures Alone(s, i, u, pc, faults, digest) == (s, pc)
  {
  }

  lemma StoringLeaves(s: Store, t: Store, i: SourceId, u: Upload, digest: Bytes -> Hash)
    requires u.valid && !KnownBytes(s, digest(u.data)) && u.data != [] && i !in s.sources
    requires t == CreateSource(s, i, u.data, digest).0
    ensures var (t', pc) := Alone(t, i, u, Storing, CLEAN[3..], digest);
            && pc.Done?
            && (if u.document !in s.documents then pc.outcome == Stored && t' == Uploaded(s, i, u, digest)
                else AnswerOf(pc.outcome) == PersistenceError && t'.documents == s.documents && t'.sources == s.sources)
  {
    hide Alone, Find;
    AloneNext(t, i, u, Storing, CLEAN, 3, digest);
    assert forall other :: other in t.documents ==> !HasHash(t.documents, other, digest(u.data));
    var (t1, pc1) := Step(t, i, u, Storing, NoFault, digest);
    AloneNext(t1, i, u, pc1, CLEAN, 4, digest);
    var (t2, pc2) := Step(t1, i, u, pc1, NoFault, digest);
    AloneIsOver(t2, i, u, pc2, CLEAN[5..], digest);
    if u.document in s.documents {
      assert t.sources - {i} == s.sources;
    }
  }

  /** With nothing in between and no fault, an upload is refused exactly when it is invalid, answered with the
      document that has its bytes exactly when there is one, accepted exactly when nothing stands in the way, and
      otherwise ends in a storage error; only an accepted one leaves anything behind, and then exactly its document,
      source and blob. */
  lemma UploadAnsweredExactlyWhen(s: Store, i: SourceId, u: Upload, digest: Bytes -> Hash)
    ensures var t, hash := Alone(s, i, u, Checking, CLEAN, digest).0, digest(u.data);
            var answer := AnswerAlone(s, i, u, digest);
            && (answer == InvalidFile <==> !u.valid)
            && (answer.AlreadyStored? <==> u.valid && KnownBytes(s, hash))
            && (answer.AlreadyStored? ==> answer.of in s.documents && s.documents[answer.of].hash == hash)
            && (answer == Accepted <==> Storable(s, i, u, digest))
            && answer != ConflictWithoutRow
            && (answer == Accepted ==> t == Uploaded(s, i, u, digest))
            && (answer != Accepted ==> t.documents == s.documents && t.sources == s.sources)
  {
    hide Alone, Find, Storable, KnownBytes, Uploaded;
    assert CLEAN[0..] == CLEAN;
    AloneNext(s, i, u, Checking, CLEAN, 0, digest);
    FindsKnown(s, digest(u.data));
    StorableIsValid(s, i, u, digest);
    if !u.valid {
      AloneIsOver(s, i, u, Done(Rejected), CLEAN[1..], digest);
    } else {
      AloneNext(s, i, u, Finding, CLEAN, 1, digest);
      if KnownBytes(s, digest(u.data)) {
        AloneIsOver(s, i, u, Done(Duplicate(Find(s.documents, digest(u.data)).value)), CLEAN[2..], digest);
      } else {
        CreatingLeaves(s, i, u, digest);
        FailureIsNoAnswer();
      }
    }
  }

  lemma StorableIsValid(s: Store, i: SourceId, u: Upload, digest: Bytes -> Hash)
    ensures Storable(s, i, u, digest) ==> u.valid && !KnownBytes(s, digest(u.data))
  {
  }

  lemma FailureIsNoAnswer()
    ensures AnswerOf(Stored) == Accepted
  {
  }

  /** In every interleaving with faults and crashes: an accepted upload has stored a document with its bytes, one
      answered with a document has one with its bytes there, and no upload is told of a conflict without a row. */
  lemma AnswersAreTrue(trace: seq<Action>, i: SourceId, digest: Bytes -> Hash)
    requires i in After(trace, digest).uploads && After(trace, digest).uploads[i].pc.Done?
    ensures var sys := After(trace, digest);
            var answer, u, docs := AnswerOf(sys.uploads[i].pc.outcome), sys.uploads[i].upload, sys.store.documents;
            && (answer == Accepted ==>
                  && i in sys.store.sources && sys.store.sources[i].hash == digest(u.data)
                  && exists d :: d in docs && docs[d].source == i && docs[d].hash == digest(u.data))
            && (answer.AlreadyStored? ==> answer.of in docs && docs[answer.of].hash == digest(u.data))
            && answer != ConflictWithoutRow
  {
    Reachable(trace, digest);
    var sys := After(trace, digest);
    assert Agrees(sys.store, i, sys.uploads[i].upload, sys.uploads[i].pc, digest);
    if AnswerOf(sys.uploads[i].pc.outcome) == Accepted {
      var d :| Names(sys.store.documents, d, i);
    }
  }

  // ---- The transactions' replies

  /** A source is created exactly for new ids and nonempty bytes; empty bytes are an error of the value, a known id
      one of the store. */
  lemma CreationRepliesExactlyWhen(s: Store, i: SourceId, data: Bytes, digest: Bytes -> Hash)
    ensures var reply := CreateSource(s, i, data, digest).1;
            && (reply == ValueError <==> data == [])
            && (reply == StorageError <==> data != [] && i in s.sources)
            && (reply.Value? <==> data != [] && i !in s.sources)
  {
  }

  /** A document is inserted exactly when its hash and its id are new; a known hash is reported, a known id alone is an
      error of the store. */
  lemma InsertionRepliesExactlyWhen(s: Store, d: DocumentId, document: Document)
    ensures var (t, reply) := StoreDocument(s, d, document);
            && (reply == Value(false) <==> KnownBytes(s, document.hash))
            && (reply == StorageError <==> !KnownBytes(s, document.hash) && d in s.documents)
            && (reply == Value(true) <==> !KnownBytes(s, document.hash) && d !in s.documents)
            && reply != ValueError
            && t == if reply == Value(true) then s.(documents := s.documents[d := document]) else s
  {
    if KnownBytes(s, document.hash) {
      var other :| other in s.documents && s.documents[other].hash == document.hash;
      assert HasHash(s.documents, other, document.hash);
    }
  }

  /** An upload whose process died stays where it was. */
  lemma {:induction false} CrashedStaysPut(trace: seq<Action>, cut: nat, i: SourceId, digest: Bytes -> Hash)
    requires cut < |trace| && trace[cut] == Crash(i) && i in After(trace[..cut], digest).uploads
    ensures i in After(trace, digest).uploads
    ensures After(trace, digest).uploads[i] == After(trace[..cut], digest).uploads[i].(alive := false)
  {
    hide Step;
    var front := trace[..|trace| - 1];
    if cut == |front| {
      assert trace[..cut] == front;
    } else {
      assert front[..cut] == trace[..cut];
      CrashedStaysPut(front, cut, i, digest);
    }
  }

  /** A failing call ends the upload in a storage error, except that a failure to store first removes the source and a
      failure to update the status is only logged; an upload that lost the race is answered with the winner. */
  lemma UploadFaultsLead(s: Store, i: SourceId, u: Upload, pc: Pc, fault: Fault, digest: Bytes -> Hash)
    requires !pc.Done? && pc != Checking
    ensures var next := Step(s, i, u, pc, fault, digest).1;
            && (fault != NoFault && pc in {Finding, Creating, Refinding} ==>
                  next.Done? && AnswerOf(next.outcome) == PersistenceError)
            && (fault != NoFault && pc.Removing? ==> next.Done? && AnswerOf(next.outcome) == PersistenceError)
            && (fault != NoFault && pc == Storing ==> next.Removing? && next.reason != LostRace)
            && (pc == Settling ==> next.Done? && AnswerOf(next.outcome) == Accepted)
            && (fault == NoFault && pc == Removing(LostRace) ==> next == Refinding)
            && (fault == NoFault && pc == Refinding && KnownBytes(s, digest(u.data)) ==>
                  next.Done? && AnswerOf(next.outcome).AlreadyStored? &&
                  AnswerOf(next.outcome).of in s.documents &&
                  s.documents[AnswerOf(next.outcome).of].hash == digest(u.data))
  {
    hide CreateSource, StoreDocument, DeleteSource, SetSourceStatus, Find;
    FindsKnown(s, digest(u.data));
  }
}
