/** Uploading files: documents deduplicated by content hash, sources, and the blobs sources share. Each
    transaction is a function on the store value and a method that carries it out in place. */
module Ingest {
  import opened Common

  type DocumentId = string
  type Hash = string
  type Bytes = seq<int>

  /** A source id is a fresh uuid: the number of the upload that made it. */
  type SourceId = nat

  datatype Document = Document(hash: Hash, source: SourceId, status: string, chunks: nat)

  datatype Source = Source(hash: Hash, status: string)

  type Documents = map<DocumentId, Document>

  datatype Store = Store(documents: Documents, sources: map<SourceId, Source>, blobs: map<Hash, Bytes>)

  const EMPTY_STORE := Store(map[], map[], map[])

  // ---- Transactions

  predicate HasHash(docs: Documents, d: DocumentId, hash: Hash) {
    d in docs && docs[d].hash == hash
  }

  /** The unique index documents_file_hash_key. */
  ghost predicate OnePerHash(docs: Documents) {
    forall a, b :: a in docs && HasHash(docs, b, docs[a].hash) ==> a == b
  }

  ghost function Find(docs: Documents, hash: Hash): Option<DocumentId> {
    if exists d :: HasHash(docs, d, hash) then
      var d :| HasHash(docs, d, hash);
      Some(d)
    else None
  }

  /** The blob is inserted unless its key exists; the source row names it. */
  function CreateSource(s: Store, id: SourceId, data: Bytes, digest: Bytes -> Hash): (Store, Reply<()>) {
    if data == [] then (s, ValueError)
    else if id in s.sources then (s, StorageError)
    else
      var hash := digest(data);
      (s.(blobs := if hash in s.blobs then s.blobs else s.blobs[hash := data],
          sources := s.sources[id := Source(hash, "pending")]),
       Value(()))
  }

  predicate Referenced(sources: map<SourceId, Source>, hash: Hash) {
    exists id :: id in sources && sources[id].hash == hash
  }

  /** The source goes, and its blob with it when no other source shares it. */
  function DeleteSource(s: Store, id: SourceId): Store {
    if id !in s.sources then s
    else
      var hash, rest := s.sources[id].hash, s.sources - {id};
      s.(sources := rest, blobs := if Referenced(rest, hash) then s.blobs else s.blobs - {hash})
  }

  /** A row with the hash wins over the insert; a clash of document ids is an error. */
  function StoreDocument(s: Store, d: DocumentId, document: Document): (Store, Reply<bool>) {
    if exists other :: other in s.documents && HasHash(s.documents, other, document.hash) then (s, Value(false))
    else if d in s.documents then (s, StorageError)
    else (s.(documents := s.documents[d := document]), Value(true))
  }

  function SetSourceStatus(s: Store, id: SourceId, status: string): Store {
    if id in s.sources then s.(sources := s.sources[id := s.sources[id].(status := status)]) else s
  }

  // ---- One upload

  /** What an upload brings: the document id, the bytes, whether they pass validation, and what extraction makes
      of them. */
  datatype Upload = Upload(document: DocumentId, data: Bytes, valid: bool, status: string, chunks: nat)

  /** Why a source is being removed: another upload won, or storing failed before or after its commit. */
  datatype Reason = LostRace | BeforeCommit | AfterCommit

  datatype Outcome =
    | Rejected
    | Duplicate(of: DocumentId)
    | Stored
    | Failed
    | CreateFailed(created: bool)
    | RemovedAfter(reason: Reason)
    | RemovalFailed(reason: Reason, removed: bool)
    | NoExistingRow

  /** What the caller of ingest_document gets. */
  datatype Answer = InvalidFile | AlreadyStored(of: DocumentId) | Accepted | PersistenceError | ConflictWithoutRow

  function AnswerOf(outcome: Outcome): Answer {
    match outcome
    case Rejected => InvalidFile
    case Duplicate(d) => AlreadyStored(d)
    case Stored => Accepted
    case NoExistingRow => ConflictWithoutRow
    case _ => PersistenceError
  }

  /** Where ingest_document stands. */
  datatype Pc = Checking | Finding | Creating | Storing | Removing(reason: Reason) | Refinding | Settling
              | Done(outcome: Outcome)

  function RowOf(u: Upload, i: SourceId, digest: Bytes -> Hash): Document {
    Document(digest(u.data), i, u.status, u.chunks)
  }

  /** The store after a transaction that may have been rolled back. */
  function Settle(fault: Fault, before: Store, after: Store): Store {
    if fault.RolledBack? then before else after
  }

  /** The next statement of ingest_document. */
  ghost function Step(s: Store, i: SourceId, u: Upload, pc: Pc, fault: Fault, digest: Bytes -> Hash): (Store, Pc) {
    match pc
    case Checking => (s, if u.valid then Finding else Done(Rejected))
    case Finding =>
      (s, if !fault.NoFault? then Done(Failed)
          else match Find(s.documents, digest(u.data)) case Some(d) => Done(Duplicate(d)) case None => Creating)
    case Creating =>
      var (t, reply) := CreateSource(s, i, u.data, digest);
      (Settle(fault, s, t),
       if Seen(fault, reply).Value? then Storing else Done(CreateFailed(fault.ReplyLost? && reply.Value?)))
    case Storing =>
      var (t, reply) := StoreDocument(s, u.document, RowOf(u, i, digest));
      (Settle(fault, s, t),
       match Seen(fault, reply)
       case Value(stored) => if stored then Settling else Removing(LostRace)
       case _ => Removing(if fault.ReplyLost? && reply == Value(true) then AfterCommit else BeforeCommit))
    case Removing(reason) =>
      (Settle(fault, s, DeleteSource(s, i)),
       if !fault.NoFault? then Done(RemovalFailed(reason, fault.ReplyLost?))
       else if reason.LostRace? then Refinding
       else Done(RemovedAfter(reason)))
    case Refinding =>
      (s, if !fault.NoFault? then Done(Failed)
          else match Find(s.documents, digest(u.data))
               case Some(d) => Done(Duplicate(d))
               case None => Done(NoExistingRow))
    case Settling => (Settle(fault, s, SetSourceStatus(s, i, u.status)), Done(Stored))
    case Done(_) => (s, pc)
  }

  // ---- All uploads

  datatype Handler = Handler(upload: Upload, pc: Pc, alive: bool)

  datatype Sys = Sys(store: Store, uploads: map<SourceId, Handler>)

  /** An upload arrives, takes its next step with or without a storage fault, or its process dies. */
  datatype Action = Arrive(i: SourceId, upload: Upload) | Act(i: SourceId, fault: Fault) | Crash(i: SourceId)

  ghost function Next(sys: Sys, a: Action, digest: Bytes -> Hash): Sys {
    match a
    case Arrive(i, u) => if i in sys.uploads then sys else sys.(uploads := sys.uploads[i := Handler(u, Checking, true)])
    case Crash(i) =>
      if i !in sys.uploads then sys else sys.(uploads := sys.uploads[i := sys.uploads[i].(alive := false)])
    case Act(i, fault) =>
      if i !in sys.uploads || !sys.uploads[i].alive then sys
      else
        var h := sys.uploads[i];
        var (store, pc) := Step(sys.store, i, h.upload, h.pc, fault, digest);
        Sys(store, sys.uploads[i := h.(pc := pc)])
  }

  ghost function After(trace: seq<Action>, digest: Bytes -> Hash): Sys {
    if trace == [] then Sys(EMPTY_STORE, map[])
    else Next(After(trace[..|trace| - 1], digest), trace[|trace| - 1], digest)
  }

  // ---- What holds throughout

  /** The upload's source row exists. */
  predicate HoldsSource(pc: Pc) {
    match pc
    case Storing => true
    case Settling => true
    case Removing(_) => true
    case Done(Stored) => true
    case Done(CreateFailed(created)) => created
    case Done(RemovalFailed(_, removed)) => !removed
    case _ => false
  }

  /** A document naming the upload's source exists. */
  predicate HasDocument(pc: Pc) {
    match pc
    case Settling => true
    case Done(Stored) => true
    case Removing(reason) => reason.AfterCommit?
    case Done(RemovedAfter(reason)) => reason.AfterCommit?
    case Done(RemovalFailed(reason, _)) => reason.AfterCommit?
    case _ => false
  }

  /** Another upload of the same bytes is known to have won. */
  predicate KnowsWinner(pc: Pc) {
    match pc
    case Removing(reason) => reason.LostRace?
    case Refinding => true
    case _ => false
  }

  ghost predicate Names(docs: Documents, d: DocumentId, i: SourceId) {
    d in docs && docs[d].source == i
  }

  ghost predicate Named(docs: Documents, i: SourceId) {
    exists d :: Names(docs, d, i)
  }

  ghost predicate Taken(docs: Documents, hash: Hash) {
    exists d :: HasHash(docs, d, hash)
  }

  /** The store agrees with how far one upload has got. */
  ghost predicate Agrees(s: Store, i: SourceId, u: Upload, pc: Pc, digest: Bytes -> Hash) {
    && (i in s.sources <==> HoldsSource(pc))
    && (i in s.sources ==> s.sources[i].hash == digest(u.data))
    && (Named(s.documents, i) <==> HasDocument(pc))
    && (forall d :: Names(s.documents, d, i) ==> s.documents[d].hash == digest(u.data))
    && (KnowsWinner(pc) ==> Taken(s.documents, digest(u.data)))
    && (pc.Done? && pc.outcome.Duplicate? ==> HasHash(s.documents, pc.outcome.of, digest(u.data)))
    && pc != Done(NoExistingRow)
  }

  /** Documents do not share sources. */
  ghost predicate SourcesUnshared(docs: Documents) {
    forall a, b :: a in docs && Names(docs, b, docs[a].source) ==> a == b
  }

  /** The blobs are exactly those the sources reference, each stored under its own hash. */
  ghost predicate BlobsMatch(s: Store, digest: Bytes -> Hash) {
    && (forall hash :: hash in s.blobs <==> Referenced(s.sources, hash))
    && (forall hash :: hash in s.blobs ==> digest(s.blobs[hash]) == hash)
  }

  ghost predicate Inv(sys: Sys, digest: Bytes -> Hash) {
    && OnePerHash(sys.store.documents) && SourcesUnshared(sys.store.documents) && BlobsMatch(sys.store, digest)
    && (forall i :: i in sys.uploads ==> Agrees(sys.store, i, sys.uploads[i].upload, sys.uploads[i].pc, digest))
    && (forall i :: i !in sys.uploads ==> i !in sys.store.sources && !Named(sys.store.documents, i))
  }

  // ---- One transaction of upload i

  /** Only upload i's source and documents naming it may change, and no document goes. */
  ghost predicate OnlyTouches(s: Store, t: Store, i: SourceId) {
    && (forall j :: j != i ==> (j in t.sources <==> j in s.sources))
    && (forall j :: j != i && j in s.sources ==> t.sources[j] == s.sources[j])
    && (forall d :: d in s.documents ==> d in t.documents && t.documents[d] == s.documents[d])
    && (forall d :: d in t.documents && d !in s.documents ==> t.documents[d].source == i)
  }

  ghost predicate GoodStore(s: Store, digest: Bytes -> Hash) {
    OnePerHash(s.documents) && SourcesUnshared(s.documents) && BlobsMatch(s, digest)
  }

  lemma CreateKeeps(s: Store, i: SourceId, data: Bytes, digest: Bytes -> Hash)
    requires GoodStore(s, digest)
    ensures var t := CreateSource(s, i, data, digest).0; OnlyTouches(s, t, i) && GoodStore(t, digest)
  {
    var t := CreateSource(s, i, data, digest).0;
    if data != [] && i !in s.sources {
      forall hash ensures hash in t.blobs <==> Referenced(t.sources, hash) {
        if Referenced(s.sources, hash) {
          var id :| id in s.sources && s.sources[id].hash == hash;
          assert t.sources[id].hash == hash;
        }
        assert t.sources[i].hash == digest(data);
        if Referenced(t.sources, hash) {
          var id :| id in t.sources && t.sources[id].hash == hash;
          assert id == i || (id in s.sources && s.sources[id].hash == hash);
        }
      }
    }
  }

  lemma DeleteKeeps(s: Store, i: SourceId, digest: Bytes -> Hash)
    requires GoodStore(s, digest)
    ensures var t := DeleteSource(s, i);
            OnlyTouches(s, t, i) && GoodStore(t, digest) && i !in t.sources && t.documents == s.documents
  {
    var t := DeleteSource(s, i);
    if i in s.sources {
      forall hash ensures hash in t.blobs <==> Referenced(t.sources, hash) {
        if Referenced(t.sources, hash) {
          var id :| id in t.sources && t.sources[id].hash == hash;
          assert s.sources[id].hash == hash;
          assert Referenced(s.sources, hash);
        }
        if Referenced(s.sources, hash) && hash != s.sources[i].hash {
          var id :| id in s.sources && s.sources[id].hash == hash;
          assert t.sources[id].hash == hash;
        }
      }
    }
  }

  lemma StoreKeeps(s: Store, d: DocumentId, document: Document, digest: Bytes -> Hash)
    requires GoodStore(s, digest) && !Named(s.documents, document.source)
    ensures var t := StoreDocument(s, d, document).0;
            OnlyTouches(s, t, document.source) && GoodStore(t, digest) && t.sources == s.sources
  {
    var (t, reply) := StoreDocument(s, d, document);
    if reply == Value(true) {
      forall a, b | a in t.documents && HasHash(t.documents, b, t.documents[a].hash) ensures a == b {
        assert a != d && b != d ==> HasHash(s.documents, b, s.documents[a].hash);
        assert a == d ==> b == d || HasHash(s.documents, b, document.hash);
        assert b == d ==> a == d || HasHash(s.documents, a, document.hash);
      }
      forall a, b | a in t.documents && Names(t.documents, b, t.documents[a].source) ensures a == b {
        assert a != d && b != d ==> Names(s.documents, b, s.documents[a].source);
        assert a == d ==> b == d || Names(s.documents, b, document.source);
        assert b == d ==> a == d || Names(s.documents, a, document.source);
      }
    }
  }

  lemma StatusKeeps(s: Store, i: SourceId, status: string, digest: Bytes -> Hash)
    requires GoodStore(s, digest)
    ensures var t := SetSourceStatus(s, i, status);
            OnlyTouches(s, t, i) && GoodStore(t, digest) && t.documents == s.documents &&
            (i in t.sources <==> i in s.sources) && (i in s.sources ==> t.sources[i].hash == s.sources[i].hash)
  {
    var t := SetSourceStatus(s, i, status);
    forall hash ensures Referenced(t.sources, hash) <==> Referenced(s.sources, hash) {
      if Referenced(s.sources, hash) {
        var id :| id in s.sources && s.sources[id].hash == hash;
        assert t.sources[id].hash == hash;
      }
      if Referenced(t.sources, hash) {
        var id :| id in t.sources && t.sources[id].hash == hash;
        assert s.sources[id].hash == hash;
      }
    }
  }

  // ---- One step of upload i

  lemma StepKeepsStore(s: Store, i: SourceId, u: Upload, pc: Pc, fault: Fault, digest: Bytes -> Hash)
    requires GoodStore(s, digest) && Agrees(s, i, u, pc, digest)
    ensures var t := Step(s, i, u, pc, fault, digest).0; OnlyTouches(s, t, i) && GoodStore(t, digest)
  {
    hide GoodStore, CreateSource, DeleteSource, StoreDocument, SetSourceStatus;
    assert OnlyTouches(s, s, i);
    match pc
    case Creating => CreateKeeps(s, i, u.data, digest);
    case Removing(_) => DeleteKeeps(s, i, digest);
    case Settling => StatusKeeps(s, i, u.status, digest);
    case Storing => StoreKeeps(s, u.document, RowOf(u, i, digest), digest);
    case _ =>
  }

  lemma AgreesAfterLookup(s: Store, i: SourceId, u: Upload, pc: Pc, fault: Fault, digest: Bytes -> Hash)
    requires Agrees(s, i, u, pc, digest) && (pc.Checking? || pc.Finding? || pc.Refinding? || pc.Done?)
    ensures var (t, next) := Step(s, i, u, pc, fault, digest); Agrees(t, i, u, next, digest)
  {
    if pc.Refinding? {
      var d :| HasHash(s.documents, d, digest(u.data));
    }
  }

  lemma AgreesAfterCreate(s: Store, i: SourceId, u: Upload, fault: Fault, digest: Bytes -> Hash)
    requires Agrees(s, i, u, Creating, digest)
    ensures var (t, next) := Step(s, i, u, Creating, fault, digest); Agrees(t, i, u, next, digest)
  {
  }

  lemma AgreesAfterRemove(s: Store, i: SourceId, u: Upload, reason: Reason, fault: Fault, digest: Bytes -> Hash)
    requires GoodStore(s, digest) && Agrees(s, i, u, Removing(reason), digest)
    ensures var (t, next) := Step(s, i, u, Removing(reason), fault, digest); Agrees(t, i, u, next, digest)
  {
    hide GoodStore, DeleteSource, Named, Taken;
    DeleteKeeps(s, i, digest);
  }

  lemma AgreesAfterSettle(s: Store, i: SourceId, u: Upload, fault: Fault, digest: Bytes -> Hash)
    requires GoodStore(s, digest) && Agrees(s, i, u, Settling, digest)
    ensures var (t, next) := Step(s, i, u, Settling, fault, digest); Agrees(t, i, u, next, digest)
  {
    hide GoodStore, SetSourceStatus, Named, Taken;
    StatusKeeps(s, i, u.status, digest);
  }

  lemma AgreesAfterStore(s: Store, i: SourceId, u: Upload, fault: Fault, digest: Bytes -> Hash)
    requires Agrees(s, i, u, Storing, digest)
    ensures var (t, next) := Step(s, i, u, Storing, fault, digest); Agrees(t, i, u, next, digest)
  {
    var (t, reply) := StoreDocument(s, u.document, RowOf(u, i, digest));
    if reply == Value(false) {
      var other :| other in s.documents && HasHash(s.documents, other, digest(u.data));
      assert Taken(s.documents, digest(u.data));
    } else if reply == Value(true) {
      assert Names(t.documents, u.document, i);
      forall d | Names(t.documents, d, i) ensures d == u.document {
        assert d != u.document ==> Names(s.documents, d, i);
      }
    }
  }

  lemma StepAgrees(s: Store, i: SourceId, u: Upload, pc: Pc, fault: Fault, digest: Bytes -> Hash)
    requires GoodStore(s, digest) && Agrees(s, i, u, pc, digest)
    ensures var (t, next) := Step(s, i, u, pc, fault, digest); Agrees(t, i, u, next, digest)
  {
    hide *;
    match pc
    case Creating => AgreesAfterCreate(s, i, u, fault, digest);
    case Storing => AgreesAfterStore(s, i, u, fault, digest);
    case Removing(reason) => AgreesAfterRemove(s, i, u, reason, fault, digest);
    case Settling => AgreesAfterSettle(s, i, u, fault, digest);
    case _ => AgreesAfterLookup(s, i, u, pc, fault, digest);
  }

  /** Another upload's progress is not disturbed. */
  lemma OthersAgree(s: Store, t: Store, i: SourceId, j: SourceId, u: Upload, pc: Pc, digest: Bytes -> Hash)
    requires OnlyTouches(s, t, i) && i != j && Agrees(s, j, u, pc, digest)
    ensures Agrees(t, j, u, pc, digest)
  {
    NamedStays(s, t, i, j);
    if KnowsWinner(pc) {
      var d :| HasHash(s.documents, d, digest(u.data));
      assert HasHash(t.documents, d, digest(u.data));
    }
  }

  lemma NamedStays(s: Store, t: Store, i: SourceId, j: SourceId)
    requires OnlyTouches(s, t, i) && i != j
    ensures Named(s.documents, j) <==> Named(t.documents, j)
    ensures forall d :: Names(t.documents, d, j) ==> Names(s.documents, d, j)
  {
    if Named(s.documents, j) {
      var d :| Names(s.documents, d, j);
      assert Names(t.documents, d, j);
    }
    forall d | Names(t.documents, d, j) ensures Names(s.documents, d, j) {
    }
  }

  lemma ActKeepsInv(sys: Sys, i: SourceId, fault: Fault, digest: Bytes -> Hash)
    requires Inv(sys, digest) && i in sys.uploads
    ensures Inv(Next(sys, Act(i, fault), digest), digest)
  {
    hide Step, Agrees, OnePerHash, SourcesUnshared, BlobsMatch, OnlyTouches, Named;
    var h, s := sys.uploads[i], sys.store;
    assert GoodStore(s, digest);
    StepKeepsStore(s, i, h.upload, h.pc, fault, digest);
    StepAgrees(s, i, h.upload, h.pc, fault, digest);
    var t := Step(s, i, h.upload, h.pc, fault, digest).0;
    forall j | j in sys.uploads && j != i
      ensures Agrees(t, j, sys.uploads[j].upload, sys.uploads[j].pc, digest)
    {
      OthersAgree(s, t, i, j, sys.uploads[j].upload, sys.uploads[j].pc, digest);
    }
    forall j | j !in sys.uploads ensures j !in t.sources && !Named(t.documents, j) {
      NamedStays(s, t, i, j);
      StillAbsent(s, t, i, j);
    }
  }

  lemma StillAbsent(s: Store, t: Store, i: SourceId, j: SourceId)
    requires OnlyTouches(s, t, i) && i != j && j !in s.sources
    ensures j !in t.sources
  {
  }

  lemma ArriveAgrees(s: Store, i: SourceId, u: Upload, digest: Bytes -> Hash)
    requires i !in s.sources && !Named(s.documents, i)
    ensures Agrees(s, i, u, Checking, digest)
  {
  }

  lemma {:induction false} Reachable(trace: seq<Action>, digest: Bytes -> Hash)
    ensures Inv(After(trace, digest), digest)
  {
    hide Step, Agrees, GoodStore;
    if trace == [] {
      StartsGood(digest);
    } else {
      var sys, a := After(trace[..|trace| - 1], digest), trace[|trace| - 1];
      Reachable(trace[..|trace| - 1], digest);
      match a
      case Arrive(i, u) =>
        if i !in sys.uploads {
          ArriveAgrees(sys.store, i, u, digest);
        }
      case Crash(i) =>
      case Act(i, fault) =>
        if i in sys.uploads {
          ActKeepsInv(sys, i, fault, digest);
        }
    }
  }

  lemma StartsGood(digest: Bytes -> Hash)
    ensures Inv(Sys(EMPTY_STORE, map[]), digest)
  {
  }

  // ---- Results over every run

  /** At no time do two documents share a hash, and the error for a conflict without a row is never raised. */
  lemma HashesStayUnique(trace: seq<Action>, digest: Bytes -> Hash)
    ensures var sys := After(trace, digest);
            && OnePerHash(sys.store.documents)
            && (forall i :: i in sys.uploads ==> sys.uploads[i].pc != Done(NoExistingRow))
  {
    hide After;
    Reachable(trace, digest);
    var sys := After(trace, digest);
    forall i | i in sys.uploads ensures sys.uploads[i].pc != Done(NoExistingRow) {
      assert Agrees(sys.store, i, sys.uploads[i].upload, sys.uploads[i].pc, digest);
    }
  }

  /** Where one upload stands after a run; an upload that has not arrived stands nowhere. */
  ghost function PcOf(trace: seq<Action>, i: SourceId, digest: Bytes -> Hash): Option<Pc> {
    if i in After(trace, digest).uploads then Some(After(trace, digest).uploads[i].pc) else None
  }

  /** The action is upload i taking its next step in the state after `before`, with its process alive. */
  ghost predicate Acts(before: seq<Action>, a: Action, i: SourceId, digest: Bytes -> Hash) {
    && a.Act? && a.i == i && i in After(before, digest).uploads && After(before, digest).uploads[i].alive
  }

  /** Storing commits a document for upload i, and the reply is lost. */
  ghost predicate StoresUnheard(before: seq<Action>, a: Action, i: SourceId, digest: Bytes -> Hash) {
    && Acts(before, a, i, digest) && a.fault.ReplyLost? && PcOf(before, i, digest) == Some(Storing)
    && var sys := After(before, digest);
       var u := sys.uploads[i].upload;
       !Taken(sys.store.documents, digest(u.data)) && u.document !in sys.store.documents
  }

  /** Upload i's removal of its source commits. */
  ghost predicate RemovesSource(before: seq<Action>, a: Action, i: SourceId, digest: Bytes -> Hash) {
    && Acts(before, a, i, digest) && !a.fault.RolledBack?
    && PcOf(before, i, digest).Some? && PcOf(before, i, digest).value.Removing?
  }

  ghost predicate StoredUnheard(trace: seq<Action>, i: SourceId, digest: Bytes -> Hash) {
    exists k :: 0 <= k < |trace| && StoresUnheard(trace[..k], trace[k], i, digest)
  }

  ghost predicate RemovedSource(trace: seq<Action>, i: SourceId, digest: Bytes -> Hash) {
    exists k :: 0 <= k < |trace| && RemovesSource(trace[..k], trace[k], i, digest)
  }

  lemma StoredUnheardNext(trace: seq<Action>, i: SourceId, digest: Bytes -> Hash)
    requires trace != []
    ensures var front := trace[..|trace| - 1];
            StoredUnheard(trace, i, digest) <==>
            StoredUnheard(front, i, digest) || StoresUnheard(front, trace[|trace| - 1], i, digest)
  {
    hide StoresUnheard;
    var front := trace[..|trace| - 1];
    if StoredUnheard(front, i, digest) {
      var k :| 0 <= k < |front| && StoresUnheard(front[..k], front[k], i, digest);
      assert front[..k] == trace[..k];
      assert StoresUnheard(trace[..k], trace[k], i, digest);
    }
    if StoredUnheard(trace, i, digest) {
      var k :| 0 <= k < |trace| && StoresUnheard(trace[..k], trace[k], i, digest);
      if k < |front| {
        assert front[..k] == trace[..k];
      }
    }
  }

  lemma RemovedSourceNext(trace: seq<Action>, i: SourceId, digest: Bytes -> Hash)
    requires trace != []
    ensures var front := trace[..|trace| - 1];
            RemovedSource(trace, i, digest) <==>
            RemovedSource(front, i, digest) || RemovesSource(front, trace[|trace| - 1], i, digest)
  {
    hide RemovesSource;
    var front := trace[..|trace| - 1];
    if RemovedSource(front, i, digest) {
      var k :| 0 <= k < |front| && RemovesSource(front[..k], front[k], i, digest);
      assert front[..k] == trace[..k];
      assert RemovesSource(trace[..k], trace[k], i, digest);
    }
    if RemovedSource(trace, i, digest) {
      var k :| 0 <= k < |trace| && RemovesSource(trace[..k], trace[k], i, digest);
      if k < |front| {
        assert front[..k] == trace[..k];
      }
    }
  }

  /** Storing had committed when its reply was lost. */
  predicate Unheard(pc: Pc) {
    match pc
    case Removing(reason) => reason.AfterCommit?
    case Done(RemovedAfter(reason)) => reason.AfterCommit?
    case Done(RemovalFailed(reason, _)) => reason.AfterCommit?
    case _ => false
  }

  /** The removal of the source has committed. */
  predicate SourceRemoved(pc: Pc) {
    match pc
    case Refinding => true
    case Done(outcome) => outcome.RemovedAfter? || (outcome.RemovalFailed? && outcome.removed)
    case _ => false
  }

  /** What one step does to both facts; after a removal an upload may also end as a duplicate or a failed lookup. */
  lemma StepTells(s: Store, i: SourceId, u: Upload, pc: Pc, fault: Fault, digest: Bytes -> Hash)
    ensures var next := Step(s, i, u, pc, fault, digest).1;
            var inserts := !Taken(s.documents, digest(u.data)) && u.document !in s.documents;
            && (Unheard(next) <==> Unheard(pc) || (pc == Storing && fault.ReplyLost? && inserts))
            && (SourceRemoved(next) ==> SourceRemoved(pc) || (pc.Removing? && !fault.RolledBack?))
            && (pc.Removing? && !fault.RolledBack? ==> SourceRemoved(next))
            && (SourceRemoved(pc) && Unheard(pc) ==> next == pc)
  {
    if pc == Storing {
      assert Taken(s.documents, digest(u.data)) <==>
        exists d :: d in s.documents && HasHash(s.documents, d, digest(u.data)) by {
        if Taken(s.documents, digest(u.data)) {
          var d :| HasHash(s.documents, d, digest(u.data));
        }
      }
    }
  }

  /** An upload has reached a removal or passed it. */
  predicate PastStoring(pc: Pc) {
    pc.Removing? || pc.Refinding? || pc.Done?
  }

  lemma StepStaysPast(s: Store, i: SourceId, u: Upload, pc: Pc, fault: Fault, digest: Bytes -> Hash)
    requires PastStoring(pc)
    ensures PastStoring(Step(s, i, u, pc, fault, digest).1)
    ensures pc.Done? ==> Step(s, i, u, pc, fault, digest).1 == pc
    ensures !pc.Removing? ==> !Step(s, i, u, pc, fault, digest).1.Removing?
  {
  }

  /** Where upload i stands after one more action. */
  lemma PcNext(trace: seq<Action>, i: SourceId, digest: Bytes -> Hash)
    requires trace != []
    ensures var front, a := trace[..|trace| - 1], trace[|trace| - 1];
            PcOf(trace, i, digest) ==
            if Acts(front, a, i, digest) then
              var sys := After(front, digest);
              Some(Step(sys.store, i, sys.uploads[i].upload, sys.uploads[i].pc, a.fault, digest).1)
            else if PcOf(front, i, digest).None? && a.Arrive? && a.i == i then Some(Checking)
            else PcOf(front, i, digest)
  {
    hide Step;
  }

  /** Both facts about an upload, told from the run that led to it. */
  lemma {:induction false} RunTells(trace: seq<Action>, i: SourceId, digest: Bytes -> Hash)
    ensures var pc := PcOf(trace, i, digest);
            && (StoredUnheard(trace, i, digest) <==> pc.Some? && Unheard(pc.value))
            && (RemovedSource(trace, i, digest) ==> pc.Some? && PastStoring(pc.value) && !pc.value.Removing?)
            && (pc.Some? && SourceRemoved(pc.value) ==> RemovedSource(trace, i, digest))
            && (RemovedSource(trace, i, digest) && pc.Some? && Unheard(pc.value) ==> SourceRemoved(pc.value))
  {
    hide Step, After, StoredUnheard, RemovedSource, Unheard, SourceRemoved, PastStoring;
    if trace == [] {
      NothingTold(i, digest);
    } else {
      var front, a := trace[..|trace| - 1], trace[|trace| - 1];
      RunTells(front, i, digest);
      StoredUnheardNext(trace, i, digest);
      RemovedSourceNext(trace, i, digest);
      PcNext(trace, i, digest);
      if Acts(front, a, i, digest) {
        var sys := After(front, digest);
        var h := sys.uploads[i];
        StepTells(sys.store, i, h.upload, h.pc, a.fault, digest);
        PastFacts(sys.store, i, h.upload, h.pc, a.fault, digest);
      } else {
        CheckingFacts();
      }
    }
  }

  lemma NothingTold(i: SourceId, digest: Bytes -> Hash)
    ensures !StoredUnheard([], i, digest) && !RemovedSource([], i, digest) && PcOf([], i, digest) == None
  {
  }

  lemma CheckingFacts()
    ensures !Unheard(Checking) && !SourceRemoved(Checking)
  {
  }

  lemma PastFacts(s: Store, i: SourceId, u: Upload, pc: Pc, fault: Fault, digest: Bytes -> Hash)
    ensures var next := Step(s, i, u, pc, fault, digest).1;
            && (PastStoring(pc) && !pc.Removing? ==> PastStoring(next) && !next.Removing?)
            && (pc.Removing? ==> PastStoring(next) && !next.Removing?)
            && (PastStoring(pc) && Unheard(pc) && !pc.Removing? ==> next == pc)
            && (Unheard(next) && !Unheard(pc) ==> pc == Storing)
            && (pc == Storing ==> !PastStoring(pc))
  {
    if PastStoring(pc) {
      StepStaysPast(s, i, u, pc, fault, digest);
    }
  }

  /** A document's source is missing exactly when storing that document had committed with its reply lost and the
      removal of the source that followed committed too. */
  lemma NamedSourceIsGoneExactlyWhen(trace: seq<Action>, digest: Bytes -> Hash, d: DocumentId)
    requires d in After(trace, digest).store.documents
    ensures var store := After(trace, digest).store; var doc := store.documents[d];
            && doc.source in After(trace, digest).uploads
            && (doc.source !in store.sources <==>
                StoredUnheard(trace, doc.source, digest) && RemovedSource(trace, doc.source, digest))
            && (doc.source in store.sources ==> store.sources[doc.source].hash == doc.hash)
  {
    hide After, StoredUnheard, RemovedSource;
    Reachable(trace, digest);
    var sys := After(trace, digest);
    var i := sys.store.documents[d].source;
    assert Names(sys.store.documents, d, i);
    assert Agrees(sys.store, i, sys.uploads[i].upload, sys.uploads[i].pc, digest);
    RunTells(trace, i, digest);
  }

  predicate NoReplyLost(trace: seq<Action>) {
    forall k :: 0 <= k < |trace| && trace[k].Act? ==> !trace[k].fault.ReplyLost?
  }

  lemma NothingUnheard(trace: seq<Action>, digest: Bytes -> Hash, i: SourceId)
    requires NoReplyLost(trace)
    ensures !StoredUnheard(trace, i, digest)
  {
    hide After;
  }

  /** When storage errors mean rollback, no source a document names is ever deleted. */
  lemma NamedSourcesSurvive(trace: seq<Action>, digest: Bytes -> Hash, d: DocumentId)
    requires NoReplyLost(trace) && d in After(trace, digest).store.documents
    ensures var store := After(trace, digest).store; var doc := store.documents[d];
            doc.source in store.sources && store.sources[doc.source].hash == doc.hash
  {
    hide After, StoredUnheard;
    NamedSourceIsGoneExactlyWhen(trace, digest, d);
    NothingUnheard(trace, digest, After(trace, digest).store.documents[d].source);
  }

  /** Documents and sources correspond: each source is named by a document and each named source exists. */
  ghost predicate Correspond(s: Store) {
    forall i :: i in s.sources <==> Named(s.documents, i)
  }

  /** An upload whose source and document are both there or both not. */
  predicate Balanced(pc: Pc) { HoldsSource(pc) <==> HasDocument(pc) }

  /** They correspond exactly when no upload is between its two inserts or has left one of them behind. */
  lemma CorrespondExactlyWhenBalanced(trace: seq<Action>, digest: Bytes -> Hash)
    ensures var sys := After(trace, digest);
            Correspond(sys.store) <==> forall i :: i in sys.uploads ==> Balanced(sys.uploads[i].pc)
  {
    hide After, HoldsSource, HasDocument;
    Reachable(trace, digest);
    var sys := After(trace, digest);
    forall i ensures i in sys.uploads ==> ((i in sys.store.sources <==> Named(sys.store.documents, i)) <==>
                                           Balanced(sys.uploads[i].pc))
    {
      assert i in sys.uploads ==> Agrees(sys.store, i, sys.uploads[i].upload, sys.uploads[i].pc, digest);
    }
  }

  /** An upload that ended without a storage error. */
  predicate EndedWell(pc: Pc) {
    pc == Done(Rejected) || pc == Done(Stored) || (pc.Done? && pc.outcome.Duplicate?)
  }

  /** Once every upload has ended without a storage error: one source per document, and the blobs are exactly the
      documents' hashes. */
  lemma QuietStoreIsExact(trace: seq<Action>, digest: Bytes -> Hash)
    requires forall i :: i in After(trace, digest).uploads ==> EndedWell(After(trace, digest).uploads[i].pc)
    ensures var store := After(trace, digest).store;
            && Correspond(store) && SourcesUnshared(store.documents)
            && forall hash :: hash in store.blobs <==> Taken(store.documents, hash)
  {
    hide After;
    var sys := After(trace, digest);
    var s := sys.store;
    Reachable(trace, digest);
    CorrespondExactlyWhenBalanced(trace, digest);
    forall hash ensures hash in s.blobs <==> Taken(s.documents, hash) {
      BlobsOfDocuments(trace, digest, hash);
    }
  }

  lemma BlobsOfDocuments(trace: seq<Action>, digest: Bytes -> Hash, hash: Hash)
    requires Correspond(After(trace, digest).store)
    ensures var s := After(trace, digest).store; hash in s.blobs <==> Taken(s.documents, hash)
  {
    hide After;
    var sys := After(trace, digest);
    var s := sys.store;
    Reachable(trace, digest);
    if hash in s.blobs {
      var i :| i in s.sources && s.sources[i].hash == hash;
      var d :| Names(s.documents, d, i);
      assert Agrees(s, i, sys.uploads[i].upload, sys.uploads[i].pc, digest);
      assert HasHash(s.documents, d, hash);
    }
    if Taken(s.documents, hash) {
      var d :| HasHash(s.documents, d, hash);
      var i := s.documents[d].source;
      assert Names(s.documents, d, i);
      assert Agrees(s, i, sys.uploads[i].upload, sys.uploads[i].pc, digest);
    }
  }

  ghost predicate Injective(digest: Bytes -> Hash) {
    forall a, b :: digest(a) == digest(b) ==> a == b
  }

  /** Reading a source gives back the bytes its upload brought, even from a blob another upload wrote. */
  lemma SourcesReadBack(trace: seq<Action>, digest: Bytes -> Hash, i: SourceId)
    requires Injective(digest) && i in After(trace, digest).store.sources
    ensures var sys := After(trace, digest); var hash := sys.store.sources[i].hash;
            i in sys.uploads && hash in sys.store.blobs && sys.store.blobs[hash] == sys.uploads[i].upload.data
  {
    hide After;
    Reachable(trace, digest);
    var sys := After(trace, digest);
    assert Agrees(sys.store, i, sys.uploads[i].upload, sys.uploads[i].pc, digest);
    assert Referenced(sys.store.sources, sys.store.sources[i].hash);
  }

  /** An upload that ended well left exactly one document with the hash of its bytes. */
  lemma AcceptedBytesHaveOneDocument(trace: seq<Action>, digest: Bytes -> Hash, i: SourceId)
    requires i in After(trace, digest).uploads && EndedWell(After(trace, digest).uploads[i].pc)
    requires After(trace, digest).uploads[i].pc != Done(Rejected)
    ensures var sys := After(trace, digest); var hash := digest(sys.uploads[i].upload.data);
            exists d :: HasHash(sys.store.documents, d, hash) &&
                        forall other :: HasHash(sys.store.documents, other, hash) ==> other == d
  {
    hide After;
    Reachable(trace, digest);
    var sys := After(trace, digest);
    var h, docs := sys.uploads[i], sys.store.documents;
    var hash := digest(h.upload.data);
    assert Agrees(sys.store, i, h.upload, h.pc, digest);
    if h.pc == Done(Stored) {
      var d :| Names(docs, d, i);
      assert HasHash(docs, d, hash);
    } else {
      assert HasHash(docs, h.pc.outcome.of, hash);
    }
    var d :| HasHash(docs, d, hash);
    assert forall other :: HasHash(docs, other, docs[d].hash) ==> d == other;
  }

  // ---- The run in which a lost reply costs a document its source

  lemma FirstUploadStores(s: Store, i: SourceId, u: Upload, digest: Bytes -> Hash)
    requires s == EMPTY_STORE && u.valid && u.data != []
    ensures Step(s, i, u, Checking, NoFault, digest) == (s, Finding)
    ensures Step(s, i, u, Finding, NoFault, digest) == (s, Creating)
    ensures var (t, pc) := Step(s, i, u, Creating, NoFault, digest);
            pc == Storing && t.documents == map[] && i in t.sources
  {
  }

  lemma LostReplyStrips(s: Store, i: SourceId, u: Upload, digest: Bytes -> Hash)
    requires s.documents == map[] && i in s.sources
    ensures var (t, pc) := Step(s, i, u, Storing, ReplyLost, digest);
            pc == Removing(AfterCommit) && t.documents == map[u.document := RowOf(u, i, digest)] &&
            var (v, next) := Step(t, i, u, pc, NoFault, digest);
            v.documents == t.documents && i !in v.sources
  {
  }

  /** One upload whose committed store lost its reply ends with a document whose source is gone. */
  lemma LostReplyDeletesANamedSource(u: Upload, digest: Bytes -> Hash)
    requires u.valid && u.data != []
    ensures exists trace ::
              var store := After(trace, digest).store;
              u.document in store.documents && store.documents[u.document].source !in store.sources
  {
    hide Step;
    var start := [Arrive(0, u)];
    var ready := start + [Act(0, NoFault)] + [Act(0, NoFault)] + [Act(0, NoFault)];
    var trace := ready + [Act(0, ReplyLost)] + [Act(0, NoFault)];
    FirstUploadStores(EMPTY_STORE, 0, u, digest);
    AfterNext([], Arrive(0, u), digest);
    assert [] + [Arrive(0, u)] == start;
    AfterNext(start, Act(0, NoFault), digest);
    AfterNext(start + [Act(0, NoFault)], Act(0, NoFault), digest);
    AfterNext(start + [Act(0, NoFault)] + [Act(0, NoFault)], Act(0, NoFault), digest);
    var at := After(ready, digest);
    LostReplyStrips(at.store, 0, u, digest);
    AfterNext(ready, Act(0, ReplyLost), digest);
    AfterNext(ready + [Act(0, ReplyLost)], Act(0, NoFault), digest);
    var store := After(trace, digest).store;
    assert u.document in store.documents && store.documents[u.document].source !in store.sources;
  }

  lemma AfterNext(trace: seq<Action>, a: Action, digest: Bytes -> Hash)
    ensures After(trace + [a], digest) == Next(After(trace, digest), a, digest)
  {
    assert (trace + [a])[..|trace|] == trace;
  }

  // ---- One upload in place

  /** An upload run to its end with nothing in between, one fault per storage call. */
  ghost function Alone(s: Store, i: SourceId, u: Upload, pc: Pc, faults: seq<Fault>, digest: Bytes -> Hash): (Store, Pc)
    decreases |faults|
  {
    if pc.Done? || faults == [] then (s, pc)
    else
      var (t, next) := Step(s, i, u, pc, faults[0], digest);
      Alone(t, i, u, next, faults[1..], digest)
  }

  lemma AloneNext(s: Store, i: SourceId, u: Upload, pc: Pc, faults: seq<Fault>, n: nat, digest: Bytes -> Hash)
    requires n < |faults| && !pc.Done?
    ensures var (t, next) := Step(s, i, u, pc, faults[n], digest);
            Alone(s, i, u, pc, faults[n..], digest) == Alone(t, i, u, next, faults[n + 1..], digest)
  {
    assert faults[n..][1..] == faults[n + 1..];
  }

  lemma FindIs(docs: Documents, d: DocumentId, hash: Hash)
    requires OnePerHash(docs) && HasHash(docs, d, hash)
    ensures Find(docs, hash) == Some(d)
  {
  }

  class DocumentStore {
    var documents: map<DocumentId, Document>
    var sources: map<SourceId, Source>
    var blobs: map<Hash, Bytes>

    function State(): Store
      reads this
    {
      Store(documents, sources, blobs)
    }

    constructor ()
      ensures State() == EMPTY_STORE
    {
      documents, sources, blobs := map[], map[], map[];
    }

    method FindDocumentByHash(hash: Hash) returns (found: Option<DocumentId>)
      requires OnePerHash(documents)
      ensures found == Find(documents, hash)
    {
      if exists d :: d in documents && HasHash(documents, d, hash) {
        var d :| d in documents && HasHash(documents, d, hash);
        FindIs(documents, d, hash);
        return Some(d);
      }
      found := None;
    }

    /** Blob and source row in one transaction. */
    method CreateOriginalSource(id: SourceId, data: Bytes, digest: Bytes -> Hash, fault: Fault)
      returns (reply: Reply<()>)
      modifies this
      ensures var (after, answer) := CreateSource(old(State()), id, data, digest);
              State() == Settle(fault, old(State()), after) && reply == Seen(fault, answer)
    {
      if data == [] { return Seen(fault, ValueError); }
      if id in sources { return Seen(fault, StorageError); }
      var hash := digest(data);
      if fault != RolledBack {
        if hash !in blobs {
          blobs := blobs[hash := data];
        }
        sources := sources[id := Source(hash, "pending")];
      }
      reply := Seen(fault, Value(()));
    }

    method DeleteOriginalSource(id: SourceId, fault: Fault) returns (reply: Reply<()>)
      modifies this
      ensures State() == Settle(fault, old(State()), DeleteSource(old(State()), id)) && reply == Seen(fault, Value(()))
    {
      if id in sources && fault != RolledBack {
        var hash := sources[id].hash;
        sources := sources - {id};
        if !Referenced(sources, hash) {
          blobs := blobs - {hash};
        }
      }
      reply := Seen(fault, Value(()));
    }

    method InsertDocument(d: DocumentId, document: Document, fault: Fault) returns (reply: Reply<bool>)
      modifies this
      ensures var (after, answer) := StoreDocument(old(State()), d, document);
              State() == Settle(fault, old(State()), after) && reply == Seen(fault, answer)
    {
      if exists other :: other in documents && HasHash(documents, other, document.hash) {
        return Seen(fault, Value(false));
      }
      if d in documents { return Seen(fault, StorageError); }
      if fault != RolledBack {
        documents := documents[d := document];
      }
      reply := Seen(fault, Value(true));
    }

    method UpdateExtractionStatus(id: SourceId, status: string, fault: Fault)
      modifies this
      ensures State() == Settle(fault, old(State()), SetSourceStatus(old(State()), id, status))
    {
      if id in sources && fault != RolledBack {
        sources := sources[id := sources[id].(status := status)];
      }
    }

    /** ingest_document up to the status update that follows the commit of the document row; a fault surfaces as
        the storage error it raises, which removes the source again if storing the document raised it. */
    method IngestDocument(i: SourceId, u: Upload, faults: seq<Fault>, digest: Bytes -> Hash) returns (answer: Answer)
      requires |faults| == 6 && OnePerHash(documents)
      modifies this
      ensures var (t, pc) := Alone(old(State()), i, u, Checking, faults, digest);
              State() == t && pc.Done? && answer == AnswerOf(pc.outcome)
    {
      hide Find, CreateSource, OnePerHash;
      ghost var s := State();
      assert faults[0..] == faults;
      AloneNext(s, i, u, Checking, faults, 0, digest);
      if !u.valid { return InvalidFile; }
      AloneNext(s, i, u, Finding, faults, 1, digest);
      var existing := FindDocumentByHash(digest(u.data));
      if faults[1] != NoFault { return PersistenceError; }
      if existing.Some? { return AlreadyStored(existing.value); }
      AloneNext(s, i, u, Creating, faults, 2, digest);
      var created := CreateOriginalSource(i, u.data, digest, faults[2]);
      if !created.Value? { return PersistenceError; }
      CreateLeavesDocuments(s, i, u.data, digest);
      answer := StoreExtracted(i, u, faults, digest);
    }

    method StoreExtracted(i: SourceId, u: Upload, faults: seq<Fault>, digest: Bytes -> Hash) returns (answer: Answer)
      requires |faults| == 6 && OnePerHash(documents)
      modifies this
      ensures var (t, pc) := Alone(old(State()), i, u, Storing, faults[3..], digest);
              State() == t && pc.Done? && answer == AnswerOf(pc.outcome)
    {
      hide Find, StoreDocument, OnePerHash, DeleteSource, SetSourceStatus;
      ghost var s := State();
      AloneNext(s, i, u, Storing, faults, 3, digest);
      ghost var pc := Step(s, i, u, Storing, faults[3], digest).1;
      var stored := InsertDocument(u.document, RowOf(u, i, digest), faults[3]);
      ghost var t := State();
      if stored == Value(true) {
        AloneNext(t, i, u, pc, faults, 4, digest);
        UpdateExtractionStatus(i, u.status, faults[4]);
        return Accepted;
      }
      StoreRefusedLeavesDocuments(s, u.document, RowOf(u, i, digest));
      answer := RemoveUnnamed(i, u, stored.Value?, pc.reason, faults, digest);
    }

    /** Storing failed or lost the race: the source goes, and the winner's document is reported. */
    method RemoveUnnamed(i: SourceId, u: Upload, lost: bool, ghost reason: Reason, faults: seq<Fault>,
                         digest: Bytes -> Hash) returns (answer: Answer)
      requires |faults| == 6 && (lost ==> OnePerHash(documents)) && (lost <==> reason.LostRace?)
      modifies this
      ensures var (t, pc) := Alone(old(State()), i, u, Removing(reason), faults[4..], digest);
              State() == t && pc.Done? && answer == AnswerOf(pc.outcome)
    {
      hide Find, OnePerHash, DeleteSource;
      AloneNext(State(), i, u, Removing(reason), faults, 4, digest);
      DeleteLeavesDocuments(State(), i);
      var removed := DeleteOriginalSource(i, faults[4]);
      if !removed.Value? || !lost { return PersistenceError; }
      AloneNext(State(), i, u, Refinding, faults, 5, digest);
      var winner := FindDocumentByHash(digest(u.data));
      if faults[5] != NoFault { return PersistenceError; }
      answer := if winner.Some? then AlreadyStored(winner.value) else ConflictWithoutRow;
    }
  }

  lemma CreateLeavesDocuments(s: Store, i: SourceId, data: Bytes, digest: Bytes -> Hash)
    ensures CreateSource(s, i, data, digest).0.documents == s.documents
  {
  }

  lemma StoreRefusedLeavesDocuments(s: Store, d: DocumentId, document: Document)
    ensures StoreDocument(s, d, document).1 == Value(false) ==> StoreDocument(s, d, document).0 == s
  {
  }

  lemma DeleteLeavesDocuments(s: Store, i: SourceId)
    ensures DeleteSource(s, i).documents == s.documents
  {
  }
}
