/** Concurrent transactions appending to the audit chain under the transaction-scoped advisory lock,
    and what happens to the chain without it. */
module AuditTransactions {
  import opened Common
  import opened AuditChain

  /** Where a transaction stands inside _append_audit_event. */
  datatype TxPc = Idle | Locked | HeadRead(head: Option<Hash>) | Over

  /** `pending` are the events it has inserted and not committed. */
  datatype Tx = Tx(pc: TxPc, pending: seq<Event>)

  /** `committed` is kept in event_id order, as the queries read it; ids are never reused. */
  datatype Log = Log(committed: seq<Event>, nextId: nat, holder: Option<nat>, txs: map<nat, Tx>)

  datatype Step =
    | Begin(tx: nat)
    | Lock(tx: nat)
    | ReadHead(tx: nat)
    | Insert(tx: nat, payload: Payload)
    | Commit(tx: nat)
    | Abort(tx: nat)

  const EMPTY_LOG := Log([], 1, None, map[])

  /** A transaction reads committed events and its own. */
  function Visible(s: Log, tx: nat): seq<Event>
    requires tx in s.txs
  {
    s.committed + s.txs[tx].pending
  }

  function Put(s: Log, tx: nat, t: Tx): Log {
    s.(txs := s.txs[tx := t])
  }

  function Release(s: Log, tx: nat): Option<nat> {
    if s.holder == Some(tx) then None else s.holder
  }

  /** A step that the database would block or refuse leaves the state as it is. */
  function Next(digest: Digest, s: Log, step: Step): Log {
    match step
    case Begin(tx) =>
      if tx in s.txs then s else Put(s, tx, Tx(Idle, []))
    case Lock(tx) =>
      if tx in s.txs && s.txs[tx].pc == Idle && s.holder in {None, Some(tx)} then
        Put(s, tx, s.txs[tx].(pc := Locked)).(holder := Some(tx))
      else s
    case ReadHead(tx) =>
      if tx in s.txs && s.txs[tx].pc == Locked then
        Put(s, tx, s.txs[tx].(pc := HeadRead(Head(Visible(s, tx)))))
      else s
    case Insert(tx, payload) =>
      if tx in s.txs && s.txs[tx].pc.HeadRead? then
        var e := Link(digest, s.nextId, s.txs[tx].pc.head, payload);
        Put(s, tx, Tx(Idle, s.txs[tx].pending + [e])).(nextId := s.nextId + 1)
      else s
    case Commit(tx) =>
      if tx in s.txs && s.txs[tx].pc == Idle then
        Put(s, tx, Tx(Over, [])).(committed := s.committed + s.txs[tx].pending, holder := Release(s, tx))
      else s
    case Abort(tx) =>
      if tx in s.txs && s.txs[tx].pc != Over then
        Put(s, tx, Tx(Over, [])).(holder := Release(s, tx))
      else s
  }

  function After(digest: Digest, steps: seq<Step>): Log {
    if steps == [] then EMPTY_LOG
    else Next(digest, After(digest, steps[..|steps| - 1]), steps[|steps| - 1])
  }

  ghost predicate IdsBelow(events: seq<Event>, id: nat) {
    forall i :: 0 <= i < |events| ==> events[i].id < id
  }

  /** What holds of one transaction: only the lock holder has anything in flight, what it sees is a
      chain, and a head it has read is still the head. */
  ghost predicate TxOk(digest: Digest, s: Log, tx: nat)
    requires tx in s.txs
  {
    var t, seen := s.txs[tx], Visible(s, tx);
    && (t.pending != [] || t.pc == Locked || t.pc.HeadRead? ==> s.holder == Some(tx))
    && ChainFrom(digest, None, seen) && IdsBelow(seen, s.nextId)
    && (t.pc.HeadRead? ==> t.pc.head == Head(seen))
  }

  ghost predicate Inv(digest: Digest, s: Log) {
    && ChainFrom(digest, None, s.committed) && IdsBelow(s.committed, s.nextId)
    && forall tx :: tx in s.txs ==> TxOk(digest, s, tx)
  }

  /** A transaction the step leaves alone stays in order while the committed events do. */
  lemma BystanderOk(digest: Digest, s: Log, s': Log, tx: nat)
    requires tx in s.txs && TxOk(digest, s, tx) && tx in s'.txs && s'.txs[tx] == s.txs[tx]
    requires s'.committed == s.committed && s'.nextId >= s.nextId
    requires s'.holder == s.holder || s.holder != Some(tx)
    ensures TxOk(digest, s', tx)
  {
    hide ChainFrom;
    assert Visible(s', tx) == Visible(s, tx);
  }

  lemma OwnStepKeepsInv(digest: Digest, s: Log, s': Log, tx: nat)
    requires Inv(digest, s) && s'.txs.Keys == s.txs.Keys + {tx} && TxOk(digest, s', tx)
    requires forall t :: t in s.txs && t != tx ==> s'.txs[t] == s.txs[t]
    requires s'.committed == s.committed && s'.nextId >= s.nextId
    requires s'.holder == s.holder || s.holder in {None, Some(tx)}
    ensures Inv(digest, s')
  {
    hide ChainFrom, TxOk;
    forall t | t in s'.txs ensures TxOk(digest, s', t) {
      if t != tx {
        BystanderOk(digest, s, s', t);
      }
    }
  }

  lemma InsertKeepsInv(digest: Digest, s: Log, tx: nat, payload: Payload)
    requires Inv(digest, s) && tx in s.txs && s.txs[tx].pc.HeadRead?
    ensures Inv(digest, Next(digest, s, Insert(tx, payload)))
  {
    hide ChainFrom;
    var s' := Next(digest, s, Insert(tx, payload));
    assert TxOk(digest, s, tx);
    AppendExtendsChain(digest, None, Visible(s, tx), s.nextId, payload);
    assert Visible(s', tx) == Visible(s, tx) + [Link(digest, s.nextId, s.txs[tx].pc.head, payload)];
    OwnStepKeepsInv(digest, s, s', tx);
  }

  lemma CommitKeepsInv(digest: Digest, s: Log, tx: nat)
    requires Inv(digest, s) && tx in s.txs && s.txs[tx].pc == Idle
    ensures Inv(digest, Next(digest, s, Commit(tx)))
  {
    hide ChainFrom;
    var s' := Next(digest, s, Commit(tx));
    assert TxOk(digest, s, tx);
    assert s'.committed == Visible(s, tx);
    forall t | t in s'.txs ensures TxOk(digest, s', t) {
      if t == tx {
        assert Visible(s', tx) == s'.committed;
      } else {
        assert TxOk(digest, s, t);
        if s.txs[tx].pending == [] {
          assert s'.committed == s.committed && Visible(s', t) == Visible(s, t);
        } else {
          assert Visible(s', t) == s'.committed;
        }
      }
    }
  }

  /** Steps that insert and commit nothing. */
  lemma QuietStepKeepsInv(digest: Digest, s: Log, step: Step)
    requires Inv(digest, s) && !step.Insert? && !step.Commit?
    ensures Inv(digest, Next(digest, s, step))
  {
    hide ChainFrom;
    var s' := Next(digest, s, step);
    if s' != s {
      var tx := step.tx;
      assert tx in s.txs ==> TxOk(digest, s, tx);
      assert Visible(s', tx) == s'.committed + s'.txs[tx].pending;
      if s'.txs[tx].pending == [] {
        assert Visible(s', tx) == s.committed;
      } else {
        assert Visible(s', tx) == Visible(s, tx);
      }
      OwnStepKeepsInv(digest, s, s', tx);
    }
  }

  lemma NextKeepsInv(digest: Digest, s: Log, step: Step)
    requires Inv(digest, s)
    ensures Inv(digest, Next(digest, s, step))
  {
    if step.Insert? && Next(digest, s, step) != s {
      InsertKeepsInv(digest, s, step.tx, step.payload);
    } else if step.Commit? && Next(digest, s, step) != s {
      CommitKeepsInv(digest, s, step.tx);
    } else if !step.Insert? && !step.Commit? {
      QuietStepKeepsInv(digest, s, step);
    }
  }

  lemma {:induction false} InvAlways(digest: Digest, steps: seq<Step>)
    ensures Inv(digest, After(digest, steps))
  {
    if steps != [] {
      InvAlways(digest, steps[..|steps| - 1]);
      NextKeepsInv(digest, After(digest, steps[..|steps| - 1]), steps[|steps| - 1]);
    }
  }

  /** For any interleaving of committing and aborting transactions, each appending any number of events,
      the committed events form one unforked chain in id order and every window verifies. */
  lemma CommittedEventsFormOneChain(digest: Digest, steps: seq<Step>, limit: nat)
    ensures ChainFrom(digest, None, After(digest, steps).committed)
    ensures Accepted(digest, LastN(After(digest, steps).committed, limit))
  {
    InvAlways(digest, steps);
    ChainWindowsAccepted(digest, None, After(digest, steps).committed, limit);
  }

  /** Committed history only grows: no step rewrites or removes a committed event. */
  lemma {:induction false} CommittedOnlyGrows(digest: Digest, steps: seq<Step>, cut: nat)
    requires cut <= |steps|
    ensures After(digest, steps[..cut]).committed <= After(digest, steps).committed
  {
    if cut == |steps| {
      assert steps[..cut] == steps;
    } else {
      var front := steps[..|steps| - 1];
      assert front[..cut] == steps[..cut];
      CommittedOnlyGrows(digest, front, cut);
    }
  }

  // ---- Every append goes through

  /** A transaction that is over holds no lock. */
  ghost predicate LockHeldByLive(s: Log) {
    s.holder.Some? ==> s.holder.value in s.txs && s.txs[s.holder.value].pc != Over
  }

  lemma {:induction false} LocksAreFreed(digest: Digest, steps: seq<Step>)
    ensures LockHeldByLive(After(digest, steps))
  {
    hide Head, Visible;
    if steps != [] {
      LocksAreFreed(digest, steps[..|steps| - 1]);
    }
  }

  /** A transaction that is over, committed or not, stays over and inserts nothing more. */
  lemma {:induction false} OverForGood(digest: Digest, steps: seq<Step>, cut: nat, tx: nat)
    requires cut <= |steps| && tx in After(digest, steps[..cut]).txs && After(digest, steps[..cut]).txs[tx].pc == Over
    ensures tx in After(digest, steps).txs
    ensures After(digest, steps).txs[tx] == After(digest, steps[..cut]).txs[tx]
  {
    hide Head, Visible;
    if cut == |steps| {
      assert steps[..cut] == steps;
    } else {
      var front := steps[..|steps| - 1];
      assert front[..cut] == steps[..cut];
      OverForGood(digest, front, cut, tx);
    }
  }

  /** An abort of a transaction that is still going ends it, drops what it had inserted and frees its lock; nothing
      committed changes. */
  lemma AbortDropsItsEvents(digest: Digest, s: Log, tx: nat)
    requires tx in s.txs && s.txs[tx].pc != Over
    ensures var t := Next(digest, s, Abort(tx));
            && t.txs == s.txs[tx := Tx(Over, [])] && t.committed == s.committed && t.nextId == s.nextId
            && t.holder != Some(tx) && (s.holder != Some(tx) ==> t.holder == s.holder)
  {
  }

  /** The four steps that append one event and commit it. */
  function Appended(digest: Digest, s: Log, tx: nat, p: Payload): Log {
    Next(digest, Next(digest, Next(digest, Next(digest, s, Lock(tx)), ReadHead(tx)), Insert(tx, p)), Commit(tx))
  }

  lemma AppendAlone(digest: Digest, s: Log, tx: nat, p: Payload)
    requires tx in s.txs && s.txs[tx].pc == Idle && s.holder in {None, Some(tx)}
    ensures var before, t := s.committed + s.txs[tx].pending, Appended(digest, s, tx, p);
            && t.committed == before + [Link(digest, s.nextId, Head(before), p)]
            && t.holder == None && tx in t.txs && t.txs[tx].pc == Over
  {
    var pending := s.txs[tx].pending;
    var s1 := s.(txs := s.txs[tx := Tx(Locked, pending)], holder := Some(tx));
    assert Next(digest, s, Lock(tx)) == s1;
    var head := Head(s.committed + pending);
    var s2 := s1.(txs := s1.txs[tx := Tx(HeadRead(head), pending)]);
    assert Next(digest, s1, ReadHead(tx)) == s2;
    var e := Link(digest, s.nextId, head, p);
    var s3 := s2.(txs := s2.txs[tx := Tx(Idle, pending + [e])], nextId := s.nextId + 1);
    assert Next(digest, s2, Insert(tx, p)) == s3;
  }

  lemma AppendBlocked(digest: Digest, s: Log, tx: nat, p: Payload)
    requires tx in s.txs && s.txs[tx].pc == Idle && s.txs[tx].pending == [] && s.holder !in {None, Some(tx)}
    ensures Appended(digest, s, tx, p).committed == s.committed
  {
    assert Next(digest, s, Lock(tx)) == Next(digest, s, ReadHead(tx)) == Next(digest, s, Insert(tx, p)) == s;
  }

  /** In every reachable state a transaction between two appends appends and commits one more event exactly when no
      other one that is still going holds the lock: what it had inserted and the new event, linked to the last of
      these or of the committed ones, follow the committed ones, and the lock is free. Otherwise they leave the
      committed events as they are. */
  lemma AppendGoesThroughExactlyWhen(digest: Digest, steps: seq<Step>, tx: nat, p: Payload)
    requires tx in After(digest, steps).txs && After(digest, steps).txs[tx].pc == Idle
    ensures var s, t := After(digest, steps), Appended(digest, After(digest, steps), tx, p);
            var before := s.committed + s.txs[tx].pending;
            var blocked := exists other ::
              other != tx && other in s.txs && s.txs[other].pc != Over && s.holder == Some(other);
            && t.committed ==
               (if blocked then s.committed
                else
                  var head := if before == [] then None else Some(before[|before| - 1].hash);
                  before + [Link(digest, s.nextId, head, p)])
            && (!blocked ==> t.holder == None && tx in t.txs && t.txs[tx].pc == Over)
  {
    hide ChainFrom, After;
    var s := After(digest, steps);
    LocksAreFreed(digest, steps);
    InvAlways(digest, steps);
    assert TxOk(digest, s, tx);
    hide Next, Inv, TxOk;
    if s.holder in {None, Some(tx)} {
      AppendAlone(digest, s, tx, p);
    } else {
      AppendBlocked(digest, s, tx, p);
    }
  }

  // ---- Why the lock is needed

  /** The same step with nobody ever holding the lock. */
  function NextUnlocked(digest: Digest, s: Log, step: Step): Log {
    Next(digest, s.(holder := None), step).(holder := None)
  }

  /** Transactions x and y both read the head before either inserts, and both commit. */
  function Raced(digest: Digest, s: Log, x: nat, y: nat, p: Payload, q: Payload): Log {
    var s1 := NextUnlocked(digest, NextUnlocked(digest, s, Begin(x)), Begin(y));
    var s2 := NextUnlocked(digest, NextUnlocked(digest, s1, Lock(x)), Lock(y));
    var s3 := NextUnlocked(digest, NextUnlocked(digest, s2, ReadHead(x)), ReadHead(y));
    var s4 := NextUnlocked(digest, NextUnlocked(digest, s3, Insert(x, p)), Insert(y, q));
    NextUnlocked(digest, NextUnlocked(digest, s4, Commit(x)), Commit(y))
  }

  /** s with the lock free, the next id at `id` and two more transactions. */
  function With(s: Log, id: nat, x: nat, a: Tx, y: nat, b: Tx): Log {
    s.(nextId := id, holder := None, txs := s.txs[x := a][y := b])
  }

  lemma Arrivals(digest: Digest, s: Log, x: nat, y: nat)
    requires x != y && x !in s.txs && y !in s.txs
    ensures NextUnlocked(digest, NextUnlocked(digest, s, Begin(x)), Begin(y)) ==
            With(s, s.nextId, x, Tx(Idle, []), y, Tx(Idle, []))
  {
  }

  lemma Locks(digest: Digest, s: Log, id: nat, x: nat, y: nat)
    requires x != y
    ensures var both := With(s, id, x, Tx(Idle, []), y, Tx(Idle, []));
            NextUnlocked(digest, NextUnlocked(digest, both, Lock(x)), Lock(y)) ==
            With(s, id, x, Tx(Locked, []), y, Tx(Locked, []))
  {
    var both := With(s, id, x, Tx(Idle, []), y, Tx(Idle, []));
    assert NextUnlocked(digest, both, Lock(x)) == With(s, id, x, Tx(Locked, []), y, Tx(Idle, []));
  }

  lemma Reads(digest: Digest, s: Log, id: nat, x: nat, y: nat)
    requires x != y
    ensures var both, read := With(s, id, x, Tx(Locked, []), y, Tx(Locked, [])), Tx(HeadRead(Head(s.committed)), []);
            NextUnlocked(digest, NextUnlocked(digest, both, ReadHead(x)), ReadHead(y)) == With(s, id, x, read, y, read)
  {
    var both, read := With(s, id, x, Tx(Locked, []), y, Tx(Locked, [])), Tx(HeadRead(Head(s.committed)), []);
    assert s.committed + [] == s.committed;
    assert NextUnlocked(digest, both, ReadHead(x)) == With(s, id, x, read, y, Tx(Locked, []));
  }

  lemma Inserts(digest: Digest, s: Log, id: nat, x: nat, y: nat, head: Option<Hash>, p: Payload, q: Payload)
    requires x != y
    ensures var both := With(s, id, x, Tx(HeadRead(head), []), y, Tx(HeadRead(head), []));
            NextUnlocked(digest, NextUnlocked(digest, both, Insert(x, p)), Insert(y, q)) ==
            With(s, id + 2, x, Tx(Idle, [Link(digest, id, head, p)]), y, Tx(Idle, [Link(digest, id + 1, head, q)]))
  {
    var both := With(s, id, x, Tx(HeadRead(head), []), y, Tx(HeadRead(head), []));
    var e, f := Link(digest, id, head, p), Link(digest, id + 1, head, q);
    assert [] + [e] == [e] && [] + [f] == [f];
    assert NextUnlocked(digest, both, Insert(x, p)) == With(s, id + 1, x, Tx(Idle, [e]), y, Tx(HeadRead(head), []));
  }

  lemma Commits(digest: Digest, s: Log, id: nat, x: nat, y: nat, e: Event, f: Event)
    requires x != y
    ensures var both := With(s, id, x, Tx(Idle, [e]), y, Tx(Idle, [f]));
            NextUnlocked(digest, NextUnlocked(digest, both, Commit(x)), Commit(y)).committed == s.committed + [e, f]
  {
    assert (s.committed + [e]) + [f] == s.committed + [e, f];
  }

  /** Both events point at the head both transactions read. */
  lemma RacedCommits(digest: Digest, s: Log, x: nat, y: nat, p: Payload, q: Payload)
    requires x != y && x !in s.txs && y !in s.txs
    ensures var head := Head(s.committed);
            Raced(digest, s, x, y, p, q).committed ==
            s.committed + [Link(digest, s.nextId, head, p), Link(digest, s.nextId + 1, head, q)]
  {
    hide NextUnlocked, With, Link, Head;
    var id, head := s.nextId, Head(s.committed);
    Arrivals(digest, s, x, y);
    Locks(digest, s, id, x, y);
    Reads(digest, s, id, x, y);
    Inserts(digest, s, id, x, y, head, p, q);
    Commits(digest, s, id + 2, x, y, Link(digest, id, head, p), Link(digest, id + 1, head, q));
  }

  /** A window ending in two events that share a predecessor is accepted only if the first one's hash is its own
      predecessor. */
  lemma ForkRejected(digest: Digest, anchor: Option<Hash>, events: seq<Event>, head: Option<Hash>)
    requires |events| >= 2 && forall i :: 0 <= i < |events| ==> LinkedAt(digest, anchor, events, i)
    requires events[|events| - 1].previous == head
    ensures head == Some(events[|events| - 2].hash)
  {
    assert LinkedAt(digest, anchor, events, |events| - 1);
  }

  lemma ForkIsChain(digest: Digest, events: seq<Event>, e: Event, f: Event)
    requires ChainFrom(digest, None, events) && IdsBelow(events, e.id) && e.id < f.id
    requires Linked(digest, Head(events), e) && Linked(digest, Some(e.hash), f)
    ensures ChainFrom(digest, None, events + [e, f])
  {
    var longer := events + [e, f];
    forall i | 0 <= i < |longer| ensures LinkedAt(digest, None, longer, i) {
      if i < |events| {
        assert LinkedAt(digest, None, events, i);
      }
    }
  }

  /** Without the lock, two transactions that read one head leave a chain of any length forked: it is no chain and no
      window holding both events is accepted, unless the first one's digest is the head it was computed from. */
  lemma WithoutTheLockTheChainForks(digest: Digest, s: Log, x: nat, y: nat, p: Payload, q: Payload, limit: nat)
    requires x != y && x !in s.txs && y !in s.txs && limit >= 2
    requires ChainFrom(digest, None, s.committed) && IdsBelow(s.committed, s.nextId)
    ensures var head, forked := Head(s.committed), Raced(digest, s, x, y, p, q).committed;
            && (ChainFrom(digest, None, forked) <==> head == Some(digest(head, p)))
            && (Accepted(digest, LastN(forked, limit)) <==> head == Some(digest(head, p)))
  {
    hide Raced, LinkedAt, IdsBelow;
    RacedCommits(digest, s, x, y, p, q);
    var head, forked := Head(s.committed), Raced(digest, s, x, y, p, q).committed;
    var e, f := Link(digest, s.nextId, head, p), Link(digest, s.nextId + 1, head, q);
    var window := LastN(forked, limit);
    assert window[|window| - 1] == f && window[|window| - 2] == e && forked[|forked| - 2] == e;
    if head == Some(digest(head, p)) {
      ForkIsChain(digest, s.committed, e, f);
      ChainWindowsAccepted(digest, None, forked, limit);
    }
    if ChainFrom(digest, None, forked) {
      ForkRejected(digest, None, forked, head);
    }
    if Accepted(digest, window) {
      ForkRejected(digest, window[0].previous, window, head);
    }
  }
}
