/** The audit hash chain: each event hashes its own fields and its predecessor's hash, and a verifier
    recomputes the newest window. The digest is any function; where it matters that two inputs do not
    share a digest, the theorems name the collision instead of ruling it out. */
module AuditChain {
  import opened Common

  type Hash = string
  type Metadata = map<string, string>

  /** The hashed part of an event, beside its predecessor's hash. */
  datatype Payload = Payload(
    session: Option<string>, run: Option<string>, action: Option<string>,
    eventType: string, toolName: Option<string>, status: string, metadata: Metadata)

  /** A stored row; its metadata column may be NULL. */
  datatype Event = Event(
    id: nat,
    session: Option<string>, run: Option<string>, action: Option<string>,
    eventType: string, toolName: Option<string>, status: string, metadata: Option<Metadata>,
    previous: Option<Hash>, hash: Hash)

  type Digest = (Option<Hash>, Payload) -> Hash

  /** What the verifier rebuilds from a row: NULL metadata counts as the empty object. */
  function PayloadOf(e: Event): Payload {
    Payload(e.session, e.run, e.action, e.eventType, e.toolName, e.status,
            if e.metadata.Some? then e.metadata.value else map[])
  }

  function Stored(id: nat, p: Payload, previous: Option<Hash>, hash: Hash): Event {
    Event(id, p.session, p.run, p.action, p.eventType, p.toolName, p.status, Some(p.metadata), previous, hash)
  }

  /** The event appended after a chain whose head hash is `head`. */
  function Link(digest: Digest, id: nat, head: Option<Hash>, p: Payload): Event {
    Stored(id, p, head, digest(head, p))
  }

  function Head(events: seq<Event>): Option<Hash> {
    if events == [] then None else Some(events[|events| - 1].hash)
  }

  /** One unforked chain: ids increase, each event points at its predecessor and carries its digest. */
  ghost predicate ChainFrom(digest: Digest, anchor: Option<Hash>, events: seq<Event>) {
    && (forall i, j :: 0 <= i < j < |events| ==> events[i].id < events[j].id)
    && (forall i :: 0 <= i < |events| ==> LinkedAt(digest, anchor, events, i))
  }

  function Before(anchor: Option<Hash>, events: seq<Event>, i: nat): Option<Hash>
    requires i < |events|
  {
    if i == 0 then anchor else Some(events[i - 1].hash)
  }

  /** Event i points at the event before it (the first at the anchor) and carries its own digest. */
  predicate LinkedAt(digest: Digest, anchor: Option<Hash>, events: seq<Event>, i: nat)
    requires i < |events|
  {
    Linked(digest, Before(anchor, events, i), events[i])
  }

  predicate Linked(digest: Digest, previous: Option<Hash>, e: Event) {
    e.previous == previous && e.hash == digest(previous, PayloadOf(e))
  }

  /** What the verifier checks of a window, trusting its first stored predecessor. */
  ghost predicate Accepted(digest: Digest, window: seq<Event>) {
    forall i :: 0 <= i < |window| ==> LinkedAt(digest, window[0].previous, window, i)
  }

  /** Same hashed fields, same predecessor, same hash; only the id and NULL-or-empty metadata may differ. */
  predicate SameContent(a: Event, b: Event) {
    PayloadOf(a) == PayloadOf(b) && a.previous == b.previous && a.hash == b.hash
  }

  /** Two different digest inputs with one digest. */
  predicate Collision(digest: Digest, a: Event, b: Event) {
    (a.previous != b.previous || PayloadOf(a) != PayloadOf(b)) &&
    digest(a.previous, PayloadOf(a)) == digest(b.previous, PayloadOf(b))
  }

  /** Two accepted windows of one length ending in one hash are the same window, unless somewhere the
      digest collides. */
  lemma {:induction false} WindowsAgreeOrCollide(digest: Digest, a: seq<Event>, b: seq<Event>)
    requires |a| == |b| && Accepted(digest, a) && Accepted(digest, b)
    requires Head(a) == Head(b)
    ensures (forall i :: 0 <= i < |a| ==> SameContent(a[i], b[i])) ||
            (exists i :: 0 <= i < |a| && Collision(digest, a[i], b[i]))
  {
    if a != [] {
      var n := |a| - 1;
      var x, y := a[n], b[n];
      assert LinkedAt(digest, a[0].previous, a, n) && LinkedAt(digest, b[0].previous, b, n);
      if !Collision(digest, x, y) && n > 0 {
        assert SameContent(x, y);
        PrefixAccepted(digest, a);
        PrefixAccepted(digest, b);
        WindowsAgreeOrCollide(digest, a[..n], b[..n]);
        if i :| 0 <= i < n && Collision(digest, a[..n][i], b[..n][i]) {
          assert Collision(digest, a[i], b[i]);
        } else {
          assert forall i :: 0 <= i < n ==> SameContent(a[..n][i], b[..n][i]);
        }
      }
    }
  }

  lemma PrefixAccepted(digest: Digest, window: seq<Event>)
    requires Accepted(digest, window) && |window| > 1
    ensures Accepted(digest, window[..|window| - 1])
  {
    var front := window[..|window| - 1];
    forall i | 0 <= i < |front| ensures LinkedAt(digest, front[0].previous, front, i) {
      assert LinkedAt(digest, window[0].previous, window, i);
    }
  }

  ghost predicate Injective(digest: Digest) {
    forall h, p, h', p' :: digest(h, p) == digest(h', p') ==> h == h' && p == p'
  }

  /** With a collision-free digest, no edit, swap, insertion-with-removal or re-anchoring inside the
      window keeps both acceptance and the newest hash. */
  lemma TamperingIsDetected(digest: Digest, original: seq<Event>, tampered: seq<Event>, i: nat)
    requires Injective(digest) && |original| == |tampered| && i < |original|
    requires Accepted(digest, original) && Head(original) == Head(tampered)
    requires !SameContent(original[i], tampered[i])
    ensures !Accepted(digest, tampered)
  {
    if Accepted(digest, tampered) {
      WindowsAgreeOrCollide(digest, original, tampered);
    }
  }

  /** What the window cannot show: a chain whose newest events were cut off is still accepted. */
  lemma TruncationIsAccepted(digest: Digest, window: seq<Event>, keep: nat)
    requires Accepted(digest, window) && 0 < keep <= |window|
    ensures Accepted(digest, window[..keep])
  {
    var front := window[..keep];
    forall i | 0 <= i < keep ensures LinkedAt(digest, front[0].previous, front, i) {
      assert LinkedAt(digest, window[0].previous, window, i);
    }
  }

  /** Every window of a chain is accepted. */
  lemma ChainWindowsAccepted(digest: Digest, anchor: Option<Hash>, events: seq<Event>, limit: nat)
    requires ChainFrom(digest, anchor, events)
    ensures Accepted(digest, LastN(events, limit))
  {
    var window := LastN(events, limit);
    var skip := |events| - |window|;
    forall i | 0 <= i < |window| ensures LinkedAt(digest, window[0].previous, window, i) {
      assert LinkedAt(digest, anchor, events, skip + i);
      assert LinkedAt(digest, anchor, events, skip);
    }
  }

  /** A window is accepted in full exactly when it chains from its own first stored predecessor, so for
      windows reaching the first event acceptance is the whole-chain property. */
  lemma AcceptedIsChain(digest: Digest, events: seq<Event>)
    requires forall i, j :: 0 <= i < j < |events| ==> events[i].id < events[j].id
    requires events != [] ==> events[0].previous == None
    ensures Accepted(digest, events) <==> ChainFrom(digest, None, events)
  {
  }

  lemma AppendExtendsChain(digest: Digest, anchor: Option<Hash>, events: seq<Event>, id: nat, p: Payload)
    requires ChainFrom(digest, anchor, events)
    requires forall i :: 0 <= i < |events| ==> events[i].id < id
    ensures var head := if events == [] then anchor else Head(events);
            ChainFrom(digest, anchor, events + [Link(digest, id, head, p)])
  {
    var head := if events == [] then anchor else Head(events);
    var longer := events + [Link(digest, id, head, p)];
    forall i | 0 <= i < |longer| ensures LinkedAt(digest, anchor, longer, i) {
      if i < |events| {
        assert LinkedAt(digest, anchor, events, i);
      }
    }
  }

  datatype Verdict = Verdict(verified: bool, eventCount: nat, windowLimited: bool)

  /** The audit table with its advisory lock held: appends and verification in place. */
  class AuditTable {
    const digest: Digest
    var events: seq<Event>
    var nextId: nat

    ghost predicate Valid()
      reads this
    {
      && ChainFrom(digest, None, events)
      && forall i :: 0 <= i < |events| ==> events[i].id < nextId
    }

    constructor (digest: Digest)
      ensures Valid() && events == [] && this.digest == digest
    {
      this.digest := digest;
      events := [];
      nextId := 1;
    }

    method AppendAuditEvent(p: Payload) returns (id: nat)
      requires Valid()
      modifies this
      ensures Valid()
      ensures events == old(events) + [Link(digest, id, Head(old(events)), p)]
      ensures id == old(nextId) < nextId
    {
      ghost var before := events;
      var previousHash := None;
      if events != [] {
        previousHash := Some(events[|events| - 1].hash);
      }
      var eventHash := digest(previousHash, p);
      id := nextId;
      nextId := nextId + 1;
      events := events + [Stored(id, p, previousHash, eventHash)];
      AppendExtendsChain(digest, None, before, id, p);
    }

    /** Walks the newest `limit` rows, carrying the last hash forward. */
    method VerifyAuditChain(limit: nat) returns (verdict: Verdict)
      ensures verdict.verified <==> Accepted(digest, LastN(events, limit))
      ensures verdict.eventCount == Min(limit, |events|)
      ensures verdict.windowLimited <==> verdict.verified && limit <= |events|
    {
      var rows := LastN(events, limit);
      var previousHash := if rows == [] then None else rows[0].previous;
      for i := 0 to |rows|
        invariant previousHash == if i > 0 then Some(rows[i - 1].hash)
                                  else if rows == [] then None else rows[0].previous
        invariant forall j :: 0 <= j < i ==> LinkedAt(digest, rows[0].previous, rows, j)
      {
        var row := rows[i];
        var expected := digest(previousHash, PayloadOf(row));
        if row.previous != previousHash || row.hash != expected {
          assert !LinkedAt(digest, rows[0].previous, rows, i);
          return Verdict(false, |rows|, false);
        }
        previousHash := Some(row.hash);
      }
      return Verdict(true, |rows|, |rows| == limit);
    }
  }
}
