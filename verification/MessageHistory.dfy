/** The conversation table: batches appended under the session row lock, and the history query. */
module MessageHistory {
  import opened Common
  import opened Ordering

  type SessionId = string
  type RunId = string
  type Json = string

  datatype MessageRow = MessageRow(session: SessionId, run: RunId, sequence: nat, body: Json)

  /** One committed call of append_new_messages. */
  datatype Append = Append(session: SessionId, run: RunId, batch: seq<Json>)

  function OfSession(rows: seq<MessageRow>, session: SessionId): seq<MessageRow> {
    if rows == [] then []
    else
      var front := OfSession(rows[..|rows| - 1], session);
      if rows[|rows| - 1].session == session then front + [rows[|rows| - 1]] else front
  }

  /** COALESCE(MAX(sequence_number), 0) + 1 over one session. */
  function NextSequence(rows: seq<MessageRow>, session: SessionId): nat {
    if rows == [] then 1
    else
      var last := rows[|rows| - 1];
      var n := NextSequence(rows[..|rows| - 1], session);
      if last.session == session then Max(n, last.sequence + 1) else n
  }

  lemma {:induction false} OfSessionMembers(rows: seq<MessageRow>, session: SessionId)
    ensures forall row :: row in OfSession(rows, session) <==> row in rows && row.session == session
  {
    if rows != [] {
      var front, last := rows[..|rows| - 1], rows[|rows| - 1];
      OfSessionMembers(front, session);
      assert rows == front + [last];
    }
  }

  /** One past the greatest sequence number of the session, 1 for an empty session. */
  lemma {:induction false} NextSequenceIsPastMax(rows: seq<MessageRow>, session: SessionId)
    ensures var n := NextSequence(rows, session);
            && n >= 1
            && (forall row :: row in rows && row.session == session ==> row.sequence < n)
            && (n == 1 || exists row :: row in rows && row.session == session && row.sequence == n - 1)
  {
    if rows != [] {
      var front, last := rows[..|rows| - 1], rows[|rows| - 1];
      NextSequenceIsPastMax(front, session);
      assert rows == front + [last];
      assert last in rows;
    }
  }

  function BatchRows(a: Append, from: nat): (r: seq<MessageRow>)
    ensures |r| == |a.batch|
    ensures forall i :: 0 <= i < |r| ==> r[i] == MessageRow(a.session, a.run, from + i, a.batch[i])
  {
    seq(|a.batch|, i requires 0 <= i < |a.batch| => MessageRow(a.session, a.run, from + i, a.batch[i]))
  }

  function AppendRows(rows: seq<MessageRow>, a: Append): seq<MessageRow> {
    rows + BatchRows(a, NextSequence(rows, a.session))
  }

  /** The table after the given appends committed in that order. */
  function Table(log: seq<Append>): seq<MessageRow> {
    if log == [] then [] else AppendRows(Table(log[..|log| - 1]), log[|log| - 1])
  }

  function Tagged(a: Append): (r: seq<(RunId, Json)>)
    ensures |r| == |a.batch|
    ensures forall i :: 0 <= i < |r| ==> r[i] == (a.run, a.batch[i])
  {
    seq(|a.batch|, i requires 0 <= i < |a.batch| => (a.run, a.batch[i]))
  }

  /** The session's batches joined in commit order, each message tagged with its run. */
  function Joined(log: seq<Append>, session: SessionId): seq<(RunId, Json)> {
    if log == [] then []
    else
      var front := Joined(log[..|log| - 1], session);
      if log[|log| - 1].session == session then front + Tagged(log[|log| - 1]) else front
  }

  lemma {:induction false} OfSessionConcat(a: seq<MessageRow>, b: seq<MessageRow>, session: SessionId)
    ensures OfSession(a + b, session) == OfSession(a, session) + OfSession(b, session)
  {
    if b == [] {
      assert a + b == a;
    } else {
      OfSessionConcat(a, b[..|b| - 1], session);
      assert (a + b)[..|a + b| - 1] == a + b[..|b| - 1];
    }
  }

  lemma {:induction false} OfSessionUniform(rows: seq<MessageRow>, session: SessionId, owner: SessionId)
    requires forall row :: row in rows ==> row.session == owner
    ensures OfSession(rows, session) == if owner == session then rows else []
  {
    if rows != [] {
      var front := rows[..|rows| - 1];
      assert forall row :: row in front ==> row in rows;
      OfSessionUniform(front, session, owner);
      assert rows == front + [rows[|rows| - 1]];
      assert rows[|rows| - 1] in rows;
    }
  }

  /** The session's rows carry its messages numbered 1..n. */
  ghost predicate Numbered(mine: seq<MessageRow>, session: SessionId, messages: seq<(RunId, Json)>) {
    && |mine| == |messages|
    && forall i :: 0 <= i < |mine| ==> mine[i] == MessageRow(session, messages[i].0, i + 1, messages[i].1)
  }

  /** Sequence numbers are exactly 1..n and every batch is one contiguous block, in order, for any
      interleaving of appends to any sessions. */
  lemma {:induction false} SequencesAreGapless(log: seq<Append>, session: SessionId)
    ensures Numbered(OfSession(Table(log), session), session, Joined(log, session))
    ensures NextSequence(Table(log), session) == |Joined(log, session)| + 1
  {
    if log != [] {
      var front, a := log[..|log| - 1], log[|log| - 1];
      SequencesAreGapless(front, session);
      AppendKeepsNumbering(Table(front), a, session, Joined(front, session));
    }
    NextIsLength(Table(log), session);
  }

  lemma NumberedConcat(mine: seq<MessageRow>, a: Append, messages: seq<(RunId, Json)>)
    requires Numbered(mine, a.session, messages)
    ensures Numbered(mine + BatchRows(a, |messages| + 1), a.session, messages + Tagged(a))
  {
    var batch, tagged := BatchRows(a, |messages| + 1), Tagged(a);
    forall i | 0 <= i < |batch| ensures batch[i] == MessageRow(a.session, tagged[i].0, |messages| + 1 + i, tagged[i].1) {
    }
  }

  lemma AppendKeepsNumbering(rows: seq<MessageRow>, a: Append, session: SessionId, messages: seq<(RunId, Json)>)
    requires Numbered(OfSession(rows, session), session, messages)
    requires NextSequence(rows, session) == |messages| + 1
    ensures Numbered(OfSession(AppendRows(rows, a), session), session,
                     if a.session == session then messages + Tagged(a) else messages)
  {
    hide Numbered, OfSession, NextSequence, Tagged;
    var batch := BatchRows(a, NextSequence(rows, a.session));
    OfSessionConcat(rows, batch, session);
    OfSessionUniform(batch, session, a.session);
    if a.session == session {
      NumberedConcat(OfSession(rows, session), a, messages);
    } else {
      assert OfSession(rows, session) + [] == OfSession(rows, session);
    }
  }

  lemma NextIsLength(rows: seq<MessageRow>, session: SessionId)
    requires var mine := OfSession(rows, session);
             forall i :: 0 <= i < |mine| ==> mine[i].sequence == i + 1
    ensures NextSequence(rows, session) == |OfSession(rows, session)| + 1
  {
    var mine := OfSession(rows, session);
    var n := NextSequence(rows, session);
    OfSessionMembers(rows, session);
    NextSequenceIsPastMax(rows, session);
    if mine != [] {
      assert mine[|mine| - 1] in mine;
    }
    if n != 1 {
      var row :| row in rows && row.session == session && row.sequence == n - 1;
      assert row in mine;
    }
  }

  /** UNIQUE (session_id, sequence_number) is never violated. */
  lemma {:induction false} SequencesAreUnique(log: seq<Append>, i: nat, j: nat)
    requires i < j < |Table(log)| && Table(log)[i].session == Table(log)[j].session
    ensures Table(log)[i].sequence < Table(log)[j].sequence
  {
    var front, a := log[..|log| - 1], log[|log| - 1];
    if j < |Table(front)| {
      SequencesAreUnique(front, i, j);
    } else if i < |Table(front)| {
      NextSequenceIsPastMax(Table(front), a.session);
      assert Table(front)[i] in Table(front);
    }
  }

  predicate NewestFirst(a: MessageRow, b: MessageRow) {
    a.sequence >= b.sequence
  }

  predicate OldestFirst(a: MessageRow, b: MessageRow) {
    a.sequence <= b.sequence
  }

  /** The history query: newest `limit` rows of the session, put back into ascending order. */
  function Recent(rows: seq<MessageRow>, session: SessionId, limit: nat): seq<MessageRow> {
    Sort(OldestFirst, FirstN(Sort(NewestFirst, OfSession(rows, session)), limit))
  }

  function Bodies(rows: seq<MessageRow>): (r: seq<Json>)
    ensures |r| == |rows| && forall i :: 0 <= i < |r| ==> r[i] == rows[i].body
  {
    seq(|rows|, i requires 0 <= i < |rows| => rows[i].body)
  }

  lemma {:induction false} ReverseMultiset<T>(s: seq<T>)
    ensures multiset(Reverse(s)) == multiset(s)
  {
    if s != [] {
      ReverseMultiset(s[1..]);
      assert s == [s[0]] + s[1..];
      assert Reverse(s) == Reverse(s[1..]) + [s[0]];
    }
  }

  ghost predicate Ascending(s: seq<MessageRow>) {
    forall i, j :: 0 <= i < j < |s| ==> s[i].sequence < s[j].sequence
  }

  lemma AscendingHasNoTies(s: seq<MessageRow>, x: MessageRow, y: MessageRow)
    requires Ascending(s) && x in s && y in s && x.sequence == y.sequence
    ensures x == y
  {
    var i :| 0 <= i < |s| && s[i] == x;
    var j :| 0 <= j < |s| && s[j] == y;
    assert i == j;
  }

  lemma SortAscending(s: seq<MessageRow>)
    requires Ascending(s)
    ensures Sort(NewestFirst, s) == Reverse(s)
    ensures Sort(OldestFirst, Reverse(s)) == s
  {
    ReverseMultiset(s);
    forall x, y | x in multiset(s) && y in multiset(s) && x.sequence == y.sequence ensures x == y {
      AscendingHasNoTies(s, x, y);
    }
    SortIsUnique(NewestFirst, s, Reverse(s));
    SortIsUnique(OldestFirst, Reverse(s), s);
  }

  lemma FirstOfReverse(s: seq<MessageRow>, limit: nat)
    requires Ascending(s)
    ensures FirstN(Reverse(s), limit) == Reverse(LastN(s, limit)) && Ascending(LastN(s, limit))
  {
  }

  lemma RecentOfAscending(mine: seq<MessageRow>, limit: nat)
    requires Ascending(mine)
    ensures Sort(OldestFirst, FirstN(Sort(NewestFirst, mine), limit)) == LastN(mine, limit)
  {
    FirstOfReverse(mine, limit);
    var tail := LastN(mine, limit);
    SortAscending(tail);
    SortAscending(mine);
  }

  lemma TailBodies(mine: seq<MessageRow>, session: SessionId, messages: seq<(RunId, Json)>, limit: nat)
    requires Numbered(mine, session, messages)
    ensures Ascending(mine) && |LastN(mine, limit)| == |LastN(messages, limit)| == Min(limit, |messages|)
    ensures forall i :: 0 <= i < |LastN(mine, limit)| ==> LastN(mine, limit)[i].body == LastN(messages, limit)[i].1
  {
  }

  /** Loading history returns the last min(limit, n) messages of the session's batches joined in
      commit order. */
  lemma HistoryIsTail(log: seq<Append>, session: SessionId, limit: nat)
    ensures var history := Bodies(Recent(Table(log), session, limit));
            var tail := LastN(Joined(log, session), limit);
            && |history| == Min(limit, |Joined(log, session)|) == |tail|
            && forall i :: 0 <= i < |history| ==> history[i] == tail[i].1
  {
    SequencesAreGapless(log, session);
    var mine := OfSession(Table(log), session);
    TailBodies(mine, session, Joined(log, session), limit);
    RecentOfAscending(mine, limit);
  }

  function OfRun(rows: seq<MessageRow>, run: RunId): (r: seq<MessageRow>) {
    if rows == [] then []
    else
      var front := OfRun(rows[..|rows| - 1], run);
      if rows[|rows| - 1].run == run then front + [rows[|rows| - 1]] else front
  }

  lemma {:induction false} OfRunConcat(a: seq<MessageRow>, b: seq<MessageRow>, run: RunId)
    ensures OfRun(a + b, run) == OfRun(a, run) + OfRun(b, run)
  {
    if b == [] {
      assert a + b == a;
    } else {
      OfRunConcat(a, b[..|b| - 1], run);
      assert (a + b)[..|a + b| - 1] == a + b[..|b| - 1];
    }
  }

  lemma {:induction false} OfRunUniform(rows: seq<MessageRow>, run: RunId, owner: RunId)
    requires forall row :: row in rows ==> row.run == owner
    ensures OfRun(rows, run) == if owner == run then rows else []
  {
    if rows != [] {
      var front := rows[..|rows| - 1];
      assert forall row :: row in front ==> row in rows;
      OfRunUniform(front, run, owner);
      assert rows == front + [rows[|rows| - 1]];
      assert rows[|rows| - 1] in rows;
    }
  }

  predicate Logged(log: seq<Append>, run: RunId) {
    exists i :: 0 <= i < |log| && log[i].run == run
  }

  lemma {:induction false} UnloggedHasNoRows(log: seq<Append>, run: RunId)
    requires !Logged(log, run)
    ensures OfRun(Table(log), run) == []
  {
    if log != [] {
      var front, a := log[..|log| - 1], log[|log| - 1];
      assert forall i :: 0 <= i < |front| ==> front[i] == log[i];
      UnloggedHasNoRows(front, run);
      var batch := BatchRows(a, NextSequence(Table(front), a.session));
      OfRunConcat(Table(front), batch, run);
      OfRunUniform(batch, run, a.run);
    }
  }

  /** When a run appended only once, the table holds exactly that batch for it, in order. */
  lemma {:induction false} OnceLoggedHasItsBatch(log: seq<Append>, i: nat)
    requires i < |log|
    requires forall j :: 0 <= j < |log| && j != i ==> log[j].run != log[i].run
    ensures Bodies(OfRun(Table(log), log[i].run)) == log[i].batch
  {
    var front, a := log[..|log| - 1], log[|log| - 1];
    var batch := BatchRows(a, NextSequence(Table(front), a.session));
    OfRunConcat(Table(front), batch, log[i].run);
    OfRunUniform(batch, log[i].run, a.run);
    if i == |front| {
      UnloggedHasNoRows(front, log[i].run);
    } else {
      OnceLoggedHasItsBatch(front, i);
    }
  }
}
