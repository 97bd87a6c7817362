/** Writing the message history to the database: db_flush_history of src/platform/db.c and the
    handlers of src/main.c that resynchronise its `saved` counter with the ring. */
module History {
  import opened Text
  import opened MessageRing
  import opened Modular

  const BATCH := 256

  // ----- one flush

  /** The messages of the ring not yet handed to the database: the last gen - saved of them,
      or all that are left when more than that have been pushed out. */
  function Unsaved(ring: seq<Message>, gen: nat, saved: nat): (r: seq<Message>)
    ensures |r| <= |ring| && r == ring[|ring| - |r|..]
    ensures saved <= gen ==> |r| == if gen - saved < |ring| then gen - saved else |ring|
  {
    if saved >= gen then ring[|ring|..] else if gen - saved >= |ring| then ring[0..] else ring[|ring| - (gen - saved)..]
  }

  function FirstBatch(u: seq<Message>): (r: seq<Message>)
    ensures u != [] ==> r != []
  {
    if |u| > BATCH then u[..BATCH] else u
  }

  /** What reaches the database when batch number k and later ones fare as `outcome` says: a
      batch is saved whole or not at all. */
  function Batches(u: seq<Message>, outcome: nat -> bool, k: nat): seq<Message>
    decreases |u|
  {
    if u == [] then []
    else (if outcome(k) then FirstBatch(u) else []) + Batches(u[|FirstBatch(u)|..], outcome, k + 1)
  }

  /** What does not. */
  function Failures(u: seq<Message>, outcome: nat -> bool, k: nat): seq<Message>
    decreases |u|
  {
    if u == [] then []
    else (if outcome(k) then [] else FirstBatch(u)) + Failures(u[|FirstBatch(u)|..], outcome, k + 1)
  }

  /** Of the first n messages, those whose batch of 256 is saved, the batches numbered from k. */
  function Written(u: seq<Message>, outcome: nat -> bool, k: nat, n: nat): seq<Message>
    requires n <= |u|
  {
    if n == 0 then [] else Written(u, outcome, k, n - 1) + if outcome(k + (n - 1) / 256) then [u[n - 1]] else []
  }

  lemma {:induction false} WrittenInBatch(u: seq<Message>, outcome: nat -> bool, k: nat, n: nat)
    requires n <= |u| && n <= BATCH
    ensures Written(u, outcome, k, n) == if outcome(k) then u[..n] else []
  {
    if n > 0 {
      WrittenInBatch(u, outcome, k, n - 1);
      SliceStep(u, 0, n - 1);
    }
  }

  lemma WrittenStep(u: seq<Message>, outcome: nat -> bool, k: nat, n: nat)
    requires 0 < n <= |u|
    ensures Written(u, outcome, k, n) == Written(u, outcome, k, n - 1) + if outcome(k + (n - 1) / 256) then [u[n - 1]] else []
  {
  }

  lemma NextBatch(m: nat)
    requires m >= BATCH
    ensures m / 256 == 1 + (m - BATCH) / 256
  {
  }

  lemma {:induction false} WrittenAfterBatch(u: seq<Message>, outcome: nat -> bool, k: nat, n: nat)
    requires BATCH <= n <= |u|
    ensures Written(u, outcome, k, n) == Written(u, outcome, k, BATCH) + Written(u[BATCH..], outcome, k + 1, n - BATCH)
  {
    hide Written;
    var rest := u[BATCH..];
    if n > BATCH {
      WrittenAfterBatch(u, outcome, k, n - 1);
      WrittenStep(u, outcome, k, n);
      WrittenStep(rest, outcome, k + 1, n - BATCH);
      NextBatch(n - 1);
      assert rest[n - 1 - BATCH] == u[n - 1];
      Assoc(Written(u, outcome, k, BATCH), Written(rest, outcome, k + 1, n - 1 - BATCH),
            if outcome(k + (n - 1) / 256) then [u[n - 1]] else []);
    } else {
      NoneWritten(rest, outcome, k + 1);
      assert Written(u, outcome, k, BATCH) + [] == Written(u, outcome, k, BATCH);
    }
  }

  lemma NoneWritten(u: seq<Message>, outcome: nat -> bool, k: nat)
    ensures Written(u, outcome, k, 0) == []
  {
  }

  /** A failed batch stops nothing: message i of a flush is saved exactly when batch i / 256 is. */
  lemma {:induction false} BatchesByMessage(u: seq<Message>, outcome: nat -> bool, k: nat)
    ensures Batches(u, outcome, k) == Written(u, outcome, k, |u|)
    decreases |u|
  {
    hide Written;
    if |u| > BATCH {
      WrittenAfterBatch(u, outcome, k, |u|);
      WrittenInBatch(u, outcome, k, BATCH);
      BatchesByMessage(u[BATCH..], outcome, k + 1);
    } else {
      WrittenInBatch(u, outcome, k, |u|);
      assert u[..|u|] == u;
      OneBatch(u, outcome, k);
    }
  }

  lemma OneBatch(u: seq<Message>, outcome: nat -> bool, k: nat)
    requires |u| <= BATCH
    ensures Batches(u, outcome, k) == if outcome(k) then u else []
  {
    assert u[|u|..] == [];
    assert u + [] == u;
  }

  /** The database table as a sequence of rows. */
  class Db {
    var rows: seq<Message>

    constructor ()
      ensures rows == []
    {
      rows := [];
    }

    /** db_save_messages: one transaction. */
    method SaveMessages(batch: seq<Message>, ok: bool)
      modifies this
      ensures rows == old(rows) + if ok then batch else []
    {
      if ok { rows := rows + batch; }
    }

    /** db_delete_topic_messages. */
    method DeleteTopic(topic: string, ok: bool)
      modifies this
      ensures rows == if ok then Without(old(rows), topic) else old(rows)
    {
      if ok { rows := Without(rows, topic); }
    }
  }

  /** db_flush_history; the trim at its end is not part of this model. */
  method FlushHistory(db: Db, buf: MessageBuf, saved: nat, outcome: nat -> bool) returns (saved': nat)
    requires buf.Valid() && buf.count <= buf.generation && saved <= buf.generation
    modifies db
    ensures saved' == buf.generation
    ensures var u := Unsaved(buf.Contents(), buf.generation, saved);
      db.rows == old(db.rows) + Batches(u, outcome, 0) == old(db.rows) + Written(u, outcome, 0, |u|)
  {
    hide Owns, Views, Rotated, Batches, Unsaved, Written;
    BatchesByMessage(Unsaved(buf.Contents(), buf.generation, saved), outcome, 0);
    var pushed := buf.generation;
    var windowStart := pushed - buf.count;
    saved' := saved;
    if saved' < windowStart { saved' := windowStart; }
    ghost var ring := buf.Contents();
    ghost var u := Unsaved(ring, pushed, saved);
    UnsavedFrom(ring, pushed, saved);
    NoBatches(outcome, 0);
    if saved' >= pushed { return; }
    var k := 0;
    while saved' < pushed
      invariant windowStart <= saved' <= pushed && buf.Valid() && buf.Contents() == ring
      invariant db.rows + Batches(ring[saved' - windowStart..], outcome, k) == old(db.rows) + Batches(u, outcome, 0)
    {
      var newCount := pushed - saved';
      if newCount > BATCH { newCount := BATCH; }
      var start := saved' - windowStart;
      var batch := ReadBatch(buf, start, newCount);
      BatchTaken(ring, start, newCount, outcome, k, db.rows);
      db.SaveMessages(batch, outcome(k));
      saved' := saved' + newCount;
      k := k + 1;
    }
    assert ring[saved' - windowStart..] == [];
    NoBatches(outcome, k);
  }

  lemma UnsavedFrom(ring: seq<Message>, gen: nat, saved: nat)
    requires |ring| <= gen && saved <= gen
    ensures Unsaved(ring, gen, saved) == ring[(if saved < gen - |ring| then 0 else saved - (gen - |ring|))..]
  {
  }

  lemma NoBatches(outcome: nat -> bool, k: nat)
    ensures Batches([], outcome, k) == [] && forall rows: seq<Message> :: rows + [] == rows
  {
  }

  lemma BatchTaken(ring: seq<Message>, start: nat, n: nat, outcome: nat -> bool, k: nat, rows: seq<Message>)
    requires start < |ring| && n == if |ring| - start > BATCH then BATCH else |ring| - start
    ensures var batch := ring[start..start + n];
      rows + Batches(ring[start..], outcome, k)
      == rows + (if outcome(k) then batch else []) + Batches(ring[start + n..], outcome, k + 1)
  {
    var rest := ring[start..];
    SliceSplit(ring, start, n);
    assert FirstBatch(rest) == ring[start..start + n];
    Assoc(rows, if outcome(k) then FirstBatch(rest) else [], Batches(ring[start + n..], outcome, k + 1));
  }

  /** The loop that copies one batch out of the ring. */
  method ReadBatch(buf: MessageBuf, start: nat, n: nat) returns (batch: seq<Message>)
    requires buf.Valid() && start + n <= buf.count
    ensures batch == buf.Contents()[start..start + n]
  {
    hide Owns, Views, Rotated;
    batch := [];
    var i := 0;
    while i < n
      invariant i <= n && batch == buf.Contents()[start..start + i]
    {
      var r := buf.Get(start + i);
      if r.Some? { batch := batch + [r.value]; }
      i := i + 1;
    }
  }

  /** The Clear History handler of the frame loop. */
  method ClearTopic(db: Db, buf: MessageBuf, saved: nat, topic: string, outcome: nat -> bool, deleted: bool) returns (saved': nat)
    requires buf.Valid() && buf.count <= buf.generation && saved <= buf.generation
    modifies db, buf, buf.entries
    ensures buf.Valid() && buf.Contents() == Without(old(buf.Contents()), topic)
    ensures saved' == buf.generation
         == old(buf.generation) + if |buf.Contents()| < |old(buf.Contents())| then 1 else 0
    ensures var all := old(db.rows) + Batches(Unsaved(old(buf.Contents()), old(buf.generation), saved), outcome, 0);
      db.rows == if deleted then Without(all, topic) else all
  {
    saved' := FlushHistory(db, buf, saved, outcome);
    db.DeleteTopic(topic, deleted);
    var removed := buf.RemoveTopic(topic);
    saved' := buf.generation;
  }

  /** The disconnect handler. */
  method Disconnect(buf: MessageBuf) returns (saved': nat)
    requires buf.Valid()
    modifies buf, buf.entries
    ensures buf.Valid() && buf.Contents() == [] && saved' == buf.generation == old(buf.generation) + 1
  {
    buf.Clear();
    saved' := buf.generation;
  }
}
