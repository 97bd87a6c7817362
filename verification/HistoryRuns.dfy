/** Every run of the history: messages arriving, flushes, Clear History and disconnects in any
    order, with any save or delete failing. */
module HistoryRuns {
  import opened Text
  import opened MessageRing
  import opened History
  import opened Modular

  /** Message number n (counted over the whole run) carries `info` n.  The fields from
      `written` on are history: batches saved, batches whose save failed, and messages that
      left the ring before any flush saw them. */
  datatype Hist = Hist(
    capacity: nat, ring: seq<Message>, gen: nat, saved: nat, rows: seq<Message>, pushed: nat, first: nat,
    written: seq<Message>, failed: seq<Message>, lost: seq<Message>)

  datatype Step =
    | Push(topic: string, payload: seq<byte>)
    | Flush(outcome: nat -> bool)
    | ClearHistory(topic: string, outcome: nat -> bool, deleted: bool)
    | Leave                // disconnect
    | Trim(gone: set<nat>) // db_trim_messages, with whatever rows it picks

  function Kept(rows: seq<Message>, gone: set<nat>): seq<Message> {
    if rows == [] then []
    else Kept(rows[..|rows| - 1], gone) + if rows[|rows| - 1].info in gone then [] else [rows[|rows| - 1]]
  }

  function Flushed(s: Hist, outcome: nat -> bool): Hist {
    var u := Unsaved(s.ring, s.gen, s.saved);
    var saved := Batches(u, outcome, 0);
    s.(saved := s.gen, rows := s.rows + saved, written := s.written + saved, failed := s.failed + Failures(u, outcome, 0))
  }

  function Next(s: Hist, a: Step): Hist {
    match a
    case Push(topic, payload) =>
      var evicted := if |s.ring| == s.capacity && |s.ring| > 0 && |Unsaved(s.ring, s.gen, s.saved)| == |s.ring| then s.ring[..1] else [];
      s.(ring := Pushed(s.ring, s.capacity, Message(topic, s.pushed, payload)), gen := s.gen + 1, pushed := s.pushed + 1,
         lost := s.lost + evicted)
    case Flush(outcome) => Flushed(s, outcome)
    case ClearHistory(topic, outcome, deleted) =>
      var t := Flushed(s, outcome);
      var ring := Without(t.ring, topic);
      var gen := t.gen + if |ring| < |t.ring| then 1 else 0;
      t.(ring := ring, gen := gen, saved := gen, rows := if deleted then Without(t.rows, topic) else t.rows)
    case Leave =>
      s.(ring := [], gen := s.gen + 1, saved := s.gen + 1, lost := s.lost + Unsaved(s.ring, s.gen, s.saved))
    case Trim(gone) => s.(rows := Kept(s.rows, gone))
  }

  /** At start-up the ring holds the newest rows of the database, already marked as saved.  All
      messages of earlier sessions have numbers below `first`. */
  ghost predicate Init(s: Hist) {
    && 0 < s.capacity && |s.ring| <= s.capacity
    && s.gen == s.saved == |s.ring| <= s.first == s.pushed
    && (forall i :: 0 <= i < |s.ring| ==> s.ring[i].info == s.first - |s.ring| + i)
    && Within(s.rows, 0, s.first)
    && s.written == s.failed == s.lost == []
  }

  // ----- the invariant

  predicate Increasing(s: seq<Message>) {
    forall i, j :: 0 <= i < j < |s| ==> s[i].info < s[j].info
  }

  /** All numbers in s lie in lo .. hi. */
  predicate Within(s: seq<Message>, lo: nat, hi: nat) {
    forall i :: 0 <= i < |s| ==> lo <= s[i].info < hi
  }

  ghost predicate Has(s: seq<Message>, n: nat) {
    exists i :: 0 <= i < |s| && s[i].info == n
  }

  /** Consecutive numbers from `n` on. */
  predicate Numbered(s: seq<Message>, n: nat) {
    forall i :: 0 <= i < |s| ==> s[i].info == n + i
  }

  /** The ring's messages no flush has seen. */
  function Open(s: Hist): seq<Message> { Unsaved(s.ring, s.gen, s.saved) }

  /** Message n has been saved, has failed to save, was lost, or waits for the next flush. */
  ghost predicate Accounted(s: Hist, n: nat) {
    Has(s.written, n) || Has(s.failed, n) || Has(s.lost, n) || Has(Open(s), n)
  }

  ghost predicate Inv(s: Hist) {
    && 0 < s.capacity && |s.ring| <= s.capacity && |s.ring| <= s.gen && s.saved <= s.gen
    && s.first + (s.gen - s.saved) <= s.pushed
    && Numbered(Open(s), s.pushed - |Open(s)|)
    && Increasing(s.written)
    && Within(s.written, s.first, s.pushed - (s.gen - s.saved))
    && forall n :: s.first <= n < s.pushed ==> Accounted(s, n)
  }

  lemma InitInv(s: Hist)
    requires Init(s)
    ensures Inv(s)
  {
  }

  lemma HasConcat(a: seq<Message>, b: seq<Message>, n: nat)
    ensures Has(a + b, n) <==> Has(a, n) || Has(b, n)
  {
    if Has(a, n) {
      var i :| 0 <= i < |a| && a[i].info == n;
      assert (a + b)[i].info == n;
    }
    if Has(b, n) {
      var i :| 0 <= i < |b| && b[i].info == n;
      assert (a + b)[|a| + i].info == n;
    }
    if Has(a + b, n) {
      var i :| 0 <= i < |a + b| && (a + b)[i].info == n;
      if i < |a| { assert a[i].info == n; } else { assert b[i - |a|].info == n; }
    }
  }

  lemma OrderConcat(a: seq<Message>, b: seq<Message>, lo: nat, mid: nat, hi: nat)
    requires lo <= mid <= hi && Increasing(a) && Within(a, lo, mid) && Increasing(b) && Within(b, mid, hi)
    ensures Increasing(a + b) && Within(a + b, lo, hi)
  {
  }

  /** Saved and failed batches together are the messages given to the flush. */
  lemma {:induction false} BatchesCover(u: seq<Message>, outcome: nat -> bool, k: nat, m: nat)
    requires Has(u, m)
    ensures Has(Batches(u, outcome, k), m) || Has(Failures(u, outcome, k), m)
    decreases |u|
  {
    hide Has, FirstBatch;
    NotEmpty(u, m);
    FirstIsPrefix(u);
    var b := FirstBatch(u);
    var rest := u[|b|..];
    HasConcat(b, rest, m);
    HasConcat(if outcome(k) then b else [], Batches(rest, outcome, k + 1), m);
    HasConcat(if outcome(k) then [] else b, Failures(rest, outcome, k + 1), m);
    if Has(rest, m) { BatchesCover(rest, outcome, k + 1, m); }
  }

  lemma NotEmpty(u: seq<Message>, m: nat)
    requires Has(u, m)
    ensures u != []
  {
  }

  lemma FirstIsPrefix(u: seq<Message>)
    requires u != []
    ensures var b := FirstBatch(u); 0 < |b| <= |u| && u == b + u[|b|..] && b == u[..|b|]
  {
  }

  /** What is saved keeps its order. */
  lemma {:induction false} BatchesOrdered(u: seq<Message>, outcome: nat -> bool, k: nat, n: nat)
    requires Numbered(u, n)
    ensures Increasing(Batches(u, outcome, k)) && Within(Batches(u, outcome, k), n, n + |u|)
    decreases |u|
  {
    hide FirstBatch;
    if u != [] {
      FirstIsPrefix(u);
      var b := FirstBatch(u);
      BatchesOrdered(u[|b|..], outcome, k + 1, n + |b|);
      OrderConcat(if outcome(k) then b else [], Batches(u[|b|..], outcome, k + 1), n, n + |b|, n + |u|);
    }
  }

  /** With no save failing, a flush saves everything it is given. */
  lemma {:induction false} AllBatchesSaved(u: seq<Message>, outcome: nat -> bool, k: nat)
    requires forall j: nat :: outcome(j)
    ensures Batches(u, outcome, k) == u && Failures(u, outcome, k) == []
    decreases |u|
  {
    hide FirstBatch;
    if u != [] {
      FirstIsPrefix(u);
      AllBatchesSaved(u[|FirstBatch(u)|..], outcome, k + 1);
    }
  }

  lemma FlushKeepsInv(s: Hist, outcome: nat -> bool)
    requires Inv(s)
    ensures Inv(Flushed(s, outcome)) && Open(Flushed(s, outcome)) == []
  {
    hide Has, Numbered, Increasing, Within, Unsaved, Batches, Failures;
    NothingOpen(s, outcome);
    var u, n := Open(s), s.pushed - |Open(s)|;
    var t := Flushed(s, outcome);
    BatchesOrdered(u, outcome, 0, n);
    WithinWider(s.written, s.first, s.pushed - (s.gen - s.saved), n);
    OrderConcat(s.written, Batches(u, outcome, 0), s.first, n, s.pushed);
    forall m | s.first <= m < s.pushed
      ensures Accounted(t, m)
    {
      assert Accounted(s, m);
      HasConcat(s.written, Batches(u, outcome, 0), m);
      HasConcat(s.failed, Failures(u, outcome, 0), m);
      if Has(u, m) { BatchesCover(u, outcome, 0, m); }
    }
    NoneNumbered(s.pushed);
  }

  lemma NothingOpen(s: Hist, outcome: nat -> bool)
    requires Inv(s)
    ensures Open(Flushed(s, outcome)) == [] && |Open(s)| <= s.gen - s.saved
  {
  }

  lemma WithinWider(s: seq<Message>, lo: nat, hi: nat, hi': nat)
    requires Within(s, lo, hi) && hi <= hi'
    ensures Within(s, lo, hi')
  {
  }

  lemma NoneNumbered(n: nat)
    ensures Numbered([], n)
  {
  }

  /** The resynchronisation after the ring has changed: nothing waits, nothing is forgotten. */
  lemma ResyncKeepsInv(s: Hist, ring: seq<Message>, gen: nat, rows: seq<Message>)
    requires Inv(s) && Open(s) == [] && s.saved == s.gen <= gen && |ring| <= |s.ring|
    ensures Inv(s.(ring := ring, gen := gen, saved := gen, rows := rows))
  {
    hide Has, Numbered, Increasing, Within;
    var t := s.(ring := ring, gen := gen, saved := gen, rows := rows);
    forall m | s.first <= m < s.pushed
      ensures Accounted(t, m)
    {
      assert Accounted(s, m);
    }
    NoneNumbered(s.pushed);
  }

  lemma {:induction false} WithoutShorter(s: seq<Message>, topic: string)
    ensures |Without(s, topic)| <= |s|
    ensures forall i :: 0 <= i < |Without(s, topic)| ==> Without(s, topic)[i].topic != topic
  {
    if s != [] { WithoutShorter(s[..|s| - 1], topic); }
  }

  /** The messages waiting after one more push. */
  lemma PushOpens(s: Hist, topic: string, payload: seq<byte>)
    requires Inv(s)
    ensures var m, t := Message(topic, s.pushed, payload), Next(s, Push(topic, payload));
      && Open(t) == (if |Open(s)| == |s.ring| == s.capacity then Open(s)[1..] else Open(s)) + [m]
      && t.lost == s.lost + if |Open(s)| == |s.ring| == s.capacity then Open(s)[..1] else []
  {
  }

  lemma PushKeepsInv(s: Hist, topic: string, payload: seq<byte>)
    requires Inv(s)
    ensures Inv(Next(s, Push(topic, payload)))
  {
    hide Has, Unsaved, Pushed, Accounted;
    var m, t := Message(topic, s.pushed, payload), Next(s, Push(topic, payload));
    PushOpens(s, topic, payload);
    PushSizes(s, topic, payload);
    forall n | s.first <= n < t.pushed
      ensures Accounted(t, n)
    {
      PushAccounts(s, topic, payload, n);
    }
  }

  lemma PushSizes(s: Hist, topic: string, payload: seq<byte>)
    requires Inv(s)
    ensures var r := Pushed(s.ring, s.capacity, Message(topic, s.pushed, payload));
      |r| == if |s.ring| == s.capacity then |s.ring| else |s.ring| + 1
    ensures |Open(s)| == if s.gen - s.saved < |s.ring| then s.gen - s.saved else |s.ring|
  {
  }

  lemma PushAccounts(s: Hist, topic: string, payload: seq<byte>, n: nat)
    requires Inv(s) && s.first <= n <= s.pushed
    ensures Accounted(Next(s, Push(topic, payload)), n)
  {
    hide Has, Unsaved, Pushed, Numbered, Increasing, Within;
    var m, t := Message(topic, s.pushed, payload), Next(s, Push(topic, payload));
    PushOpens(s, topic, payload);
    var full := |Open(s)| == |s.ring| == s.capacity;
    var out, left := if full then Open(s)[..1] else [], if full then Open(s)[1..] else Open(s);
    assert Open(s) == out + left;
    assert n < s.pushed ==> Accounted(s, n);
    HasConcat(out, left, n);
    HasConcat(s.lost, out, n);
    HasConcat(left, [m], n);
    HasOne(m);
  }

  lemma HasOne(m: Message)
    ensures Has([m], m.info)
  {
    assert [m][0].info == m.info;
  }

  lemma LeaveKeepsInv(s: Hist)
    requires Inv(s)
    ensures Inv(Next(s, Leave))
  {
    hide Has;
    var t := Next(s, Leave);
    forall n | s.first <= n < s.pushed
      ensures Accounted(t, n)
    {
      assert Accounted(s, n);
      HasConcat(s.lost, Open(s), n);
    }
  }

  lemma StepKeepsInv(s: Hist, a: Step)
    requires Inv(s)
    ensures Inv(Next(s, a))
  {
    hide Inv;
    match a
    case Push(topic, payload) => PushKeepsInv(s, topic, payload);
    case Flush(outcome) => FlushKeepsInv(s, outcome);
    case Leave => LeaveKeepsInv(s);
    case Trim(gone) => TrimKeepsInv(s, gone);
    case ClearHistory(topic, outcome, deleted) => ClearKeepsInv(s, topic, outcome, deleted);
  }

  lemma ClearKeepsInv(s: Hist, topic: string, outcome: nat -> bool, deleted: bool)
    requires Inv(s)
    ensures Inv(Next(s, ClearHistory(topic, outcome, deleted)))
  {
    hide Inv, Without, Batches, Failures, Unsaved;
    var t := Flushed(s, outcome);
    FlushKeepsInv(s, outcome);
    WithoutShorter(t.ring, topic);
    var gen := t.gen + if |Without(t.ring, topic)| < |t.ring| then 1 else 0;
    ResyncKeepsInv(t, Without(t.ring, topic), gen, if deleted then Without(t.rows, topic) else t.rows);
  }

  lemma TrimKeepsInv(s: Hist, gone: set<nat>)
    requires Inv(s)
    ensures Inv(Next(s, Trim(gone)))
  {
    var t := Next(s, Trim(gone));
    assert forall n :: Accounted(s, n) ==> Accounted(t, n);
  }

  // ----- no message in two places

  ghost predicate Apart(a: seq<Message>, b: seq<Message>) {
    forall n :: !(Has(a, n) && Has(b, n))
  }

  /** What has been saved, has failed to save and was lost: each once, in order, and apart. */
  ghost predicate Parted(s: Hist) {
    && s.gen - s.saved <= s.pushed && |Open(s)| <= s.pushed
    && Increasing(s.failed) && Within(s.failed, s.first, s.pushed - (s.gen - s.saved))
    && Increasing(s.lost) && Within(s.lost, s.first, s.pushed - |Open(s)|)
    && Apart(s.written, s.failed) && Apart(s.written, s.lost) && Apart(s.failed, s.lost)
  }

  lemma WithinApart(a: seq<Message>, b: seq<Message>, lo: nat, mid: nat, hi: nat)
    requires Within(a, lo, mid) && Within(b, mid, hi)
    ensures Apart(a, b)
  {
  }

  lemma ApartConcat(a: seq<Message>, b: seq<Message>, c: seq<Message>)
    requires Apart(a, c) && Apart(b, c)
    ensures Apart(a + b, c) && Apart(c, a + b)
  {
    hide Has;
    forall n
      ensures !(Has(a + b, n) && Has(c, n))
    {
      HasConcat(a, b, n);
    }
  }

  lemma ApartSwap(a: seq<Message>, b: seq<Message>)
    requires Apart(a, b)
    ensures Apart(b, a)
  {
    hide Has;
  }

  lemma {:induction false} FailuresOrdered(u: seq<Message>, outcome: nat -> bool, k: nat, n: nat)
    requires Numbered(u, n)
    ensures Increasing(Failures(u, outcome, k)) && Within(Failures(u, outcome, k), n, n + |u|)
    decreases |u|
  {
    hide FirstBatch;
    if u != [] {
      FirstIsPrefix(u);
      var b := FirstBatch(u);
      FailuresOrdered(u[|b|..], outcome, k + 1, n + |b|);
      OrderConcat(if outcome(k) then [] else b, Failures(u[|b|..], outcome, k + 1), n, n + |b|, n + |u|);
    }
  }

  lemma {:induction false} BatchesApart(u: seq<Message>, outcome: nat -> bool, k: nat, n: nat)
    requires Numbered(u, n)
    ensures Apart(Batches(u, outcome, k), Failures(u, outcome, k))
    decreases |u|
  {
    hide FirstBatch, Apart, Has;
    if u != [] {
      FirstIsPrefix(u);
      var b := FirstBatch(u);
      var rest := u[|b|..];
      var saved, failed := Batches(rest, outcome, k + 1), Failures(rest, outcome, k + 1);
      BatchesApart(rest, outcome, k + 1, n + |b|);
      BatchesOrdered(rest, outcome, k + 1, n + |b|);
      FailuresOrdered(rest, outcome, k + 1, n + |b|);
      if outcome(k) {
        WithinApart(b, failed, n, n + |b|, n + |u|);
        ApartConcat(b, saved, failed);
        assert [] + failed == failed;
      } else {
        WithinApart(b, saved, n, n + |b|, n + |u|);
        ApartSwap(saved, failed);
        ApartConcat(b, failed, saved);
        assert [] + saved == saved;
      }
    } else {
      NothingApart();
    }
  }

  lemma NothingApart()
    ensures Apart([], [])
  {
  }

  lemma FlushKeepsParted(s: Hist, outcome: nat -> bool)
    requires Inv(s) && Parted(s)
    ensures Parted(Flushed(s, outcome))
  {
    hide Has, Apart, Increasing, Within, Numbered, Batches, Failures, Unsaved;
    var u, n := Open(s), s.pushed - |Open(s)|;
    NothingOpen(s, outcome);
    var saved, failed := Batches(u, outcome, 0), Failures(u, outcome, 0);
    BatchesOrdered(u, outcome, 0, n);
    FailuresOrdered(u, outcome, 0, n);
    BatchesApart(u, outcome, 0, n);
    WithinWider(s.written, s.first, s.pushed - (s.gen - s.saved), n);
    WithinWider(s.failed, s.first, s.pushed - (s.gen - s.saved), n);
    OrderConcat(s.failed, failed, s.first, n, s.pushed);
    WithinWider(s.lost, s.first, n, s.pushed);
    FlushApart(s, saved, failed, n);
  }

  lemma FlushApart(s: Hist, saved: seq<Message>, failed: seq<Message>, n: nat)
    requires Apart(s.written, s.failed) && Apart(s.written, s.lost) && Apart(s.failed, s.lost) && Apart(saved, failed)
    requires Within(s.written, s.first, n) && Within(s.failed, s.first, n) && Within(s.lost, s.first, n)
    requires Within(saved, n, s.pushed) && Within(failed, n, s.pushed)
    ensures Apart(s.written + saved, s.failed + failed)
    ensures Apart(s.written + saved, s.lost) && Apart(s.failed + failed, s.lost)
  {
    hide Apart, Within;
    WithinApart(s.written, failed, s.first, n, s.pushed);
    WithinApart(s.failed, saved, s.first, n, s.pushed);
    WithinApart(s.lost, saved, s.first, n, s.pushed);
    WithinApart(s.lost, failed, s.first, n, s.pushed);
    ApartSwap(s.lost, saved);
    ApartSwap(s.lost, failed);
    ApartSwap(s.failed, saved);
    ApartConcat(s.written, saved, s.lost);
    ApartConcat(s.failed, failed, s.lost);
    ApartConcat(s.written, saved, s.failed);
    ApartConcat(s.written, saved, failed);
    ApartSwap(s.failed, s.written + saved);
    ApartSwap(failed, s.written + saved);
    ApartConcat(s.failed, failed, s.written + saved);
  }

  /** Messages that leave the ring unseen join the lost ones. */
  lemma LosingKeepsParted(s: Hist, t: Hist, out: seq<Message>, left: seq<Message>)
    requires Inv(s) && Parted(s) && Open(s) == out + left
    requires t.lost == s.lost + out && t.written == s.written && t.failed == s.failed && t.first == s.first
    requires t.pushed - |Open(t)| == s.pushed - |Open(s)| + |out|
    requires t.pushed - (t.gen - t.saved) >= s.pushed - (s.gen - s.saved)
    ensures Parted(t)
  {
    hide Has, Apart, Increasing, Within, Unsaved;
    var n := s.pushed - |Open(s)|;
    OpenBound(s);
    NumberedOrdered(out, left, n);
    OrderConcat(s.lost, out, s.first, n, n + |out|);
    WithinWider(s.written, s.first, s.pushed - (s.gen - s.saved), n);
    WithinWider(s.failed, s.first, s.pushed - (s.gen - s.saved), n);
    WithinWider(s.failed, s.first, s.pushed - (s.gen - s.saved), t.pushed - (t.gen - t.saved));
    WithinApart(s.written, out, s.first, n, n + |out|);
    WithinApart(s.failed, out, s.first, n, n + |out|);
    ApartSwap(s.written, out);
    ApartSwap(s.failed, out);
    ApartSwap(s.written, s.lost);
    ApartSwap(s.failed, s.lost);
    ApartConcat(s.lost, out, s.written);
    ApartConcat(s.lost, out, s.failed);
  }

  lemma OpenBound(s: Hist)
    requires Inv(s)
    ensures |Open(s)| <= s.gen - s.saved && s.first <= s.pushed - |Open(s)|
  {
  }

  lemma NumberedOrdered(a: seq<Message>, b: seq<Message>, n: nat)
    requires Numbered(a + b, n)
    ensures Increasing(a) && Within(a, n, n + |a|)
  {
    forall i | 0 <= i < |a|
      ensures a[i].info == n + i
    {
      assert (a + b)[i] == a[i];
    }
  }

  lemma StepKeepsParted(s: Hist, a: Step)
    requires Inv(s) && Parted(s)
    ensures Parted(Next(s, a))
  {
    hide Inv, Has, Apart, Increasing, Within, Unsaved, Batches, Failures, Without, Pushed, Kept;
    var t := Next(s, a);
    match a
    case Push(topic, payload) => PushKeepsParted(s, topic, payload);
    case Flush(outcome) => FlushKeepsParted(s, outcome);
    case Leave => LeaveKeepsParted(s);
    case Trim(gone) =>
    case ClearHistory(topic, outcome, deleted) => ClearKeepsParted(s, topic, outcome, deleted);
  }

  lemma PushKeepsParted(s: Hist, topic: string, payload: seq<byte>)
    requires Inv(s) && Parted(s)
    ensures Parted(Next(s, Push(topic, payload)))
  {
    hide Parted, Unsaved, Pushed, Has, Apart, Increasing, Within, Numbered;
    PushOpens(s, topic, payload);
    var full := |Open(s)| == |s.ring| == s.capacity;
    var out, left := if full then Open(s)[..1] else [], if full then Open(s)[1..] else Open(s);
    assert Open(s) == out + left;
    LosingKeepsParted(s, Next(s, Push(topic, payload)), out, left);
  }

  lemma LeaveKeepsParted(s: Hist)
    requires Inv(s) && Parted(s)
    ensures Parted(Next(s, Leave))
  {
    hide Parted, Has, Apart, Increasing, Within, Numbered;
    var t := Next(s, Leave);
    OpenBound(s);
    assert Open(t) == [] && Open(s) == Open(s) + [];
    LosingKeepsParted(s, t, Open(s), []);
  }

  lemma ClearKeepsParted(s: Hist, topic: string, outcome: nat -> bool, deleted: bool)
    requires Inv(s) && Parted(s)
    ensures Parted(Next(s, ClearHistory(topic, outcome, deleted)))
  {
    hide Inv, Has, Apart, Increasing, Within, Batches, Failures, Without;
    FlushKeepsInv(s, outcome);
    FlushKeepsParted(s, outcome);
    var f, t := Flushed(s, outcome), Next(s, ClearHistory(topic, outcome, deleted));
    assert Open(t) == [] && |Open(f)| == 0;
  }

  // ----- the rows themselves

  /** Rows of this session: each message once, in order, after all older rows, and saved. */
  ghost predicate RowsOrdered(s: Hist) {
    && s.gen - s.saved <= s.pushed
    && (forall i, j :: 0 <= i < j < |s.rows| && s.rows[j].info >= s.first ==> s.rows[i].info < s.rows[j].info)
    && Within(s.rows, 0, s.pushed - (s.gen - s.saved))
    && forall n :: n >= s.first && Has(s.rows, n) ==> Has(s.written, n)
  }

  /** r is s with some elements left out. */
  ghost predicate Thinned(r: seq<Message>, s: seq<Message>) {
    exists at: seq<nat> :: Picks(r, s, at)
  }

  ghost predicate Picks(r: seq<Message>, s: seq<Message>, at: seq<nat>) {
    && |at| == |r|
    && (forall i, j :: 0 <= i < j < |at| ==> at[i] < at[j])
    && forall i :: 0 <= i < |r| ==> at[i] < |s| && r[i] == s[at[i]]
  }

  lemma {:induction false} WithoutThins(s: seq<Message>, topic: string)
    ensures Thinned(Without(s, topic), s)
  {
    if s == [] {
      assert Picks([], s, []);
    } else {
      var n := |s| - 1;
      WithoutThins(s[..n], topic);
      ThinnedSnoc(Without(s[..n], topic), s[..n], s[n]);
      assert s == s[..n] + [s[n]];
      assert Without(s[..n], topic) + [] == Without(s[..n], topic);
    }
  }

  lemma {:induction false} KeptThins(s: seq<Message>, gone: set<nat>)
    ensures Thinned(Kept(s, gone), s)
  {
    if s == [] {
      assert Picks([], s, []);
    } else {
      var n := |s| - 1;
      KeptThins(s[..n], gone);
      ThinnedSnoc(Kept(s[..n], gone), s[..n], s[n]);
      assert s == s[..n] + [s[n]];
      assert Kept(s[..n], gone) + [] == Kept(s[..n], gone);
    }
  }

  lemma ThinnedSnoc(r: seq<Message>, s: seq<Message>, m: Message)
    requires Thinned(r, s)
    ensures Thinned(r, s + [m]) && Thinned(r + [m], s + [m])
  {
    var at: seq<nat> :| Picks(r, s, at);
    assert Picks(r, s + [m], at);
    assert Picks(r + [m], s + [m], at + [|s|]);
  }

  lemma ThinningKeepsRows(s: Hist, rows: seq<Message>)
    requires RowsOrdered(s) && Thinned(rows, s.rows)
    ensures RowsOrdered(s.(rows := rows))
  {
    var at: seq<nat> :| Picks(rows, s.rows, at);
    forall n | n >= s.first && Has(rows, n)
      ensures Has(s.written, n)
    {
      var i :| 0 <= i < |rows| && rows[i].info == n;
      assert s.rows[at[i]].info == n;
    }
  }

  lemma FlushKeepsRows(s: Hist, outcome: nat -> bool)
    requires Inv(s) && RowsOrdered(s)
    ensures RowsOrdered(Flushed(s, outcome))
  {
    hide Has, Numbered, Batches, Failures, Unsaved, Accounted;
    var u, n := Open(s), s.pushed - |Open(s)|;
    OpenBound(s);
    var saved := Batches(u, outcome, 0);
    BatchesOrdered(u, outcome, 0, n);
    RowsAppended(s.rows, saved, s.first, n, s.pushed, s.pushed - (s.gen - s.saved));
    forall m | m >= s.first && Has(s.rows + saved, m)
      ensures Has(s.written + saved, m)
    {
      HasConcat(s.rows, saved, m);
      HasConcat(s.written, saved, m);
    }
  }

  lemma RowsAppended(rows: seq<Message>, saved: seq<Message>, first: nat, n: nat, hi: nat, old': nat)
    requires forall i, j :: 0 <= i < j < |rows| && rows[j].info >= first ==> rows[i].info < rows[j].info
    requires Within(rows, 0, old') && old' <= n <= hi && Increasing(saved) && Within(saved, n, hi)
    ensures var r := rows + saved;
      && (forall i, j :: 0 <= i < j < |r| && r[j].info >= first ==> r[i].info < r[j].info)
      && Within(r, 0, hi)
  {
  }

  lemma StepKeepsRows(s: Hist, a: Step)
    requires Inv(s) && RowsOrdered(s)
    ensures RowsOrdered(Next(s, a))
  {
    hide Inv, Has, Unsaved, Batches, Failures, Without, Pushed, Kept, Thinned;
    OpenBound(s);
    match a
    case Push(topic, payload) =>
    case Flush(outcome) => FlushKeepsRows(s, outcome);
    case Leave =>
    case Trim(gone) =>
      KeptThins(s.rows, gone);
      ThinningKeepsRows(s, Kept(s.rows, gone));
    case ClearHistory(topic, outcome, deleted) =>
      var f := Flushed(s, outcome);
      FlushKeepsRows(s, outcome);
      WithoutThins(f.rows, topic);
      ThinningKeepsRows(f, Without(f.rows, topic));
  }

  // ----- every run

  function After(s: Hist, run: seq<Step>): Hist {
    if run == [] then s else Next(After(s, run[..|run| - 1]), run[|run| - 1])
  }

  lemma {:induction false} RunKeepsInv(s: Hist, run: seq<Step>)
    requires Init(s)
    ensures Inv(After(s, run)) && Parted(After(s, run)) && RowsOrdered(After(s, run))
    ensures After(s, run).first == s.first
  {
    hide Inv, Init, Next, Parted, RowsOrdered;
    if run == [] {
      InitInv(s);
      InitParted(s);
    } else {
      RunKeepsInv(s, run[..|run| - 1]);
      StepKeepsInv(After(s, run[..|run| - 1]), run[|run| - 1]);
      StepKeepsParted(After(s, run[..|run| - 1]), run[|run| - 1]);
      StepKeepsRows(After(s, run[..|run| - 1]), run[|run| - 1]);
      FirstKept(After(s, run[..|run| - 1]), run[|run| - 1]);
    }
  }

  lemma InitParted(s: Hist)
    requires Init(s)
    ensures Parted(s) && RowsOrdered(s)
  {
  }

  lemma FirstKept(s: Hist, a: Step)
    ensures Next(s, a).first == s.first
  {
  }

  /** Over every run each message reaches the database at most once and in arrival order, and
      one that has not is waiting in the ring, failed to save, or left the ring unsaved. */
  lemma WrittenOnceInOrder(s: Hist, run: seq<Step>)
    requires Init(s)
    ensures var t := After(s, run);
      && Increasing(t.written)
      && (forall n :: t.first <= n < t.pushed ==> Accounted(t, n))
      && (forall i :: 0 <= i < |t.written| ==> t.first <= t.written[i].info < t.pushed - |Open(t)|)
  {
    RunKeepsInv(s, run);
  }

  /** And it is in exactly one of those places, once. */
  lemma InOnePlaceOnly(s: Hist, run: seq<Step>, n: nat)
    requires Init(s) && After(s, run).first <= n < After(s, run).pushed
    ensures var t := After(s, run);
      && (if Has(t.written, n) then 1 else 0) + (if Has(t.failed, n) then 1 else 0)
         + (if Has(t.lost, n) then 1 else 0) + (if Has(Open(t), n) then 1 else 0) == 1
      && Increasing(t.written) && Increasing(t.failed) && Increasing(t.lost) && Increasing(Open(t))
  {
    hide Has, Unsaved, Increasing, Within, Numbered;
    RunKeepsInv(s, run);
    var t := After(s, run);
    assert Accounted(t, n);
    OpenApart(t);
  }

  lemma OpenApart(t: Hist)
    requires Inv(t) && Parted(t)
    ensures Apart(t.written, Open(t)) && Apart(t.failed, Open(t)) && Apart(t.lost, Open(t)) && Increasing(Open(t))
  {
    hide Has, Apart, Unsaved, Increasing, Within;
    var n, u := t.pushed - |Open(t)|, Open(t);
    OpenBound(t);
    assert u + [] == u;
    NumberedOrdered(u, [], n);
    WithinWider(t.written, t.first, t.pushed - (t.gen - t.saved), n);
    WithinWider(t.failed, t.first, t.pushed - (t.gen - t.saved), n);
    WithinApart(t.written, u, t.first, n, t.pushed);
    WithinApart(t.failed, u, t.first, n, t.pushed);
    WithinApart(t.lost, u, t.first, n, t.pushed);
  }

  /** The rows of this session hold each message at most once, in arrival order and after all
      older rows, and only messages that have been saved. */
  lemma RowsHoldEachOnce(s: Hist, run: seq<Step>)
    requires Init(s)
    ensures var t := After(s, run);
      && (forall i, j :: 0 <= i < j < |t.rows| && t.rows[j].info >= t.first ==> t.rows[i].info < t.rows[j].info)
      && forall n :: n >= t.first && Has(t.rows, n) ==> Has(t.written, n)
  {
    RunKeepsInv(s, run);
  }

  ghost predicate SavesWork(a: Step) {
    match a
    case Flush(outcome) => forall k: nat :: outcome(k)
    case ClearHistory(_, outcome, _) => forall k: nat :: outcome(k)
    case _ => true
  }

  /** If saves succeed, a message is missing from the database only because it was pushed out
      or cleared before any flush. */
  lemma {:induction false} OnlyLostOnesAreMissing(s: Hist, run: seq<Step>)
    requires Init(s) && forall k :: 0 <= k < |run| ==> SavesWork(run[k])
    ensures var t := After(s, run);
      t.failed == [] && forall n :: t.first <= n < t.pushed ==> Has(t.written, n) || Has(t.lost, n) || Has(Open(t), n)
  {
    NoFailures(s, run);
    WrittenOnceInOrder(s, run);
    var t := After(s, run);
    forall n | t.first <= n < t.pushed
      ensures Has(t.written, n) || Has(t.lost, n) || Has(Open(t), n)
    {
      assert Accounted(t, n);
    }
  }

  lemma {:induction false} NoFailures(s: Hist, run: seq<Step>)
    requires Init(s) && forall k :: 0 <= k < |run| ==> SavesWork(run[k])
    ensures After(s, run).failed == []
  {
    if run != [] {
      var t, a := After(s, run[..|run| - 1]), run[|run| - 1];
      NoFailures(s, run[..|run| - 1]);
      assert SavesWork(run[|run| - 1]);
      match a
      case Flush(outcome) => AllBatchesSaved(Open(t), outcome, 0);
      case ClearHistory(_, outcome, _) => AllBatchesSaved(Open(t), outcome, 0);
      case _ =>
    }
  }

  /** After Clear History the ring does not hold the topic; the rows do not, exactly when the
      delete has worked or there was nothing to delete; and the rest of both is what it was
      after the flush. */
  lemma ClearedEverywhere(s: Hist, topic: string, outcome: nat -> bool, deleted: bool)
    requires Inv(s)
    ensures var f, t := Flushed(s, outcome), Next(s, ClearHistory(topic, outcome, deleted));
      && (forall i :: 0 <= i < |t.ring| ==> t.ring[i].topic != topic)
      && (!Mentions(t.rows, topic) <==> deleted || !Mentions(f.rows, topic))
      && Open(t) == []
      && (forall m: Message :: m.topic != topic ==> multiset(t.ring)[m] == multiset(f.ring)[m] && multiset(t.rows)[m] == multiset(f.rows)[m])
  {
    var f := Flushed(s, outcome);
    WithoutShorter(f.ring, topic);
    WithoutShorter(f.rows, topic);
    forall m: Message | m.topic != topic
      ensures multiset(Without(f.ring, topic))[m] == multiset(f.ring)[m] && multiset(Without(f.rows, topic))[m] == multiset(f.rows)[m]
    {
      WithoutKeeps(f.ring, topic, m);
      WithoutKeeps(f.rows, topic, m);
    }
  }

  ghost predicate Mentions(s: seq<Message>, topic: string) {
    exists i :: 0 <= i < |s| && s[i].topic == topic
  }

  lemma {:induction false} WithoutKeeps(s: seq<Message>, topic: string, m: Message)
    requires m.topic != topic
    ensures multiset(Without(s, topic))[m] == multiset(s)[m]
  {
    if s != [] {
      WithoutKeeps(s[..|s| - 1], topic, m);
      assert s == s[..|s| - 1] + [s[|s| - 1]];
    }
  }

  // ----- what was sent

  /** The messages a run pushes, numbered from `first` on. */
  function Sent(run: seq<Step>, first: nat): seq<Message> {
    if run == [] then []
    else
      var before := Sent(run[..|run| - 1], first);
      match run[|run| - 1]
      case Push(topic, payload) => before + [Message(topic, first + |before|, payload)]
      case _ => before
  }

  /** Every message of this session among `ms` is one that was sent, unchanged. */
  ghost predicate From(ms: seq<Message>, first: nat, sent: seq<Message>) {
    forall m :: m in ms && m.info >= first ==> m.info - first < |sent| && sent[m.info - first] == m
  }

  ghost predicate Genuine(s: Hist, sent: seq<Message>) {
    && s.pushed == s.first + |sent|
    && From(s.ring, s.first, sent) && From(s.rows, s.first, sent)
    && From(s.written, s.first, sent) && From(s.failed, s.first, sent) && From(s.lost, s.first, sent)
  }

  lemma FromConcat(a: seq<Message>, b: seq<Message>, first: nat, sent: seq<Message>)
    requires From(a, first, sent) && From(b, first, sent)
    ensures From(a + b, first, sent)
  {
  }

  lemma FromPart(a: seq<Message>, b: seq<Message>, first: nat, sent: seq<Message>)
    requires From(b, first, sent) && forall m :: m in a ==> m in b
    ensures From(a, first, sent)
  {
  }

  lemma FromMore(a: seq<Message>, first: nat, sent: seq<Message>, m: Message)
    requires From(a, first, sent)
    ensures From(a, first, sent + [m])
  {
  }

  lemma {:induction false} BatchesAmong(u: seq<Message>, outcome: nat -> bool, k: nat)
    ensures forall m :: m in Batches(u, outcome, k) || m in Failures(u, outcome, k) ==> m in u
    decreases |u|
  {
    hide FirstBatch;
    if u != [] {
      FirstIsPrefix(u);
      BatchesAmong(u[|FirstBatch(u)|..], outcome, k + 1);
    }
  }

  lemma {:induction false} WithoutAmong(s: seq<Message>, topic: string)
    ensures forall m :: m in Without(s, topic) ==> m in s
  {
    if s != [] { WithoutAmong(s[..|s| - 1], topic); }
  }

  lemma {:induction false} KeptAmong(s: seq<Message>, gone: set<nat>)
    ensures forall m :: m in Kept(s, gone) ==> m in s
  {
    if s != [] { KeptAmong(s[..|s| - 1], gone); }
  }

  lemma FlushKeepsGenuine(s: Hist, outcome: nat -> bool, sent: seq<Message>)
    requires Genuine(s, sent)
    ensures Genuine(Flushed(s, outcome), sent)
  {
    hide From, Batches, Failures, Unsaved;
    var u := Open(s);
    BatchesAmong(u, outcome, 0);
    FromPart(u, s.ring, s.first, sent);
    FromPart(Batches(u, outcome, 0), u, s.first, sent);
    FromPart(Failures(u, outcome, 0), u, s.first, sent);
    FromConcat(s.rows, Batches(u, outcome, 0), s.first, sent);
    FromConcat(s.written, Batches(u, outcome, 0), s.first, sent);
    FromConcat(s.failed, Failures(u, outcome, 0), s.first, sent);
  }

  lemma PushKeepsGenuine(s: Hist, topic: string, payload: seq<byte>, sent: seq<Message>)
    requires Genuine(s, sent)
    ensures Genuine(Next(s, Push(topic, payload)), sent + [Message(topic, s.pushed, payload)])
  {
    hide From, Unsaved, Pushed;
    var m, t := Message(topic, s.pushed, payload), Next(s, Push(topic, payload));
    var out := t.lost[|s.lost|..];
    assert t.lost == s.lost + out;
    EvictedAmong(s, topic, payload);
    FromPart(out, s.ring, s.first, sent);
    FromConcat(s.lost, out, s.first, sent);
    FromMore(s.rows, s.first, sent, m);
    FromMore(s.written, s.first, sent, m);
    FromMore(s.failed, s.first, sent, m);
    FromMore(t.lost, s.first, sent, m);
    FromMore(s.ring, s.first, sent, m);
    FromNew(s.first, sent, m);
    FromConcat(s.ring, [m], s.first, sent + [m]);
    FromPart(t.ring, s.ring + [m], s.first, sent + [m]);
  }

  lemma FromNew(first: nat, sent: seq<Message>, m: Message)
    requires m.info == first + |sent|
    ensures From([m], first, sent + [m])
  {
  }

  lemma EvictedAmong(s: Hist, topic: string, payload: seq<byte>)
    ensures var m, t := Message(topic, s.pushed, payload), Next(s, Push(topic, payload));
      && (forall x :: x in t.ring ==> x in s.ring + [m])
      && (forall x :: x in t.lost[|s.lost|..] ==> x in s.ring)
  {
  }

  lemma StepKeepsGenuine(s: Hist, a: Step, sent: seq<Message>)
    requires Genuine(s, sent)
    ensures Genuine(Next(s, a), if a.Push? then sent + [Message(a.topic, s.pushed, a.payload)] else sent)
  {
    hide From, Batches, Failures, Unsaved, Without, Pushed, Kept;
    match a
    case Push(topic, payload) => PushKeepsGenuine(s, topic, payload, sent);
    case Flush(outcome) => FlushKeepsGenuine(s, outcome, sent);
    case Leave =>
      FromPart(Open(s), s.ring, s.first, sent);
      FromConcat(s.lost, Open(s), s.first, sent);
      FromPart([], s.ring, s.first, sent);
    case Trim(gone) =>
      KeptAmong(s.rows, gone);
      FromPart(Kept(s.rows, gone), s.rows, s.first, sent);
    case ClearHistory(topic, outcome, deleted) =>
      var f := Flushed(s, outcome);
      FlushKeepsGenuine(s, outcome, sent);
      WithoutAmong(f.ring, topic);
      WithoutAmong(f.rows, topic);
      FromPart(Without(f.ring, topic), f.ring, s.first, sent);
      FromPart(Without(f.rows, topic), f.rows, s.first, sent);
  }

  /** Over every run, what is in the ring, in the rows and written is what was sent, with topic
      and payload unchanged; and exactly the messages sent are accounted for. */
  lemma {:induction false} NothingIsAltered(s: Hist, run: seq<Step>)
    requires Init(s)
    ensures Genuine(After(s, run), Sent(run, s.first)) && After(s, run).first == s.first
  {
    hide From, Next, Inv, Parted, RowsOrdered;
    if run == [] {
      GenuineStart(s);
    } else {
      var n := |run| - 1;
      NothingIsAltered(s, run[..n]);
      StepKeepsGenuine(After(s, run[..n]), run[n], Sent(run[..n], s.first));
      FirstKept(After(s, run[..n]), run[n]);
    }
  }

  lemma GenuineStart(s: Hist)
    requires Init(s)
    ensures Genuine(s, [])
  {
  }

  /** Nothing is lost but by a push into a full ring or by leaving. */
  lemma LostOnlyWhenFullOrLeaving(s: Hist, a: Step)
    ensures Next(s, a).lost != s.lost ==> a.Leave? || (a.Push? && |s.ring| == s.capacity)
  {
    hide Unsaved, Batches, Failures, Without, Kept;
    if a.Push? && |s.ring| != s.capacity { assert s.lost + [] == s.lost; }
  }

  // ----- the handlers are the steps

  /** The program's ring, table and counter are those of `s`. */
  ghost predicate Shows(s: Hist, db: Db, buf: MessageBuf, saved: nat)
    reads db, buf, buf.entries
  {
    && buf.Valid() && s.ring == buf.Contents() && s.gen == buf.generation && s.capacity == buf.capacity
    && s.rows == db.rows && s.saved == saved
  }

  /** Each handler of the frame loop takes the program from one state of a run to the next. */
  method Handle(ghost s: Hist, a: Step, number: nat, db: Db, buf: MessageBuf, saved: nat) returns (saved': nat)
    requires Inv(s) && Shows(s, db, buf, saved) && !a.Trim? && number == s.pushed
    modifies db, buf, buf.entries
    ensures Shows(Next(s, a), db, buf, saved')
  {
    hide Unsaved, Without, Batches, Failures, Owns, Views, Rotated, Accounted, Numbered, Increasing, Within;
    saved' := saved;
    match a {
      case Push(topic, payload) => buf.Push(Message(topic, number, payload));
      case Flush(outcome) => saved' := FlushHistory(db, buf, saved, outcome);
      case ClearHistory(topic, outcome, deleted) => saved' := ClearTopic(db, buf, saved, topic, outcome, deleted);
      case Leave => saved' := Disconnect(buf);
    }
  }
}
