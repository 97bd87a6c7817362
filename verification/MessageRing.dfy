/** The message history ring of src/model/message_buf.c with its payload blocks: a bounded
    sequence of messages, every payload owned by exactly one slot of the window. */
module MessageRing {
  import opened Text
  import opened Modular

  /** A record as callers see it; `info` stands for its timestamp, QoS, flags and the rest. */
  datatype Message = Message(topic: string, info: nat, payload: seq<byte>)

  /** A record as a slot stores it: the payload is a block of the heap, or NULL. */
  datatype Slot = Slot(topic: string, info: nat, block: Option<nat>)

  type Heap = map<nat, seq<byte>>

  // ----- ownership

  ghost predicate Distinct(w: seq<Slot>) {
    forall i, j :: 0 <= i < j < |w| && w[i].block.Some? ==> w[i].block != w[j].block
  }

  ghost predicate Live(w: seq<Slot>, heap: Heap) {
    forall i :: 0 <= i < |w| && w[i].block.Some? ==> w[i].block.value in heap
  }

  ghost predicate Held(w: seq<Slot>, b: nat) {
    exists i :: 0 <= i < |w| && w[i].block == Some(b)
  }

  /** The live blocks are those of the slots, each held once. */
  ghost predicate Owns(w: seq<Slot>, heap: Heap) {
    Live(w, heap) && Distinct(w) && forall b :: b in heap ==> Held(w, b)
  }

  function View(s: Slot, heap: Heap): Message {
    Message(s.topic, s.info, if s.block.Some? && s.block.value in heap then heap[s.block.value] else [])
  }

  function Views(w: seq<Slot>, heap: Heap): (r: seq<Message>)
    ensures |r| == |w| && forall i :: 0 <= i < |w| ==> r[i] == View(w[i], heap)
  {
    seq(|w|, i requires 0 <= i < |w| => View(w[i], heap))
  }

  /** free(). */
  function Freed(heap: Heap, block: Option<nat>): Heap {
    if block.Some? then heap - {block.value} else heap
  }

  /** Index of a + b inside a + [x] + b. */
  lemma Around<T>(a: seq<T>, x: T, b: seq<T>, i: nat)
    requires i < |a + b|
    ensures (a + b)[i] == (a + [x] + b)[if i < |a| then i else i + 1]
    ensures (a + [x] + b)[|a|] == x
  {
  }

  lemma FreedOwns(a: seq<Slot>, x: Slot, b: seq<Slot>, heap: Heap)
    requires Owns(a + [x] + b, heap)
    ensures Owns(a + b, Freed(heap, x.block))
    ensures x.block.Some? ==> x.block.value in heap
  {
    var w, w', heap' := a + [x] + b, a + b, Freed(heap, x.block);
    forall i | 0 <= i < |w'| && w'[i].block.Some?
      ensures w'[i].block.value in heap'
    {
      Around(a, x, b, i);
    }
    forall i, j | 0 <= i < j < |w'| && w'[i].block.Some?
      ensures w'[i].block != w'[j].block
    {
      Around(a, x, b, i);
      Around(a, x, b, j);
    }
    forall c | c in heap'
      ensures Held(w', c)
    {
      StillHeld(a, x, b, c);
    }
    assert w[|a|] == x;
  }

  lemma StillHeld(a: seq<Slot>, x: Slot, b: seq<Slot>, c: nat)
    requires Held(a + [x] + b, c) && x.block != Some(c)
    ensures Held(a + b, c)
  {
    var w := a + [x] + b;
    var j :| 0 <= j < |w| && w[j].block == Some(c);
    Around(a, x, b, if j < |a| then j else j - 1);
    assert (a + b)[if j < |a| then j else j - 1].block == Some(c);
  }

  /** Freeing the block of one slot leaves what the others show. */
  lemma FreedViews(a: seq<Slot>, x: Slot, b: seq<Slot>, heap: Heap)
    requires Owns(a + [x] + b, heap)
    ensures Views(a + b, Freed(heap, x.block)) == Views(a, heap) + Views(b, heap)
  {
    var w, w' := a + [x] + b, a + b;
    forall i | 0 <= i < |w'|
      ensures View(w'[i], Freed(heap, x.block)) == View(w'[i], heap)
    {
      Around(a, x, b, i);
    }
  }

  lemma AllocatedOwns(w: seq<Slot>, x: Slot, heap: Heap, data: seq<byte>)
    requires Owns(w, heap) && (x.block.Some? ==> x.block.value !in heap)
    ensures var heap' := if x.block.Some? then heap[x.block.value := data] else heap;
      && Owns(w + [x], heap')
      && Views(w + [x], heap') == Views(w, heap) + [Message(x.topic, x.info, if x.block.Some? then data else [])]
  {
    var heap' := if x.block.Some? then heap[x.block.value := data] else heap;
    var w' := w + [x];
    forall b | b in heap'
      ensures Held(w', b)
    {
      if b in heap {
        var i :| 0 <= i < |w| && w[i].block == Some(b);
        assert w'[i].block == Some(b);
      } else {
        assert w'[|w|].block == Some(b);
      }
    }
    assert Live(w', heap') && Distinct(w');
  }

  lemma FreshBlock(heap: Heap) returns (b: nat)
    ensures b !in heap
  {
    b := Above(heap.Keys);
  }

  lemma {:induction false} Above(s: set<nat>) returns (b: nat)
    ensures forall x :: x in s ==> x < b
    decreases s
  {
    if s == {} { return 0; }
    var x :| x in s;
    var c := Above(s - {x});
    b := if c <= x then x + 1 else c;
    assert forall y :: y in s ==> y == x || y in s - {x};
  }

  // ----- the bounded sequence

  function Pushed(s: seq<Message>, capacity: nat, m: Message): seq<Message> {
    (if |s| == capacity && |s| > 0 then s[1..] else s) + [m]
  }

  function Without(s: seq<Message>, topic: string): seq<Message> {
    if s == [] then []
    else Without(s[..|s| - 1], topic) + if s[|s| - 1].topic == topic then [] else [s[|s| - 1]]
  }

  class MessageBuf {
    const entries: array<Slot>
    const capacity: nat
    var head: nat
    var count: nat
    var generation: nat
    var heap: Heap  // the payload blocks in use, with their bytes

    ghost predicate Shape()
      reads this
    {
      0 < capacity == entries.Length && head < capacity && count <= capacity
    }

    /** The slots from the oldest on. */
    ghost function Window(): seq<Slot>
      requires Shape()
      reads this, entries
    {
      Rotated(entries[..], head)[..count]
    }

    ghost predicate Valid()
      reads this, entries
    {
      Shape() && Owns(Window(), heap)
    }

    ghost function Contents(): (r: seq<Message>)
      requires Valid()
      ensures |r| == count
      reads this, entries
    {
      Views(Window(), heap)
    }

    /** message_buf_init; the source divides by the capacity, so it is positive. */
    constructor (capacity: nat)
      requires capacity > 0
      ensures Valid() && this.capacity == capacity && Contents() == [] && generation == 0 && fresh(entries)
    {
      entries := new Slot[capacity](_ => Slot("", 0, None));
      this.capacity := capacity;
      head, count, generation, heap := 0, 0, 0, map[];
    }

    /** free(): a block is never freed twice. */
    method Free(block: Option<nat>)
      requires block.Some? ==> block.value in heap
      modifies `heap
      ensures heap == Freed(old(heap), block)
    {
      if block.Some? { heap := heap - {block.value}; }
    }

    /** malloc() and memcpy(): any address not in use, so addresses freed earlier may return. */
    method Alloc(data: seq<byte>) returns (b: nat)
      modifies `heap
      ensures b !in old(heap) && heap == old(heap)[b := data]
    {
      ghost var fresh' := FreshBlock(heap);
      b :| b !in heap;
      heap := heap[b := data];
    }

    /** message_buf_push: the payload is copied into a block of its own. */
    method Push(m: Message)
      requires Valid()
      modifies this, entries
      ensures Valid() && generation == old(generation) + 1
      ensures Contents() == Pushed(old(Contents()), capacity, m)
    {
      hide Rotated, Owns, Views, Freed;
      ghost var es, w, kept, n := entries[..], Window(), Window(), count;
      var idx := (head + count) % capacity;
      if count == capacity {
        PlacedFull(es, head, entries[idx]);
        FullWindow(w, heap);
        kept := w[1..];
        Free(entries[idx].block);
        head := (head + 1) % capacity;
      } else {
        RotatedAt(es, head, count);
        count := count + 1;
      }
      generation := generation + 1;
      var slot := Slot(m.topic, m.info, None);
      ghost var before := heap;
      if |m.payload| > 0 {
        var b := Alloc(m.payload);
        slot := slot.(block := Some(b));
      }
      if n == capacity { PlacedFull(es, old(head), slot); } else { Placed(es, head, n, slot); }
      entries[idx] := slot;
      assert entries[..] == es[idx := slot];
      AllocatedOwns(kept, slot, before, m.payload);
    }

    /** message_buf_clear: every block goes back, once. */
    method Clear()
      requires Valid()
      modifies this, entries
      ensures Valid() && generation == old(generation) + 1 && Contents() == [] && heap == map[]
    {
      hide Rotated, Owns, Freed;
      ghost var w := Window();
      var i := 0;
      assert w[0..] == w;
      while i < count
        invariant i <= count && Shape() && head == old(head) && count == old(count) && generation == old(generation)
        invariant Owns(w[i..], heap)
        invariant forall k :: i <= k < count ==> Rotated(entries[..], head)[k] == w[k]
      {
        RotatedAt(entries[..], head, i);
        var idx := (head + i) % capacity;
        FullWindow(w[i..], heap);
        Free(entries[idx].block);
        RotatedUpdate(entries[..], head, i, entries[idx].(block := None));
        entries[idx] := entries[idx].(block := None);
        assert w[i..][1..] == w[i + 1..];
        i := i + 1;
      }
      generation := generation + 1;
      head, count := 0, 0;
      NothingOwned(heap);
      assert w[i..] == [] && Window() == [];
    }

    /** message_buf_remove_topic: survivors move down within the ring, in order; slots past
        them keep stale copies of block addresses that are never freed from there. */
    method RemoveTopic(topic: string) returns (removed: nat)
      requires Valid()
      modifies this, entries
      ensures Valid()
      ensures Contents() == Without(old(Contents()), topic) && removed == |old(Contents())| - |Contents()|
      ensures generation == old(generation) + if removed > 0 then 1 else 0
    {
      hide Scanned, Owns, Freed, Views;
      ghost var w, heap0 := Window(), heap;
      var kept, i := 0, 0;
      ghost var k: seq<Slot> := [];
      ScanStart(entries[..], head, w, heap, topic);
      while i < count
        invariant kept <= i <= count && Shape() && head == old(head) && count == old(count) && generation == old(generation)
        invariant kept == |k| && count == |w|
        invariant Scanned(entries[..], head, w, heap0, heap, k, i, topic)
      {
        ghost var es := entries[..];
        var src := (head + i) % capacity;
        ScanNext(es, head, w, heap0, heap, k, i, topic);
        var r := entries[src];
        if r.topic == topic {
          Free(r.block);
          entries[src] := r.(block := None);
          assert entries[..] == es[src := r.(block := None)];
        } else {
          var dst := (head + kept) % capacity;
          if dst != src { entries[dst] := entries[src]; }
          assert entries[..] == es[dst := r];
          k := k + [r];
          kept := kept + 1;
        }
        i := i + 1;
      }
      removed := count - kept;
      ScanEnd(entries[..], head, w, heap0, heap, k, topic);
      if removed > 0 {
        count := kept;
        generation := generation + 1;
      }
    }

    /** message_buf_get. */
    method Get(index: nat) returns (r: Option<Message>)
      requires Valid()
      ensures r == if index < count then Some(Contents()[index]) else None
    {
      if index >= count { return None; }
      RotatedAt(entries[..], head, index);
      r := Some(View(entries[(head + index) % capacity], heap));
    }
  }

  lemma NothingOwned(heap: Heap)
    requires Owns([], heap)
    ensures heap == map[] && Owns([], map[])
  {
    assert forall b :: b in heap ==> Held([], b);
  }

  lemma WithoutSnoc(s: seq<Message>, m: Message, topic: string)
    ensures Without(s + [m], topic) == Without(s, topic) + if m.topic == topic then [] else [m]
  {
    assert (s + [m])[..|s|] == s;
  }

  lemma NothingKept(w: seq<Slot>, heap: Heap, topic: string)
    requires Owns(w, heap)
    ensures Owns([] + w[0..], heap)
    ensures Views([], heap) + Views(w[0..], heap) == Without(Views(w, heap)[..0], topic) + Views(w, heap)[0..]
  {
    assert [] + w[0..] == w && w[0..] == w;
    assert Views(w, heap)[..0] == [] && Views(w, heap)[0..] == Views(w, heap);
  }

  /** Taking the next message out: its block is freed, the others show what they showed. */
  lemma OneRemoved(w: seq<Slot>, heap0: Heap, k: seq<Slot>, i: nat, heap: Heap, topic: string)
    requires i < |w| && Owns(k + [w[i]] + w[i + 1..], heap) && w[i].topic == topic
    requires Views(k, heap) + Views(w[i..], heap) == Without(Views(w, heap0)[..i], topic) + Views(w, heap0)[i..]
    ensures w[i].block.Some? ==> w[i].block.value in heap
    ensures Owns(k + w[i + 1..], Freed(heap, w[i].block))
    ensures Views(k, Freed(heap, w[i].block)) + Views(w[i + 1..], Freed(heap, w[i].block))
         == Without(Views(w, heap0)[..i + 1], topic) + Views(w, heap0)[i + 1..]
  {
    hide Owns, Freed, Without, Views;
    FreedOwns(k, w[i], w[i + 1..], heap);
    FreedViews(k, w[i], w[i + 1..], heap);
    ViewsSplit(k, w[i + 1..], Freed(heap, w[i].block));
    NextMessage(w, heap0, k, i, heap, topic);
    assert Views(k, heap) + [] == Views(k, heap);
  }

  lemma ViewsSplit(a: seq<Slot>, b: seq<Slot>, heap: Heap)
    ensures Views(a + b, heap) == Views(a, heap) + Views(b, heap)
  {
  }

  /** What the scan has produced so far lines up with the filter, one message further. */
  lemma NextMessage(w: seq<Slot>, heap0: Heap, k: seq<Slot>, i: nat, heap: Heap, topic: string)
    requires i < |w|
    requires Views(k, heap) + Views(w[i..], heap) == Without(Views(w, heap0)[..i], topic) + Views(w, heap0)[i..]
    ensures |Without(Views(w, heap0)[..i], topic)| == |k|
    ensures Views(w[i + 1..], heap) == Views(w, heap0)[i + 1..] && View(w[i], heap) == Views(w, heap0)[i]
    ensures Views(k, heap) == Without(Views(w, heap0)[..i], topic)
    ensures Without(Views(w, heap0)[..i + 1], topic)
         == Views(k, heap) + if w[i].topic == topic then [] else [View(w[i], heap)]
  {
    hide Without;
    var vs := Views(w, heap0);
    var a, b, c, d := Views(k, heap), Views(w[i..], heap), Without(vs[..i], topic), vs[i..];
    SplitConcat(a, b);
    SplitConcat(c, d);
    assert |b| == |d|;
    assert a == c && b == d;
    assert w[i..][0] == w[i] && b[0] == d[0];
    assert w[i + 1..] == w[i..][1..] && b[1..] == d[1..];
    assert Views(w[i + 1..], heap) == b[1..];
    WithoutSnoc(vs[..i], vs[i], topic);
    assert vs[..i + 1] == vs[..i] + [vs[i]];
  }

  lemma OneKept(w: seq<Slot>, heap0: Heap, k: seq<Slot>, i: nat, heap: Heap, topic: string)
    requires i < |w| && w[i].topic != topic
    requires Views(k, heap) + Views(w[i..], heap) == Without(Views(w, heap0)[..i], topic) + Views(w, heap0)[i..]
    ensures Views(k + [w[i]], heap) + Views(w[i + 1..], heap) == Without(Views(w, heap0)[..i + 1], topic) + Views(w, heap0)[i + 1..]
  {
    hide Without, Views;
    NextMessage(w, heap0, k, i, heap, topic);
    ViewsSplit(k, [w[i]], heap);
    ViewsOne(w[i], heap);
  }

  lemma ViewsOne(s: Slot, heap: Heap)
    ensures Views([s], heap) == [View(s, heap)]
  {
  }

  /** The compaction after `i` slots: `k` at the front, the rest where it was, and together
      they own the heap and show the filtered messages followed by the unread ones. */
  ghost predicate Scanned(es: seq<Slot>, head: nat, w: seq<Slot>, heap0: Heap, heap: Heap, k: seq<Slot>, i: nat, topic: string)
  {
    && head < |es| && |k| <= i <= |w| <= |es|
    && Owns(k + w[i..], heap)
    && Views(k, heap) + Views(w[i..], heap) == Without(Views(w, heap0)[..i], topic) + Views(w, heap0)[i..]
    && Rotated(es, head)[..|k|] == k
    && Rotated(es, head)[i..|w|] == w[i..]
  }

  lemma ScanStart(es: seq<Slot>, head: nat, w: seq<Slot>, heap: Heap, topic: string)
    requires head < |es| && |w| <= |es| && w == Rotated(es, head)[..|w|] && Owns(w, heap)
    ensures Scanned(es, head, w, heap, heap, [], 0, topic)
  {
    hide Owns, Views, Without, Rotated;
    NothingKept(w, heap, topic);
    assert w[0..] == w;
  }

  lemma ScanNext(es: seq<Slot>, head: nat, w: seq<Slot>, heap0: Heap, heap: Heap, k: seq<Slot>, i: nat, topic: string)
    requires Scanned(es, head, w, heap0, heap, k, i, topic) && i < |w|
    ensures var src, dst := (head + i) % |es|, (head + |k|) % |es|;
      && src < |es| && dst < |es|
      && var r := es[src];
      && (r.block.Some? ==> r.block.value in heap)
      && (r.topic == topic ==> Scanned(es[src := r.(block := None)], head, w, heap0, Freed(heap, r.block), k, i + 1, topic))
      && (r.topic != topic ==> Scanned(es[dst := r], head, w, heap0, heap, k + [r], i + 1, topic))
  {
    hide Scanned;
    ScanAt(es, head, w, heap0, heap, k, i, topic);
    if w[i].topic == topic {
      ScanRemoved(es, head, w, heap0, heap, k, i, topic);
    } else {
      ScanKept(es, head, w, heap0, heap, k, i, topic);
    }
  }

  lemma ScanAt(es: seq<Slot>, head: nat, w: seq<Slot>, heap0: Heap, heap: Heap, k: seq<Slot>, i: nat, topic: string)
    requires Scanned(es, head, w, heap0, heap, k, i, topic) && i < |w|
    ensures var src, dst := (head + i) % |es|, (head + |k|) % |es|;
      src < |es| && dst < |es| && es[src] == w[i] && (w[i].block.Some? ==> w[i].block.value in heap)
    ensures Owns(k + [w[i]] + w[i + 1..], heap)
    ensures Rotated(es, head)[i + 1..|w|] == w[i + 1..]
  {
    hide Owns, Views, Without, Rotated;
    var ring := Rotated(es, head);
    assert w[i..] == [w[i]] + w[i + 1..] && ring[i..|w|][0] == ring[i];
    RotatedAt(es, head, i);
    RotatedAt(es, head, |k|);
    Assoc(k, [w[i]], w[i + 1..]);
    LiveSlot(k, w[i], w[i + 1..], heap);
    assert ring[i + 1..|w|] == ring[i..|w|][1..] && w[i + 1..] == w[i..][1..];
  }

  lemma ScanRemoved(es: seq<Slot>, head: nat, w: seq<Slot>, heap0: Heap, heap: Heap, k: seq<Slot>, i: nat, topic: string)
    requires Scanned(es, head, w, heap0, heap, k, i, topic) && i < |w| && w[i].topic == topic
    ensures var src := (head + i) % |es|;
      src < |es| && Scanned(es[src := w[i].(block := None)], head, w, heap0, Freed(heap, w[i].block), k, i + 1, topic)
  {
    hide Owns, Views, Without, Rotated, Freed;
    var ring, v := Rotated(es, head), w[i].(block := None);
    ScanAt(es, head, w, heap0, heap, k, i, topic);
    OneRemoved(w, heap0, k, i, heap, topic);
    RotatedUpdate(es, head, i, v);
    UpdateBetween(ring, i, v, |k|, i + 1, |w|);
  }

  lemma ScanKept(es: seq<Slot>, head: nat, w: seq<Slot>, heap0: Heap, heap: Heap, k: seq<Slot>, i: nat, topic: string)
    requires Scanned(es, head, w, heap0, heap, k, i, topic) && i < |w| && w[i].topic != topic
    ensures var dst := (head + |k|) % |es|;
      dst < |es| && Scanned(es[dst := w[i]], head, w, heap0, heap, k + [w[i]], i + 1, topic)
  {
    hide Owns, Views, Without, Rotated;
    var ring := Rotated(es, head);
    ScanAt(es, head, w, heap0, heap, k, i, topic);
    OneKept(w, heap0, k, i, heap, topic);
    RotatedUpdate(es, head, |k|, w[i]);
    UpdateBetween(ring, |k|, w[i], |k|, i + 1, |w|);
    assert ring[|k| := w[i]][..|k| + 1] == ring[..|k|] + [w[i]];
  }

  lemma LiveSlot(a: seq<Slot>, x: Slot, b: seq<Slot>, heap: Heap)
    requires Owns(a + [x] + b, heap)
    ensures x.block.Some? ==> x.block.value in heap
  {
    assert (a + [x] + b)[|a|] == x;
  }

  /** Writing at `at`, between a front part and a back part, changes neither. */
  lemma UpdateBetween(s: seq<Slot>, at: nat, v: Slot, front: nat, back: nat, end: nat)
    requires front <= at < back <= end <= |s|
    ensures s[at := v][..front] == s[..front] && s[at := v][back..end] == s[back..end]
  {
  }

  lemma ScanEnd(es: seq<Slot>, head: nat, w: seq<Slot>, heap0: Heap, heap: Heap, k: seq<Slot>, topic: string)
    requires Scanned(es, head, w, heap0, heap, k, |w|, topic)
    ensures Rotated(es, head)[..|k|] == k && Owns(k, heap) && Views(k, heap) == Without(Views(w, heap0), topic)
  {
    hide Owns, Views, Without, Rotated;
    AllSeen(w, heap0, k, heap, topic);
  }

  lemma AllSeen(w: seq<Slot>, heap0: Heap, k: seq<Slot>, heap: Heap, topic: string)
    requires Owns(k + w[|w|..], heap)
    requires Views(k, heap) + Views(w[|w|..], heap) == Without(Views(w, heap0)[..|w|], topic) + Views(w, heap0)[|w|..]
    ensures Owns(k, heap) && Views(k, heap) == Without(Views(w, heap0), topic)
  {
    hide Owns, Without;
    assert k + w[|w|..] == k && w[|w|..] == [];
    assert Views(w, heap0)[..|w|] == Views(w, heap0) && Views(w, heap0)[|w|..] == [];
    assert Views(k, heap) + [] == Views(k, heap);
  }

  lemma Placed(es: seq<Slot>, head: nat, n: nat, v: Slot)
    requires head < |es| && n < |es|
    ensures (head + n) % |es| < |es|
    ensures Rotated(es[(head + n) % |es| := v], head)[..n + 1] == Rotated(es, head)[..n] + [v]
  {
    hide Rotated;
    RotatedUpdate(es, head, n, v);
  }

  lemma PlacedFull(es: seq<Slot>, head: nat, v: Slot)
    requires head < |es|
    ensures (head + |es|) % |es| == head && (head + 1) % |es| < |es| && Rotated(es, head)[..|es|][0] == es[head]
    ensures Rotated(es[head := v], (head + 1) % |es|)[..|es|] == Rotated(es, head)[..|es|][1..] + [v]
  {
    Wrap(head, |es|);
    Small(head, |es|);
    RotatedUpdate(es, head, 0, v);
    RotatedNext(es[head := v], head);
  }

  /** The oldest slot of a window leaves. */
  lemma FullWindow(w: seq<Slot>, heap: Heap)
    requires w != [] && Owns(w, heap)
    ensures w[0].block.Some? ==> w[0].block.value in heap
    ensures Owns(w[1..], Freed(heap, w[0].block)) && Views(w[1..], Freed(heap, w[0].block)) == Views(w, heap)[1..]
  {
    hide Owns, Freed;
    assert w == [] + [w[0]] + w[1..];
    FreedOwns([], w[0], w[1..], heap);
    FreedViews([], w[0], w[1..], heap);
    assert [] + w[1..] == w[1..];
    assert Views([], heap) + Views(w[1..], heap) == Views(w, heap)[1..];
  }
}
