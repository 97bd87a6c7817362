/** The subscribe and reconnect protocol of src/core/mqtt_client.c: the main thread storing and
    sending subscriptions races the network thread re-sending them after a connect.

    One step is one access to the shared state, or one call into the MQTT library.  `attempts`
    is history: the filters passed to mosquitto_subscribe since the latest successful connect. */
module Reconnect {
  import opened Text

  const MAX_SUBS := 32
  const FILTER_LEN := 256

  datatype Conn = Disconnected | Connecting | Connected

  datatype Mutex = Free | HeldByMain | HeldByNet

  /** Program points of on_connect; the other callbacks are single steps. */
  datatype Net =
    | Quiet
    | WantLock           // CONNECTED is stored, sub_mutex not yet taken
    | Resending(i: nat)  // inside the loop, holding sub_mutex

  /** Program points of mqtt_client_subscribe. */
  datatype Main =
    | Idle
    | WantStore(f: string)
    | Storing(f: string)    // holding sub_mutex
    | Stored(f: string)     // holding sub_mutex, slot written
    | Checking(f: string)   // about to load conn_state
    | WantSend(f: string)   // CONNECTED was seen
    | Sending(f: string)    // holding sub_mutex
    | Sent                  // holding sub_mutex

  datatype State = State(
    open: bool, conn: Conn, stored: seq<string>, mutex: Mutex, net: Net, main: Main,
    requested: seq<string>, attempts: seq<string>)

  datatype Step =
    | Connect            // mqtt_client_connect: no network thread while it runs
    | Close              // mqtt_client_disconnect, likewise
    | Subscribe(f: string)
    | LockToStore | Store | UnlockStored | LoadState | LockToSend | Send | UnlockSent
    | ConnAck            // on_connect with rc 0 stores CONNECTED
    | Refused            // on_connect with rc != 0
    | Lost               // on_disconnect
    | NetLock | NetSend | NetUnlock

  const Init: State := State(false, Disconnected, [], Free, Quiet, Idle, [], [])

  predicate Enabled(s: State, a: Step) {
    match a
    case Connect => s.main.Idle? && s.net.Quiet?
    case Close => s.main.Idle? && s.net.Quiet? && s.open
    case Subscribe(_) => s.main.Idle? && s.open
    case LockToStore => s.main.WantStore? && s.mutex.Free?
    case Store => s.main.Storing?
    case UnlockStored => s.main.Stored?
    case LoadState => s.main.Checking?
    case LockToSend => s.main.WantSend? && s.mutex.Free?
    case Send => s.main.Sending?
    case UnlockSent => s.main.Sent?
    case ConnAck => s.open && s.net.Quiet?
    case Refused => s.open && s.net.Quiet?
    case Lost => s.open && s.net.Quiet?
    case NetLock => s.net.WantLock? && s.mutex.Free?
    case NetSend => s.net.Resending? && s.net.i < |s.stored|
    case NetUnlock => s.net.Resending? && s.net.i >= |s.stored|
  }

  function Next(s: State, a: Step): State
    requires Enabled(s, a)
  {
    match a
    case Connect => s.(open := true, conn := Connecting, stored := [], requested := [])
    case Close => s.(open := false, conn := Disconnected)
    case Subscribe(f) => s.(main := WantStore(f), requested := s.requested + [f])
    case LockToStore => s.(mutex := HeldByMain, main := Storing(s.main.f))
    case Store =>
      s.(main := Stored(s.main.f),
         stored := if |s.stored| < MAX_SUBS then s.stored + [Clip(s.main.f, FILTER_LEN)] else s.stored)
    case UnlockStored => s.(mutex := Free, main := Checking(s.main.f))
    case LoadState => s.(main := if s.conn.Connected? then WantSend(s.main.f) else Idle)
    case LockToSend => s.(mutex := HeldByMain, main := Sending(s.main.f))
    case Send => s.(main := Sent, attempts := s.attempts + [s.main.f])
    case UnlockSent => s.(mutex := Free, main := Idle)
    case ConnAck => s.(conn := Connected, net := WantLock, attempts := [])
    case Refused => s.(conn := Disconnected)
    case Lost => s.(conn := Disconnected)
    case NetLock => s.(mutex := HeldByNet, net := Resending(0))
    case NetSend => s.(net := Resending(s.net.i + 1), attempts := s.attempts + [s.stored[s.net.i]])
    case NetUnlock => s.(mutex := Free, net := Quiet)
  }

  // ----- the invariant

  /** The filter mqtt_client_subscribe is working on, once stored and until sent. */
  function InHand(m: Main): Option<string> {
    match m
    case Stored(f) => Some(f)
    case Checking(f) => Some(f)
    case WantSend(f) => Some(f)
    case Sending(f) => Some(f)
    case _ => None
  }

  /** Slot k has been sent since the connect, or one of the threads is about to send it. */
  predicate Covered(s: State, k: nat)
    requires k < |s.stored|
  {
    || s.stored[k] in s.attempts
    || s.net.WantLock?
    || (s.net.Resending? && s.net.i <= k)
    || (k == |s.stored| - 1 && InHand(s.main) == Some(s.stored[k]))
  }

  predicate Inv(s: State) {
    && (s.mutex.HeldByNet? <==> s.net.Resending?)
    && (s.mutex.HeldByMain? <==> s.main.Storing? || s.main.Stored? || s.main.Sending? || s.main.Sent?)
    && (s.conn.Connected? ==> forall k :: 0 <= k < |s.stored| ==> Covered(s, k))
    && (s.net.WantLock? || s.net.Resending? ==> s.conn.Connected?)
    && |s.stored| <= MAX_SUBS
  }

  /** Every filter handed to subscribe fits its slot. */
  predicate Fitting(s: State) {
    && (forall k :: 0 <= k < |s.requested| ==> |s.requested[k]| < FILTER_LEN)
    && (s.main.WantStore? || s.main.Storing? || InHand(s.main).Some? ==>
         s.requested != [] && s.requested[|s.requested| - 1] == s.main.f)
  }

  lemma StepKeepsInv(s: State, a: Step)
    requires Inv(s) && Fitting(s) && Enabled(s, a)
    ensures Inv(Next(s, a))
  {
    var t := Next(s, a);
    if t.conn.Connected? {
      forall k | 0 <= k < |t.stored|
        ensures Covered(t, k)
      {
        assert k < |s.stored| && s.conn.Connected? ==> Covered(s, k);
      }
    }
  }

  lemma StepKeepsFitting(s: State, a: Step)
    requires Fitting(s) && Enabled(s, a)
    requires a.Subscribe? ==> |a.f| < FILTER_LEN
    ensures Fitting(Next(s, a))
  {
  }

  /** Stored slots are what was asked for, one slot each, until the table is full. */
  predicate Tracked(s: State) {
    && var done := |s.requested| - (if s.main.WantStore? || s.main.Storing? then 1 else 0);
    && 0 <= done
    && |s.stored| == (if done < MAX_SUBS then done else MAX_SUBS)
    && forall k :: 0 <= k < |s.stored| ==> s.stored[k] == Clip(s.requested[k], FILTER_LEN)
  }

  lemma StepKeepsTracked(s: State, a: Step)
    requires Tracked(s) && Fitting(s) && Enabled(s, a)
    ensures Tracked(Next(s, a))
  {
  }

  // ----- every run

  predicate Legal(s: State, run: seq<Step>)
    decreases |run|
  {
    run == [] || (Enabled(s, run[0]) && Legal(Next(s, run[0]), run[1..]))
  }

  function After(s: State, run: seq<Step>): State
    requires Legal(s, run)
    decreases |run|
  {
    if run == [] then s else After(Next(s, run[0]), run[1..])
  }

  /** Only filters of `fs` are subscribed to. */
  predicate Asks(run: seq<Step>, fs: set<string>) {
    forall k :: 0 <= k < |run| && run[k].Subscribe? ==> run[k].f in fs
  }

  lemma {:induction false} RunKeepsInv(s: State, run: seq<Step>, fs: set<string>)
    requires Inv(s) && Fitting(s) && Tracked(s) && Legal(s, run) && Asks(run, fs)
    requires forall f :: f in fs ==> |f| < FILTER_LEN
    ensures var t := After(s, run); Inv(t) && Fitting(t) && Tracked(t)
    decreases |run|
  {
    hide Inv, Fitting, Tracked, Enabled, Next;
    if run != [] {
      StepKeepsInv(s, run[0]);
      StepKeepsFitting(s, run[0]);
      StepKeepsTracked(s, run[0]);
      RunKeepsInv(Next(s, run[0]), run[1..], fs);
    }
  }

  // ----- what a run says by itself

  /** The filters asked for since the client was last told to connect. */
  function RequestedBy(run: seq<Step>): seq<string> {
    if run == [] then []
    else
      match run[|run| - 1]
      case Connect => []
      case Subscribe(f) => RequestedBy(run[..|run| - 1]) + [f]
      case _ => RequestedBy(run[..|run| - 1])
  }

  /** The filter of the latest call of mqtt_client_subscribe. */
  function LatestBy(run: seq<Step>): string {
    if run == [] then ""
    else if run[|run| - 1].Subscribe? then run[|run| - 1].f
    else LatestBy(run[..|run| - 1])
  }

  /** The slots since then: the first 32 filters stored, 255 characters of each. */
  function StoredBy(run: seq<Step>): seq<string> {
    if run == [] then []
    else
      var before := run[..|run| - 1];
      match run[|run| - 1]
      case Connect => []
      case Store =>
        var f := LatestBy(before);
        if |StoredBy(before)| < 32 then StoredBy(before) + [if |f| < 256 then f else f[..255]] else StoredBy(before)
      case _ => StoredBy(before)
  }

  /** How many slots on_connect has sent in its latest turn. */
  function ResentBy(run: seq<Step>): nat {
    if run == [] then 0
    else
      match run[|run| - 1]
      case NetLock => 0
      case NetSend => ResentBy(run[..|run| - 1]) + 1
      case _ => ResentBy(run[..|run| - 1])
  }

  /** The filters given to the library since the latest successful connect. */
  function TriedBy(run: seq<Step>): seq<string> {
    if run == [] then []
    else
      var before := run[..|run| - 1];
      match run[|run| - 1]
      case ConnAck => []
      case Send => TriedBy(before) + [LatestBy(before)]
      case NetSend =>
        TriedBy(before) + if ResentBy(before) < |StoredBy(before)| then [StoredBy(before)[ResentBy(before)]] else []
      case _ => TriedBy(before)
  }

  /** The connection stands: since the latest acknowledgement nothing has ended it. */
  predicate ConnectedBy(run: seq<Step>) {
    run != [] &&
    match run[|run| - 1]
    case ConnAck => true
    case Connect => false
    case Close => false
    case Refused => false
    case Lost => false
    case _ => ConnectedBy(run[..|run| - 1])
  }

  /** The state is what the run says. */
  predicate Ledger(s: State, run: seq<Step>) {
    && s.requested == RequestedBy(run) && s.stored == StoredBy(run) && s.attempts == TriedBy(run)
    && (s.conn.Connected? <==> ConnectedBy(run))
    && (s.net.Resending? ==> s.net.i == ResentBy(run))
    && (s.main.WantStore? || s.main.Storing? || InHand(s.main).Some? ==> s.main.f == LatestBy(run))
  }

  lemma {:induction false} RunOneMore(s: State, run: seq<Step>, a: Step)
    requires Legal(s, run + [a])
    ensures Legal(s, run) && Enabled(After(s, run), a) && After(s, run + [a]) == Next(After(s, run), a)
    decreases |run|
  {
    hide Enabled, Next;
    assert (run + [a])[0] == if run == [] then a else run[0];
    if run == [] {
      assert (run + [a])[1..] == [];
    } else {
      assert (run + [a])[1..] == run[1..] + [a];
      RunOneMore(Next(s, run[0]), run[1..], a);
    }
  }

  lemma LedgerStep(s: State, run: seq<Step>, a: Step)
    requires Ledger(s, run) && Enabled(s, a)
    ensures Ledger(Next(s, a), run + [a])
  {
    assert (run + [a])[..|run|] == run;
  }

  lemma {:induction false} RunKeepsLedger(run: seq<Step>)
    requires Legal(Init, run)
    ensures Ledger(After(Init, run), run)
  {
    hide Enabled, Next, Ledger;
    if run == [] {
      LedgerStart();
    } else {
      var init, a := run[..|run| - 1], run[|run| - 1];
      assert run == init + [a];
      RunOneMore(Init, init, a);
      RunKeepsLedger(init);
      LedgerStep(After(Init, init), init, a);
    }
  }

  lemma LedgerStart()
    ensures Ledger(Init, [])
  {
  }

  predicate AtRest(s: State) { s.main.Idle? && s.net.Quiet? }

  /** Connected and at rest, every stored filter has been sent since the connect. */
  predicate NoneLost(run: seq<Step>)
    requires Legal(Init, run)
  {
    AtRest(After(Init, run)) && ConnectedBy(run) ==> forall f :: f in StoredBy(run) ==> f in TriedBy(run)
  }

  /** The requests that get a slot. */
  function FirstSlots(fs: seq<string>): seq<string> {
    if |fs| <= MAX_SUBS then fs else fs[..MAX_SUBS]
  }

  /** Whatever the interleaving, no stored subscription is lost, as long as filters fit their slots. */
  lemma StoredFiltersAreSent(run: seq<Step>, fs: set<string>)
    requires Legal(Init, run) && Asks(run, fs) && forall f :: f in fs ==> |f| < FILTER_LEN
    ensures NoneLost(run)
  {
    hide Legal, After;
    RunKeepsInv(Init, run, fs);
    RunKeepsLedger(run);
    var t := After(Init, run);
    if AtRest(t) && t.conn.Connected? {
      forall f | f in t.stored
        ensures f in t.attempts
      {
        var k :| 0 <= k < |t.stored| && t.stored[k] == f;
        assert Covered(t, k);
      }
    }
  }

  /** And the first 32 filters asked for, however many there are, are among them. */
  lemma RequestedFiltersAreSent(run: seq<Step>, fs: set<string>)
    requires Legal(Init, run) && Asks(run, fs) && forall f :: f in fs ==> |f| < FILTER_LEN
    ensures AtRest(After(Init, run)) && ConnectedBy(run) ==>
      forall f :: f in FirstSlots(RequestedBy(run)) ==> f in TriedBy(run)
  {
    hide Legal, After;
    RunKeepsInv(Init, run, fs);
    RunKeepsLedger(run);
    StoredFiltersAreSent(run, fs);
    var t := After(Init, run);
    if AtRest(t) && t.conn.Connected? {
      forall f | f in FirstSlots(t.requested)
        ensures f in t.attempts
      {
        var k :| 0 <= k < |FirstSlots(t.requested)| && FirstSlots(t.requested)[k] == f;
        assert t.requested[k] == f && t.stored[k] == f && f in t.stored;
      }
    }
  }

  // ----- both limits are real

  lemma {:induction false} Extend(s: State, run: seq<Step>, a: Step)
    requires Legal(s, run) && Enabled(After(s, run), a)
    ensures Legal(s, run + [a]) && After(s, run + [a]) == Next(After(s, run), a)
    decreases |run|
  {
    hide Enabled, Next;
    if run == [] {
      assert [] + [a] == [a] && [a][1..] == [];
      assert Legal(Next(s, a), []);
    } else {
      Extend(Next(s, run[0]), run[1..], a);
      assert (run + [a])[1..] == run[1..] + [a];
    }
  }

  lemma {:induction false} Concat(s: State, run: seq<Step>, more: seq<Step>)
    requires Legal(s, run) && Legal(After(s, run), more)
    ensures Legal(s, run + more) && After(s, run + more) == After(After(s, run), more)
    decreases |run|
  {
    hide Enabled, Next;
    if run == [] {
      assert run + more == more;
    } else {
      Concat(Next(s, run[0]), run[1..], more);
      assert (run + more)[1..] == run[1..] + more;
    }
  }

  /** One call of mqtt_client_subscribe, seen by nobody else, up to the load of the state. */
  lemma StoreAlone(s: State, f: string) returns (run: seq<Step>)
    requires s.open && s.main.Idle? && s.mutex.Free?
    ensures Legal(s, run) && Asks(run, {f})
    ensures After(s, run) == s.(
      main := Checking(f), requested := s.requested + [f],
      stored := if |s.stored| < MAX_SUBS then s.stored + [Clip(f, FILTER_LEN)] else s.stored)
  {
    run := [];
    Extend(s, run, Subscribe(f));
    run := run + [Subscribe(f)];
    Extend(s, run, LockToStore);
    run := run + [LockToStore];
    Extend(s, run, Store);
    run := run + [Store];
    Extend(s, run, UnlockStored);
    run := run + [UnlockStored];
  }

  /** The state right after a connect to a broker, with nothing stored yet. */
  lemma ConnectAlone() returns (run: seq<Step>)
    ensures Legal(Init, run) && Asks(run, {})
    ensures After(Init, run) == State(true, Connected, [], Free, Quiet, Idle, [], [])
  {
    run := [];
    Extend(Init, run, Connect);
    run := run + [Connect];
    Extend(Init, run, ConnAck);
    run := run + [ConnAck];
    Extend(Init, run, NetLock);
    run := run + [NetLock];
    Extend(Init, run, NetUnlock);
    run := run + [NetUnlock];
  }

  lemma SendAlone(s: State) returns (run: seq<Step>)
    requires s.main.Checking? && s.conn.Connected? && s.mutex.Free?
    ensures Legal(s, run) && Asks(run, {})
    ensures After(s, run) == s.(main := Idle, attempts := s.attempts + [s.main.f])
  {
    run := [];
    Extend(s, run, LoadState);
    run := run + [LoadState];
    Extend(s, run, LockToSend);
    run := run + [LockToSend];
    Extend(s, run, Send);
    run := run + [Send];
    Extend(s, run, UnlockSent);
    run := run + [UnlockSent];
  }

  /** A filter too long for its slot is sent as it is but stored cut short, so the stored one
      is never sent while that connection lasts. */
  lemma OverlongFilterIsLost(f: string) returns (run: seq<Step>)
    requires |f| >= FILTER_LEN
    ensures Legal(Init, run) && Asks(run, {f}) && !NoneLost(run)
  {
    hide Legal, After;
    var a := ConnectAlone();
    var b := StoreAlone(After(Init, a), f);
    Concat(Init, a, b);
    var c := SendAlone(After(Init, a + b));
    Concat(Init, a + b, c);
    run := a + b + c;
    RunKeepsLedger(run);
    assert Clip(f, FILTER_LEN) in After(Init, run).stored;
    assert After(Init, run).attempts == [f];
  }

  /** No run that asks only for filters of `fs` loses a stored one, exactly when all of them
      fit their slots. */
  lemma NoneLostIffFitting(fs: set<string>)
    ensures (forall run :: Legal(Init, run) && Asks(run, fs) ==> NoneLost(run))
       <==> forall f :: f in fs ==> |f| < FILTER_LEN
  {
    hide Legal, NoneLost;
    if forall f :: f in fs ==> |f| < FILTER_LEN {
      forall run | Legal(Init, run) && Asks(run, fs)
        ensures NoneLost(run)
      {
        StoredFiltersAreSent(run, fs);
      }
    } else {
      var f :| f in fs && |f| >= FILTER_LEN;
      var run := OverlongFilterIsLost(f);
      assert Legal(Init, run) && Asks(run, fs);
    }
  }

  lemma JustConnecting() returns (run: seq<Step>)
    ensures Legal(Init, run) && Asks(run, {}) && After(Init, run) == State(true, Connecting, [], Free, Quiet, Idle, [], [])
  {
    Extend(Init, [], Connect);
    run := [] + [Connect];
  }

  function SetOf(fs: seq<string>): (r: set<string>)
    ensures forall f :: f in r <==> f in fs
  {
    set f | f in fs
  }

  /** The slots after those requests, each filter cut to its slot. */
  function Slots(fs: seq<string>): (r: seq<string>)
    ensures |r| == |FirstSlots(fs)| && forall i :: 0 <= i < |r| ==> r[i] == Clip(fs[i], FILTER_LEN)
  {
    seq(|FirstSlots(fs)|, i requires 0 <= i < |FirstSlots(fs)| => Clip(fs[i], FILTER_LEN))
  }

  lemma SlotsOneMore(fs: seq<string>, f: string)
    ensures Slots(fs + [f]) == if |Slots(fs)| < MAX_SUBS then Slots(fs) + [Clip(f, FILTER_LEN)] else Slots(fs)
  {
  }

  lemma AsksConcat(a: seq<Step>, b: seq<Step>, fs: set<string>, gs: set<string>, all: set<string>)
    requires Asks(a, fs) && Asks(b, gs) && fs <= all && gs <= all
    ensures Asks(a + b, all)
  {
  }

  lemma {:induction false} StoreAll(fs: seq<string>) returns (run: seq<Step>)
    ensures Legal(Init, run) && Asks(run, SetOf(fs))
    ensures After(Init, run) == State(true, Connecting, Slots(fs), Free, Quiet, Idle, fs, [])
    decreases |fs|
  {
    hide Legal, After, Asks;
    if fs == [] {
      run := JustConnecting();
      assert SetOf(fs) == {};
      return;
    }
    var init, f := fs[..|fs| - 1], fs[|fs| - 1];
    assert fs == init + [f];
    SlotsOneMore(init, f);
    run := StoreAll(init);
    var more := StoreOne(After(Init, run), f);
    Concat(Init, run, more);
    AsksConcat(run, more, SetOf(init), {f}, SetOf(fs));
    run := run + more;
  }

  /** A call that finds the client still connecting. */
  lemma StoreOne(s: State, f: string) returns (run: seq<Step>)
    requires s.open && s.main.Idle? && s.mutex.Free? && s.conn.Connecting?
    ensures Legal(s, run) && Asks(run, {f})
    ensures After(s, run) == s.(
      requested := s.requested + [f],
      stored := if |s.stored| < MAX_SUBS then s.stored + [Clip(f, FILTER_LEN)] else s.stored)
  {
    hide Legal, After;
    run := StoreAlone(s, f);
    Extend(s, run, LoadState);
    run := run + [LoadState];
  }

  lemma {:induction false} ResendFrom(s: State, i: nat) returns (run: seq<Step>)
    requires s.net == Resending(i) && i <= |s.stored| && s.attempts == s.stored[..i]
    ensures Legal(s, run) && Asks(run, {}) && After(s, run) == s.(mutex := Free, net := Quiet, attempts := s.stored)
    decreases |s.stored| - i
  {
    if i == |s.stored| {
      assert s.stored[..i] == s.stored;
      Extend(s, [], NetUnlock);
      return [] + [NetUnlock];
    }
    assert s.stored[..i + 1] == s.stored[..i] + [s.stored[i]];
    var more := ResendFrom(Next(s, NetSend), i + 1);
    run := [NetSend] + more;
    assert run[1..] == more;
  }

  lemma AcksAskNothing()
    ensures Asks([ConnAck], {}) && Asks([NetLock], {})
  {
  }

  /** Filters asked for while connecting: a run exists in which the connect sends the first 32
      of them, cut to their slots, and nothing else is sent. */
  lemma OnlyTheFirst32MayBeSent(fs: seq<string>) returns (run: seq<Step>)
    ensures Legal(Init, run) && Asks(run, SetOf(fs))
    ensures var t := After(Init, run);
      AtRest(t) && ConnectedBy(run) && RequestedBy(run) == fs && TriedBy(run) == Slots(fs)
  {
    hide Legal, After, Asks;
    run := StoreAll(fs);
    Extend(Init, run, ConnAck);
    Extend(Init, run + [ConnAck], NetLock);
    var more := ResendFrom(After(Init, run + [ConnAck] + [NetLock]), 0);
    Concat(Init, run + [ConnAck] + [NetLock], more);
    AcksAskNothing();
    var all := SetOf(fs);
    AsksConcat(run, [ConnAck], all, {}, all);
    AsksConcat(run + [ConnAck], [NetLock], all, {}, all);
    AsksConcat(run + [ConnAck] + [NetLock], more, all, {}, all);
    run := run + [ConnAck] + [NetLock] + more;
    RunKeepsLedger(run);
  }

  /** Connected, at rest and asked for `fs`, every filter asked for has been sent. */
  predicate AllSent(run: seq<Step>, fs: seq<string>)
    requires Legal(Init, run)
  {
    AtRest(After(Init, run)) && ConnectedBy(run) && RequestedBy(run) == fs ==> forall f :: f in fs ==> f in TriedBy(run)
  }

  /** All requests are sent in every run, exactly when each fits its slot and is among the
      first 32. */
  lemma AllSentIffFirstAndFitting(fs: seq<string>)
    ensures (forall run :: Legal(Init, run) && Asks(run, SetOf(fs)) ==> AllSent(run, fs))
       <==> forall f :: f in fs ==> |f| < FILTER_LEN && f in FirstSlots(fs)
  {
    hide Legal, After, Asks;
    if forall f :: f in fs ==> |f| < FILTER_LEN && f in FirstSlots(fs) {
      forall run | Legal(Init, run) && Asks(run, SetOf(fs))
        ensures AllSent(run, fs)
      {
        RequestedFiltersAreSent(run, SetOf(fs));
      }
    } else {
      var run := OnlyTheFirst32MayBeSent(fs);
      UnsentFilter(fs);
      assert !AllSent(run, fs);
    }
  }

  /** Then some request is in no slot. */
  lemma UnsentFilter(fs: seq<string>)
    requires exists f :: f in fs && !(|f| < FILTER_LEN && f in FirstSlots(fs))
    ensures exists f :: f in fs && f !in Slots(fs)
  {
    if f :| f in fs && |f| >= FILTER_LEN {
      assert f !in Slots(fs);
    } else {
      var f :| f in fs && f !in FirstSlots(fs);
      forall i | 0 <= i < |Slots(fs)|
        ensures Slots(fs)[i] != f
      {
        assert FirstSlots(fs)[i] == fs[i] && fs[i] in fs;
      }
    }
  }
}
