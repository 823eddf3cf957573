/**
  One relay session on a single-threaded event loop: two half-duplex pumps, two deadline
  watchdogs and stop.  A handler runs as one step; the environment completes operations, lets
  timers expire and moves the clock in between.  Direction 0 carries bytes from the client to
  the server, direction 1 those from the server to the client.
 */
module RelayProtocol {

  type Time = nat
  type Byte = bv8

  const BUFFER_SIZE: nat := 1024

  /** The operation on a direction's buffer. */
  datatype PumpOp =
    | NoOp
    | Receiving
    | Received(n: nat)               // completed, handler queued
    | Sending(n: nat, off: nat)      // bytes off to n of the buffer are still to be written
    | Sent                           // completed, handler queued
    | Failed                         // completed with an error, handler queued

  /** The wait on a direction's watchdog timer. */
  datatype Timer =
    | Idle
    | Waiting(expiry: Time)
    | Fired(expiry: Time)            // completed, handler queued
    | Aborted                        // cancelled, handler queued

  /** received, sent, lost, lastStart and rearmed are bookkeeping: the bytes read and written so far,
      those that were still to be written when an operation failed, when the direction last started an operation, and how often its watchdog was armed again
      since then.  overlap says that an operation or wait was started while another was pending. */
  datatype Dir = Dir(
    op: PumpOp,
    buffer: seq<Byte>,
    deadline: Time,
    timer: Timer,
    received: seq<Byte>,
    sent: seq<Byte>,
    lost: seq<Byte>,
    lastStart: Time,
    rearmed: nat,
    overlap: bool)

  datatype Connection = Connecting | Connected | ConnectFailed | Relaying | Abandoned

  datatype State = State(now: Time, timeout: Time, connection: Connection, open: bool, d0: Dir, d1: Dir)

  datatype Action =
    | Tick(t: Time)
    | FinishConnect(ok: bool)
    | FinishReceive(d: bool, data: seq<Byte>)
    | WriteSome(d: bool, m: nat)
    | FinishSend(d: bool)
    | FailOp(d: bool)
    | Expire(d: bool)
    // handlers, with the clock readings they take
    | RunConnect(t1: Time, t2: Time, t3: Time, t4: Time)
    | RunPump(d: bool, t: Time)
    | RunTimer(d: bool, t: Time)

  function Get(s: State, d: bool): Dir {
    if d then s.d1 else s.d0
  }

  function Put(s: State, d: bool, x: Dir): State {
    if d then s.(d1 := x) else s.(d0 := x)
  }

  predicate IsInitDir(x: Dir) {
    x == Dir(NoOp, x.buffer, 0, Idle, [], [], [], 0, 0, false) && |x.buffer| == BUFFER_SIZE
  }

  predicate IsInit(s: State) {
    s.connection == Connecting && s.open && IsInitDir(s.d0) && IsInitDir(s.d1)
  }

  // ---------- The routines ----------

  /** watchdog::delay */
  function Delay(x: Dir, t: Time, timeout: Time): Dir {
    x.(deadline := t + timeout, lastStart := t, rearmed := 0)
  }

  /** receive_from_client, receive_from_server */
  function Receive(s: State, d: bool, t: Time): State {
    var x := Get(s, d);
    Put(s, d, Delay(x.(op := Receiving, overlap := x.overlap || x.op != NoOp), t, s.timeout))
  }

  /** send_to_server, send_to_client */
  function Send(s: State, d: bool, n: nat, t: Time): State {
    var x := Get(s, d);
    Put(s, d, Delay(x.(op := Sending(n, 0), overlap := x.overlap || x.op != NoOp), t, s.timeout))
  }

  /** watchdog::stop: only a wait that has not completed is aborted. */
  function Cancel(x: Dir): Dir {
    if x.timer.Waiting? then x.(timer := Aborted) else x
  }

  /** session::stop */
  function Stop(s: State): State {
    s.(open := false, d0 := Cancel(s.d0), d1 := Cancel(s.d1))
  }

  /** watchdog::start, with the callback that stops the session. */
  function Watch(s: State, d: bool, t: Time): State {
    var x := Get(s, d);
    if t >= x.deadline then Stop(s)
    else Put(s, d, x.(timer := Waiting(x.deadline), overlap := x.overlap || x.timer != Idle))
  }

  /** The bytes received and still to be written: those of the buffer while there is an operation on
      them, those that were lost once one has failed. */
  function InFlight(x: Dir): seq<Byte> {
    match x.op
    case Received(n) => if n <= |x.buffer| then x.buffer[..n] else []
    case Sending(n, off) => if off <= n <= |x.buffer| then x.buffer[off..n] else []
    case Receiving => []
    case Sent => []
    case _ => x.lost
  }

  predicate Enabled(s: State, a: Action) {
    match a
    case Tick(t) => s.now <= t
    case FinishConnect(_) => s.connection.Connecting?
    case FinishReceive(d, data) => Get(s, d).op.Receiving? && s.open && 0 < |data| <= |Get(s, d).buffer|
    case WriteSome(d, m) =>
      Get(s, d).op.Sending? && s.open && Get(s, d).op.off + m <= Get(s, d).op.n <= |Get(s, d).buffer|
    case FinishSend(d) => Get(s, d).op.Sending? && Get(s, d).op.off == Get(s, d).op.n
    case FailOp(d) => Get(s, d).op.Receiving? || Get(s, d).op.Sending?
    case Expire(d) => Get(s, d).timer.Waiting? && Get(s, d).timer.expiry <= s.now
    case RunConnect(t1, t2, t3, t4) =>
      (s.connection.Connected? || s.connection.ConnectFailed?) && s.now <= t1 <= t2 <= t3 <= t4
    case RunPump(d, t) => s.now <= t && (Get(s, d).op.Received? || Get(s, d).op.Sent? || Get(s, d).op.Failed?)
    case RunTimer(d, t) => s.now <= t && (Get(s, d).timer.Fired? || Get(s, d).timer.Aborted?)
  }

  function FinishReceiveOf(x: Dir, data: seq<Byte>): Dir
    requires |data| <= |x.buffer|
  {
    x.(op := Received(|data|), buffer := data + x.buffer[|data|..], received := x.received + data)
  }

  function WriteSomeOf(x: Dir, m: nat): Dir
    requires x.op.Sending? && x.op.off + m <= x.op.n <= |x.buffer|
  {
    x.(op := Sending(x.op.n, x.op.off + m), sent := x.sent + x.buffer[x.op.off..x.op.off + m])
  }

  /** handle_receive and handle_write of direction d. */
  function RunPumpOf(s: State, d: bool, t: Time): State {
    var op := Get(s, d).op;
    var s1 := Put(s, d, Get(s, d).(op := NoOp)).(now := t);
    match op
    case Received(n) => Send(s1, d, n, t)
    case Sent => Receive(s1, d, t)
    case _ => Stop(s1)
  }

  /** watchdog::start as handle_wait calls it. */
  function RestartOf(s: State, d: bool, t: Time): State {
    var x, s1 := Get(s, d), Watch(s, d, t);
    if t >= x.deadline then s1 else Put(s1, d, Get(s1, d).(rearmed := x.rearmed + 1))
  }

  /** handle_wait of direction d. */
  function RunTimerOf(s: State, d: bool, t: Time): State {
    var x := Get(s, d);
    var s1 := Put(s, d, x.(timer := Idle)).(now := t);
    if x.timer.Fired? then RestartOf(s1, d, t) else s1
  }

  /** handle_connect */
  function RunConnectOf(s: State, t1: Time, t2: Time, t3: Time, t4: Time): State {
    if s.connection.ConnectFailed? then s.(connection := Abandoned, now := t4)
    else
      Watch(Watch(Receive(Receive(s.(connection := Relaying), false, t1), true, t2), false, t3), true, t4).(now := t4)
  }

  function Do(s: State, a: Action): State
    requires Enabled(s, a)
  {
    match a
    case Tick(t) => s.(now := t)
    case FinishConnect(ok) => s.(connection := if ok then Connected else ConnectFailed)
    case FinishReceive(d, data) => Put(s, d, FinishReceiveOf(Get(s, d), data))
    case WriteSome(d, m) => Put(s, d, WriteSomeOf(Get(s, d), m))
    case FinishSend(d) => Put(s, d, Get(s, d).(op := Sent))
    case FailOp(d) => Put(s, d, Get(s, d).(op := Failed, lost := InFlight(Get(s, d))))
    case Expire(d) => Put(s, d, Get(s, d).(timer := Fired(Get(s, d).timer.expiry)))
    case RunConnect(t1, t2, t3, t4) => RunConnectOf(s, t1, t2, t3, t4)
    case RunPump(d, t) => RunPumpOf(s, d, t)
    case RunTimer(d, t) => RunTimerOf(s, d, t)
  }

  predicate IsHandler(a: Action) {
    a.RunConnect? || a.RunPump? || a.RunTimer?
  }

  // ---------- The invariant ----------

  /** The bytes received are those sent and then those in flight. */
  predicate Faithful(x: Dir) {
    && |x.buffer| == BUFFER_SIZE
    && x.received == x.sent + InFlight(x) && |InFlight(x)| <= BUFFER_SIZE
    && match x.op
       case Received(n) => 0 < n <= BUFFER_SIZE
       case Sending(n, off) => off <= n <= BUFFER_SIZE && 0 < n
       case _ => true
  }

  /** The watchdog's deadline follows the direction's last operation; what is armed is never later
      than the deadline, and is the deadline itself once it was armed again. */
  predicate Watched(x: Dir, now: Time, timeout: Time) {
    && x.deadline == x.lastStart + timeout
    && x.lastStart <= now
    && x.rearmed <= 1
    && (x.timer.Waiting? || x.timer.Fired? ==> x.timer.expiry <= x.deadline)
    && (x.timer.Fired? ==> x.timer.expiry <= now)
    && (x.rearmed == 1 && (x.timer.Waiting? || x.timer.Fired?) ==> x.timer.expiry == x.deadline)
  }

  predicate DirOk(x: Dir, s: State) {
    && Faithful(x) && !x.overlap
    && (if s.connection.Relaying? then
          Watched(x, s.now, s.timeout) && (s.open ==> x.op != NoOp && (x.timer.Waiting? || x.timer.Fired?))
        else
          x.op == NoOp && x.timer == Idle && s.open && x.received == [])
  }

  ghost predicate Inv(s: State) {
    forall d :: DirOk(Get(s, d), s)
  }

  lemma InitInv(s: State)
    requires IsInit(s)
    ensures Inv(s)
  {
  }

  /** Every direction is all right if direction d is and the other one is merely later, or cancelled. */
  lemma OneChanged(s: State, t: State, d: bool)
    requires Inv(s) && DirOk(Get(t, d), t)
    requires s.connection.Relaying? && t.connection.Relaying? && s.now <= t.now && s.timeout == t.timeout
    requires Get(t, !d) == if s.open == t.open then Get(s, !d) else Cancel(Get(s, !d))
    requires t.open ==> s.open
    ensures Inv(t)
  {
    assert DirOk(Get(s, !d), s);
    assert DirOk(Get(t, !d), t);
    forall e ensures DirOk(Get(t, e), t) { assert e == d || e == !d; }
  }

  lemma ReceiveFaithful(x: Dir, data: seq<Byte>)
    requires Faithful(x) && x.op.Receiving? && 0 < |data| <= |x.buffer|
    ensures Faithful(FinishReceiveOf(x, data))
  {
    assert (data + x.buffer[|data|..])[..|data|] == data;
  }

  lemma SliceMoves<T>(received: seq<T>, sent: seq<T>, buffer: seq<T>, off: nat, mid: nat, n: nat)
    requires off <= mid <= n <= |buffer| && received == sent + buffer[off..n]
    ensures received == sent + buffer[off..mid] + buffer[mid..n]
  {
  }

  lemma WriteFaithful(x: Dir, m: nat)
    requires Faithful(x) && x.op.Sending? && x.op.off + m <= x.op.n <= |x.buffer|
    ensures Faithful(WriteSomeOf(x, m))
  {
    SliceMoves(x.received, x.sent, x.buffer, x.op.off, x.op.off + m, x.op.n);
  }

  /** A change of nothing but the bytes and the operation. */
  lemma BytesChanged(s: State, t: State, d: bool)
    requires Inv(s) && s.connection.Relaying? && Get(s, d).op != NoOp
    requires t == Put(s, d, Get(s, d).(op := Get(t, d).op, buffer := Get(t, d).buffer,
                                       received := Get(t, d).received, sent := Get(t, d).sent))
    requires Faithful(Get(t, d)) && Get(t, d).op != NoOp
    ensures Inv(t)
  {
    assert DirOk(Get(s, d), s);
    OneChanged(s, t, d);
  }

  lemma FinishReceiveInv(s: State, d: bool, data: seq<Byte>)
    requires Inv(s) && Enabled(s, FinishReceive(d, data))
    ensures Inv(Do(s, FinishReceive(d, data)))
  {
    assert DirOk(Get(s, d), s);
    ReceiveFaithful(Get(s, d), data);
    BytesChanged(s, Do(s, FinishReceive(d, data)), d);
  }

  lemma WriteSomeInv(s: State, d: bool, m: nat)
    requires Inv(s) && Enabled(s, WriteSome(d, m))
    ensures Inv(Do(s, WriteSome(d, m)))
  {
    assert DirOk(Get(s, d), s);
    WriteFaithful(Get(s, d), m);
    BytesChanged(s, Do(s, WriteSome(d, m)), d);
  }

  lemma FinishInv(s: State, a: Action)
    requires Inv(s) && Enabled(s, a) && (a.FinishSend? || a.FailOp? || a.Expire?)
    ensures Inv(Do(s, a))
  {
    assert DirOk(Get(s, a.d), s);
    OneChanged(s, Do(s, a), a.d);
  }

  lemma StopOk(x: Dir, s: State, y: Dir, t: State)
    requires DirOk(x, s) && s.connection.Relaying? && s.now <= t.now
    requires t.connection.Relaying? && !t.open && t.timeout == s.timeout
    requires (y == Cancel(x.(op := NoOp)) && x.op.Failed?) || y == Cancel(x.(timer := Idle)) || y == x.(timer := Idle)
    ensures DirOk(y, t)
  {
  }

  lemma PumpFails(s: State, d: bool, t: Time)
    requires Inv(s) && Enabled(s, RunPump(d, t)) && Get(s, d).op.Failed?
    ensures Inv(Do(s, RunPump(d, t)))
  {
    var u, x := Do(s, RunPump(d, t)), Get(s, d);
    assert DirOk(x, s);
    assert Get(u, d) == Cancel(x.(op := NoOp)) && Get(u, !d) == Cancel(Get(s, !d));
    StopOk(x, s, Get(u, d), u);
    StopInv(s, u, d);
  }

  lemma PumpGoesOn(s: State, d: bool, t: Time)
    requires Inv(s) && Enabled(s, RunPump(d, t)) && !Get(s, d).op.Failed?
    ensures Inv(Do(s, RunPump(d, t)))
  {
    assert DirOk(Get(s, d), s);
    OneChanged(s, Do(s, RunPump(d, t)), d);
  }

  lemma StopInv(s: State, t: State, d: bool)
    requires Inv(s) && DirOk(Get(t, d), t) && !t.open
    requires s.connection.Relaying? && t.connection.Relaying? && s.now <= t.now && s.timeout == t.timeout
    requires Get(t, !d) == Cancel(Get(s, !d))
    ensures Inv(t)
  {
    assert DirOk(Get(s, !d), s);
    assert DirOk(Get(t, !d), t);
    forall e ensures DirOk(Get(t, e), t) { assert e == d || e == !d; }
  }

  lemma TimerInv(s: State, d: bool, t: Time)
    requires Inv(s) && Enabled(s, RunTimer(d, t))
    ensures Inv(Do(s, RunTimer(d, t)))
  {
    var u, x := Do(s, RunTimer(d, t)), Get(s, d);
    assert DirOk(x, s);
    if x.timer.Fired? && t >= x.deadline {
      assert Get(u, d) == Cancel(x.(timer := Idle)) && Get(u, !d) == Cancel(Get(s, !d));
      StopOk(x, s, Get(u, d), u);
      StopInv(s, u, d);
    } else {
      OneChanged(s, u, d);
    }
  }

  /** What both directions look like once the pumps were started, and the timers perhaps. */
  predicate Started(x: Dir, t: Time, s: State) {
    && Faithful(x) && !x.overlap && x.op == Receiving && x.rearmed == 0
    && x.lastStart == t && x.deadline == t + s.timeout
  }

  lemma WatchStarted(s: State, e: bool, t: Time, t1: Time, t2: Time)
    requires Started(s.d0, t1, s) && Started(s.d1, t2, s) && Get(s, e).timer == Idle
    ensures var u := Watch(s, e, t);
            && Started(u.d0, t1, u) && Started(u.d1, t2, u)
            && u.open == (s.open && t < Get(s, e).deadline) && u.connection == s.connection && u.timeout == s.timeout
            && Get(u, e).timer == (if t < Get(s, e).deadline then Waiting(Get(s, e).deadline) else Idle)
            && (Get(u, !e).timer == Get(s, !e).timer || (Get(u, !e).timer == Aborted && !u.open))
  {
  }

  lemma StartedOk(x: Dir, t: Time, s: State)
    requires Started(x, t, s) && s.connection.Relaying? && t <= s.now
    requires x.timer == Waiting(x.deadline) || (!s.open && (x.timer == Idle || x.timer == Aborted))
    ensures DirOk(x, s)
  {
  }

  lemma ConnectInv(s: State, a: Action)
    requires Inv(s) && Enabled(s, a) && a.RunConnect?
    ensures Inv(Do(s, a))
  {
    assert DirOk(Get(s, false), s) && DirOk(Get(s, true), s);
    var t := Do(s, a);
    if s.connection.Connected? {
      var s1 := Receive(Receive(s.(connection := Relaying), false, a.t1), true, a.t2);
      WatchStarted(s1, false, a.t3, a.t1, a.t2);
      WatchStarted(Watch(s1, false, a.t3), true, a.t4, a.t1, a.t2);
      StartedOk(t.d0, a.t1, t);
      StartedOk(t.d1, a.t2, t);
    }
    forall e ensures DirOk(Get(t, e), t) { assert Get(t, e) == if e then t.d1 else t.d0; }
  }

  lemma StepInv(s: State, a: Action)
    requires Inv(s) && Enabled(s, a)
    ensures Inv(Do(s, a))
  {
    match a
    case Tick(t) =>
      forall d ensures DirOk(Get(Do(s, a), d), Do(s, a)) { assert DirOk(Get(s, d), s); }
    case FinishConnect(_) =>
      forall d ensures DirOk(Get(Do(s, a), d), Do(s, a)) { assert DirOk(Get(s, d), s); }
    case RunConnect(_, _, _, _) => ConnectInv(s, a);
    case RunPump(d, t) => if Get(s, d).op.Failed? { PumpFails(s, d, t); } else { PumpGoesOn(s, d, t); }
    case RunTimer(d, t) => TimerInv(s, d, t);
    case FinishReceive(d, data) => FinishReceiveInv(s, d, data);
    case WriteSome(d, m) => WriteSomeInv(s, d, m);
    case _ => FinishInv(s, a);
  }

  // ---------- Runs ----------

  predicate StepAt(states: seq<State>, acts: seq<Action>, i: nat)
    requires |states| == |acts| + 1 && i < |acts|
  {
    Enabled(states[i], acts[i]) && states[i + 1] == Do(states[i], acts[i])
  }

  ghost predicate IsRun(states: seq<State>, acts: seq<Action>) {
    |states| == |acts| + 1 && IsInit(states[0]) && forall i: nat | i < |acts| :: StepAt(states, acts, i)
  }

  lemma {:induction false} InvAlways(states: seq<State>, acts: seq<Action>, i: nat)
    requires IsRun(states, acts) && i < |states|
    ensures Inv(states[i])
  {
    if i == 0 {
      InitInv(states[0]);
    } else {
      InvAlways(states, acts, i - 1);
      assert StepAt(states, acts, i - 1);
      StepInv(states[i - 1], acts[i - 1]);
    }
  }

  /** Step a starts an operation of direction d. */
  predicate Starts(s: State, a: Action, d: bool) {
    || (a.RunConnect? && s.connection.Connected?)
    || (a.RunPump? && a.d == d && (Get(s, d).op.Received? || Get(s, d).op.Sent?))
  }

  function StartTime(a: Action, d: bool): Time
    requires a.RunConnect? || a.RunPump?
  {
    if a.RunPump? then a.t else if d then a.t2 else a.t1
  }

  // ---------- Fidelity ----------

  /** The bytes the socket handed over for direction d in the first i steps. */
  function BytesIn(acts: seq<Action>, d: bool, i: nat): seq<Byte>
    requires i <= |acts|
  {
    if i == 0 then []
    else
      var a := acts[i - 1];
      BytesIn(acts, d, i - 1) + if a.FinishReceive? && a.d == d then a.data else []
  }

  /** The bytes the other socket took from direction d in the first i steps. */
  function BytesOut(states: seq<State>, acts: seq<Action>, d: bool, i: nat): seq<Byte>
    requires i <= |acts| && |states| == |acts| + 1
    requires forall j: nat | j < |acts| :: StepAt(states, acts, j)
  {
    if i == 0 then []
    else
      var a, x := acts[i - 1], Get(states[i - 1], d);
      assert StepAt(states, acts, i - 1);
      BytesOut(states, acts, d, i - 1) +
      if a.WriteSome? && a.d == d then x.buffer[x.op.off..x.op.off + a.m] else []
  }

  predicate SameBytes(x: Dir, y: Dir) {
    x.received == y.received && x.sent == y.sent && x.lost == y.lost
  }

  lemma WatchBytes(s: State, e: bool, t: Time, d: bool)
    ensures SameBytes(Get(s, d), Get(Watch(s, e, t), d))
  {
  }

  lemma HandlerBytes(s: State, a: Action, d: bool)
    requires Enabled(s, a) && IsHandler(a)
    ensures SameBytes(Get(s, d), Get(Do(s, a), d))
  {
    match a
    case RunConnect(t1, t2, t3, t4) =>
      var s2 := Receive(Receive(s.(connection := Relaying), false, t1), true, t2);
      WatchBytes(s2, false, t3, d);
      WatchBytes(Watch(s2, false, t3), true, t4, d);
    case RunPump(_, _) =>
    case RunTimer(e, t) => WatchBytes(Put(s, e, Get(s, e).(timer := Idle)).(now := t), e, t, d);
  }

  lemma StepBytes(s: State, a: Action, d: bool)
    requires Enabled(s, a)
    ensures Get(Do(s, a), d).received ==
            Get(s, d).received + if a.FinishReceive? && a.d == d then a.data else []
    ensures Get(Do(s, a), d).sent ==
            Get(s, d).sent + if a.WriteSome? && a.d == d
                             then Get(s, d).buffer[Get(s, d).op.off..Get(s, d).op.off + a.m] else []
    ensures Get(Do(s, a), d).lost == if a == FailOp(d) then InFlight(Get(s, d)) else Get(s, d).lost
  {
    if IsHandler(a) {
      HandlerBytes(s, a, d);
    } else if a.FinishReceive? {
      assert a.d == d || a.d == !d;
    } else if a.WriteSome? {
      assert a.d == d || a.d == !d;
    }
  }

  lemma {:induction false} BytesCounted(states: seq<State>, acts: seq<Action>, d: bool, i: nat)
    requires IsRun(states, acts) && i <= |acts|
    ensures Get(states[i], d).received == BytesIn(acts, d, i)
    ensures Get(states[i], d).sent == BytesOut(states, acts, d, i)
  {
    if i > 0 {
      BytesCounted(states, acts, d, i - 1);
      assert StepAt(states, acts, i - 1);
      StepBytes(states[i - 1], acts[i - 1], d);
    }
  }

  /** Whatever the other direction does: what was received is what was sent and then the bytes in
      flight, never more than a buffer, and no operation or wait ever overlaps another. */
  lemma Fidelity(states: seq<State>, acts: seq<Action>, d: bool, i: nat)
    requires IsRun(states, acts) && i <= |acts|
    ensures var x := Get(states[i], d);
            && !x.overlap && |x.buffer| == BUFFER_SIZE
            && BytesIn(acts, d, i) == BytesOut(states, acts, d, i) + InFlight(x)
            && |InFlight(x)| <= BUFFER_SIZE
            && (x.op.Receiving? || x.op.Sent? ==> BytesIn(acts, d, i) == BytesOut(states, acts, d, i))
  {
    InvAlways(states, acts, i);
    BytesCounted(states, acts, d, i);
    assert DirOk(Get(states[i], d), states[i]);
  }

  /** Bytes are lost only by a write that fails: they are those it had still to write. */
  lemma {:induction false} LostByFailure(states: seq<State>, acts: seq<Action>, d: bool, i: nat) returns (j: nat)
    requires IsRun(states, acts) && i <= |acts| && Get(states[i], d).lost != []
    ensures j < i && acts[j] == FailOp(d) && Get(states[j], d).op.Sending?
    ensures var x := Get(states[j], d);
            x.op.off <= x.op.n <= |x.buffer| && Get(states[i], d).lost == x.buffer[x.op.off..x.op.n]
  {
    j := i - 1;
    assert StepAt(states, acts, j);
    StepBytes(states[j], acts[j], d);
    if acts[j] != FailOp(d) {
      j := LostByFailure(states, acts, d, j);
    } else {
      InvAlways(states, acts, j);
    }
  }

  // ---------- What each step does to a direction ----------

  /** The step is about direction d alone. */
  predicate About(a: Action, d: bool) {
    (a.FinishReceive? || a.WriteSome? || a.FinishSend? || a.FailOp? || a.Expire? || a.RunPump? || a.RunTimer?) && a.d == d
  }

  /** The step ends in session::stop: an operation failed, or a wait came to its deadline. */
  predicate Stops(s: State, a: Action) {
    || (a.RunPump? && Get(s, a.d).op.Failed?)
    || (a.RunTimer? && Get(s, a.d).timer.Fired? && a.t >= Get(s, a.d).deadline)
  }

  /** The pump goes round: what was received is sent from the start, what was sent makes room for
      the next receive, and only a failure ends it.  Handlers leave the buffer alone. */
  lemma PumpSteps(states: seq<State>, acts: seq<Action>, i: nat, d: bool)
    requires IsRun(states, acts) && i < |acts|
    ensures var x, y, a := Get(states[i], d), Get(states[i + 1], d), acts[i];
            && (a.RunPump? && a.d == d ==>
                  y.op == match x.op
                          case Received(n) => Sending(n, 0)
                          case Sent => Receiving
                          case _ => NoOp)
            && (a.RunConnect? && states[i].connection.Connected? ==> x.op == NoOp && y.op == Receiving)
            && (IsHandler(a) ==> y.buffer == x.buffer)
            && (IsHandler(a) && !Starts(states[i], a, d) && y.op != x.op ==> x.op == Failed && y.op == NoOp)
  {
    assert StepAt(states, acts, i);
    InvAlways(states, acts, i);
    assert DirOk(Get(states[i], d), states[i]);
    if IsHandler(acts[i]) {
      PumpStep(states[i], acts[i], d);
    }
  }

  lemma WatchKeepsOp(s: State, e: bool, t: Time, d: bool)
    ensures Get(Watch(s, e, t), d).op == Get(s, d).op && Get(Watch(s, e, t), d).buffer == Get(s, d).buffer
  {
  }

  lemma PumpStep(s: State, a: Action, d: bool)
    requires Enabled(s, a) && IsHandler(a)
    ensures var x, y := Get(s, d), Get(Do(s, a), d);
            && y.buffer == x.buffer
            && y.op == if a.RunPump? && a.d == d then
                         if x.op.Received? then Sending(x.op.n, 0) else if x.op.Sent? then Receiving else NoOp
                       else if a.RunConnect? && s.connection.Connected? then Receiving
                       else x.op
  {
    match a
    case RunConnect(t1, t2, t3, t4) =>
      var s2 := Receive(Receive(s.(connection := Relaying), false, t1), true, t2);
      WatchKeepsOp(s2, false, t3, d);
      WatchKeepsOp(Watch(s2, false, t3), true, t4, d);
    case RunPump(e, _) => assert e == d || e == !d;
    case RunTimer(e, t) => WatchKeepsOp(Put(s, e, Get(s, e).(timer := Idle)).(now := t), e, t, d);
  }

  /** How an operation completes, and what it puts in the buffer. */
  lemma OpSteps(states: seq<State>, acts: seq<Action>, i: nat, d: bool)
    requires IsRun(states, acts) && i < |acts| && !IsHandler(acts[i])
    ensures var x, y, a := Get(states[i], d), Get(states[i + 1], d), acts[i];
            && (a.WriteSome? && a.d == d ==> x.op.Sending? && y.op == Sending(x.op.n, x.op.off + a.m))
            && (!(a.WriteSome? && a.d == d) ==>
                  y.op == if a.FinishReceive? && a.d == d then Received(|a.data|)
                          else if a == FinishSend(d) then Sent
                          else if a == FailOp(d) then Failed
                          else x.op)
            && |y.buffer| == |x.buffer|
            && (a.FinishReceive? && a.d == d ==> a.data <= y.buffer && y.buffer[|a.data|..] == x.buffer[|a.data|..])
            && (!(a.FinishReceive? && a.d == d) ==> y.buffer == x.buffer)
  {
    assert StepAt(states, acts, i);
    OpStep(states[i], acts[i], d);
  }

  lemma OpStep(s: State, a: Action, d: bool)
    requires Enabled(s, a) && !IsHandler(a)
    ensures var x, y := Get(s, d), Get(Do(s, a), d);
            && (!About(a, d) ==> y == x)
            && (a.FinishReceive? && a.d == d ==> y == FinishReceiveOf(x, a.data))
            && (a.WriteSome? && a.d == d ==> y == WriteSomeOf(x, a.m))
            && (a == FinishSend(d) ==> y == x.(op := Sent))
            && (a == FailOp(d) ==> y == x.(op := Failed, lost := InFlight(x)))
            && (a == Expire(d) ==> y == x.(timer := Fired(x.timer.expiry)))
  {
  }

  /** The watchdog's wait: it completes at its expiry, is armed again for the deadline by its own
      handler alone, and is aborted by a stop if it has not completed. */
  lemma TimerSteps(states: seq<State>, acts: seq<Action>, i: nat, d: bool)
    requires IsRun(states, acts) && i < |acts| && !acts[i].RunConnect?
    ensures var s, u, a := states[i], states[i + 1], acts[i];
            var x, y := Get(s, d), Get(u, d);
            && y.timer == (if a == Expire(d) && x.timer.Waiting? then Fired(x.timer.expiry)
                           else if a.RunTimer? && a.d == d then
                             if x.timer.Fired? && a.t < x.deadline then Waiting(x.deadline) else Idle
                           else if Stops(s, a) && x.timer.Waiting? then Aborted
                           else x.timer)
            && u.open == (s.open && !Stops(s, a))
            && (a == Expire(d) ==> x.timer.Waiting? && x.timer.expiry <= s.now)
  {
    assert StepAt(states, acts, i);
    if acts[i].RunPump? {
      PumpTimer(states[i], acts[i].d, acts[i].t, d);
    } else if acts[i].RunTimer? {
      WaitTimer(states[i], acts[i].d, acts[i].t, d);
    } else {
      OpStep(states[i], acts[i], d);
      OpenStep(states[i], acts[i]);
    }
  }

  lemma OpenStep(s: State, a: Action)
    requires Enabled(s, a) && !IsHandler(a)
    ensures Do(s, a).open == s.open
  {
  }

  lemma PumpTimer(s: State, e: bool, t: Time, d: bool)
    requires Enabled(s, RunPump(e, t))
    ensures Do(s, RunPump(e, t)).open == (s.open && !Get(s, e).op.Failed?)
    ensures Get(Do(s, RunPump(e, t)), d).timer ==
            if Get(s, e).op.Failed? && Get(s, d).timer.Waiting? then Aborted else Get(s, d).timer
  {
  }

  lemma WaitTimer(s: State, e: bool, t: Time, d: bool)
    requires Enabled(s, RunTimer(e, t))
    ensures var due := Get(s, e).timer.Fired? && t >= Get(s, e).deadline;
            && Do(s, RunTimer(e, t)).open == (s.open && !due)
            && Get(Do(s, RunTimer(e, t)), d).timer ==
               if d == e then if Get(s, e).timer.Fired? && !due then Waiting(Get(s, e).deadline) else Idle
               else if due && Get(s, d).timer.Waiting? then Aborted
               else Get(s, d).timer
  {
  }

  /** A step about one direction leaves the other alone, but that a stop aborts its wait. */
  lemma OtherDirection(states: seq<State>, acts: seq<Action>, i: nat, d: bool)
    requires IsRun(states, acts) && i < |acts| && About(acts[i], !d)
    ensures var x, y := Get(states[i], d), Get(states[i + 1], d);
            y == x || (Stops(states[i], acts[i]) && x.timer.Waiting? && y == x.(timer := Aborted))
  {
    assert StepAt(states, acts, i);
    var s, a := states[i], acts[i];
    if a.RunPump? {
      PumpOther(s, a.d, a.t);
    } else if a.RunTimer? {
      WaitOther(s, a.d, a.t);
    } else {
      OpStep(s, a, d);
    }
  }

  lemma PumpOther(s: State, e: bool, t: Time)
    requires Enabled(s, RunPump(e, t))
    ensures Get(Do(s, RunPump(e, t)), !e) == if Get(s, e).op.Failed? then Cancel(Get(s, !e)) else Get(s, !e)
  {
  }

  lemma WaitOther(s: State, e: bool, t: Time)
    requires Enabled(s, RunTimer(e, t))
    ensures Get(Do(s, RunTimer(e, t)), !e) ==
            if Get(s, e).timer.Fired? && t >= Get(s, e).deadline then Cancel(Get(s, !e)) else Get(s, !e)
  {
  }

  /** The clock: handlers set it to their last reading, ticks to theirs, nothing sets it back. */
  lemma ClockSteps(states: seq<State>, acts: seq<Action>, i: nat)
    requires IsRun(states, acts) && i < |acts|
    ensures var s, u, a := states[i], states[i + 1], acts[i];
            && s.now <= u.now
            && u.now == match a
                        case Tick(t) => t
                        case RunConnect(_, _, _, t4) => t4
                        case RunPump(_, t) => t
                        case RunTimer(_, t) => t
                        case _ => s.now
  {
    assert StepAt(states, acts, i);
  }

  // ---------- The connect ----------

  /** The connect has ended, with that result, before step i. */
  predicate Ended(acts: seq<Action>, ok: bool, i: nat) {
    exists j :: 0 <= j < i && j < |acts| && acts[j] == FinishConnect(ok)
  }

  /** Its handler has run before step i. */
  predicate Handled(acts: seq<Action>, i: nat) {
    exists j :: 0 <= j < i && j < |acts| && acts[j].RunConnect?
  }

  lemma StepConnection(s: State, a: Action)
    requires Enabled(s, a)
    ensures var u := Do(s, a).connection;
            u == if a.FinishConnect? then if a.ok then Connected else ConnectFailed
                 else if a.RunConnect? then if s.connection.Connected? then Relaying else Abandoned
                 else s.connection
  {
    match a
    case RunConnect(_, _, _, _) =>
    case RunPump(_, _) =>
    case RunTimer(_, _) =>
    case _ =>
  }

  /** How far the connect has come is what the run's steps say: the session relays exactly once the
      handler of a connect that succeeded has run. */
  lemma {:induction false} ConnectionExactly(states: seq<State>, acts: seq<Action>, i: nat)
    requires IsRun(states, acts) && i < |states|
    ensures var c := states[i].connection;
            && (c.Connected? || c.Relaying? <==> Ended(acts, true, i))
            && (c.ConnectFailed? || c.Abandoned? <==> Ended(acts, false, i))
            && (c.Relaying? || c.Abandoned? <==> Handled(acts, i))
  {
    if i > 0 {
      var h := i - 1;
      ConnectionExactly(states, acts, h);
      assert StepAt(states, acts, h);
      StepConnection(states[h], acts[h]);
      EndedStep(acts, true, h, i);
      EndedStep(acts, false, h, i);
      HandledStep(acts, h, i);
    }
  }

  lemma EndedStep(acts: seq<Action>, ok: bool, h: nat, i: nat)
    requires i == h + 1 <= |acts|
    ensures Ended(acts, ok, i) <==> acts[h] == FinishConnect(ok) || Ended(acts, ok, h)
  {
  }

  lemma HandledStep(acts: seq<Action>, h: nat, i: nat)
    requires i == h + 1 <= |acts|
    ensures Handled(acts, i) <==> acts[h].RunConnect? || Handled(acts, h)
  {
  }

  /** The connect ends once, and its handler runs once, at most. */
  lemma ConnectOnce(states: seq<State>, acts: seq<Action>, i: nat, j: nat)
    requires IsRun(states, acts) && i < j < |acts|
    ensures acts[i].RunConnect? ==> !acts[j].RunConnect?
    ensures acts[i].FinishConnect? ==> !acts[j].FinishConnect?
  {
    ConnectionExactly(states, acts, j);
    assert StepAt(states, acts, j);
    assert acts[i].RunConnect? ==> Handled(acts, j);
    assert acts[i].FinishConnect? ==> Ended(acts, acts[i].ok, j);
  }

  /** After a connect that failed nothing is ever started: no operation, no wait, no byte read. */
  lemma NothingAfterFailure(states: seq<State>, acts: seq<Action>, i: nat, j: nat, d: bool)
    requires IsRun(states, acts) && j < i < |states| && acts[j] == FinishConnect(false)
    ensures Get(states[i], d).op == NoOp && Get(states[i], d).timer == Idle && BytesIn(acts, d, i) == []
    ensures i < |acts| ==> !Starts(states[i], acts[i], d)
  {
    assert Ended(acts, false, i);
    ConnectionExactly(states, acts, i);
    InvAlways(states, acts, i);
    BytesCounted(states, acts, d, i);
    assert DirOk(Get(states[i], d), states[i]);
    if i < |acts| {
      assert StepAt(states, acts, i);
    }
  }

  // ---------- Watchdogs ----------

  /** A step leaves the start of direction d's last operation alone, or makes it a new one. */
  predicate StartKept(s: State, a: Action, d: bool)
    requires Enabled(s, a)
  {
    var x, y := Get(s, d), Get(Do(s, a), d);
    && (Starts(s, a, d) ==> y.lastStart == StartTime(a, d) && Do(s, a).connection.Relaying?)
    && (!Starts(s, a, d) ==> y.lastStart == x.lastStart && x.rearmed <= y.rearmed)
    && (s.connection.Relaying? ==> x.lastStart <= y.lastStart && Do(s, a).connection.Relaying?)
  }

  lemma WatchKeepsStart(s: State, e: bool, t: Time, d: bool)
    ensures var x, y := Get(s, d), Get(Watch(s, e, t), d);
            y.lastStart == x.lastStart && y.rearmed == x.rearmed
    ensures Watch(s, e, t).connection == s.connection
  {
  }

  lemma ConnectStart(s: State, a: Action, d: bool)
    requires DirOk(Get(s, d), s) && Enabled(s, a) && a.RunConnect?
    ensures StartKept(s, a, d)
  {
    if s.connection.Connected? {
      var s2 := Receive(Receive(s.(connection := Relaying), false, a.t1), true, a.t2);
      WatchKeepsStart(s2, false, a.t3, d);
      WatchKeepsStart(Watch(s2, false, a.t3), true, a.t4, d);
    }
  }

  lemma PumpStart(s: State, a: Action, d: bool)
    requires DirOk(Get(s, d), s) && Enabled(s, a) && a.RunPump?
    ensures StartKept(s, a, d)
  {
    assert a.d == d || a.d == !d;
  }

  lemma TimerStart(s: State, a: Action, d: bool)
    requires DirOk(Get(s, d), s) && Enabled(s, a) && a.RunTimer?
    ensures StartKept(s, a, d)
  {
    WatchKeepsStart(Put(s, a.d, Get(s, a.d).(timer := Idle)).(now := a.t), a.d, a.t, d);
  }

  lemma StepStart(s: State, a: Action, d: bool)
    requires Inv(s) && Enabled(s, a)
    ensures StartKept(s, a, d)
  {
    assert DirOk(Get(s, d), s);
    match a
    case RunConnect(_, _, _, _) => ConnectStart(s, a, d);
    case RunPump(_, _) => PumpStart(s, a, d);
    case RunTimer(_, _) => TimerStart(s, a, d);
    case _ =>
  }

  lemma StartKeptAt(states: seq<State>, acts: seq<Action>, i: nat, d: bool)
    requires IsRun(states, acts) && i < |acts|
    ensures StepAt(states, acts, i) && StartKept(states[i], acts[i], d)
  {
    assert StepAt(states, acts, i);
    InvAlways(states, acts, i);
    StepStart(states[i], acts[i], d);
  }

  /** No earlier start of direction d is later than the recorded one. */
  lemma {:induction false} LastStartIsLatest(states: seq<State>, acts: seq<Action>, d: bool, i: nat, j: nat)
    requires IsRun(states, acts) && j < i < |states|
    requires Starts(states[j], acts[j], d)
    ensures StartTime(acts[j], d) <= Get(states[i], d).lastStart && states[i].connection.Relaying?
  {
    StartKeptAt(states, acts, i - 1, d);
    if j + 1 < i {
      LastStartIsLatest(states, acts, d, i - 1, j);
    }
  }

  lemma {:induction false} SameTimeout(states: seq<State>, acts: seq<Action>, i: nat)
    requires IsRun(states, acts) && i < |states|
    ensures states[i].timeout == states[0].timeout
  {
    if i > 0 {
      SameTimeout(states, acts, i - 1);
      assert StepAt(states, acts, i - 1);
    }
  }

  /** Some start of direction d is the recorded one. */
  lemma {:induction false} LastStartIsOne(states: seq<State>, acts: seq<Action>, d: bool, i: nat) returns (j: nat)
    requires IsRun(states, acts) && i < |states| && states[i].connection.Relaying?
    ensures j < i && Starts(states[j], acts[j], d) && StartTime(acts[j], d) == Get(states[i], d).lastStart
  {
    StartKeptAt(states, acts, i - 1, d);
    j := i - 1;
    if !Starts(states[j], acts[j], d) {
      j := LastStartIsOne(states, acts, d, j);
    }
  }

  /** Direction d started an operation, before step i, less than the timeout before time t. */
  ghost predicate StartedSince(states: seq<State>, acts: seq<Action>, d: bool, i: nat, t: Time)
    requires |states| == |acts| + 1 && i <= |acts|
  {
    exists j: nat | j < i ::
      Starts(states[j], acts[j], d) && t < StartTime(acts[j], d) + states[0].timeout
  }

  /** A successful wait of a direction stops an open session exactly when every operation the
      direction has started was started at least the timeout ago; an aborted wait never does. */
  lemma WatchdogSafety(states: seq<State>, acts: seq<Action>, i: nat)
    requires IsRun(states, acts) && i < |acts|
    requires acts[i].RunTimer? && states[i].open
    ensures !states[i + 1].open <==>
            Get(states[i], acts[i].d).timer.Fired? && !StartedSince(states, acts, acts[i].d, i, acts[i].t)
  {
    var d := acts[i].d;
    InvAlways(states, acts, i);
    SameTimeout(states, acts, i);
    assert StepAt(states, acts, i);
    assert DirOk(Get(states[i], d), states[i]);
    var j := LastStartIsOne(states, acts, d, i);
    forall k: nat | k < i && Starts(states[k], acts[k], d)
      ensures StartTime(acts[k], d) <= StartTime(acts[j], d)
    {
      LastStartIsLatest(states, acts, d, i, k);
    }
  }

  /** What is armed is never later than timeout after the last start, which is the deadline. */
  lemma ArmedByDeadline(states: seq<State>, acts: seq<Action>, d: bool, i: nat)
    requires IsRun(states, acts) && i < |states| && states[i].connection.Relaying?
    ensures var x := Get(states[i], d);
            && x.deadline == x.lastStart + states[0].timeout
            && (x.timer.Waiting? || x.timer.Fired? ==> x.timer.expiry <= x.deadline)
            && (states[i].open ==> x.timer.Waiting? || x.timer.Fired?)
  {
    InvAlways(states, acts, i);
    SameTimeout(states, acts, i);
    assert DirOk(Get(states[i], d), states[i]);
  }

  /** Steps i and k hold a successful wait of direction d. */
  predicate Waited(states: seq<State>, acts: seq<Action>, d: bool, i: nat)
    requires |states| == |acts| + 1 && i < |acts|
  {
    acts[i].RunTimer? && acts[i].d == d && Get(states[i], d).timer.Fired?
  }

  lemma {:induction false} StaysRearmed(states: seq<State>, acts: seq<Action>, d: bool, i: nat, k: nat)
    requires IsRun(states, acts) && i < k < |states|
    requires Waited(states, acts, d, i) && acts[i].t < Get(states[i], d).deadline
    requires forall j: nat | i < j < k :: !Starts(states[j], acts[j], d)
    ensures 1 <= Get(states[k], d).rearmed
  {
    assert StepAt(states, acts, k - 1);
    if i + 1 < k {
      StaysRearmed(states, acts, d, i, k - 1);
      StartKeptAt(states, acts, k - 1, d);
    }
  }

  lemma {:induction false} StaysClosed(states: seq<State>, acts: seq<Action>, i: nat, k: nat)
    requires IsRun(states, acts) && i <= k < |states| && !states[i].open
    ensures !states[k].open
  {
    if i < k {
      StaysClosed(states, acts, i, k - 1);
      assert StepAt(states, acts, k - 1);
      InvAlways(states, acts, k - 1);
      assert DirOk(Get(states[k - 1], false), states[k - 1]);
    }
  }

  /** Two successful waits of a direction that starts nothing in between stop the session: the second
      falls due at the deadline, the timeout after the direction's last start. */
  lemma WatchdogPromptness(states: seq<State>, acts: seq<Action>, d: bool, i: nat, k: nat)
    requires IsRun(states, acts) && i < k < |acts|
    requires Waited(states, acts, d, i) && Waited(states, acts, d, k)
    requires forall j: nat | i < j < k :: !Starts(states[j], acts[j], d)
    ensures !states[k + 1].open
    ensures states[k].open ==> Get(states[k], d).timer.expiry == Get(states[k], d).lastStart + states[0].timeout
  {
    assert StepAt(states, acts, i) && StepAt(states, acts, k);
    if acts[i].t < Get(states[i], d).deadline {
      StaysRearmed(states, acts, d, i, k);
      SameTimeout(states, acts, k);
      InvAlways(states, acts, k);
      assert DirOk(Get(states[k], d), states[k]);
    } else {
      StaysClosed(states, acts, i + 1, k);
      StaysClosed(states, acts, k, k + 1);
    }
  }

  /** A connected session opens with both directions receiving and both watchdogs armed, unless a
      timeout has passed before its watchdog was started. */
  lemma ConnectOpens(states: seq<State>, acts: seq<Action>, i: nat)
    requires IsRun(states, acts) && i < |acts| && acts[i].RunConnect? && states[i].connection.Connected?
    ensures var t, a := states[i + 1], acts[i];
            && t.d0.op == Receiving && t.d1.op == Receiving
            && (t.open <==> a.t3 < a.t1 + t.timeout && a.t4 < a.t2 + t.timeout)
            && t.d0.timer == (if a.t3 >= a.t1 + t.timeout then Idle
                              else if a.t4 >= a.t2 + t.timeout then Aborted
                              else Waiting(a.t1 + t.timeout))
            && t.d1.timer == (if a.t4 >= a.t2 + t.timeout then Idle else Waiting(a.t2 + t.timeout))
  {
    InvAlways(states, acts, i);
    assert StepAt(states, acts, i);
    assert DirOk(Get(states[i], false), states[i]) && DirOk(Get(states[i], true), states[i]);
  }

  /** A pump that fails stops the session, whether or not it was stopped before; whichever handler
      stops an open session once it relays, no wait is left that could still come to its expiry. */
  lemma StopCancels(states: seq<State>, acts: seq<Action>, i: nat)
    requires IsRun(states, acts) && i < |acts| && (acts[i].RunPump? || acts[i].RunTimer?)
    ensures var s, t, a := states[i], states[i + 1], acts[i];
            && (a.RunPump? && Get(s, a.d).op.Failed? ==>
                  !t.open && !t.d0.timer.Waiting? && !t.d1.timer.Waiting?)
            && (a.RunPump? && s.open && !t.open ==> Get(s, a.d).op.Failed?)
            && (s.open && !t.open ==> !t.d0.timer.Waiting? && !t.d1.timer.Waiting?)
  {
    assert StepAt(states, acts, i);
    InvAlways(states, acts, i);
    assert DirOk(Get(states[i], acts[i].d), states[i]);
  }

  // ---------- After the first stop ----------

  /** Whether the direction may yet move its deadline once the session is stopped. */
  function MayDelay(op: PumpOp): nat {
    match op
    case Received(_) => 1
    case Sent => 1
    case Sending(n, off) => if off == n then 1 else 0
    case _ => 0
  }

  function OpRuns(op: PumpOp): nat {
    (if op == NoOp then 0 else 1) + MayDelay(op)
  }

  function TimerRuns(x: Dir): nat {
    match x.timer
    case Idle => 0
    case Aborted => 1
    case Waiting(e) => (if e == x.deadline then 1 else 2) + MayDelay(x.op)
    case Fired(e) => (if e == x.deadline then 1 else 2) + MayDelay(x.op)
  }

  /** How many handlers a stopped direction can still run. */
  function Runs(x: Dir): (r: nat)
    ensures r <= 5
  {
    OpRuns(x.op) + TimerRuns(x)
  }

  /** How many operations and waits of the direction have not completed. */
  function Outstanding(x: Dir): (r: nat)
    ensures r <= 2
  {
    (if x.op.Receiving? || x.op.Sending? then 1 else 0) + (if x.timer.Waiting? then 1 else 0)
  }

  function RunsLeft(s: State): (r: nat)
    ensures r <= 10
  {
    Runs(s.d0) + Runs(s.d1)
  }

  /** The lexicographic measure (RunsLeft, operations and waits outstanding). */
  function StepsLeft(s: State): (r: nat)
    ensures r <= 54
  {
    5 * RunsLeft(s) + Outstanding(s.d0) + Outstanding(s.d1)
  }

  /** No handler is queued or pending, so none holds the session. */
  predicate Released(s: State) {
    s.d0.op == NoOp && s.d1.op == NoOp && s.d0.timer == Idle && s.d1.timer == Idle
  }

  /** The measure of one direction and what it still waits for. */
  function Weight(x: Dir): nat {
    5 * Runs(x) + Outstanding(x)
  }

  lemma CancelWeight(x: Dir)
    ensures Runs(Cancel(x)) <= Runs(x) && Weight(Cancel(x)) <= Weight(x)
  {
  }

  /** Direction d came nearer to its end, the other one did not move, or was cancelled. */
  ghost predicate Advances(s: State, d: bool, t: State) {
    && !t.open && Runs(Get(t, d)) <= Runs(Get(s, d)) && Weight(Get(t, d)) < Weight(Get(s, d))
    && (Get(t, !d) == Get(s, !d) || Get(t, !d) == Cancel(Get(s, !d)))
  }

  lemma ClosedPump(s: State, d: bool, t: Time)
    requires DirOk(Get(s, d), s) && Enabled(s, RunPump(d, t)) && !s.open
    ensures Advances(s, d, Do(s, RunPump(d, t))) && Runs(Get(Do(s, RunPump(d, t)), d)) < Runs(Get(s, d))
  {
  }

  lemma ClosedTimer(s: State, d: bool, t: Time)
    requires DirOk(Get(s, d), s) && Enabled(s, RunTimer(d, t)) && !s.open
    ensures Advances(s, d, Do(s, RunTimer(d, t))) && Runs(Get(Do(s, RunTimer(d, t)), d)) < Runs(Get(s, d))
  {
  }

  lemma ClosedCompletion(s: State, a: Action)
    requires Enabled(s, a) && !s.open && (a.FinishSend? || a.FailOp? || a.Expire?)
    ensures Advances(s, a.d, Do(s, a))
  {
  }

  lemma EitherFirst(s: State, d: bool)
    ensures RunsLeft(s) == Runs(Get(s, d)) + Runs(Get(s, !d))
    ensures StepsLeft(s) == Weight(Get(s, d)) + Weight(Get(s, !d))
  {
  }

  /** What one step takes from the measures. */
  ghost predicate Nearer(s: State, a: Action, t: State) {
    && !t.open
    && RunsLeft(t) + (if IsHandler(a) then 1 else 0) <= RunsLeft(s)
    && StepsLeft(t) + (if a.Tick? then 0 else 1) <= StepsLeft(s)
  }

  lemma AdvanceIsNearer(s: State, a: Action, t: State, d: bool)
    requires Advances(s, d, t) && !a.Tick?
    requires IsHandler(a) ==> Runs(Get(t, d)) < Runs(Get(s, d))
    ensures Nearer(s, a, t)
  {
    CancelWeight(Get(s, !d));
    EitherFirst(s, d);
    EitherFirst(t, d);
  }

  lemma ClosedStep(s: State, a: Action)
    requires Inv(s) && Enabled(s, a) && !s.open
    ensures Nearer(s, a, Do(s, a))
  {
    assert DirOk(Get(s, false), s);
    if a.RunPump? {
      assert DirOk(Get(s, a.d), s);
      ClosedPump(s, a.d, a.t);
      AdvanceIsNearer(s, a, Do(s, a), a.d);
    } else if a.RunTimer? {
      assert DirOk(Get(s, a.d), s);
      ClosedTimer(s, a.d, a.t);
      AdvanceIsNearer(s, a, Do(s, a), a.d);
    } else if a.FinishSend? || a.FailOp? || a.Expire? {
      ClosedCompletion(s, a);
      AdvanceIsNearer(s, a, Do(s, a), a.d);
    }
  }

  /** Handler runs among steps i to k - 1. */
  function HandlerRuns(acts: seq<Action>, i: nat, k: nat): nat
    requires i <= k <= |acts|
    decreases k
  {
    if i == k then 0 else HandlerRuns(acts, i, k - 1) + if IsHandler(acts[k - 1]) then 1 else 0
  }

  /** Steps among i to k - 1 that do more than move the clock. */
  function Moves(acts: seq<Action>, i: nat, k: nat): nat
    requires i <= k <= |acts|
    decreases k
  {
    if i == k then 0 else Moves(acts, i, k - 1) + if acts[k - 1].Tick? then 0 else 1
  }

  /** Once stopped, a session runs at most ten handlers and takes at most 54 steps of any kind,
      whatever was queued when it stopped. */
  lemma {:induction false} FewRunsAfterStop(states: seq<State>, acts: seq<Action>, i: nat, k: nat)
    requires IsRun(states, acts) && i <= k < |states| && !states[i].open
    ensures !states[k].open
    ensures HandlerRuns(acts, i, k) + RunsLeft(states[k]) <= RunsLeft(states[i]) <= 10
    ensures Moves(acts, i, k) + StepsLeft(states[k]) <= StepsLeft(states[i]) <= 54
  {
    if i < k {
      FewRunsAfterStop(states, acts, i, k - 1);
      assert StepAt(states, acts, k - 1);
      InvAlways(states, acts, k - 1);
      ClosedStep(states[k - 1], acts[k - 1]);
    }
  }

  /** The step that brings direction d of a stopped session nearer to its end. */
  function Finishing(s: State, d: bool): Action {
    var x := Get(s, d);
    if x.op.Receiving? || x.op.Sending? then FailOp(d)
    else if x.op != NoOp then RunPump(d, s.now)
    else if x.timer.Waiting? then Expire(d)
    else RunTimer(d, s.now)
  }

  /** A stopped session is released exactly when the measure is used up; until then, once the clock
      has moved on, some step other than a tick can be taken. */
  lemma ReleasedExactly(s: State)
    ensures Released(s) <==> RunsLeft(s) == 0
    ensures Released(s) <==> StepsLeft(s) == 0
    ensures !Released(s) && s.connection.Relaying? ==>
              exists t: Time, a: Action | s.now <= t && !a.Tick? :: Enabled(s.(now := t), a)
  {
    if !Released(s) && s.connection.Relaying? {
      var d := s.d0.op == NoOp && s.d0.timer == Idle;
      var x := Get(s, d);
      var t := if x.timer.Waiting? && s.now < x.timer.expiry then x.timer.expiry else s.now;
      assert Enabled(s.(now := t), Finishing(s.(now := t), d));
    }
  }

  /** A finite run of steps from s to its last state. */
  ghost predicate Leads(s: State, states: seq<State>, acts: seq<Action>) {
    |states| == |acts| + 1 && states[0] == s && forall i: nat | i < |acts| :: StepAt(states, acts, i)
  }

  lemma LeadsFrom(s: State, a: Action, states: seq<State>, acts: seq<Action>)
    requires Enabled(s, a) && Leads(Do(s, a), states, acts)
    ensures Leads(s, [s] + states, [a] + acts)
    ensures ([s] + states)[|acts| + 1] == states[|acts|]
  {
    forall i: nat | i < |acts| + 1 ensures StepAt([s] + states, [a] + acts, i) {
      if i >= 1 {
        assert StepAt(states, acts, i - 1);
      }
    }
  }

  lemma ClosedMove(s: State, t: Time, a: Action)
    requires Inv(s) && !s.open && s.now <= t && !a.Tick? && Enabled(s.(now := t), a)
    ensures var s1 := s.(now := t);
            Inv(Do(s1, a)) && !Do(s1, a).open && StepsLeft(Do(s1, a)) < StepsLeft(s)
  {
    StepInv(s, Tick(t));
    StepInv(s.(now := t), a);
    ClosedStep(s.(now := t), a);
  }

  /** From any stopped state, some continuation releases the session. */
  lemma {:induction false} CanRelease(s: State) returns (states: seq<State>, acts: seq<Action>)
    requires Inv(s) && !s.open
    ensures Leads(s, states, acts) && Released(states[|acts|])
    ensures |acts| <= 2 * StepsLeft(s)
    decreases StepsLeft(s)
  {
    ReleasedExactly(s);
    if Released(s) {
      states, acts := [s], [];
    } else {
      assert DirOk(Get(s, false), s);
      var t: Time, a: Action :| s.now <= t && !a.Tick? && Enabled(s.(now := t), a);
      var s1 := s.(now := t);
      ClosedMove(s, t, a);
      states, acts := CanRelease(Do(s1, a));
      LeadsFrom(s1, a, states, acts);
      LeadsFrom(s, Tick(t), [s1] + states, [a] + acts);
      states, acts := [s] + ([s1] + states), [Tick(t)] + ([a] + acts);
    }
  }
}
