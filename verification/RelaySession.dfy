/** The relay session as code: its watchdogs, its pumps and its handlers, each tied to RelayProtocol. */
module RelaySession {
  import opened Common
  import opened RelayProtocol

  /** The invariant, folded until SoundInv asks for it. */
  ghost predicate Sound(s: State) {
    forall x :: Looked(x) ==> Inv(s)
  }

  lemma SoundInv(s: State)
    requires Sound(s)
    ensures Inv(s)
  {
    assert Looked(0);
  }

  lemma SoundStep(s: State, a: Action)
    requires Sound(s) && Enabled(s, a)
    ensures Sound(Do(s, a))
  {
    SoundInv(s);
    StepInv(s, a);
  }

  class Watchdog {
    var deadline: Time
    var timer: Timer
    // what RelayProtocol keeps beside the two fields
    ghost var lastStart: Time
    ghost var rearmed: nat

    constructor ()
      ensures deadline == 0 && timer == Idle && lastStart == 0 && rearmed == 0
    {
      deadline, timer, lastStart, rearmed := 0, Idle, 0, 0;
    }

    /** Arms the timer; when the deadline has passed it answers that the callback is due instead. */
    method Start(t: Time) returns (due: bool)
      modifies this`timer
      ensures due == (t >= deadline)
      ensures timer == if due then old(timer) else Waiting(deadline)
    {
      due := t >= deadline;
      if !due {
        timer := Waiting(deadline);
      }
    }

    /** Aborts the wait, unless it has completed. */
    method Stop()
      modifies this`timer
      ensures timer == if old(timer).Waiting? then Aborted else old(timer)
    {
      if timer.Waiting? {
        timer := Aborted;
      }
    }

    method Delay(t: Time, duration: Time)
      modifies this`deadline, this`lastStart, this`rearmed
      ensures deadline == t + duration && lastStart == t && rearmed == 0
    {
      deadline, lastStart, rearmed := t + duration, t, 0;
    }
  }

  class Session {
    const timeout: Time
    const watchdog1: Watchdog
    const watchdog2: Watchdog
    const clientBuffer: array<Byte>
    const serverBuffer: array<Byte>
    var connection: Connection
    var open: bool
    var op1: PumpOp
    var op2: PumpOp
    // what RelayProtocol keeps beside these fields
    ghost var now: Time
    ghost var received1: seq<Byte>
    ghost var received2: seq<Byte>
    ghost var sent1: seq<Byte>
    ghost var sent2: seq<Byte>
    ghost var lost1: seq<Byte>
    ghost var lost2: seq<Byte>
    ghost var overlap1: bool
    ghost var overlap2: bool

    ghost function Dir1(): Dir
      reads this, watchdog1, clientBuffer
    {
      Dir(op1, clientBuffer[..], watchdog1.deadline, watchdog1.timer, received1, sent1, lost1,
          watchdog1.lastStart, watchdog1.rearmed, overlap1)
    }

    ghost function Dir2(): Dir
      reads this, watchdog2, serverBuffer
    {
      Dir(op2, serverBuffer[..], watchdog2.deadline, watchdog2.timer, received2, sent2, lost2,
          watchdog2.lastStart, watchdog2.rearmed, overlap2)
    }

    ghost function View(): State
      reads this, watchdog1, watchdog2, clientBuffer, serverBuffer
    {
      State(now, timeout, connection, open, Dir1(), Dir2())
    }

    ghost predicate Valid()
      reads this, watchdog1, watchdog2, clientBuffer, serverBuffer
    {
      watchdog1 != watchdog2 && Sound(View())
    }

    /** A session whose connect to the server is pending. */
    constructor (timeout: Time)
      ensures Valid() && IsInit(View()) && this.timeout == timeout
      ensures fresh(watchdog1) && fresh(watchdog2) && fresh(clientBuffer) && fresh(serverBuffer)
    {
      this.timeout := timeout;
      watchdog1 := new Watchdog();
      watchdog2 := new Watchdog();
      clientBuffer := new Byte[BUFFER_SIZE](_ => 0);
      serverBuffer := new Byte[BUFFER_SIZE](_ => 0);
      connection, open, op1, op2 := Connecting, true, NoOp, NoOp;
      now, received1, received2, sent1, sent2, lost1, lost2 := 0, [], [], [], [], [], [];
      overlap1, overlap2 := false, false;
      new;
      InitInv(View());
    }

    // ---------- The routines ----------

    method ReceiveFromClient(t: Time)
      requires watchdog1 != watchdog2
      modifies this`op1, this`overlap1, watchdog1
      ensures View() == Receive(old(View()), false, t)
    {
      overlap1 := overlap1 || op1 != NoOp;
      op1 := Receiving;
      watchdog1.Delay(t, timeout);
    }

    method SendToServer(bytes: nat, t: Time)
      requires watchdog1 != watchdog2
      modifies this`op1, this`overlap1, watchdog1
      ensures View() == Send(old(View()), false, bytes, t)
    {
      overlap1 := overlap1 || op1 != NoOp;
      op1 := Sending(bytes, 0);
      watchdog1.Delay(t, timeout);
    }

    method ReceiveFromServer(t: Time)
      requires watchdog1 != watchdog2
      modifies this`op2, this`overlap2, watchdog2
      ensures View() == Receive(old(View()), true, t)
    {
      overlap2 := overlap2 || op2 != NoOp;
      op2 := Receiving;
      watchdog2.Delay(t, timeout);
    }

    method SendToClient(bytes: nat, t: Time)
      requires watchdog1 != watchdog2
      modifies this`op2, this`overlap2, watchdog2
      ensures View() == Send(old(View()), true, bytes, t)
    {
      overlap2 := overlap2 || op2 != NoOp;
      op2 := Sending(bytes, 0);
      watchdog2.Delay(t, timeout);
    }

    method Stop()
      requires watchdog1 != watchdog2
      modifies this`open, watchdog1`timer, watchdog2`timer
      ensures View() == RelayProtocol.Stop(old(View()))
    {
      open := false;
      watchdog1.Stop();
      watchdog2.Stop();
    }

    method StartWatchdog1(t: Time)
      requires watchdog1 != watchdog2
      modifies this`open, this`overlap1, watchdog1`timer, watchdog2`timer
      ensures View() == Watch(old(View()), false, t)
    {
      ghost var pending := watchdog1.timer != Idle;
      var due := watchdog1.Start(t);
      if due {
        Stop();
      } else {
        overlap1 := overlap1 || pending;
      }
    }

    method StartWatchdog2(t: Time)
      requires watchdog1 != watchdog2
      modifies this`open, this`overlap2, watchdog1`timer, watchdog2`timer
      ensures View() == Watch(old(View()), true, t)
    {
      ghost var pending := watchdog2.timer != Idle;
      var due := watchdog2.Start(t);
      if due {
        Stop();
      } else {
        overlap2 := overlap2 || pending;
      }
    }

    // ---------- The handlers ----------

    /** Starts both pumps and both watchdogs. */
    method Begin(t1: Time, t2: Time, t3: Time, t4: Time)
      requires watchdog1 != watchdog2
      modifies this`op1, this`op2, this`open, this`overlap1, this`overlap2, watchdog1, watchdog2
      ensures View() == Watch(Watch(Receive(Receive(old(View()), false, t1), true, t2), false, t3), true, t4)
    {
      ReceiveFromClient(t1);
      ReceiveFromServer(t2);
      StartWatchdog1(t3);
      StartWatchdog2(t4);
    }

    method HandleConnect(error: bool, t1: Time, t2: Time, t3: Time, t4: Time)
      requires Valid() && connection == (if error then ConnectFailed else Connected)
      requires now <= t1 <= t2 <= t3 <= t4
      modifies this, watchdog1, watchdog2
      ensures Valid() && View() == Do(old(View()), RunConnect(t1, t2, t3, t4))
    {
      ghost var s := View();
      SoundStep(s, RunConnect(t1, t2, t3, t4));
      if error {
        connection := Abandoned;
      } else {
        connection := Relaying;
        assert View() == s.(connection := Relaying);
        Begin(t1, t2, t3, t4);
      }
      ghost var u := View();
      now := t4;
      assert View() == u.(now := t4);
    }

    method HandleReceiveFromClient(error: bool, bytes: nat, t: Time)
      requires Valid() && op1 == (if error then Failed else Received(bytes)) && now <= t
      modifies this, watchdog1, watchdog2
      ensures Valid() && View() == Do(old(View()), RunPump(false, t))
    {
      SoundStep(View(), RunPump(false, t));
      op1, now := NoOp, t;
      if error {
        Stop();
      } else {
        SendToServer(bytes, t);
      }
    }

    method HandleWriteToServer(error: bool, t: Time)
      requires Valid() && op1 == (if error then Failed else Sent) && now <= t
      modifies this, watchdog1, watchdog2
      ensures Valid() && View() == Do(old(View()), RunPump(false, t))
    {
      SoundStep(View(), RunPump(false, t));
      op1, now := NoOp, t;
      if error {
        Stop();
      } else {
        ReceiveFromClient(t);
      }
    }

    method HandleReceiveFromServer(error: bool, bytes: nat, t: Time)
      requires Valid() && op2 == (if error then Failed else Received(bytes)) && now <= t
      modifies this, watchdog1, watchdog2
      ensures Valid() && View() == Do(old(View()), RunPump(true, t))
    {
      SoundStep(View(), RunPump(true, t));
      op2, now := NoOp, t;
      if error {
        Stop();
      } else {
        SendToClient(bytes, t);
      }
    }

    method HandleWriteToClient(error: bool, t: Time)
      requires Valid() && op2 == (if error then Failed else Sent) && now <= t
      modifies this, watchdog1, watchdog2
      ensures Valid() && View() == Do(old(View()), RunPump(true, t))
    {
      SoundStep(View(), RunPump(true, t));
      op2, now := NoOp, t;
      if error {
        Stop();
      } else {
        ReceiveFromServer(t);
      }
    }

    /** The watchdog is started again by its own handler. */
    method Restart1(t: Time)
      requires watchdog1 != watchdog2
      modifies this`open, this`overlap1, watchdog1`timer, watchdog2`timer, watchdog1`rearmed
      ensures View() == RestartOf(old(View()), false, t)
    {
      ghost var early := t < watchdog1.deadline;
      StartWatchdog1(t);
      if early {
        watchdog1.rearmed := watchdog1.rearmed + 1;
      }
    }

    method HandleWait1(error: bool, t: Time)
      requires Valid() && (if error then watchdog1.timer == Aborted else watchdog1.timer.Fired?) && now <= t
      modifies this, watchdog1, watchdog2
      ensures Valid() && View() == Do(old(View()), RunTimer(false, t))
    {
      ghost var s := View();
      SoundStep(s, RunTimer(false, t));
      watchdog1.timer, now := Idle, t;
      assert View() == s.(now := t, d0 := s.d0.(timer := Idle));
      if !error {
        Restart1(t);
      }
    }

    /** The watchdog is started again by its own handler. */
    method Restart2(t: Time)
      requires watchdog1 != watchdog2
      modifies this`open, this`overlap2, watchdog1`timer, watchdog2`timer, watchdog2`rearmed
      ensures View() == RestartOf(old(View()), true, t)
    {
      ghost var early := t < watchdog2.deadline;
      StartWatchdog2(t);
      if early {
        watchdog2.rearmed := watchdog2.rearmed + 1;
      }
    }

    method HandleWait2(error: bool, t: Time)
      requires Valid() && (if error then watchdog2.timer == Aborted else watchdog2.timer.Fired?) && now <= t
      modifies this, watchdog1, watchdog2
      ensures Valid() && View() == Do(old(View()), RunTimer(true, t))
    {
      ghost var s := View();
      SoundStep(s, RunTimer(true, t));
      watchdog2.timer, now := Idle, t;
      assert View() == s.(now := t, d1 := s.d1.(timer := Idle));
      if !error {
        Restart2(t);
      }
    }
  }
}
