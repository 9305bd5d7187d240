/**
 Delivery of commands to the main loop (src/persistence_client_library_dbus_service.c): any number
 of threads call `deliverToMainloop`, which waits, or `deliverToMainloop_NM`, which does not; one
 loop thread reads the pipe. Each lock, pipe or condition variable operation is one action.
 */
module MainLoop {
  import opened Options

  type Sender = nat

  /**
   Where a thread is in `deliverToMainloop`. `n` is the number of its command in the order of
   writing; `seen` is how many commands had been processed when it wrote.
   */
  datatype SenderPc =
    | Idle
    | HasDeliver                         // gDeliverpMtx locked
    | HasMain                            // gMainCondMtx locked, too
    | Written(n: nat, seen: nat)         // command in the pipe
    | Waiting(n: nat, seen: nat)         // in pthread_cond_wait, gMainCondMtx released
    | Woken(n: nat, seen: nat)           // woken, gMainCondMtx not yet locked again
    | Resumed(n: nat, seen: nat)         // pthread_cond_wait has returned
    | Leaving(n: nat, seen: nat)         // gMainCondMtx unlocked

  datatype LoopPc =
    | Polling
    | HasRead(quit: bool)                // a command read from the pipe
    | Locked(quit: bool)                 // gMainCondMtx locked
    | Processed(quit: bool)              // the switch statement is through
    | Signalled(quit: bool)
    | Stopped

  datatype Owner = Loop | Thread(s: Sender)

  /** `quits` lists the commands ever written, in order, each by whether it is CMD_QUIT. */
  datatype State = State(
    pcs: map<Sender, SenderPc>,
    deliver: Option<Sender>,
    main: Option<Owner>,
    quits: seq<bool>,
    pipe: seq<nat>,
    processed: seq<nat>,
    loop: LoopPc
  ) {
    function Pc(s: Sender): SenderPc {
      if s in pcs then pcs[s] else Idle
    }

    function At(s: Sender, pc: SenderPc): State {
      this.(pcs := pcs[s := pc])
    }

    /** The number of the command the loop has read but not yet processed. */
    function InHand(): seq<nat> {
      if loop.HasRead? || loop.Locked? then [|processed|] else []
    }
  }

  const INIT := State(map[], None, None, [], [], [], Polling)

  datatype Action =
    | LockDeliver(s: Sender) | LockMain(s: Sender) | WriteBlocking(s: Sender, quit: bool) | StartWait(s: Sender)
    | Wake(s: Sender) | UnlockMain(s: Sender) | UnlockDeliver(s: Sender)
    | Spurious(s: Sender)                // pthread_cond_wait returns without a signal
    | WriteNonBlocking(quit: bool)       // deliverToMainloop_NM
    | Read | LoopLock | Process | Signal | LoopUnlock

  predicate Enabled(st: State, a: Action) {
    match a
    case LockDeliver(s) => st.Pc(s).Idle? && st.deliver.None?
    case LockMain(s) => st.Pc(s).HasDeliver? && st.main.None?
    case WriteBlocking(s, _) => st.Pc(s).HasMain?
    case StartWait(s) => st.Pc(s).Written?
    case Wake(s) => st.Pc(s).Woken? && st.main.None?
    case UnlockMain(s) => st.Pc(s).Resumed?
    case UnlockDeliver(s) => st.Pc(s).Leaving?
    case Spurious(s) => st.Pc(s).Waiting?
    case WriteNonBlocking(_) => true
    case Read => st.loop.Polling? && st.pipe != []
    case LoopLock => st.loop.HasRead? && st.main.None?
    case Process => st.loop.Locked?
    case Signal => st.loop.Processed?
    case LoopUnlock => st.loop.Signalled?
  }

  /** The thread a signal wakes: only the holder of gDeliverpMtx can be waiting. */
  function Waiter(st: State): Option<Sender> {
    if st.deliver.Some? && st.Pc(st.deliver.value).Waiting? then st.deliver else None
  }

  function Put(st: State, quit: bool): State {
    st.(quits := st.quits + [quit], pipe := st.pipe + [|st.quits|])
  }

  function Next(st: State, a: Action): State
    requires Enabled(st, a)
    requires a.Read? ==> st.pipe[0] < |st.quits|
  {
    match a
    case LockDeliver(s) => st.At(s, HasDeliver).(deliver := Some(s))
    case LockMain(s) => st.At(s, HasMain).(main := Some(Thread(s)))
    case WriteBlocking(s, quit) => Put(st, quit).At(s, Written(|st.quits|, |st.processed|))
    case StartWait(s) => st.At(s, Waiting(st.Pc(s).n, st.Pc(s).seen)).(main := None)
    case Wake(s) => st.At(s, Resumed(st.Pc(s).n, st.Pc(s).seen)).(main := Some(Thread(s)))
    case UnlockMain(s) => st.At(s, Leaving(st.Pc(s).n, st.Pc(s).seen)).(main := None)
    case UnlockDeliver(s) => st.At(s, Idle).(deliver := None)
    case Spurious(s) => st.At(s, Woken(st.Pc(s).n, st.Pc(s).seen))
    case WriteNonBlocking(quit) => Put(st, quit)
    case Read => st.(pipe := st.pipe[1..], loop := HasRead(st.quits[st.pipe[0]]))
    case LoopLock => st.(main := Some(Loop), loop := Locked(st.loop.quit))
    case Process => st.(processed := st.processed + st.InHand(), loop := Processed(st.loop.quit))
    case Signal =>
      var st' := st.(loop := Signalled(st.loop.quit));
      if Waiter(st).None? then st'
      else var s := Waiter(st).value; st'.At(s, Woken(st.Pc(s).n, st.Pc(s).seen))
    case LoopUnlock => st.(main := None, loop := if st.loop.quit then Stopped else Polling)
  }

  // ---------- Invariants ----------

  function Range(lo: nat, hi: nat): (r: seq<nat>)
    requires lo <= hi
  {
    seq(hi - lo, i requires 0 <= i < hi - lo => lo + i)
  }

  /** Exactly once, in the order of writing: processed, in hand and pipe make up all commands written. */
  ghost predicate Fifo(st: State) {
    st.processed + st.InHand() + st.pipe == Range(0, |st.quits|)
  }

  /** Who holds which mutex follows from where the threads are. */
  ghost predicate Mutexes(st: State) {
    && (forall s: Sender :: st.Pc(s) != Idle <==> st.deliver == Some(s))
    && (forall s: Sender :: st.Pc(s).HasMain? || st.Pc(s).Written? || st.Pc(s).Resumed? <==> st.main == Some(Thread(s)))
    && (st.loop.Locked? || st.loop.Processed? || st.loop.Signalled? <==> st.main == Some(Loop))
  }

  /**
   No wakeup is lost: as long as a thread waits, no command has been processed since it wrote its
   own, or the signal for the first one that was is still to be given. Nobody waits after a signal.
   */
  ghost predicate WaitersCovered(st: State) {
    forall s: Sender :: Covered(st, st.Pc(s))
  }

  ghost predicate Covered(st: State, pc: SenderPc) {
    && (pc.Written? ==> pc.seen == |st.processed| <= pc.n < |st.quits|)
    && (pc.Waiting? ==>
          && pc.seen <= pc.n < |st.quits|
          && !st.loop.Signalled?
          && |st.processed| == pc.seen + if st.loop.Processed? then 1 else 0)
  }

  /** None of the first `n` commands is CMD_QUIT. */
  ghost predicate NoQuit(st: State, n: nat) {
    forall k | 0 <= k < n && k < |st.quits| :: !st.quits[k]
  }

  /** The loop goes on as long as it has not processed CMD_QUIT, which is then the last it has. */
  ghost predicate QuitLast(st: State) {
    var p := |st.processed|;
    && p <= |st.quits|
    && match st.loop
       case Polling => NoQuit(st, p)
       case HasRead(quit) => p < |st.quits| && quit == st.quits[p] && NoQuit(st, p)
       case Locked(quit) => p < |st.quits| && quit == st.quits[p] && NoQuit(st, p)
       case Processed(quit) => p > 0 && quit == st.quits[p - 1] && NoQuit(st, p - 1)
       case Signalled(quit) => p > 0 && quit == st.quits[p - 1] && NoQuit(st, p - 1)
       case Stopped => p > 0 && st.quits[p - 1] && NoQuit(st, p - 1)
  }

  ghost predicate Inv(st: State) {
    Fifo(st) && Mutexes(st) && WaitersCovered(st) && QuitLast(st)
  }

  /** With Fifo, the loop can read whatever is in the pipe. */
  lemma PipeHead(st: State)
    requires Fifo(st) && st.pipe != []
    ensures st.pipe[0] == |st.processed| + |st.InHand()| < |st.quits|
    ensures |st.processed| + |st.InHand()| + |st.pipe| == |st.quits|
  {
    var all := st.processed + st.InHand() + st.pipe;
    assert |all| == |st.quits|;
    assert all[|st.processed| + |st.InHand()|] == st.pipe[0];
  }

  ghost predicate CanStep(st: State, a: Action) {
    Enabled(st, a) && (a.Read? ==> st.pipe[0] < |st.quits|)
  }

  lemma FifoKept(st: State, a: Action)
    requires Fifo(st) && CanStep(st, a)
    ensures Fifo(Next(st, a))
  {
    var st' := Next(st, a);
    match a
    case WriteBlocking(s, quit) =>
      assert Range(0, |st.quits| + 1) == Range(0, |st.quits|) + [|st.quits|];
      assert st'.InHand() == st.InHand();
      assert st.processed + st.InHand() + (st.pipe + [|st.quits|])
          == (st.processed + st.InHand() + st.pipe) + [|st.quits|];
    case WriteNonBlocking(quit) =>
      assert Range(0, |st.quits| + 1) == Range(0, |st.quits|) + [|st.quits|];
      assert st'.InHand() == st.InHand();
      assert st.processed + st.InHand() + (st.pipe + [|st.quits|])
          == (st.processed + st.InHand() + st.pipe) + [|st.quits|];
    case Read =>
      PipeHead(st);
      assert st'.InHand() + st'.pipe == st.pipe;
      assert st.processed + st.InHand() + st.pipe == st'.processed + st'.InHand() + st'.pipe;
    case Process =>
      assert st'.processed + st'.InHand() + st'.pipe == st.processed + st.InHand() + st.pipe;
    case _ =>
  }

  lemma MutexesKept(st: State, a: Action)
    requires Mutexes(st) && CanStep(st, a)
    ensures Mutexes(Next(st, a))
  {
  }

  lemma WaitersKept(st: State, a: Action)
    requires Inv(st) && CanStep(st, a)
    ensures WaitersCovered(Next(st, a))
  {
    FifoLengths(st);
    var st' := Next(st, a);
    forall s: Sender
      ensures Covered(st', st'.Pc(s))
    {
      assert Covered(st, st.Pc(s));
      assert st.Pc(s) != Idle <==> st.deliver == Some(s);
    }
  }

  lemma FifoLengths(st: State)
    requires Fifo(st)
    ensures |st.processed| + |st.InHand()| + |st.pipe| == |st.quits|
  {
    assert |st.processed + st.InHand() + st.pipe| == |st.quits|;
  }

  lemma QuitKept(st: State, a: Action)
    requires QuitLast(st) && CanStep(st, a) && (a.Read? ==> st.pipe[0] == |st.processed|)
    ensures QuitLast(Next(st, a))
  {
    var st', p := Next(st, a), |st.processed|;
    hide Next;
    if a.WriteBlocking? || a.WriteNonBlocking? {
      assert st'.quits == st.quits + [a.quit] && st'.loop == st.loop && st'.processed == st.processed by {
        NextWrite(st, a);
      }
    } else {
      NextQuits(st, a);
    }
  }

  lemma NextWrite(st: State, a: Action)
    requires CanStep(st, a) && (a.WriteBlocking? || a.WriteNonBlocking?)
    ensures var st' := Next(st, a);
      st'.quits == st.quits + [a.quit] && st'.loop == st.loop && st'.processed == st.processed
  {
  }

  lemma NextQuits(st: State, a: Action)
    requires CanStep(st, a) && !a.WriteBlocking? && !a.WriteNonBlocking?
    ensures var st' := Next(st, a);
      && st'.quits == st.quits
      && |st'.processed| == |st.processed| + (if a.Process? then 1 else 0)
      && (a.Read? ==> st'.loop == HasRead(st.quits[st.pipe[0]]))
      && (a.LoopLock? ==> st'.loop == Locked(st.loop.quit))
      && (a.Process? ==> st'.loop == Processed(st.loop.quit))
      && (a.Signal? ==> st'.loop == Signalled(st.loop.quit))
      && (a.LoopUnlock? ==> st'.loop == if st.loop.quit then Stopped else Polling)
      && (!(a.Read? || a.LoopLock? || a.Process? || a.Signal? || a.LoopUnlock?) ==> st'.loop == st.loop)
  {
  }

  /** Every action keeps the invariant, whatever the threads do and however often waits end spuriously. */
  lemma InvKept(st: State, a: Action)
    requires Inv(st) && Enabled(st, a)
    ensures CanStep(st, a) && Inv(Next(st, a))
  {
    if st.pipe != [] {
      PipeHead(st);
    }
    FifoKept(st, a);
    MutexesKept(st, a);
    WaitersKept(st, a);
    hide Next, Fifo;
    QuitKept(st, a);
  }

  // ---------- Runs ----------

  ghost predicate IsPath(sts: seq<State>, acts: seq<Action>) {
    && |sts| == |acts| + 1
    && forall i | 0 <= i < |acts| :: CanStep(sts[i], acts[i]) && sts[i + 1] == Next(sts[i], acts[i])
  }

  ghost predicate IsRun(sts: seq<State>, acts: seq<Action>) {
    IsPath(sts, acts) && sts[0] == INIT
  }

  /** No wait ends without a signal. */
  predicate Calm(acts: seq<Action>) {
    forall a: Action | a in acts :: !a.Spurious?
  }

  lemma StartInv()
    ensures Inv(INIT)
  {
    assert INIT.InHand() == [];
  }

  lemma RunPrefix(sts: seq<State>, acts: seq<Action>)
    requires IsRun(sts, acts) && acts != []
    ensures IsRun(sts[..|acts|], acts[..|acts| - 1])
    ensures CanStep(sts[|acts| - 1], acts[|acts| - 1]) && sts[|acts|] == Next(sts[|acts| - 1], acts[|acts| - 1])
  {
    hide Next, Enabled;
  }

  lemma {:induction false} RunInv(sts: seq<State>, acts: seq<Action>)
    requires IsRun(sts, acts)
    ensures forall i | 0 <= i < |sts| :: Inv(sts[i])
    decreases |acts|
  {
    hide Inv;
    if acts == [] {
      StartInv();
    } else {
      var n := |acts| - 1;
      RunPrefix(sts, acts);
      hide IsRun, Enabled, Next;
      RunInv(sts[..n + 1], acts[..n]);
      assert sts[..n + 1][n] == sts[n];
      InvKept(sts[n], acts[n]);
    }
  }

  /** In every run the commands are processed in the order of writing, none twice and none skipped. */
  lemma ProcessedInOrder(sts: seq<State>, acts: seq<Action>, i: nat)
    requires IsRun(sts, acts) && i < |sts|
    ensures |sts[i].processed| <= |sts[i].quits|
    ensures forall k | 0 <= k < |sts[i].processed| :: sts[i].processed[k] == k
  {
    RunInv(sts, acts);
    FifoOrder(sts[i]);
  }

  /** CMD_QUIT is among the processed commands. */
  ghost predicate QuitProcessed(st: State) {
    exists k: nat :: k in st.processed && k < |st.quits| && st.quits[k]
  }

  lemma QuitIs(st: State)
    requires Inv(st)
    ensures QuitProcessed(st) <==>
      st.loop == Stopped || ((st.loop.Processed? || st.loop.Signalled?) && st.loop.quit)
    ensures forall k | k in st.processed && k < |st.quits| && st.quits[k] :: k == |st.processed| - 1
  {
    FifoOrder(st);
    hide Fifo, Mutexes, WaitersCovered;
    var p := |st.processed|;
    if p > 0 {
      assert st.processed[p - 1] == p - 1 && st.processed[p - 1] in st.processed;
    }
  }

  lemma FifoOrder(st: State)
    requires Fifo(st)
    ensures |st.processed| <= |st.quits| && forall k | 0 <= k < |st.processed| :: st.processed[k] == k
  {
    FifoLengths(st);
    var all := st.processed + st.InHand() + st.pipe;
    forall k | 0 <= k < |st.processed|
      ensures st.processed[k] == k
    {
      assert all[k] == st.processed[k];
    }
  }

  /**
   In every run the loop has stopped exactly if it has processed CMD_QUIT and released the mutex
   after that, and CMD_QUIT is then the last command processed.
   */
  lemma StopsIff(sts: seq<State>, acts: seq<Action>, i: nat)
    requires IsRun(sts, acts) && i < |sts|
    ensures sts[i].loop == Stopped <==> QuitProcessed(sts[i]) && sts[i].main != Some(Loop)
    ensures forall k | k in sts[i].processed && k < |sts[i].quits| && sts[i].quits[k] :: k == |sts[i].processed| - 1
  {
    RunInv(sts, acts);
    QuitIs(sts[i]);
  }

  /** A waiting thread has its own command, hence a signal, still ahead. */
  lemma NoWakeupLost(sts: seq<State>, acts: seq<Action>, i: nat, s: Sender)
    requires IsRun(sts, acts) && i < |sts| && sts[i].Pc(s).Waiting?
    ensures Waiter(sts[i]) == Some(s)
    ensures sts[i].loop.Processed? || (|sts[i].processed| <= sts[i].Pc(s).n && (sts[i].InHand() != [] || sts[i].pipe != []))
  {
    RunInv(sts, acts);
    var st := sts[i];
    assert Covered(st, st.Pc(s));
    assert st.Pc(s) != Idle <==> st.deliver == Some(s);
    FifoLengths(st);
  }

  /**
   In every run a signal wakes the waiting thread after its own command was processed exactly if
   nothing else was still unprocessed when it wrote that command.
   */
  lemma SignalIsOwn(sts: seq<State>, acts: seq<Action>, i: nat)
    requires IsRun(sts, acts) && i < |acts| && acts[i] == Signal && Waiter(sts[i]).Some?
    ensures var st, pc := sts[i], sts[i].Pc(Waiter(sts[i]).value);
      pc.n < |st.processed| <==> pc.n == pc.seen
  {
    RunInv(sts, acts);
    assert CanStep(sts[i], acts[i]);
    assert Covered(sts[i], sts[i].Pc(Waiter(sts[i]).value));
  }

  // ---------- Only blocking calls, no spurious wakeups ----------

  predicate BlockingOnly(a: Action) {
    !a.WriteNonBlocking? && !a.Spurious?
  }

  ghost predicate OneAtATime(st: State, pc: SenderPc) {
    match pc
    case Written(n, seen) => n == seen && |st.quits| == n + 1
    case Waiting(n, seen) => n == seen && |st.quits| == n + 1
    case Woken(n, _) => n < |st.processed| == |st.quits|
    case Resumed(n, _) => n < |st.processed| == |st.quits|
    case Leaving(n, _) => n < |st.processed| == |st.quits|
    case _ => true
  }

  ghost predicate Serial(st: State) {
    && (forall s: Sender :: OneAtATime(st, st.Pc(s)))
    && (st.deliver.None? || st.Pc(st.deliver.value).HasDeliver? || st.Pc(st.deliver.value).HasMain? ==>
          |st.processed| == |st.quits|)
  }

  lemma SerialKept(st: State, a: Action)
    requires Inv(st) && Serial(st) && CanStep(st, a) && BlockingOnly(a)
    ensures Serial(Next(st, a))
  {
    FifoLengths(st);
    var st' := Next(st, a);
    forall s: Sender
      ensures OneAtATime(st', st'.Pc(s))
    {
      assert OneAtATime(st, st.Pc(s)) && Covered(st, st.Pc(s));
      assert st.Pc(s) != Idle <==> st.deliver == Some(s);
    }
    if st.deliver.Some? {
      assert OneAtATime(st, st.Pc(st.deliver.value)) && Covered(st, st.Pc(st.deliver.value));
      assert st.Pc(st.deliver.value) != Idle;
    }
  }

  lemma StartSerial()
    ensures Serial(INIT)
  {
  }

  lemma {:induction false} RunSerial(sts: seq<State>, acts: seq<Action>)
    requires IsRun(sts, acts) && forall a | a in acts :: BlockingOnly(a)
    ensures forall i | 0 <= i < |sts| :: Serial(sts[i])
    decreases |acts|
  {
    hide Serial, Inv, CanStep, BlockingOnly;
    RunInv(sts, acts);
    if acts == [] {
      StartSerial();
    } else {
      var n := |acts| - 1;
      RunPrefix(sts, acts);
      RunSerial(sts[..n + 1], acts[..n]);
      assert sts[..n + 1][n] == sts[n];
      assert acts[n] in acts;
      SerialKept(sts[n], acts[n]);
    }
  }

  /** With blocking calls only, every call returns after the loop has processed its command. */
  lemma BlockingReturns(sts: seq<State>, acts: seq<Action>, i: nat, s: Sender)
    requires IsRun(sts, acts) && (forall a | a in acts :: BlockingOnly(a))
    requires i < |sts| && Enabled(sts[i], UnlockDeliver(s))
    ensures sts[i].Pc(s).n < |sts[i].processed| && sts[i].processed[sts[i].Pc(s).n] == sts[i].Pc(s).n
  {
    RunSerial(sts, acts);
    assert OneAtATime(sts[i], sts[i].Pc(s));
    ProcessedInOrder(sts, acts, i);
  }

  // ---------- Progress ----------

  /** Actions other than new calls and spurious wakeups. */
  predicate Internal(a: Action) {
    !a.LockDeliver? && !a.WriteNonBlocking? && !a.Spurious?
  }

  function SenderWork(pc: SenderPc): nat {
    match pc
    case Idle => 0
    case HasDeliver => 12
    case HasMain => 11
    case Written(_, _) => 5
    case Waiting(_, _) => 4
    case Woken(_, _) => 3
    case Resumed(_, _) => 2
    case Leaving(_, _) => 1
  }

  function LoopWork(pc: LoopPc): nat {
    match pc
    case HasRead(_) => 4
    case Locked(_) => 3
    case Processed(_) => 2
    case Signalled(_) => 1
    case _ => 0
  }

  function Work(st: State): nat {
    (if st.deliver.Some? then SenderWork(st.Pc(st.deliver.value)) else 0) + 5 * |st.pipe| + LoopWork(st.loop)
  }

  /** Internal actions run out, so no call and no command is busy forever. */
  lemma WorkShrinks(st: State, a: Action)
    requires Inv(st) && CanStep(st, a) && Internal(a)
    ensures Work(Next(st, a)) < Work(st)
  {
    match a
    case LockMain(s) => assert st.deliver == Some(s);
    case WriteBlocking(s, _) => assert st.deliver == Some(s);
    case StartWait(s) => assert st.deliver == Some(s);
    case Wake(s) => assert st.deliver == Some(s);
    case UnlockMain(s) => assert st.deliver == Some(s);
    case UnlockDeliver(s) => assert st.deliver == Some(s);
    case _ =>
  }

  /** While a call is under way an internal action is possible, unless it waits for a stopped loop. */
  lemma NoDeadlock(st: State) returns (a: Action)
    requires Inv(st) && st.deliver.Some? && (st.loop != Stopped || !st.Pc(st.deliver.value).Waiting?)
    ensures Internal(a) && CanStep(st, a)
  {
    var s := st.deliver.value;
    assert Covered(st, st.Pc(s)) && st.Pc(s) != Idle;
    if st.pipe != [] {
      PipeHead(st);
    }
    FifoLengths(st);
    if st.main.Some? && st.main.value.Thread? {
      var s' := st.main.value.s;
      assert st.Pc(s') != Idle;
      assert s' == s;
    }
    match st.Pc(s)
    case HasMain => a := WriteBlocking(s, false);
    case Written(_, _) => a := StartWait(s);
    case Resumed(_, _) => a := UnlockMain(s);
    case Leaving(_, _) => a := UnlockDeliver(s);
    case HasDeliver => a := if st.main.None? then LockMain(s) else LoopAction(st);
    case Woken(_, _) => a := if st.main.None? then Wake(s) else LoopAction(st);
    case Waiting(_, _) => a := LoopAction(st);
  }

  function LoopAction(st: State): Action {
    match st.loop
    case Polling => Read
    case HasRead(_) => LoopLock
    case Locked(_) => Process
    case Processed(_) => Signal
    case _ => LoopUnlock
  }

  /**
   Once CMD_QUIT has been processed, and the signal for it given, a waiting thread is woken by nothing
   but a spurious wakeup.
   */
  lemma WaitsForever(st: State, s: Sender, a: Action)
    requires Inv(st) && QuitProcessed(st) && !st.loop.Processed? && st.Pc(s).Waiting?
    requires CanStep(st, a) && a != Spurious(s)
    ensures Next(st, a).Pc(s) == st.Pc(s) && QuitProcessed(Next(st, a)) && !Next(st, a).loop.Processed?
  {
    QuitIs(st);
    assert Covered(st, st.Pc(s));
    InvKept(st, a);
    QuitIs(Next(st, a));
    hide Fifo, Mutexes, WaitersCovered, QuitProcessed;
  }

  // ---------- Continuations ----------

  /** The system can go on from one state to the other without spurious wakeups. */
  ghost predicate Leads(st: State, st': State) {
    exists sts: seq<State>, acts: seq<Action> ::
      IsPath(sts, acts) && Calm(acts) && sts[0] == st && sts[|acts|] == st'
  }

  ghost predicate Reached(st: State) {
    Leads(INIT, st)
  }

  lemma LeadsSelf(st: State)
    ensures Leads(st, st)
  {
    var none: seq<Action> := [];
    assert IsPath([st], none) && [st][|none|] == st;
  }

  lemma PathExtended(sts: seq<State>, acts: seq<Action>, a: Action)
    requires IsPath(sts, acts) && CanStep(sts[|acts|], a)
    ensures IsPath(sts + [Next(sts[|acts|], a)], acts + [a])
  {
    hide Enabled, Next;
    var sts', acts' := sts + [Next(sts[|acts|], a)], acts + [a];
    assert forall i | 0 <= i <= |acts| :: sts'[i] == sts[i];
    assert forall i | 0 <= i < |acts| :: acts'[i] == acts[i];
  }

  lemma LeadsNext(st0: State, st: State, a: Action) returns (st': State)
    requires Leads(st0, st) && Inv(st) && Enabled(st, a) && !a.Spurious?
    ensures CanStep(st, a) && st' == Next(st, a) && Leads(st0, st') && Inv(st')
  {
    hide Inv, Enabled, Next;
    InvKept(st, a);
    st' := Next(st, a);
    var sts: seq<State>, acts: seq<Action> :|
      IsPath(sts, acts) && Calm(acts) && sts[0] == st0 && sts[|acts|] == st;
    assert |sts| == |acts| + 1;
    PathExtended(sts, acts, a);
    hide IsPath;
    assert (sts + [st'])[0] == st0 && (sts + [st'])[|acts + [a]|] == st';
  }

  /** The states a path without spurious wakeups goes through, by the last step. */
  lemma LeadsBack(sts: seq<State>, acts: seq<Action>)
    requires IsPath(sts, acts) && Calm(acts) && acts != []
    ensures var n := |acts| - 1;
      && IsPath(sts[..n + 1], acts[..n]) && Calm(acts[..n]) && sts[..n + 1][n] == sts[n] && sts[..n + 1][0] == sts[0]
      && CanStep(sts[n], acts[n]) && sts[n + 1] == Next(sts[n], acts[n]) && !acts[n].Spurious?
  {
    hide Next, Enabled;
    assert acts[|acts| - 1] in acts;
  }

  lemma {:induction false} PathInv(sts: seq<State>, acts: seq<Action>)
    requires IsPath(sts, acts) && Calm(acts) && Inv(sts[0])
    ensures Inv(sts[|acts|])
    decreases |acts|
  {
    hide Inv, Next, Enabled, Calm;
    if acts != [] {
      LeadsBack(sts, acts);
      PathInv(sts[..|acts|], acts[..|acts| - 1]);
      InvKept(sts[|acts| - 1], acts[|acts| - 1]);
    }
  }

  lemma LeadsInv(st: State, st': State)
    requires Leads(st, st') && Inv(st)
    ensures Inv(st')
  {
    hide Inv, Next, Enabled;
    var sts: seq<State>, acts: seq<Action> :|
      IsPath(sts, acts) && Calm(acts) && sts[0] == st && sts[|acts|] == st';
    PathInv(sts, acts);
  }

  lemma PathsJoin(sts: seq<State>, acts: seq<Action>, more: seq<State>, go: seq<Action>)
    requires IsPath(sts, acts) && IsPath(more, go) && sts[|acts|] == more[0]
    ensures IsPath(sts[..|acts|] + more, acts + go)
  {
    hide Enabled, Next;
    var all, doing := sts[..|acts|] + more, acts + go;
    forall i | 0 <= i < |doing|
      ensures CanStep(all[i], doing[i]) && all[i + 1] == Next(all[i], doing[i])
    {
      if i < |acts| {
        assert all[i] == sts[i] && all[i + 1] == sts[i + 1] && doing[i] == acts[i];
      } else {
        var k := i - |acts|;
        assert all[i] == more[k] && all[i + 1] == more[k + 1] && doing[i] == go[k];
      }
    }
  }

  lemma LeadsOn(st0: State, st: State, st': State)
    requires Leads(st0, st) && Leads(st, st')
    ensures Leads(st0, st')
  {
    hide CanStep, Next;
    var sts: seq<State>, acts: seq<Action> :|
      IsPath(sts, acts) && Calm(acts) && sts[0] == st0 && sts[|acts|] == st;
    var more: seq<State>, go: seq<Action> :|
      IsPath(more, go) && Calm(go) && more[0] == st && more[|go|] == st';
    PathsJoin(sts, acts, more, go);
    assert |sts| == |acts| + 1 && |more| == |go| + 1;
    hide IsPath;
    var all := sts[..|acts|] + more;
    assert all[0] == st0 && all[|acts + go|] == st';
  }

  // ---------- When a call returns ----------

  /** A thread that was the only one with something to process wakes up to find it processed. */
  ghost predicate OwnFirst(st: State) {
    forall s: Sender :: OwnDone(st, st.Pc(s))
  }

  ghost predicate OwnDone(st: State, pc: SenderPc) {
    pc.Woken? || pc.Resumed? || pc.Leaving? ==> pc.n == pc.seen ==> pc.n < |st.processed|
  }

  lemma OwnKept(st: State, a: Action)
    requires Inv(st) && OwnFirst(st) && CanStep(st, a) && !a.Spurious?
    ensures OwnFirst(Next(st, a))
  {
    forall s: Sender
      ensures OwnDone(Next(st, a), Next(st, a).Pc(s))
    {
      assert OwnDone(st, st.Pc(s)) && Covered(st, st.Pc(s));
    }
  }

  lemma {:induction false} PathOwn(sts: seq<State>, acts: seq<Action>)
    requires IsPath(sts, acts) && Calm(acts) && Inv(sts[0]) && OwnFirst(sts[0])
    ensures OwnFirst(sts[|acts|])
    decreases |acts|
  {
    hide Inv, Next, Enabled, OwnFirst, Calm;
    if acts != [] {
      LeadsBack(sts, acts);
      PathOwn(sts[..|acts|], acts[..|acts| - 1]);
      PathInv(sts[..|acts|], acts[..|acts| - 1]);
      OwnKept(sts[|acts| - 1], acts[|acts| - 1]);
    }
  }

  /**
   Whatever commands others write without waiting: a call that found nothing unprocessed returns
   only after its own command was processed.
   */
  lemma ReturnsAfterProcessing(st: State, s: Sender)
    requires Reached(st) && Enabled(st, UnlockDeliver(s)) && st.Pc(s).n == st.Pc(s).seen
    ensures st.Pc(s).n < |st.processed| && st.processed[st.Pc(s).n] == st.Pc(s).n
  {
    hide Inv, Next;
    StartInv();
    var sts: seq<State>, acts: seq<Action> :|
      IsPath(sts, acts) && Calm(acts) && sts[0] == INIT && sts[|acts|] == st;
    PathOwn(sts, acts);
    assert OwnDone(st, st.Pc(s));
    ProcessedInOrder(sts, acts, |acts|);
  }

  /** A call whose command is in the pipe can return after the very next command is processed. */
  lemma NextCommandReturns(st: State, s: Sender) returns (st': State)
    requires Inv(st) && st.Pc(s).Written? && st.loop != Stopped
    ensures Leads(st, st') && st'.Pc(s) == Leaving(st.Pc(s).n, st.Pc(s).seen)
    ensures |st'.processed| == st.Pc(s).seen + 1 && st'.quits == st.quits && st'.InHand() == []
    ensures st.Pc(s).seen < |st.quits| && st'.loop == if st.quits[st.Pc(s).seen] then Stopped else Polling
  {
    LeadsSelf(st);
    assert Covered(st, st.Pc(s)) && (st.Pc(s).Written? ==> st.main == Some(Thread(s)));
    assert st.Pc(s) != Idle && st.deliver == Some(s);
    FifoLengths(st);
    hide Leads, Inv;
    var st1 := LeadsNext(st, st, StartWait(s));
    if st1.loop.Polling? {
      st1 := LeadsNext(st, st1, Read);
    }
    st1 := LeadsNext(st, st1, LoopLock);
    st' := SignalReturns(st1, s);
    LeadsOn(st, st1, st');
  }

  lemma SignalReturns(st: State, s: Sender) returns (st': State)
    requires Inv(st) && st.Pc(s).Waiting? && st.loop.Locked? && st.deliver == Some(s)
    ensures Leads(st, st') && st'.Pc(s) == Leaving(st.Pc(s).n, st.Pc(s).seen)
    ensures |st'.processed| == |st.processed| + 1 && st'.quits == st.quits && st'.InHand() == []
    ensures st'.loop == if st.loop.quit then Stopped else Polling
  {
    LeadsSelf(st);
    hide Leads, Inv;
    st' := LeadsNext(st, st, Process);
    st' := LeadsNext(st, st', Signal);
    st' := LeadsNext(st, st', LoopUnlock);
    st' := LeadsNext(st, st', Wake(s));
    st' := LeadsNext(st, st', UnlockMain(s));
  }

  /** The call of `s` with command `n` in the pipe goes on, and is not left behind by the loop. */
  ghost predicate Attended(st: State, s: Sender, n: nat, seen: nat) {
    && st.Pc(s) in {Written(n, seen), Waiting(n, seen), Woken(n, seen), Resumed(n, seen)}
    && (st.Pc(s).Written? || st.Pc(s).Waiting? ==> st.loop != Stopped)
  }

  /** The call has begun to wait for a loop that has stopped, or is about to. */
  ghost predicate Abandoned(st: State, s: Sender, n: nat, seen: nat) {
    st.loop == Stopped && st.Pc(s) in {Written(n, seen), Waiting(n, seen)}
  }

  lemma AttendedKept(st: State, s: Sender, n: nat, seen: nat, a: Action)
    requires Inv(st) && Attended(st, s, n, seen) && CanStep(st, a) && !a.Spurious?
    ensures Attended(Next(st, a), s, n, seen) || Next(st, a).Pc(s) == Leaving(n, seen)
  {
    assert st.Pc(s) != Idle <==> st.deliver == Some(s);
    assert Covered(st, st.Pc(s));
  }

  lemma AbandonedKept(st: State, s: Sender, n: nat, seen: nat, a: Action)
    requires Inv(st) && Abandoned(st, s, n, seen) && CanStep(st, a) && !a.Spurious?
    ensures Abandoned(Next(st, a), s, n, seen)
  {
  }

  lemma {:induction false} PathAbandoned(sts: seq<State>, acts: seq<Action>, s: Sender, n: nat, seen: nat)
    requires IsPath(sts, acts) && Calm(acts) && Inv(sts[0]) && Abandoned(sts[0], s, n, seen)
    ensures Abandoned(sts[|acts|], s, n, seen)
    decreases |acts|
  {
    hide Inv, Next, Enabled, Abandoned, Calm;
    if acts != [] {
      LeadsBack(sts, acts);
      PathAbandoned(sts[..|acts|], acts[..|acts| - 1], s, n, seen);
      PathInv(sts[..|acts|], acts[..|acts| - 1]);
      AbandonedKept(sts[|acts| - 1], s, n, seen, acts[|acts| - 1]);
    }
  }

  lemma NeverReturns(st: State, st': State, s: Sender, n: nat, seen: nat)
    requires Inv(st) && Abandoned(st, s, n, seen) && Leads(st, st')
    ensures Abandoned(st', s, n, seen)
  {
    hide Inv, Abandoned, Next, Enabled;
    var sts: seq<State>, acts: seq<Action> :|
      IsPath(sts, acts) && Calm(acts) && sts[0] == st && sts[|acts|] == st';
    PathAbandoned(sts, acts, s, n, seen);
  }

  /** A call that is not left behind can always go on to its return, on its own and the loop's steps. */
  lemma {:induction false} AttendedReturns(st: State, s: Sender, n: nat, seen: nat) returns (st': State)
    requires Inv(st) && Attended(st, s, n, seen)
    ensures Leads(st, st') && st'.Pc(s) == Leaving(n, seen)
    decreases Work(st)
  {
    LeadsSelf(st);
    assert st.Pc(s) != Idle && st.deliver == Some(s);
    hide Inv, Leads, Next, Enabled;
    var a := NoDeadlock(st);
    AttendedKept(st, s, n, seen, a);
    WorkShrinks(st, a);
    hide Attended, Work;
    st' := LeadsNext(st, st, a);
    if st'.Pc(s) != Leaving(n, seen) {
      var st1 := st';
      st' := AttendedReturns(st1, s, n, seen);
      LeadsOn(st, st1, st');
    }
  }

  lemma {:induction false} PathAttended(sts: seq<State>, acts: seq<Action>, s: Sender, n: nat, seen: nat)
    requires IsPath(sts, acts) && Calm(acts) && Inv(sts[0]) && Attended(sts[0], s, n, seen)
    ensures (exists i | 0 <= i <= |acts| :: sts[i].Pc(s) == Leaving(n, seen)) || Attended(sts[|acts|], s, n, seen)
    decreases |acts|
  {
    hide Inv, Next, Enabled, Attended, Calm;
    if acts != [] {
      var k := |acts| - 1;
      LeadsBack(sts, acts);
      PathAttended(sts[..k + 1], acts[..k], s, n, seen);
      PathInv(sts[..k + 1], acts[..k]);
      if Attended(sts[k], s, n, seen) {
        AttendedKept(sts[k], s, n, seen, acts[k]);
        assert sts[k + 1].Pc(s) == Leaving(n, seen) || Attended(sts[k + 1], s, n, seen);
      } else {
        var i :| 0 <= i <= k && sts[..k + 1][i].Pc(s) == Leaving(n, seen);
        assert sts[i].Pc(s) == Leaving(n, seen);
      }
    }
  }

  /** While a thread writes, the loop is not at work, so it has stopped if CMD_QUIT was processed. */
  lemma QuitWritten(st: State, s: Sender)
    requires Inv(st) && st.Pc(s).Written?
    ensures st.loop == Stopped <==> QuitProcessed(st)
  {
    assert st.main == Some(Thread(s));
    QuitIs(st);
  }

  /** On some continuation the call of `s` comes to a state from which it never returns. */
  ghost predicate Hangs(st: State, s: Sender) {
    exists sts: seq<State>, acts: seq<Action> :: IsPath(sts, acts) && Calm(acts) && sts[0] == st && Stuck(sts, s)
  }

  ghost predicate Stuck(sts: seq<State>, s: Sender)
    requires sts != []
  {
    var pc := sts[0].Pc(s);
    pc.Written?
    && (forall i | 0 <= i < |sts| :: sts[i].Pc(s) != Leaving(pc.n, pc.seen))
    && (forall st' | Leads(sts[|sts| - 1], st') :: st'.Pc(s) != Leaving(pc.n, pc.seen))
  }

  /** A call hangs exactly if CMD_QUIT was processed before it wrote its command. */
  lemma HangsIff(st: State, s: Sender)
    requires Reached(st) && st.Pc(s).Written?
    ensures Hangs(st, s) <==> QuitProcessed(st)
  {
    StartInv();
    LeadsInv(INIT, st);
    QuitWritten(st, s);
    var n, seen := st.Pc(s).n, st.Pc(s).seen;
    if st.loop == Stopped {
      var none: seq<Action> := [];
      assert IsPath([st], none) && Calm(none);
      forall st' | Leads(st, st')
        ensures st'.Pc(s) != Leaving(n, seen)
      {
        NeverReturns(st, st', s, n, seen);
      }
      assert Stuck([st], s);
    } else if Hangs(st, s) {
      var sts: seq<State>, acts: seq<Action> :| IsPath(sts, acts) && Calm(acts) && sts[0] == st && Stuck(sts, s);
      PathAttended(sts, acts, s, n, seen);
      PathInv(sts, acts);
      var st' := AttendedReturns(sts[|acts|], s, n, seen);
    }
  }

  /**
   A call returns only after its own command was processed, on all continuations, exactly if nothing
   else was unprocessed when it wrote the command, or it never returns.
   */
  lemma ReturnIff(st: State, s: Sender)
    requires Reached(st) && st.Pc(s).Written?
    ensures var n, seen := st.Pc(s).n, st.Pc(s).seen;
      (forall st' | Leads(st, st') && st'.Pc(s) == Leaving(n, seen) :: n < |st'.processed|)
      <==> n == seen || QuitProcessed(st)
  {
    StartInv();
    LeadsInv(INIT, st);
    QuitWritten(st, s);
    var n, seen := st.Pc(s).n, st.Pc(s).seen;
    if n == seen {
      forall st' | Leads(st, st') && st'.Pc(s) == Leaving(n, seen)
        ensures n < |st'.processed|
      {
        LeadsOn(INIT, st, st');
        ReturnsAfterProcessing(st', s);
      }
    } else if st.loop == Stopped {
      forall st' | Leads(st, st')
        ensures st'.Pc(s) != Leaving(n, seen)
      {
        NeverReturns(st, st', s, n, seen);
      }
    } else {
      assert Covered(st, st.Pc(s));
      var st' := NextCommandReturns(st, s);
    }
  }

  /** CMD_QUIT has been written, and the loop has not stopped for it yet. */
  ghost predicate QuitAhead(st: State) {
    st.loop != Stopped && exists k: nat :: |st.processed| - 1 <= k < |st.quits| && st.quits[k]
  }

  lemma QuitStep(st: State) returns (a: Action)
    requires Inv(st) && QuitAhead(st)
    ensures Internal(a) && CanStep(st, a)
    ensures QuitAhead(Next(st, a)) || Next(st, a).loop == Stopped
  {
    FifoLengths(st);
    if st.pipe != [] {
      PipeHead(st);
    }
    if st.main.Some? && st.main.value.Thread? {
      var s := st.main.value.s;
      assert st.Pc(s) != Idle;
      a := match st.Pc(s) case HasMain => WriteBlocking(s, false) case Written(_, _) => StartWait(s) case _ => UnlockMain(s);
    } else {
      a := LoopAction(st);
    }
    var k: nat :| |st.processed| - 1 <= k < |st.quits| && st.quits[k];
    var st' := Next(st, a);
    assert k < |st'.quits| && st'.quits[k];
    assert st'.loop != Stopped ==> |st'.processed| - 1 <= k;
  }

  /** A written CMD_QUIT can be brought to stop the loop. */
  lemma {:induction false} QuitStops(st: State) returns (st': State)
    requires Inv(st) && QuitAhead(st)
    ensures Leads(st, st') && st'.loop == Stopped
    decreases Work(st)
  {
    LeadsSelf(st);
    hide Inv, Leads, Next, Enabled, QuitAhead;
    var a := QuitStep(st);
    WorkShrinks(st, a);
    hide Work;
    st' := LeadsNext(st, st, a);
    if st'.loop != Stopped {
      var st1 := st';
      st' := QuitStops(st1);
      LeadsOn(st, st1, st');
    }
  }

  lemma EarlyWrite() returns (st: State)
    ensures Reached(st) && Inv(st) && st.Pc(7) == Written(1, 0) && st.quits == [false, false] && st.loop == Polling
  {
    StartInv();
    LeadsSelf(INIT);
    hide Leads, Inv;
    st := LeadsNext(INIT, INIT, WriteNonBlocking(false));
    st := LeadsNext(INIT, st, LockDeliver(7));
    st := LeadsNext(INIT, st, LockMain(7));
    st := LeadsNext(INIT, st, WriteBlocking(7, false));
  }

  /** A call that returns with a non-blocking command processed, and its own still in the pipe. */
  lemma EarlyReturn() returns (st: State)
    ensures Reached(st) && Enabled(st, UnlockDeliver(7)) && st.Pc(7) == Leaving(1, 0)
    ensures st.processed == [0] && st.pipe == [1]
  {
    var st0 := EarlyWrite();
    st := NextCommandReturns(st0, 7);
    LeadsOn(INIT, st0, st);
    LeadsInv(INIT, st0);
    LeadsInv(st0, st);
    assert st.processed + st.pipe == Range(0, 2) == [0, 1];
    assert st.processed == (st.processed + st.pipe)[..1] && st.pipe == (st.processed + st.pipe)[1..];
  }
}
