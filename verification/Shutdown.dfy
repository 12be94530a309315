/**
 The shutdown of the client: three threads that test and set shared flags, in any interleaving.
 Every read or write of a flag is a step of its own.
 */
module Shutdown {
  datatype Thread = Receiver | Input | Painter

  /**
   Where a thread is: at the test of its loop, in the blocking call inside it, noting why it
   ends, at one of the statements of Stop, or finished. `again` says that another call of Stop
   follows the one being executed.
   */
  datatype Pc =
    | Test
    | Work
    | TestStopping
    | NoteReason
    | EnterStop(again: bool)
    | SetStopping(again: bool)
    | ClearRunning(again: bool)
    | ClearUi(again: bool)
    | ClearUiActive(again: bool)
    | TestSocket(again: bool)
    | CloseSocket(again: bool)
    | ForgetSocket(again: bool)
    | Finished

  // Why the client ends, as told to its user.
  datatype ExitReason = NoReason | ServerClosed | NameTaken

  datatype Shared = Shared(
    running: bool, stopping: bool, uiRunning: bool, uiActive: bool, socketSet: bool, reason: ExitReason)

  datatype System = System(shared: Shared, receiver: Pc, input: Pc, painter: Pc) {
    function At(t: Thread): Pc {
      match t
      case Receiver => receiver
      case Input => input
      case Painter => painter
    }

    function Move(t: Thread, pc: Pc, shared: Shared): System {
      match t
      case Receiver => System(shared, pc, input, painter)
      case Input => System(shared, receiver, pc, painter)
      case Painter => System(shared, receiver, input, pc)
    }
  }

  const START := System(Shared(true, false, true, true, true, NoReason), Test, Test, Test)

  // How the blocking call of a thread ends.
  datatype Result =
    | Continue   // a message shown, a line sent or skipped, the queue printed
    | Nothing    // no message; no input
    | Refused    // the control message
    | ExitTyped
    | Thrown

  function AfterStop(again: bool): Pc {
    if again then EnterStop(false) else Finished
  }

  // The results that the blocking call of a thread can have.
  predicate Possible(t: Thread, r: Result, shared: Shared) {
    match r
    case Continue => true
    case Thrown => true
    case Nothing => t.Receiver? || (t.Input? && !shared.uiRunning)
    case Refused => t.Receiver?
    case ExitTyped => t.Input?
  }

  datatype Effect = Effect(pc: Pc, shared: Shared)

  // One statement.
  function Execute(pc: Pc, t: Thread, r: Result, sh: Shared): Effect {
    match pc
    case Test => Effect(if sh.running then Work else EnterStop(false), sh)
    case Work => (
      match r
      case Continue => Effect(Test, sh)
      case Nothing => Effect(if t.Receiver? then TestStopping else EnterStop(false), sh)
      case Refused => Effect(EnterStop(true), sh.(reason := NameTaken))
      case ExitTyped => Effect(EnterStop(true), sh)
      case Thrown => Effect(EnterStop(false), sh))
    case TestStopping => Effect(if sh.stopping then EnterStop(false) else NoteReason, sh)
    case NoteReason => Effect(EnterStop(false), sh.(reason := ServerClosed))
    case EnterStop(again) => Effect(if sh.stopping then AfterStop(again) else SetStopping(again), sh)
    case SetStopping(again) => Effect(ClearRunning(again), sh.(stopping := true))
    case ClearRunning(again) => Effect(ClearUi(again), sh.(running := false))
    case ClearUi(again) => Effect(ClearUiActive(again), sh.(uiRunning := false))
    case ClearUiActive(again) => Effect(TestSocket(again), sh.(uiActive := false))
    case TestSocket(again) => Effect(if sh.socketSet then CloseSocket(again) else AfterStop(again), sh)
    case CloseSocket(again) => Effect(ForgetSocket(again), sh)
    case ForgetSocket(again) => Effect(AfterStop(again), sh.(socketSet := false))
    case Finished => Effect(Finished, sh)
  }

  function Next(s: System, t: Thread, r: Result): System {
    var effect := Execute(s.At(t), t, r, s.shared);
    s.Move(t, effect.pc, effect.shared)
  }

  predicate Step(s: System, s': System) {
    exists t, r :: s.At(t) != Finished && Possible(t, r, s.shared) && s' == Next(s, t, r)
  }

  predicate Run(states: seq<System>) {
    && |states| > 0
    && states[0] == START
    && forall i :: 0 <= i < |states| - 1 ==> Step(states[i], states[i + 1])
  }

  // ------------------------------------------------------------ safety

  // The flags are cleared and the session has no socket.
  predicate Settled(sh: Shared) {
    !sh.running && !sh.uiRunning && !sh.uiActive && !sh.socketSet
  }

  // A thread that has set `stopping` and has not yet left the body of Stop.
  predicate Inside(pc: Pc) {
    pc.ClearRunning? || pc.ClearUi? || pc.ClearUiActive? || pc.TestSocket? || pc.CloseSocket? || pc.ForgetSocket?
  }

  // What a thread has already achieved where it is.
  predicate Achieved(pc: Pc, sh: Shared) {
    && (Inside(pc) || pc.Finished? ==> sh.stopping)
    && (Inside(pc) && !pc.ClearRunning? ==> !sh.running)
    && (Inside(pc) && !pc.ClearRunning? && !pc.ClearUi? ==> !sh.uiRunning)
    && (pc.TestSocket? || pc.CloseSocket? || pc.ForgetSocket? ==> !sh.uiActive)
  }

  predicate Inv(s: System) {
    && Achieved(s.receiver, s.shared) && Achieved(s.input, s.shared) && Achieved(s.painter, s.shared)
    && (s.shared.stopping ==>
          Settled(s.shared) || Inside(s.receiver) || Inside(s.input) || Inside(s.painter))
  }

  // Flags are only ever cleared, and stopping is never taken back.
  predicate Later(sh: Shared, sh': Shared) {
    && (sh.stopping ==> sh'.stopping)
    && (sh'.running ==> sh.running) && (sh'.uiRunning ==> sh.uiRunning)
    && (sh'.uiActive ==> sh.uiActive) && (sh'.socketSet ==> sh.socketSet)
  }

  lemma ExecuteKeeps(pc: Pc, t: Thread, r: Result, sh: Shared)
    requires Achieved(pc, sh)
    ensures var effect := Execute(pc, t, r, sh);
            && Achieved(effect.pc, effect.shared) && Later(sh, effect.shared)
            && (Inside(pc) ==> Inside(effect.pc) || Settled(effect.shared))
            && (effect.shared.stopping && !sh.stopping ==> Inside(effect.pc))
  {
  }

  lemma StepKeepsInv(s: System, s': System)
    requires Inv(s) && Step(s, s')
    ensures Inv(s')
  {
    hide Execute, Achieved, Possible, Inside;
    var t, r :| s.At(t) != Finished && Possible(t, r, s.shared) && s' == Next(s, t, r);
    assert Achieved(s.At(t), s.shared);
    ExecuteKeeps(s.At(t), t, r, s.shared);
    AchievedStays(s.receiver, s.shared, s'.shared);
    AchievedStays(s.input, s.shared, s'.shared);
    AchievedStays(s.painter, s.shared, s'.shared);
  }

  lemma AchievedStays(pc: Pc, sh: Shared, sh': Shared)
    requires Achieved(pc, sh) && Later(sh, sh')
    ensures Achieved(pc, sh')
  {
  }

  lemma {:induction false} RunKeepsInv(states: seq<System>, n: nat)
    requires Run(states) && n < |states|
    ensures Inv(states[n])
    decreases n
  {
    if n != 0 {
      RunKeepsInv(states, n - 1);
      assert Step(states[n - 1], states[n - 1 + 1]);
      StepKeepsInv(states[n - 1], states[n]);
    }
  }

  /**
   In every interleaving: a finished thread means that stopping has begun; once it has, either
   everything is settled or some thread is still at work on it; so when all three have finished,
   both running flags are false and the socket is closed.
   */
  lemma ShutdownIsClean(states: seq<System>, n: nat)
    requires Run(states) && n < |states|
    ensures var s := states[n];
            && (forall t :: s.At(t) == Finished ==> s.shared.stopping)
            && (s.shared.stopping ==> Settled(s.shared) || exists t :: Inside(s.At(t)))
            && ((forall t :: s.At(t) == Finished) ==> s.shared.stopping && Settled(s.shared))
  {
    var s := states[n];
    RunKeepsInv(states, n);
    assert s.At(Receiver) == s.receiver && s.At(Input) == s.input && s.At(Painter) == s.painter;
  }

  // ------------------------------------------------------------ closing the socket

  predicate AllFinished(s: System) {
    s.receiver == Finished && s.input == Finished && s.painter == Finished
  }

  function One(b: bool): nat {
    if b then 1 else 0
  }

  // How many threads have found the socket set and are about to close it.
  function AtClose(s: System): nat {
    One(s.receiver.CloseSocket?) + One(s.input.CloseSocket?) + One(s.painter.CloseSocket?)
  }

  // How many threads have closed it and are about to forget it.
  function AtForget(s: System): nat {
    One(s.receiver.ForgetSocket?) + One(s.input.ForgetSocket?) + One(s.painter.ForgetSocket?)
  }

  function Holding(s: System): nat {
    AtClose(s) + AtForget(s)
  }

  // How many threads have got past the test at the start of Stop, and are not through with it.
  function Within(s: System): nat {
    One(s.receiver.SetStopping? || Inside(s.receiver)) + One(s.input.SetStopping? || Inside(s.input))
    + One(s.painter.SetStopping? || Inside(s.painter))
  }

  // How many threads have closed the descriptor while the session still has it.
  function ClosedUnforgotten(s: System): nat {
    if s.shared.socketSet then AtForget(s) else 0
  }

  // A thread executes the call of close.
  predicate Closes(s: System, s': System) {
    exists t: Thread :: s.At(t).CloseSocket? && s'.At(t).ForgetSocket?
  }

  function CloseCalls(states: seq<System>, n: nat): nat
    requires n < |states|
  {
    if n == 0 then 0 else CloseCalls(states, n - 1) + One(Closes(states[n - 1], states[n]))
  }

  // Those of the calls that are given the descriptor; after it is forgotten they are given -1.
  function Closings(states: seq<System>, n: nat): nat
    requires n < |states|
  {
    if n == 0 then 0
    else Closings(states, n - 1) + One(Closes(states[n - 1], states[n]) && states[n - 1].shared.socketSet)
  }

  function Peak(states: seq<System>, n: nat, f: System -> nat): nat
    requires n < |states|
  {
    if n == 0 || f(states[n]) > Peak(states, n - 1, f) then f(states[n]) else Peak(states, n - 1, f)
  }

  lemma {:induction false} PeakExactly(states: seq<System>, n: nat, f: System -> nat, bound: nat)
    requires n < |states|
    ensures Peak(states, n, f) <= bound <==> forall i :: 0 <= i <= n ==> f(states[i]) <= bound
  {
    if n != 0 {
      PeakExactly(states, n - 1, f, bound);
    }
  }

  // Exactly one thread moves, so the counts change by what that thread does.
  lemma StepHolders(s: System, s': System)
    requires Step(s, s')
    ensures s'.shared.socketSet ==>
              && s.shared.socketSet && Holding(s) <= Holding(s')
              && One(Closes(s, s')) + AtClose(s') + Holding(s) == AtClose(s) + Holding(s')
              && AtForget(s') == AtForget(s) + One(Closes(s, s'))
    ensures !s'.shared.socketSet ==>
              && One(Closes(s, s')) + AtClose(s') == AtClose(s) && Holding(s') <= Holding(s)
              && (s.shared.socketSet ==> AtForget(s) > 0 && !Closes(s, s'))
  {
    var t, r :| s.At(t) != Finished && Possible(t, r, s.shared) && s' == Next(s, t, r);
    MoveHolders(s, t, r);
    ExecuteHolders(s.At(t), t, r, s.shared);
    AtForgetOne(s, t);
    hide Execute, AtClose, AtForget, Closes;
  }

  lemma ExecuteHolders(pc: Pc, t: Thread, r: Result, sh: Shared)
    ensures var effect := Execute(pc, t, r, sh);
            && (effect.pc.ForgetSocket? <==> pc.CloseSocket?)
            && (effect.pc.CloseSocket? <==> pc.TestSocket? && sh.socketSet)
            && (effect.shared.socketSet <==> sh.socketSet && !pc.ForgetSocket?)
  {
  }

  lemma AtForgetOne(s: System, t: Thread)
    ensures s.At(t).ForgetSocket? ==> AtForget(s) > 0
  {
  }

  // A step of one thread, in terms of where it is and gets.
  lemma MoveHolders(s: System, t: Thread, r: Result)
    ensures var s', pc, pc' := Next(s, t, r), s.At(t), Next(s, t, r).At(t);
            && AtClose(s') == AtClose(s) - One(pc.CloseSocket?) + One(pc'.CloseSocket?)
            && AtForget(s') == AtForget(s) - One(pc.ForgetSocket?) + One(pc'.ForgetSocket?)
            && (Closes(s, s') <==> pc.CloseSocket?)
  {
    var s' := Next(s, t, r);
    assert s'.At(t) == Execute(s.At(t), t, r, s.shared).pc;
    assert forall u :: u != t ==> s'.At(u) == s.At(u);
  }

  lemma {:induction false} HoldersCounted(states: seq<System>, n: nat)
    requires Run(states) && n < |states|
    ensures CloseCalls(states, n) + AtClose(states[n]) == Peak(states, n, Holding)
    ensures if states[n].shared.socketSet then Holding(states[n]) == Peak(states, n, Holding)
            else Holding(states[n]) <= Peak(states, n, Holding)
    ensures Closings(states, n) == Peak(states, n, ClosedUnforgotten)
    ensures if states[n].shared.socketSet then Closings(states, n) == AtForget(states[n]) else Closings(states, n) >= 1
    decreases n
  {
    hide Step, AtClose, AtForget, Closes;
    if n == 0 {
      StartHolds();
    } else {
      HoldersCounted(states, n - 1);
      assert Step(states[n - 1], states[n - 1 + 1]);
      StepHolders(states[n - 1], states[n]);
    }
  }

  lemma StartHolds()
    ensures AtClose(START) == 0 && AtForget(START) == 0
  {
  }

  /**
   How often close is called, once all threads have finished: as often as threads have held the
   socket at the same time, between finding it set and forgetting it. So it is called exactly
   once if and only if no two threads ever held it together, for which it is enough that no two
   were past the test at the start of Stop together. The descriptor itself is closed exactly
   once if and only if no two threads ever had closed it with neither having forgotten it yet.
   */
  lemma ClosedOnceExactly(states: seq<System>, n: nat)
    requires Run(states) && n < |states| && AllFinished(states[n])
    ensures 1 <= Closings(states, n) <= CloseCalls(states, n) == Peak(states, n, Holding) <= 3
    ensures CloseCalls(states, n) == 1 <==> forall i :: 0 <= i <= n ==> Holding(states[i]) <= 1
    ensures Closings(states, n) == 1 <==> forall i :: 0 <= i <= n ==> ClosedUnforgotten(states[i]) <= 1
    ensures (forall i :: 0 <= i <= n ==> Within(states[i]) <= 1) ==> CloseCalls(states, n) == 1
  {
    var s := states[n];
    HoldersCounted(states, n);
    ShutdownIsClean(states, n);
    assert s.At(Receiver) == s.receiver && s.At(Input) == s.input && s.At(Painter) == s.painter;
    FewerClosings(states, n);
    PeakExactly(states, n, Holding, 1);
    PeakExactly(states, n, Holding, 3);
    PeakExactly(states, n, ClosedUnforgotten, 1);
    assert forall i :: 0 <= i <= n ==> Holding(states[i]) <= Within(states[i]);
  }

  lemma {:induction false} FewerClosings(states: seq<System>, n: nat)
    requires n < |states|
    ensures Closings(states, n) <= CloseCalls(states, n)
  {
    if n != 0 {
      FewerClosings(states, n - 1);
    }
  }

  // One more statement of a run.
  lemma Go(states: seq<System>, t: Thread, r: Result) returns (more: seq<System>)
    requires Run(states)
    requires var s := states[|states| - 1]; s.At(t) != Finished && Possible(t, r, s.shared)
    ensures Run(more) && |more| == |states| + 1
    ensures var s := states[|states| - 1];
            && more[|states|] == Next(s, t, r)
            && Closings(more, |states|) == Closings(states, |states| - 1) + One(s.At(t).CloseSocket? && s.shared.socketSet)
  {
    var s := states[|states| - 1];
    more := states + [Next(s, t, r)];
    assert Step(s, Next(s, t, r));
    MoveHolders(s, t, r);
    SameClosings(states, more, |states| - 1);
  }

  lemma {:induction false} SameClosings(states: seq<System>, more: seq<System>, n: nat)
    requires n < |states| && states <= more
    ensures Closings(more, n) == Closings(states, n)
  {
    if n != 0 {
      SameClosings(states, more, n - 1);
    }
  }

  // Both threads execute the statement they are at.
  lemma GoBoth(states: seq<System>, r1: Result, r2: Result) returns (more: seq<System>)
    requires Run(states)
    requires var s := states[|states| - 1];
             && s.receiver != Finished && s.input != Finished
             && Possible(Receiver, r1, s.shared)
             && Possible(Input, r2, Next(s, Receiver, r1).shared)
    ensures Run(more) && |more| == |states| + 2
    ensures var s := states[|states| - 1];
            var mid := Next(s, Receiver, r1);
            && more[|more| - 1] == Next(mid, Input, r2)
            && Closings(more, |more| - 1) == Closings(states, |states| - 1)
                                             + One(s.receiver.CloseSocket? && s.shared.socketSet)
                                             + One(s.input.CloseSocket? && mid.shared.socketSet)
  {
    more := Go(states, Receiver, r1);
    more := Go(more, Input, r2);
  }

  // The control message and the exit command at the same time: both threads get past the test
  // at the start of Stop before either sets `stopping`.
  lemma BothPastTheTest() returns (states: seq<System>)
    ensures Run(states) && Closings(states, |states| - 1) == 0
    ensures states[|states| - 1] ==
            System(START.shared.(reason := NameTaken), SetStopping(true), SetStopping(true), Test)
  {
    states := [START];
    states := GoBoth(states, Continue, Continue);
    states := GoBoth(states, Refused, ExitTyped);
    states := GoBoth(states, Continue, Continue);
  }

  lemma BothSetStopping() returns (states: seq<System>)
    ensures Run(states) && Closings(states, |states| - 1) == 0
    ensures states[|states| - 1] ==
            System(Shared(true, true, true, true, true, NameTaken), ClearRunning(true), ClearRunning(true), Test)
  {
    states := BothPastTheTest();
    states := GoBoth(states, Continue, Continue);
  }

  lemma BothClearTheFlags() returns (states: seq<System>)
    ensures Run(states) && Closings(states, |states| - 1) == 0
    ensures states[|states| - 1] ==
            System(Shared(false, true, false, true, true, NameTaken), ClearUiActive(true), ClearUiActive(true), Test)
  {
    states := BothSetStopping();
    states := GoBoth(states, Continue, Continue);
    states := GoBoth(states, Continue, Continue);
  }

  lemma BothFindTheSocket() returns (states: seq<System>)
    ensures Run(states) && Closings(states, |states| - 1) == 0
    ensures states[|states| - 1] ==
            System(Shared(false, true, false, false, true, NameTaken), CloseSocket(true), CloseSocket(true), Test)
  {
    states := BothClearTheFlags();
    states := GoBoth(states, Continue, Continue);
    states := GoBoth(states, Continue, Continue);
  }

  lemma BothClose() returns (states: seq<System>)
    ensures Run(states) && Closings(states, |states| - 1) == 2
    ensures states[|states| - 1] ==
            System(Shared(false, true, false, false, false, NameTaken), EnterStop(false), EnterStop(false), Test)
  {
    states := BothCloseOnly();
    states := Go(states, Receiver, Continue);
    assert states[|states| - 1] ==
           System(Shared(false, true, false, false, false, NameTaken), EnterStop(false), ForgetSocket(true), Test);
    states := Go(states, Input, Continue);
  }

  lemma BothCloseOnly() returns (states: seq<System>)
    ensures Run(states) && Closings(states, |states| - 1) == 2
    ensures states[|states| - 1] ==
            System(Shared(false, true, false, false, true, NameTaken), ForgetSocket(true), ForgetSocket(true), Test)
  {
    states := BothFindTheSocket();
    states := GoBoth(states, Continue, Continue);
  }

  // The run in which the same descriptor is closed twice, to its end.
  lemma ClosedTwice() returns (states: seq<System>)
    ensures Run(states) && AllFinished(states[|states| - 1]) && Closings(states, |states| - 1) == 2
  {
    states := BothClose();
    states := GoBoth(states, Continue, Continue);
    states := Go(states, Painter, Continue);
    states := Go(states, Painter, Continue);
  }

  // ------------------------------------------------------------ termination

  // At most how many statements a thread still executes once `running` is false.
  function Rank(pc: Pc): nat {
    match pc
    case Work => 22
    case Test => 21
    case TestStopping => 20
    case NoteReason => 19
    case EnterStop(again) => if again then 18 else 9
    case SetStopping(again) => if again then 17 else 8
    case ClearRunning(again) => if again then 16 else 7
    case ClearUi(again) => if again then 15 else 6
    case ClearUiActive(again) => if again then 14 else 5
    case TestSocket(again) => if again then 13 else 4
    case CloseSocket(again) => if again then 12 else 3
    case ForgetSocket(again) => if again then 11 else 2
    case Finished => 0
  }

  function Remaining(s: System): (n: nat)
    ensures n <= 66
  {
    Rank(s.receiver) + Rank(s.input) + Rank(s.painter)
  }

  lemma RankZero(pc: Pc)
    ensures Rank(pc) == 0 <==> pc == Finished
  {
  }

  lemma ExecuteDecreases(pc: Pc, t: Thread, r: Result, sh: Shared)
    requires !sh.running && pc != Finished
    ensures var effect := Execute(pc, t, r, sh);
            !effect.shared.running && Rank(effect.pc) < Rank(pc)
  {
  }

  lemma StepDecreases(s: System, s': System)
    requires !s.shared.running && Step(s, s')
    ensures !s'.shared.running && Remaining(s') < Remaining(s)
  {
    hide Execute, Rank;
    var t, r :| s.At(t) != Finished && Possible(t, r, s.shared) && s' == Next(s, t, r);
    ExecuteDecreases(s.At(t), t, r, s.shared);
  }

  // Once `running` is false, whoever cleared it, no interleaving goes on for more than a bounded
  // number of statements, given that the blocking calls return.
  lemma {:induction false} ShutdownTerminates(states: seq<System>, m: nat, n: nat)
    requires Run(states) && m <= n < |states| && !states[m].shared.running
    ensures !states[n].shared.running && (n - m) + Remaining(states[n]) <= Remaining(states[m]) <= 66
    decreases n
  {
    hide Remaining, Step;
    if m < n {
      ShutdownTerminates(states, m, n - 1);
      assert Step(states[n - 1], states[n - 1 + 1]);
      StepDecreases(states[n - 1], states[n]);
    }
  }

  // And it can only come to rest with all threads finished.
  lemma OnlyFinishedIsFinal(s: System)
    ensures (forall t :: s.At(t) == Finished) <==> !exists s' :: Step(s, s')
  {
    forall t | s.At(t) != Finished ensures exists s' :: Step(s, s') {
      assert Possible(t, Continue, s.shared);
      assert Step(s, Next(s, t, Continue));
    }
  }

  // ------------------------------------------------------------ reasons to end

  // Which thread executes its statement, and how its blocking call ends if it is one.
  datatype Move = Move(t: Thread, r: Result)

  predicate Moved(s: System, m: Move, s': System) {
    s.At(m.t) != Finished && Possible(m.t, m.r, s.shared) && s' == Next(s, m.t, m.r)
  }

  // A run, with its moves.
  predicate Trace(states: seq<System>, moves: seq<Move>) {
    && |states| == |moves| + 1
    && states[0] == START
    && forall i :: 0 <= i < |moves| ==> Moved(states[i], moves[i], states[i + 1])
  }

  function MovesOf(moves: seq<Move>, t: Thread, i: nat, j: nat): nat
    requires i <= j <= |moves|
    decreases j
  {
    if i == j then 0 else MovesOf(moves, t, i, j - 1) + One(moves[j - 1].t == t)
  }

  predicate InLoop(pc: Pc) {
    pc.Test? || pc.Work?
  }

  // The blocking call of this thread ends in a way that ends its loop.
  predicate MeetsReason(states: seq<System>, moves: seq<Move>, i: nat, t: Thread)
    requires |states| == |moves| + 1
  {
    i < |moves| && moves[i].t == t && states[i].At(t).Work? && !moves[i].r.Continue?
  }

  lemma TraceIsRun(states: seq<System>, moves: seq<Move>)
    requires Trace(states, moves)
    ensures Run(states)
  {
    forall i | 0 <= i < |states| - 1 ensures Step(states[i], states[i + 1]) {
      assert Moved(states[i], moves[i], states[i + 1]);
    }
  }

  // A thread that is not at the end of it all can always move.
  lemma NobodyIsStuck(s: System, t: Thread)
    requires s.At(t) != Finished
    ensures exists m: Move, s': System :: m.t == t && Moved(s, m, s')
  {
    assert Moved(s, Move(t, Continue), Next(s, t, Continue));
  }

  // The loop of a thread goes on as long as its blocking call allows it and `running` is true.
  lemma LoopGoesOnExactly(s: System, m: Move, s': System)
    requires Moved(s, m, s')
    ensures s.At(m.t).Work? ==> (s'.At(m.t).Test? <==> m.r.Continue?) && (InLoop(s'.At(m.t)) <==> m.r.Continue?)
    ensures s.At(m.t).Test? ==> (s'.At(m.t).Work? <==> s.shared.running) && (InLoop(s'.At(m.t)) <==> s.shared.running)
  {
  }

  // Out of its loop, or with `running` false, a thread has only so much left to do.
  lemma OwnRank(s: System, m: Move, s': System, t: Thread)
    requires Moved(s, m, s') && (InLoop(s.At(t)) ==> !s.shared.running)
    ensures InLoop(s'.At(t)) ==> InLoop(s.At(t)) && !s'.shared.running
    ensures Rank(s'.At(t)) + One(m.t == t) <= Rank(s.At(t))
  {
    if m.t == t {
      OneMove(s.At(t), t, m.r, s.shared);
    } else {
      OtherMove(s, m, s', t);
    }
  }

  lemma OneMove(pc: Pc, t: Thread, r: Result, sh: Shared)
    requires pc != Finished && (InLoop(pc) ==> !sh.running)
    ensures var effect := Execute(pc, t, r, sh);
            && Rank(effect.pc) < Rank(pc) && (InLoop(effect.pc) ==> InLoop(pc) && !effect.shared.running)
  {
  }

  // What a thread does is its own; only the receiver notes a reason, and `running` never comes back.
  lemma OtherMove(s: System, m: Move, s': System, t: Thread)
    requires Moved(s, m, s')
    ensures m.t != t ==> s'.At(t) == s.At(t)
    ensures s'.shared.running ==> s.shared.running
    ensures s.shared.stopping ==> s'.shared.stopping
  {
  }

  lemma {:induction false} RankBounds(states: seq<System>, moves: seq<Move>, i: nat, j: nat, t: Thread)
    requires Trace(states, moves) && i <= j <= |moves| && (InLoop(states[i].At(t)) ==> !states[i].shared.running)
    ensures InLoop(states[j].At(t)) ==> InLoop(states[i].At(t)) && !states[j].shared.running
    ensures Rank(states[j].At(t)) + MovesOf(moves, t, i, j) <= Rank(states[i].At(t))
    decreases j
  {
    hide Rank, Moved, InLoop;
    if i < j {
      RankBounds(states, moves, i, j - 1, t);
      assert Moved(states[j - 1], moves[j - 1], states[j - 1 + 1]);
      OwnRank(states[j - 1], moves[j - 1], states[j], t);
    }
  }

  // What a reason to end does at once.
  lemma ReasonMet(s: System, m: Move, s': System)
    requires Moved(s, m, s') && s.At(m.t).Work? && !m.r.Continue?
    ensures !InLoop(s'.At(m.t)) && Rank(s'.At(m.t)) <= 20
    ensures m.r == Refused ==> Noted(s'.At(m.t)) && s'.shared.reason == NameTaken
    ensures m.t == Receiver && m.r == Nothing ==> s'.At(m.t).TestStopping? && s'.shared.reason == s.shared.reason
  {
  }

  // What the receiver does about it when there was no message.
  lemma EndNoted(s: System, m: Move, s': System)
    requires Moved(s, m, s')
    ensures s.At(m.t).TestStopping? ==>
              && s'.shared.reason == s.shared.reason
              && if s.shared.stopping then Noted(s'.At(m.t)) else s'.At(m.t).NoteReason?
    ensures s.At(m.t).NoteReason? ==> Noted(s'.At(m.t)) && s'.shared.reason == ServerClosed
    ensures Noted(s.At(m.t)) ==> Noted(s'.At(m.t)) && s'.shared.reason == s.shared.reason
  {
  }

  /**
   Once the blocking call of a thread has given it a reason to end, the thread never gets back
   into its loop, and after at most 20 statements of its own it has finished, and stopping has
   begun - whatever the others do.
   */
  lemma ReasonIsFinal(states: seq<System>, moves: seq<Move>, i: nat, j: nat, t: Thread)
    requires Trace(states, moves) && MeetsReason(states, moves, i, t) && i < j <= |moves|
    ensures !InLoop(states[j].At(t))
    ensures MovesOf(moves, t, i + 1, j) <= 20
    ensures MovesOf(moves, t, i + 1, j) == 20 ==> states[j].At(t) == Finished
    ensures states[j].At(t) == Finished ==> states[j].shared.stopping
  {
    assert Moved(states[i], moves[i], states[i + 1]);
    ReasonMet(states[i], moves[i], states[i + 1]);
    hide Moved, InLoop, Rank, Settled, Inside, MovesOf;
    RankBounds(states, moves, i + 1, j, t);
    RankZero(states[j].At(t));
    TraceIsRun(states, moves);
    ShutdownIsClean(states, j);
  }

  // Before anybody has a reason to end, everybody works and nothing is cleared.
  lemma {:induction false} NobodyStopsWithoutReason(states: seq<System>, moves: seq<Move>, n: nat)
    requires Trace(states, moves) && n <= |moves|
    requires forall i, t :: 0 <= i < n ==> !MeetsReason(states, moves, i, t)
    ensures states[n].shared == START.shared && forall t :: InLoop(states[n].At(t))
    decreases n
  {
    if n > 0 {
      NobodyStopsWithoutReason(states, moves, n - 1);
      var m := moves[n - 1];
      assert Moved(states[n - 1], m, states[n - 1 + 1]);
      assert !MeetsReason(states, moves, n - 1, m.t);
      StillWorking(states[n - 1], m, states[n]);
    }
  }

  lemma StillWorking(s: System, m: Move, s': System)
    requires Moved(s, m, s') && s.shared.running && forall t :: InLoop(s.At(t))
    requires s.At(m.t).Work? ==> m.r.Continue?
    ensures s'.shared == s.shared && forall t :: InLoop(s'.At(t))
  {
    forall t ensures InLoop(s'.At(t)) {
      OtherMove(s, m, s', t);
    }
  }

  // Between these moments every thread either finishes or gets to execute many statements.
  predicate Fair(states: seq<System>, moves: seq<Move>, from: nat, to: nat)
    requires |states| == |moves| + 1 && from <= to <= |moves|
  {
    forall t :: states[to].At(t) == Finished || MovesOf(moves, t, from, to) >= 22
  }

  // While `running` is true, a thread that is about to clear it has not moved.
  lemma {:induction false} StillClearing(states: seq<System>, moves: seq<Move>, i: nat, j: nat, t: Thread)
    requires Trace(states, moves) && i <= j <= |moves| && states[i].At(t).ClearRunning? && states[j].shared.running
    ensures states[j].At(t).ClearRunning? && MovesOf(moves, t, i, j) == 0
    decreases j
  {
    if i < j {
      assert Moved(states[j - 1], moves[j - 1], states[j - 1 + 1]);
      OtherMove(states[j - 1], moves[j - 1], states[j], t);
      StillClearing(states, moves, i, j - 1, t);
    }
  }

  lemma {:induction false} RunningWas(states: seq<System>, moves: seq<Move>, i: nat, j: nat)
    requires Trace(states, moves) && i <= j <= |moves| && states[j].shared.running
    ensures states[i].shared.running
    decreases j
  {
    if i < j {
      assert Moved(states[j - 1], moves[j - 1], states[j - 1 + 1]);
      OtherMove(states[j - 1], moves[j - 1], states[j], Painter);
      RunningWas(states, moves, i, j - 1);
    }
  }

  /**
   One reason to end, in any thread, ends the client: given that after it every thread gets to go
   on, all three have finished, the flags are cleared and the socket is closed.
   */
  lemma ReasonEndsEverybody(states: seq<System>, moves: seq<Move>, i: nat, t: Thread, a: nat, b: nat, c: nat)
    requires Trace(states, moves) && MeetsReason(states, moves, i, t) && i < a <= b <= c <= |moves|
    requires Fair(states, moves, i + 1, a) && Fair(states, moves, a, b) && Fair(states, moves, b, c)
    ensures AllFinished(states[c]) && states[c].shared.stopping && Settled(states[c].shared)
  {
    ReasonIsFinal(states, moves, i, a, t);
    RunningIsCleared(states, moves, a, b);
    forall u ensures states[c].At(u) == Finished {
      RankBounds(states, moves, b, c, u);
      assert Rank(states[b].At(u)) <= 22;
    }
    TraceIsRun(states, moves);
    ShutdownIsClean(states, c);
    assert states[c].At(Receiver) == Finished && states[c].At(Input) == Finished && states[c].At(Painter) == Finished;
  }

  lemma RunningIsCleared(states: seq<System>, moves: seq<Move>, a: nat, b: nat)
    requires Trace(states, moves) && a <= b <= |moves| && states[a].shared.stopping && Fair(states, moves, a, b)
    ensures !states[b].shared.running
  {
    TraceIsRun(states, moves);
    RunKeepsInv(states, a);
    ShutdownIsClean(states, a);
    if states[b].shared.running {
      RunningWas(states, moves, a, b);
      var u :| Inside(states[a].At(u));
      assert Achieved(states[a].At(u), states[a].shared);
      StillClearing(states, moves, a, b, u);
      assert MovesOf(moves, u, a, b) < 22;
    }
  }

  // ------------------------------------------------------------ the reason that is told

  // The receiver has nothing more to note.
  predicate Noted(pc: Pc) {
    !InLoop(pc) && !pc.TestStopping? && !pc.NoteReason?
  }

  lemma {:induction false} NotedStays(states: seq<System>, moves: seq<Move>, i: nat, j: nat)
    requires Trace(states, moves) && i <= j <= |moves| && Noted(states[i].At(Receiver))
    ensures Noted(states[j].At(Receiver)) && states[j].shared.reason == states[i].shared.reason
    decreases j
  {
    if i < j {
      NotedStays(states, moves, i, j - 1);
      assert Moved(states[j - 1], moves[j - 1], states[j - 1 + 1]);
      ReasonIsTheReceivers(states, moves, j - 1);
      EndNoted(states[j - 1], moves[j - 1], states[j]);
      OtherMove(states[j - 1], moves[j - 1], states[j], Receiver);
      hide Moved, Noted;
    }
  }

  // Where only the receiver can be.
  predicate Noting(pc: Pc) {
    pc.TestStopping? || pc.NoteReason?
  }

  // Only the receiver meets the control message or notes a reason.
  lemma {:induction false} ReasonIsTheReceivers(states: seq<System>, moves: seq<Move>, i: nat)
    requires Trace(states, moves) && i < |moves|
    ensures moves[i].t != Receiver ==> states[i + 1].shared.reason == states[i].shared.reason
    ensures forall t :: t != Receiver ==> !Noting(states[i].At(t))
    decreases i
  {
    hide Noting;
    if i > 0 {
      ReasonIsTheReceivers(states, moves, i - 1);
      assert Moved(states[i - 1], moves[i - 1], states[i - 1 + 1]);
      forall t | t != Receiver ensures !Noting(states[i].At(t)) {
        OtherMove(states[i - 1], moves[i - 1], states[i], t);
        if moves[i - 1].t == t {
          OthersNoteNothing(states[i - 1], moves[i - 1], states[i]);
        }
      }
    } else {
      NobodyNotesYet();
    }
    assert Moved(states[i], moves[i], states[i + 1]);
    if moves[i].t != Receiver {
      OthersNoteNothing(states[i], moves[i], states[i + 1]);
    }
  }

  lemma NobodyNotesYet()
    ensures forall t :: !Noting(START.At(t))
  {
  }

  lemma OthersNoteNothing(s: System, m: Move, s': System)
    requires Moved(s, m, s') && m.t != Receiver && !Noting(s.At(m.t))
    ensures !Noting(s'.At(m.t)) && s'.shared.reason == s.shared.reason
  {
  }

  lemma {:induction false} Waiting(states: seq<System>, moves: seq<Move>, i: nat, j: nat)
    requires Trace(states, moves) && i <= j <= |moves| && MovesOf(moves, Receiver, i, j) == 0
    ensures states[j].At(Receiver) == states[i].At(Receiver) && states[j].shared.reason == states[i].shared.reason
    decreases j
  {
    if i < j {
      Waiting(states, moves, i, j - 1);
      assert Moved(states[j - 1], moves[j - 1], states[j - 1 + 1]);
      OtherMove(states[j - 1], moves[j - 1], states[j], Receiver);
      hide Moved;
      ReasonIsTheReceivers(states, moves, j - 1);
    }
  }

  // The control message is noted as such, for good.
  lemma RefusalIsNoted(states: seq<System>, moves: seq<Move>, i: nat, j: nat)
    requires Trace(states, moves) && MeetsReason(states, moves, i, Receiver) && moves[i].r == Refused && i < j <= |moves|
    ensures states[j].shared.reason == NameTaken
  {
    assert Moved(states[i], moves[i], states[i + 1]);
    ReasonMet(states[i], moves[i], states[i + 1]);
    NotedStays(states, moves, i + 1, j);
  }

  // A receive without a message is noted as the server's doing, for good, exactly if nobody has
  // begun to stop when the receiver looks: at a, its next statement; b is the one after that.
  lemma EndIsNotedExactly(states: seq<System>, moves: seq<Move>, i: nat, a: nat, b: nat, j: nat)
    requires Trace(states, moves) && MeetsReason(states, moves, i, Receiver) && moves[i].r == Nothing
    requires i < a < b < j <= |moves| && moves[a].t == Receiver && moves[b].t == Receiver
    requires MovesOf(moves, Receiver, i + 1, a) == 0 && MovesOf(moves, Receiver, a + 1, b) == 0
    ensures states[j].shared.reason == if states[a].shared.stopping then states[i].shared.reason else ServerClosed
  {
    hide Noted, InLoop, MovesOf;
    assert Moved(states[i], moves[i], states[i + 1]);
    assert Moved(states[a], moves[a], states[a + 1]);
    assert Moved(states[b], moves[b], states[b + 1]);
    ReasonMet(states[i], moves[i], states[i + 1]);
    hide Moved;
    Waiting(states, moves, i + 1, a);
    EndNoted(states[a], moves[a], states[a + 1]);
    Waiting(states, moves, a + 1, b);
    EndNoted(states[b], moves[b], states[b + 1]);
    NotedStays(states, moves, b + 1, j);
  }

  // Two statements of one thread.
  lemma GoTwice(states: seq<System>, t: Thread, r: Result) returns (more: seq<System>)
    requires Run(states)
    requires var s := states[|states| - 1];
             && s.At(t) != Finished && Possible(t, r, s.shared) && Next(s, t, r).At(t) != Finished
    ensures Run(more) && |more| == |states| + 2
    ensures more[|more| - 1] == Next(Next(states[|states| - 1], t, r), t, Continue)
  {
    more := Go(states, t, r);
    more := Go(more, t, Continue);
  }

  lemma ServerGone() returns (states: seq<System>)
    ensures Run(states)
    ensures states[|states| - 1] == System(START.shared.(reason := ServerClosed), EnterStop(false), Test, Test)
  {
    states := Go([START], Receiver, Continue);
    states := GoTwice(states, Receiver, Nothing);
    states := Go(states, Receiver, Continue);
  }

  lemma ServerGoneAndCleared() returns (states: seq<System>)
    ensures Run(states)
    ensures states[|states| - 1] == System(Shared(false, true, false, true, true, ServerClosed), ClearUiActive(false), Test, Test)
  {
    states := ServerGone();
    states := GoTwice(states, Receiver, Continue);
    states := GoTwice(states, Receiver, Continue);
  }

  lemma ServerGoneAndClosed() returns (states: seq<System>)
    ensures Run(states)
    ensures states[|states| - 1] == System(Shared(false, true, false, false, false, ServerClosed), Finished, Test, Test)
  {
    states := ServerGoneAndCleared();
    states := GoTwice(states, Receiver, Continue);
    states := GoTwice(states, Receiver, Continue);
  }

  // The server goes away while everybody works: a complete run in which the client tells so.
  lemma ServerGoesAway() returns (states: seq<System>)
    ensures Run(states) && AllFinished(states[|states| - 1]) && states[|states| - 1].shared.reason == ServerClosed
  {
    states := ServerGoneAndClosed();
    states := GoTwice(states, Input, Continue);
    states := GoTwice(states, Painter, Continue);
  }
}
