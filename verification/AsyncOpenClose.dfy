/**
 The open/close handshake of `AsyncOpenClose`: a worker thread that opens and closes a target, and a
 client that alternates `openSubject` and `closeSubject`. A state machine over the atomic steps of
 both, with semaphores as counters; every interleaving is a run of it.
 */
module AsyncOpenClose {

  /** The next step of `appRun`. */
  datatype WorkerStep =
    | SignalReady | WaitForOpen | OpenTarget | SetOpened | WaitForClose | CloseTarget | SetClosed | Decide | Exited

  /** The next step of `openSubject` (first three) or `closeSubject`. */
  datatype ClientStep = WaitReady | SetArgs | SignalOpen | SetExitFlag | SignalClose

  /** The object's fields and both program counters; then, for the record only, what was asked and what was done. */
  datatype State<A> = State(
    ready: nat, sema: nat, openArgs: A, isOpen: bool, exitOnClose: bool,
    worker: WorkerStep, client: ClientStep,
    openRequests: seq<A>, closeRequests: seq<bool>,
    opens: seq<A>, closes: nat, decisions: seq<bool>)

  ghost predicate Init<A>(s: State<A>) {
    && s.ready == 0 && s.sema == 0 && !s.isOpen && s.exitOnClose
    && s.worker == SignalReady && s.client == WaitReady
    && s.openRequests == [] && s.closeRequests == [] && s.opens == [] && s.closes == 0 && s.decisions == []
  }

  /** One step of the worker; none when it waits on a semaphore at zero or has left its loop. */
  ghost predicate WorkerMoves<A>(s: State<A>, s': State<A>) {
    match s.worker
    case SignalReady => s' == s.(ready := s.ready + 1, worker := WaitForOpen)
    case WaitForOpen => s.sema > 0 && s' == s.(sema := s.sema - 1, worker := OpenTarget)
    case OpenTarget => s' == s.(opens := s.opens + [s.openArgs], worker := SetOpened)
    case SetOpened => s' == s.(isOpen := true, worker := WaitForClose)
    case WaitForClose => s.sema > 0 && s' == s.(sema := s.sema - 1, worker := CloseTarget)
    case CloseTarget => s' == s.(closes := s.closes + 1, worker := SetClosed)
    case SetClosed => s' == s.(isOpen := false, worker := Decide)
    case Decide =>
      s' == s.(decisions := s.decisions + [s.exitOnClose], worker := if s.exitOnClose then Exited else SignalReady)
    case Exited => false
  }

  /** One step of the client, whose calls carry arguments of its choice. */
  ghost predicate ClientMoves<A>(s: State<A>, s': State<A>, args: A, exit: bool) {
    match s.client
    case WaitReady => s.ready > 0 && s' == s.(ready := s.ready - 1, client := SetArgs)
    case SetArgs => s' == s.(openArgs := args, openRequests := s.openRequests + [args], client := SignalOpen)
    case SignalOpen => s' == s.(sema := s.sema + 1, client := SetExitFlag)
    case SetExitFlag => s' == s.(exitOnClose := exit, closeRequests := s.closeRequests + [exit], client := SignalClose)
    case SignalClose => s' == s.(sema := s.sema + 1, client := WaitReady)
  }

  ghost predicate Next<A(!new)>(s: State<A>, s': State<A>) {
    WorkerMoves(s, s') || exists args, exit :: ClientMoves(s, s', args, exit)
  }

  // ---------- What every step keeps ----------

  function Bit(b: bool): nat {
    if b then 1 else 0
  }

  function SemaWaits(w: WorkerStep, rounds: nat): nat {
    match w
    case SignalReady => 2 * rounds
    case WaitForOpen => 2 * rounds
    case OpenTarget => 2 * rounds + 1
    case SetOpened => 2 * rounds + 1
    case WaitForClose => 2 * rounds + 1
    case CloseTarget => 2 * rounds + 2
    case SetClosed => 2 * rounds + 2
    case Decide => 2 * rounds + 2
    case Exited => 2 * rounds
  }

  /** The client asks to open and to close in turn. */
  ghost predicate Alternates<A>(s: State<A>) {
    |s.openRequests| == |s.closeRequests| + Bit(s.client == SignalOpen || s.client == SetExitFlag)
  }

  /** The semaphores count what was signalled and not yet waited for. */
  ghost predicate SemaBalanced<A>(s: State<A>) {
    s.sema + SemaWaits(s.worker, |s.decisions|) ==
    |s.openRequests| - Bit(s.client == SignalOpen) + |s.closeRequests| - Bit(s.client == SignalClose)
  }

  ghost predicate ReadyBalanced<A>(s: State<A>) {
    s.ready + |s.openRequests| + Bit(s.client == SetArgs) ==
    |s.decisions| + Bit(s.worker != SignalReady && s.worker != Exited)
  }

  ghost predicate Balanced<A>(s: State<A>) {
    Alternates(s) && SemaBalanced(s) && ReadyBalanced(s)
  }

  ghost predicate Fields<A>(s: State<A>) {
    && (s.openRequests != [] ==> s.openArgs == s.openRequests[|s.openRequests| - 1])
    && (s.closeRequests != [] ==> s.exitOnClose == s.closeRequests[|s.closeRequests| - 1])
    && (s.isOpen <==> s.worker == WaitForClose || s.worker == CloseTarget || s.worker == SetClosed)
  }

  /** One open and one close of the target per round. */
  ghost predicate Counted<A>(s: State<A>) {
    var rounds, w := |s.decisions|, s.worker;
    && |s.opens| == rounds + Bit(w != SignalReady && w != WaitForOpen && w != OpenTarget && w != Exited)
    && s.closes == rounds + Bit(w == SetClosed || w == Decide)
  }

  /** Target opens used the arguments of their own requests, in order. */
  ghost predicate OpensPaired<A>(s: State<A>) {
    s.opens <= s.openRequests
  }

  /** Decisions used the flags of their own closes, in order, and only the last of them can be to leave. */
  ghost predicate DecisionsPaired<A>(s: State<A>) {
    var rounds := |s.decisions|;
    && s.decisions <= s.closeRequests
    && (forall k :: 0 <= k < rounds - 1 ==> !s.decisions[k])
    && (rounds > 0 ==> s.decisions[rounds - 1] == (s.worker == Exited))
    && (s.worker == Exited ==> rounds > 0)
  }

  ghost predicate Invariant<A>(s: State<A>) {
    Balanced(s) && Fields(s) && Counted(s) && OpensPaired(s) && DecisionsPaired(s)
  }

  lemma InitHolds<A>(s: State<A>)
    requires Init(s)
    ensures Invariant(s)
  {}

  lemma WorkerSemaBalanced<A>(s: State<A>, s': State<A>)
    requires SemaBalanced(s) && WorkerMoves(s, s')
    ensures SemaBalanced(s')
  {}

  lemma WorkerReadyBalanced<A>(s: State<A>, s': State<A>)
    requires ReadyBalanced(s) && Alternates(s) && WorkerMoves(s, s')
    ensures ReadyBalanced(s') && Alternates(s')
  {}

  lemma WorkerFields<A>(s: State<A>, s': State<A>)
    requires Fields(s) && WorkerMoves(s, s')
    ensures Fields(s')
  {}

  lemma WorkerCounted<A>(s: State<A>, s': State<A>)
    requires Counted(s) && WorkerMoves(s, s')
    ensures Counted(s')
  {}

  /** A worker that opens or decides can only be answering the latest request. */
  lemma WorkerAnswersLatest<A>(s: State<A>)
    requires Balanced(s)
    ensures s.worker == OpenTarget ==> |s.openRequests| == |s.decisions| + 1
    ensures s.worker == Decide ==> |s.closeRequests| == |s.decisions| + 1
  {}

  lemma PrefixGrows<T>(a: seq<T>, b: seq<T>)
    requires a <= b && |a| < |b|
    ensures a + [b[|a|]] <= b
  {}

  lemma WorkerOpensPaired<A>(s: State<A>, s': State<A>)
    requires Balanced(s) && Fields(s) && Counted(s) && OpensPaired(s) && WorkerMoves(s, s')
    ensures OpensPaired(s')
  {
    if s.worker == OpenTarget {
      WorkerAnswersLatest(s);
      PrefixGrows(s.opens, s.openRequests);
    }
  }

  /** A decision to stay leaves the worker in its loop, so all before it were to stay. */
  lemma DecisionAppended<A>(s: State<A>, s': State<A>)
    requires DecisionsPaired(s) && s.worker != Exited && |s.decisions| < |s.closeRequests|
    requires s.exitOnClose == s.closeRequests[|s.decisions|]
    requires s'.closeRequests == s.closeRequests && s'.decisions == s.decisions + [s.exitOnClose]
    requires (s'.worker == Exited <==> s.exitOnClose)
    ensures DecisionsPaired(s')
  {
    PrefixGrows(s.decisions, s.closeRequests);
    assert forall k :: 0 <= k < |s.decisions| ==> !s.decisions[k];
  }

  lemma WorkerDecisionsPaired<A>(s: State<A>, s': State<A>)
    requires Balanced(s) && Fields(s) && DecisionsPaired(s) && WorkerMoves(s, s')
    ensures DecisionsPaired(s')
  {
    if s.worker == Decide {
      WorkerAnswersLatest(s);
      DecisionAppended(s, s');
    } else {
      assert s'.decisions == s.decisions && s'.closeRequests == s.closeRequests;
    }
  }

  lemma WorkerKeeps<A>(s: State<A>, s': State<A>)
    requires Invariant(s) && WorkerMoves(s, s')
    ensures Invariant(s')
  {
    WorkerSemaBalanced(s, s');
    WorkerReadyBalanced(s, s');
    WorkerFields(s, s');
    WorkerCounted(s, s');
    WorkerOpensPaired(s, s');
    WorkerDecisionsPaired(s, s');
  }

  lemma ClientAlternates<A>(s: State<A>, s': State<A>, args: A, exit: bool)
    requires Alternates(s) && ClientMoves(s, s', args, exit)
    ensures Alternates(s')
  {}

  lemma ClientSemaBalanced<A>(s: State<A>, s': State<A>, args: A, exit: bool)
    requires SemaBalanced(s) && ClientMoves(s, s', args, exit)
    ensures SemaBalanced(s')
  {}

  lemma ClientReadyBalanced<A>(s: State<A>, s': State<A>, args: A, exit: bool)
    requires ReadyBalanced(s) && ClientMoves(s, s', args, exit)
    ensures ReadyBalanced(s')
  {}

  lemma ClientFields<A>(s: State<A>, s': State<A>, args: A, exit: bool)
    requires Fields(s) && ClientMoves(s, s', args, exit)
    ensures Fields(s')
  {}

  lemma ClientCounted<A>(s: State<A>, s': State<A>, args: A, exit: bool)
    requires Counted(s) && ClientMoves(s, s', args, exit)
    ensures Counted(s')
  {}

  lemma ClientPaired<A>(s: State<A>, s': State<A>, args: A, exit: bool)
    requires OpensPaired(s) && DecisionsPaired(s) && ClientMoves(s, s', args, exit)
    ensures OpensPaired(s') && DecisionsPaired(s')
  {}

  lemma ClientKeeps<A>(s: State<A>, s': State<A>, args: A, exit: bool)
    requires Invariant(s) && ClientMoves(s, s', args, exit)
    ensures Invariant(s')
  {
    ClientAlternates(s, s', args, exit);
    ClientSemaBalanced(s, s', args, exit);
    ClientReadyBalanced(s, s', args, exit);
    ClientFields(s, s', args, exit);
    ClientCounted(s, s', args, exit);
    ClientPaired(s, s', args, exit);
  }

  // ---------- Runs ----------

  ghost predicate IsRun<A(!new)>(run: seq<State<A>>) {
    run != [] && Init(run[0]) && forall k {:trigger run[k]} :: 0 <= k < |run| - 1 ==> Next(run[k], run[k + 1])
  }

  lemma {:induction false} RunKeeps<A(!new)>(run: seq<State<A>>, k: nat)
    requires IsRun(run) && k < |run|
    ensures Invariant(run[k])
  {
    if k == 0 {
      InitHolds(run[0]);
    } else {
      RunKeeps(run, k - 1);
      assert Next(run[k - 1], run[k - 1 + 1]);
      if WorkerMoves(run[k - 1], run[k]) {
        WorkerKeeps(run[k - 1], run[k]);
      } else {
        var args, exit :| ClientMoves(run[k - 1], run[k], args, exit);
        ClientKeeps(run[k - 1], run[k], args, exit);
      }
    }
  }

  /**
   At every point of every interleaving: the target was opened with exactly the arguments of the first
   requests, in order, at most one request ahead of it; closes follow opens one to one; each decision
   to leave the loop took the flag of its own close; and `isOpened` is true only between an open of
   the target and the decision after its close.
   */
  lemma HandshakeIsExact<A(!new)>(run: seq<State<A>>, k: nat)
    requires IsRun(run) && k < |run|
    ensures var s := run[k];
            && s.opens <= s.openRequests && |s.openRequests| <= |s.opens| + 1
            && s.decisions <= s.closeRequests && |s.closeRequests| <= |s.decisions| + 1
            && s.closes <= |s.opens| <= s.closes + 1
            && |s.decisions| <= s.closes <= |s.closeRequests|
            && (s.isOpen ==> |s.opens| > |s.decisions|)
  {
    RunKeeps(run, k);
  }

  /** No deadlock: unless the worker has left, it can move or the client's pending call can. */
  lemma NeverStuck<A(!new)>(run: seq<State<A>>, k: nat)
    requires IsRun(run) && k < |run| && run[k].worker != Exited
    ensures var s := run[k];
            || (exists s' :: WorkerMoves(s, s'))
            || s.client != WaitReady || s.ready > 0
  {
    RunKeeps(run, k);
    var s := run[k];
    if s.client == WaitReady && s.ready == 0 {
      var s' := match s.worker
        case SignalReady => s.(ready := s.ready + 1, worker := WaitForOpen)
        case WaitForOpen => s.(sema := s.sema - 1, worker := OpenTarget)
        case OpenTarget => s.(opens := s.opens + [s.openArgs], worker := SetOpened)
        case SetOpened => s.(isOpen := true, worker := WaitForClose)
        case WaitForClose => s.(sema := s.sema - 1, worker := CloseTarget)
        case CloseTarget => s.(closes := s.closes + 1, worker := SetClosed)
        case SetClosed => s.(isOpen := false, worker := Decide)
        case _ =>
          s.(decisions := s.decisions + [s.exitOnClose], worker := if s.exitOnClose then Exited else SignalReady);
      assert WorkerMoves(s, s');
    }
  }

  lemma NoMoveAfterExit<A(!new)>(s: State<A>)
    requires s.worker == Exited && s.client == WaitReady && s.ready == 0
    ensures forall s' :: !Next(s, s')
  {}

  /**
   Once the worker has left, the last close asked for it, every request was served, and the next open waits for ever.
   */
  lemma ExitIsFinal<A(!new)>(run: seq<State<A>>, k: nat)
    requires IsRun(run) && k < |run| && run[k].worker == Exited
    ensures var s := run[k];
            && s.closeRequests != [] && s.closeRequests[|s.closeRequests| - 1]
            && (forall i :: 0 <= i < |s.closeRequests| - 1 ==> !s.closeRequests[i])
            && s.opens == s.openRequests && s.closes == |s.opens| == |s.closeRequests|
            && s.client == WaitReady && s.ready == 0 && !s.isOpen
            && forall s' :: !Next(s, s')
  {
    RunKeeps(run, k);
    NoMoveAfterExit(run[k]);
  }
}
