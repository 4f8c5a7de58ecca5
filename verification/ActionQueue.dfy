/**
 FakeIt's stub schedule: recorded actions are run in the order they were appended, each as often as it
 says, and a sentinel that reports "no more recorded actions" stays at the end.
 */
module ActionQueue {
  import opened Sequences

  /** `times` falls at every invocation and the action is done when it reaches zero, so one built with
      a count below one is never done. */
  datatype Action =
    | Repeat(id: nat, times: int)
    | RepeatForever(id: nat)
    | NoMoreRecordedAction

  datatype Outcome = Ran(id: nat) | Exhausted

  datatype Queue = Queue(recorded: seq<Action>, used: seq<Action>)

  ghost predicate Valid(q: Queue) {
    && q.recorded != []
    && q.recorded[|q.recorded| - 1].NoMoreRecordedAction?
    && forall k :: 0 <= k < |q.recorded| - 1 ==> !q.recorded[k].NoMoreRecordedAction?
  }

  function Pending(q: Queue): seq<Action>
    requires Valid(q)
  {
    q.recorded[..|q.recorded| - 1]
  }

  function Invoked(a: Action): Action {
    if a.Repeat? then a.(times := a.times - 1) else a
  }

  predicate IsDone(a: Action) {
    a.Repeat? && a.times == 0
  }

  function Appended(q: Queue, a: Action): Queue
    requires Valid(q)
  {
    q.(recorded := Pending(q) + [a] + [NoMoreRecordedAction])
  }

  /** One call: the front action is invoked, and retired if that has finished it. */
  function Called(q: Queue): (Outcome, Queue)
    requires Valid(q)
  {
    var front := Invoked(q.recorded[0]);
    var q' :=
      if IsDone(front) then Queue(q.recorded[1..], q.used + [front]) else q.(recorded := q.recorded[0 := front]);
    (if front.NoMoreRecordedAction? then Exhausted else Ran(front.id), q')
  }

  // ---------- The schedule ----------

  /** What the `k`-th call runs when `actions` are taken in order, each for its number of times. */
  function Scheduled(actions: seq<Action>, k: nat): Outcome {
    if actions == [] then Exhausted else
    match actions[0]
    case Repeat(id, n) => if n < 1 || k < n then Ran(id) else Scheduled(actions[1..], k - n)
    case RepeatForever(id) => Ran(id)
    case NoMoreRecordedAction => Exhausted
  }

  datatype Supply = Finite(calls: nat) | Endless

  /** How many calls the actions are good for. */
  function Total(actions: seq<Action>): Supply {
    if actions == [] then Finite(0) else
    if !actions[0].Repeat? || actions[0].times < 1 then Endless else
    var rest := Total(actions[1..]);
    if rest.Endless? then Endless else Finite(actions[0].times + rest.calls)
  }

  ghost predicate Real(actions: seq<Action>) {
    forall k :: 0 <= k < |actions| ==> !actions[k].NoMoreRecordedAction?
  }

  /** Calls are exhausted exactly past the total. */
  lemma {:induction false} ScheduledExhausted(actions: seq<Action>, k: nat)
    requires Real(actions)
    ensures Scheduled(actions, k) == Exhausted <==> Total(actions).Finite? && k >= Total(actions).calls
  {
    if actions != [] && actions[0].Repeat? && actions[0].times >= 1 && k >= actions[0].times {
      ScheduledExhausted(actions[1..], k - actions[0].times);
    } else if actions != [] {
      ScheduledExhausted(actions[1..], 0);
    }
  }

  /** Later actions take over where the earlier ones end. */
  lemma {:induction false} ScheduledConcat(a: seq<Action>, b: seq<Action>, k: nat)
    requires Real(a)
    ensures Scheduled(a + b, k) ==
            if Total(a).Endless? || k < Total(a).calls then Scheduled(a, k) else Scheduled(b, k - Total(a).calls)
    ensures Total(a + b) ==
            if Total(a).Endless? || Total(b).Endless? then Endless else Finite(Total(a).calls + Total(b).calls)
  {
    if a == [] {
      assert a + b == b;
    } else {
      assert (a + b)[0] == a[0] && (a + b)[1..] == a[1..] + b;
      var n := if a[0].Repeat? && 1 <= a[0].times <= k then a[0].times else 0;
      ScheduledConcat(a[1..], b, k - n);
    }
  }

  function TimesBefore(actions: seq<Action>, j: nat): nat
    requires j <= |actions|
  {
    if j == 0 then 0 else
    var a := actions[j - 1];
    TimesBefore(actions, j - 1) + if a.Repeat? && a.times >= 1 then a.times else 0
  }

  ghost predicate Counted(actions: seq<Action>, j: nat) {
    j <= |actions| && forall i :: 0 <= i < j ==> actions[i].Repeat? && actions[i].times >= 1
  }

  lemma {:induction false} TotalCounted(actions: seq<Action>)
    requires Counted(actions, |actions|)
    ensures Total(actions) == Finite(TimesBefore(actions, |actions|))
  {
    if actions != [] {
      var n := |actions| - 1;
      var init := actions[..n];
      TotalCounted(init);
      assert actions == init + [actions[n]];
      ScheduledConcat(init, [actions[n]], 0);
      assert [actions[n]][1..] == [];
      assert Total([actions[n]]) == Finite(actions[n].times);
      TimesBeforePrefix(actions, n, n);
    }
  }

  lemma {:induction false} TimesBeforePrefix(actions: seq<Action>, n: nat, j: nat)
    requires j <= n <= |actions|
    ensures TimesBefore(actions[..n], j) == TimesBefore(actions, j)
  {
    if j > 0 { TimesBeforePrefix(actions, n, j - 1); }
  }

  /** A call in the cumulative range of action `j` runs it; an action that is never done takes all later calls. */
  lemma ScheduledRange(actions: seq<Action>, j: nat, k: nat)
    requires Real(actions) && j < |actions| && Counted(actions, j) && TimesBefore(actions, j) <= k
    requires Counted(actions, j + 1) ==> k < TimesBefore(actions, j + 1)
    ensures Scheduled(actions, k) == Ran(actions[j].id)
  {
    var a, b := actions[..j], actions[j..];
    assert actions == a + b;
    TotalCounted(a);
    TimesBeforePrefix(actions, j, j);
    ScheduledConcat(a, b, k);
  }

  // ---------- Runs ----------

  datatype Event = Append(action: Action) | Call

  /** The queue with what happened to it: everything appended, and the ids run, in order. */
  datatype History = History(q: Queue, appended: seq<Action>, ran: seq<nat>, last: Outcome)

  const START := History(Queue([NoMoreRecordedAction], []), [], [], Exhausted)

  function Ids(actions: seq<Action>): seq<nat>
    requires Real(actions)
  {
    seq(|actions|, k requires 0 <= k < |actions| => actions[k].id)
  }

  /** What every run keeps. */
  ghost predicate Invariant(h: History) {
    && Valid(h.q) && Real(h.appended) && Real(h.q.used)
    && Ids(h.q.used) + Ids(Pending(h.q)) == Ids(h.appended)
    && (forall k :: 0 <= k < |h.q.used| ==> IsDone(h.q.used[k]))
    && Supplies(Pending(h.q), h.appended, |h.ran|)
    && forall j :: 0 <= j < |h.ran| ==> Ran(h.ran[j]) == Scheduled(h.appended, j)
  }

  /** `pending` is what `c` calls leave of `appended`. */
  ghost predicate Supplies(pending: seq<Action>, appended: seq<Action>, c: nat) {
    && Total(appended) == (if Total(pending).Endless? then Endless else Finite(c + Total(pending).calls))
    && forall j: nat :: Scheduled(pending, j) == Scheduled(appended, c + j)
  }

  function Step(h: History, e: Event): History
    requires Valid(h.q)
  {
    match e
    case Append(a) => History(Appended(h.q, a), h.appended + [a], h.ran, h.last)
    case Call =>
      var (out, q) := Called(h.q);
      History(q, h.appended, if out.Ran? then h.ran + [out.id] else h.ran, out)
  }

  lemma IdsConcat(a: seq<Action>, b: seq<Action>)
    requires Real(a) && Real(b)
    ensures Real(a + b) && Ids(a + b) == Ids(a) + Ids(b)
  {}

  lemma AppendKeeps(h: History, a: Action)
    requires Invariant(h) && !a.NoMoreRecordedAction?
    ensures Invariant(Step(h, Append(a)))
  {
    var h' := Step(h, Append(a));
    assert Pending(h'.q) == Pending(h.q) + [a];
    IdsConcat(Pending(h.q), [a]);
    IdsConcat(h.appended, [a]);
    ConcatAssoc(Ids(h.q.used), Ids(Pending(h.q)), Ids([a]));
    forall j: nat ensures Scheduled(Pending(h.q) + [a], j) == Scheduled(h.appended + [a], |h.ran| + j) {
      ScheduledConcat(Pending(h.q), [a], j);
      ScheduledConcat(h.appended, [a], |h.ran| + j);
    }
    ScheduledConcat(Pending(h.q), [a], 0);
    ScheduledConcat(h.appended, [a], 0);
    forall j | 0 <= j < |h.ran| ensures Ran(h.ran[j]) == Scheduled(h.appended + [a], j) {
      ScheduledConcat(h.appended, [a], j);
      ScheduledExhausted(h.appended, j);
    }
  }

  /** A call on actions that are not exhausted runs the first of them and uses up one of its times. */
  lemma CallSupplies(p: seq<Action>, p': seq<Action>, appended: seq<Action>, c: nat)
    requires Real(p) && p != [] && Supplies(p, appended, c)
    requires var f := Invoked(p[0]); p' == if IsDone(f) then p[1..] else p[0 := f]
    ensures Supplies(p', appended, c + 1) && Scheduled(appended, c) == Ran(p[0].id)
  {
    assert Scheduled(p, 0) == Scheduled(appended, c + 0);
    var f := Invoked(p[0]);
    assert p[0 := f][1..] == p[1..];
    forall j: nat ensures Scheduled(p', j) == Scheduled(appended, c + 1 + j) {
      assert Scheduled(p, j + 1) == Scheduled(appended, c + (j + 1));
      assert Scheduled(p', j) == Scheduled(p, j + 1);
    }
  }

  lemma CallKeeps(h: History)
    requires Invariant(h)
    ensures Invariant(Step(h, Call))
    ensures var out := Step(h, Call).last;
            && out == Scheduled(h.appended, |h.ran|)
            && (out == Exhausted <==> Total(h.appended) == Finite(|h.ran|))
  {
    var p, h' := Pending(h.q), Step(h, Call);
    assert Scheduled(p, 0) == Scheduled(h.appended, |h.ran| + 0);
    ScheduledExhausted(p, 0);
    if p == [] {
      assert h'.q.recorded == h.q.recorded;
    } else {
      var f := Invoked(p[0]);
      var p' := if IsDone(f) then p[1..] else p[0 := f];
      assert Pending(h'.q) == p';
      CallSupplies(p, p', h.appended, |h.ran|);
      CallIds(h.q.used, p, f);
    }
  }

  lemma CallIds(used: seq<Action>, p: seq<Action>, f: Action)
    requires Real(used) && Real(p) && p != [] && f == Invoked(p[0])
    ensures Ids(p[0 := f]) == Ids(p) && Ids(used + [f]) + Ids(p[1..]) == Ids(used) + Ids(p)
  {}

  ghost predicate Appends(es: seq<Event>) {
    forall k :: 0 <= k < |es| && es[k].Append? ==> !es[k].action.NoMoreRecordedAction?
  }

  lemma StartKeeps()
    ensures Invariant(START)
  {
    assert Pending(START.q) == [] && Ids([]) == [];
  }

  lemma StepKeeps(h: History, e: Event)
    requires Invariant(h) && (e.Append? ==> !e.action.NoMoreRecordedAction?)
    ensures Invariant(Step(h, e))
  {
    if e.Append? { AppendKeeps(h, e.action); } else { CallKeeps(h); }
  }

  ghost function Run(es: seq<Event>): (h: History)
    requires Appends(es)
    ensures Valid(h.q)
  {
    if es == [] then START else
    var h := Run(es[..|es| - 1]);
    Step(h, es[|es| - 1])
  }

  /** Over every mix of appends and calls: nothing is lost or reordered, and each call follows the schedule. */
  lemma {:induction false} RunKeeps(es: seq<Event>)
    requires Appends(es)
    ensures Invariant(Run(es))
  {
    if es == [] {
      StartKeeps();
    } else {
      RunKeeps(es[..|es| - 1]);
      StepKeeps(Run(es[..|es| - 1]), es[|es| - 1]);
    }
  }

  /** What the schedule says the next call of a run must do. */
  ghost function Due(es: seq<Event>): Outcome
    requires Appends(es)
  {
    Scheduled(Run(es).appended, |Run(es).ran|)
  }

  /** The next call of any run does what is due, and finds no action exactly when all are used up. */
  lemma NextCall(es: seq<Event>)
    requires Appends(es)
    ensures var h := Run(es);
            && Called(h.q).0 == Due(es)
            && (Due(es) == Exhausted <==> Total(h.appended) == Finite(|h.ran|))
  {
    RunKeeps(es);
    CallKeeps(Run(es));
  }

  // ---------- The queue as it is ----------

  class ActionSequence {
    var recordedActions: seq<Action>
    var usedActions: seq<Action>

    ghost function Now(): Queue
      reads this
    {
      Queue(recordedActions, usedActions)
    }

    constructor ()
      ensures Now() == START.q && Valid(Now())
    {
      recordedActions, usedActions := [NoMoreRecordedAction], [];
    }

    method AppendDo(action: Action)
      requires Valid(Now()) && !action.NoMoreRecordedAction?
      modifies this
      ensures Now() == Appended(old(Now()), action) && Valid(Now())
    {
      var n := |recordedActions| - 1;
      recordedActions := recordedActions[..n] + [action] + recordedActions[n..];
      assert recordedActions[|recordedActions| - 1] == NoMoreRecordedAction;
    }

    method HandleMethodInvocation() returns (out: Outcome)
      requires Valid(Now())
      modifies this
      ensures (out, Now()) == Called(old(Now())) && Valid(Now())
    {
      var action := recordedActions[0];
      match action {
        case Repeat(id, times) =>
          action := Repeat(id, times - 1);
          out := Ran(id);
        case RepeatForever(id) => out := Ran(id);
        case NoMoreRecordedAction => out := Exhausted;
      }
      recordedActions := recordedActions[0 := action];
      if IsDone(action) {
        recordedActions := recordedActions[1..];
        usedActions := usedActions + [action];
      }
    }
  }
}
