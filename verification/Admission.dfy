/** Cross-thread admission of inbound MQTT messages, src/mqtt_dispatcher.py: ingress threads,
    loop callbacks, task completion, `close` and `start` share the token set, the scheduled
    handles and the task table under one lock.  One step of the machine is one lock section. */
module Admission {
  import opened Common

  type Token = nat      // the identity of one `object()`
  type Task = nat
  type Handle = nat

  /** What the lock protects. */
  datatype Core = Core(closed: bool, tokens: set<Token>, handles: map<Token, Handle>, tasks: map<Task, Token>)

  /** How far one `handle_incoming` call has come after it was admitted. */
  datatype Phase = Admitted | Posted(handle: Handle) | Returned

  /** What creating the task comes to when `schedule` runs. */
  datatype Outcome = LoopClosed | Fails | Creates(task: Task)

  /** `token in self._inbound_tasks.values()` */
  predicate HasTask(tasks: map<Task, Token>, t: Token) {
    exists k :: k in tasks && tasks[k] == t
  }

  // ---------------------------------------------------------------- lock sections

  predicate Accepts(c: Core, limit: nat) {
    !c.closed && |c.tasks| + |c.tokens| < limit
  }

  function Admit(c: Core, limit: nat, t: Token): Core {
    if Accepts(c, limit) then c.(tokens := c.tokens + {t}) else c
  }

  function Schedule(c: Core, t: Token, o: Outcome): Core {
    var c1 := c.(handles := c.handles - {t});
    if c1.closed || t !in c1.tokens || !o.Creates? then c1.(tokens := c1.tokens - {t})
    else c1.(tasks := c1.tasks[o.task := t])
  }

  /** The section after `call_soon_threadsafe`; outside of it the handle is not kept. */
  function Record(c: Core, t: Token, h: Handle): Core {
    if !c.closed && t in c.tokens && !HasTask(c.tasks, t) then c.(handles := c.handles[t := h]) else c
  }

  function Release(c: Core, t: Token, tasks: set<Task>): Core {
    c.(tokens := c.tokens - {t}, handles := c.handles - {t}, tasks := c.tasks - tasks)
  }

  function Close(c: Core): Core {
    c.(closed := true, handles := map[], tokens := {})
  }

  function Start(c: Core): Core {
    c.(closed := false)
  }

  /** Tokens that hold a place but have no task yet. */
  function Unstarted(tokens: set<Token>, tasks: map<Task, Token>): set<Token> {
    set t | t in tokens && !HasTask(tasks, t)
  }

  // ---------------------------------------------------------------- the machine

  /** `callbacks` are the posted callbacks that will still run, `live` the tasks that are not
      done, `started` the tokens that ever got a task. */
  datatype System = System(limit: nat, core: Core, calls: map<Token, Phase>, callbacks: set<Token>,
                           live: map<Task, Token>, started: set<Token>, cancelling: set<Token>)

  datatype Step =
    | Call(t: Token)                           // the admission section of `handle_incoming`
    | GiveUp(t: Token)                         // the loop is closed: release and return
    | RunHere(t: Token, o: Outcome)            // on the loop's own thread: schedule at once
    | Post(t: Token, h: Handle)                // call_soon_threadsafe
    | Keep(t: Token)                           // the section that records the handle
    | RunCallback(t: Token, o: Outcome)        // the loop runs the posted callback
    | RegisterFails(task: Task)                // cancel and release the task just created
    | Done(task: Task)                         // the task's done callback
    | CloseSection
    | CancelHandle(t: Token)                   // close, after the lock
    | StartSection

  function Initial(limit: nat): System {
    System(limit, Core(false, {}, map[], map[]), map[], {}, map[], {}, {})
  }

  predicate Fresh(s: System, o: Outcome) {
    o.Creates? ==> o.task !in s.live && o.task !in s.core.tasks
  }

  predicate Enabled(s: System, step: Step) {
    match step
    case Call(t) => t !in s.calls
    case GiveUp(t) => t in s.calls && s.calls[t] == Admitted
    case RunHere(t, o) => t in s.calls && s.calls[t] == Admitted && Fresh(s, o)
    case Post(t, h) => t in s.calls && s.calls[t] == Admitted
    case Keep(t) => t in s.calls && s.calls[t].Posted?
    case RunCallback(t, o) => t in s.callbacks && Fresh(s, o)
    case RegisterFails(k) => k in s.live
    case Done(k) => k in s.live
    case CancelHandle(t) => t in s.cancelling
    case _ => true
  }

  function Scheduled(s: System, t: Token, o: Outcome): System {
    var c := Schedule(s.core, t, o);
    if !s.core.closed && t in s.core.tokens && o.Creates? then
      s.(core := c, live := s.live[o.task := t], started := s.started + {t})
    else
      s.(core := c)
  }

  function Next(s: System, step: Step): System
    requires Enabled(s, step)
  {
    match step
    case Call(t) =>
      s.(core := Admit(s.core, s.limit, t), calls := s.calls[t := if Accepts(s.core, s.limit) then Admitted else Returned])
    case GiveUp(t) => s.(core := Release(s.core, t, {}), calls := s.calls[t := Returned])
    case RunHere(t, o) => Scheduled(s.(calls := s.calls[t := Returned]), t, o)
    case Post(t, h) => s.(callbacks := s.callbacks + {t}, calls := s.calls[t := Posted(h)])
    case Keep(t) =>
      s.(core := Record(s.core, t, s.calls[t].handle), calls := s.calls[t := Returned],
         callbacks := if s.core.closed || t !in s.core.tokens then s.callbacks - {t} else s.callbacks)
    case RunCallback(t, o) => Scheduled(s.(callbacks := s.callbacks - {t}), t, o)
    case RegisterFails(k) => s.(core := Release(s.core, s.live[k], {k}))
    case Done(k) => s.(core := Release(s.core, s.live[k], {k}), live := s.live - {k})
    case CloseSection => s.(core := Close(s.core), cancelling := s.cancelling + s.core.handles.Keys)
    case CancelHandle(t) => s.(callbacks := s.callbacks - {t}, cancelling := s.cancelling - {t})
    case StartSection => s.(core := Start(s.core))
  }

  /** A run: the steps that are not enabled when their turn comes do nothing. */
  function Run(s: System, steps: seq<Step>): System
    decreases |steps|
  {
    if steps == [] then s
    else Run(if Enabled(s, steps[0]) then Next(s, steps[0]) else s, steps[1..])
  }

  // ---------------------------------------------------------------- what every step keeps

  /** Owned tasks and admitted tokens without a task stay within the limit. */
  ghost predicate WithinLimit(s: System) {
    |s.core.tasks| + |Unstarted(s.core.tokens, s.core.tasks)| <= s.limit
  }

  /** Someone will release each token: the call, a callback that will run, or a task. */
  ghost predicate Owned(s: System) {
    forall t | t in s.core.tokens ::
      t in s.calls && (s.calls[t] == Admitted || t in s.callbacks || HasTask(s.core.tasks, t))
  }

  /** A kept handle belongs to an admitted token whose callback is still to come. */
  ghost predicate HandlesPending(s: System) {
    forall t | t in s.core.handles :: t in s.core.tokens && t in s.callbacks && !HasTask(s.core.tasks, t)
  }

  ghost predicate TasksLive(s: System) {
    && (forall k | k in s.core.tasks :: k in s.live && s.live[k] == s.core.tasks[k])
    && (forall k | k in s.live :: s.live[k] in s.started)
    && (forall k, k' | k in s.live && k' in s.live && s.live[k] == s.live[k'] :: k == k')
  }

  ghost predicate NotYetStarted(s: System) {
    && (forall t | t in s.callbacks :: t in s.calls && s.calls[t] != Admitted && t !in s.started)
    && (forall t | t in s.calls && s.calls[t] == Admitted :: t !in s.started)
    && (forall t | t in s.started :: t in s.calls)
    && (forall t | t in s.cancelling :: t in s.calls && t !in s.core.tokens)
  }

  ghost predicate Inv(s: System) {
    && WithinLimit(s) && Owned(s) && HandlesPending(s) && TasksLive(s) && NotYetStarted(s)
    && (s.core.closed ==> s.core.tokens == {})
  }

  lemma {:induction false} RunKeepsInv(s: System, steps: seq<Step>)
    requires Inv(s)
    ensures Inv(Run(s, steps))
    decreases |steps|
  {
    if steps != [] {
      if Enabled(s, steps[0]) {
        StepKeepsInv(s, steps[0]);
      }
      RunKeepsInv(if Enabled(s, steps[0]) then Next(s, steps[0]) else s, steps[1..]);
    }
  }

  /** Every state that a new dispatcher can get to keeps the invariant. */
  lemma RunsKeepInv(limit: nat, steps: seq<Step>)
    ensures Inv(Run(Initial(limit), steps))
  {
    InitialInv(limit);
    RunKeepsInv(Initial(limit), steps);
  }

  lemma InitialInv(limit: nat)
    ensures Inv(Initial(limit))
  {
  }

  lemma AdmitWithinLimit(c: Core, limit: nat, t: Token)
    requires |c.tasks| + |Unstarted(c.tokens, c.tasks)| <= limit
    ensures Admit(c, limit, t).tasks == c.tasks && |c.tasks| + |Unstarted(Admit(c, limit, t).tokens, c.tasks)| <= limit
  {
    if Accepts(c, limit) {
      SubsetSize(Unstarted(Admit(c, limit, t).tokens, c.tasks), c.tokens + {t});
    }
  }

  lemma CallKeeps(s: System, t: Token)
    requires Inv(s) && t !in s.calls
    ensures Inv(Next(s, Call(t)))
  {
    AdmitWithinLimit(s.core, s.limit, t);
  }

  /** Releasing a token with all its tasks. */
  lemma ReleaseKeeps(s: System, t: Token, ks: set<Task>)
    requires Inv(s)
    requires forall k | k in s.core.tasks :: k in ks <==> s.core.tasks[k] == t
    ensures Inv(s.(core := Release(s.core, t, ks)))
  {
    var c, c' := s.core, Release(s.core, t, ks);
    forall x | HasTask(c.tasks, x) && x != t
      ensures HasTask(c'.tasks, x)
    {
      var k :| k in c.tasks && c.tasks[k] == x;
      assert k in c'.tasks;
    }
    SubsetSize(c'.tasks.Keys, c.tasks.Keys);
    SubsetSize(Unstarted(c'.tokens, c'.tasks), Unstarted(c.tokens, c.tasks));
  }

  /** The invariant while `schedule` is at work on `t`, which nothing else refers to. */
  ghost predicate InvBut(s: System, t: Token) {
    && WithinLimit(s) && TasksLive(s) && NotYetStarted(s)
    && (forall x | x in s.core.tokens && x != t ::
          x in s.calls && (s.calls[x] == Admitted || x in s.callbacks || HasTask(s.core.tasks, x)))
    && (forall x | x in s.core.handles && x != t :: x in s.core.tokens && x in s.callbacks && !HasTask(s.core.tasks, x))
    && (s.core.closed ==> s.core.tokens == {})
    && t in s.calls && s.calls[t] != Admitted && t !in s.callbacks && t !in s.started
  }

  lemma ScheduleDrops(s: System, t: Token, o: Outcome)
    requires InvBut(s, t)
    requires s.core.closed || t !in s.core.tokens || !o.Creates?
    ensures Inv(Scheduled(s, t, o))
  {
    SubsetSize(Unstarted(Scheduled(s, t, o).core.tokens, s.core.tasks), Unstarted(s.core.tokens, s.core.tasks));
  }

  lemma AddTask(tokens: set<Token>, tasks: map<Task, Token>, t: Token, k: Task)
    requires k !in tasks
    ensures forall x :: HasTask(tasks[k := t], x) <==> x == t || HasTask(tasks, x)
    ensures |tasks[k := t]| == |tasks| + 1 && Unstarted(tokens, tasks[k := t]) == Unstarted(tokens, tasks) - {t}
  {
    var after := tasks[k := t];
    forall x
      ensures HasTask(after, x) <==> x == t || HasTask(tasks, x)
    {
      assert after[k] == t;
      if k' :| k' in tasks && tasks[k'] == x {
        assert after[k'] == x;
      }
    }
    assert after.Keys == tasks.Keys + {k};
  }

  lemma CreatesWithinLimit(s: System, t: Token, o: Outcome)
    requires WithinLimit(s) && TasksLive(s) && t !in s.started && t in s.core.tokens
    requires !s.core.closed && o.Creates? && Fresh(s, o)
    ensures WithinLimit(Scheduled(s, t, o))
    ensures forall x :: HasTask(Scheduled(s, t, o).core.tasks, x) <==> x == t || HasTask(s.core.tasks, x)
  {
    AddTask(s.core.tokens, s.core.tasks, t, o.task);
    NoTaskYet(s, t);
    assert t in Unstarted(s.core.tokens, s.core.tasks);
  }

  lemma CreatesLive(s: System, t: Token, o: Outcome)
    requires TasksLive(s) && NotYetStarted(s) && t !in s.started && o.Creates? && Fresh(s, o)
    requires t in s.calls && s.calls[t] != Admitted && t !in s.callbacks && t in s.core.tokens && !s.core.closed
    ensures TasksLive(Scheduled(s, t, o)) && NotYetStarted(Scheduled(s, t, o))
  {
  }

  lemma ScheduleCreates(s: System, t: Token, o: Outcome)
    requires InvBut(s, t) && o.Creates? && Fresh(s, o)
    requires !s.core.closed && t in s.core.tokens
    ensures Inv(Scheduled(s, t, o))
  {
    CreatesWithinLimit(s, t, o);
    CreatesLive(s, t, o);
  }

  lemma ScheduleKeeps(s: System, t: Token, o: Outcome)
    requires InvBut(s, t) && Fresh(s, o)
    ensures Inv(Scheduled(s, t, o))
  {
    if o.Creates? && !s.core.closed && t in s.core.tokens {
      ScheduleCreates(s, t, o);
    } else {
      ScheduleDrops(s, t, o);
    }
  }

  lemma NoTaskYet(s: System, t: Token)
    requires TasksLive(s) && t !in s.started
    ensures !HasTask(s.core.tasks, t)
  {
  }

  lemma OnlyTask(s: System, k: Task)
    requires TasksLive(s) && k in s.live
    ensures forall k' | k' in s.core.tasks :: k' in {k} <==> s.core.tasks[k'] == s.live[k]
  {
  }

  lemma RegisterFailsKeeps(s: System, k: Task)
    requires Inv(s) && k in s.live
    ensures Inv(Next(s, RegisterFails(k)))
  {
    OnlyTask(s, k);
    ReleaseKeeps(s, s.live[k], {k});
    assert Next(s, RegisterFails(k)) == s.(core := Release(s.core, s.live[k], {k}));
  }

  lemma DoneKeeps(s: System, k: Task)
    requires Inv(s) && k in s.live
    ensures Inv(Next(s, Done(k)))
  {
    RegisterFailsKeeps(s, k);
    var s' := Next(s, RegisterFails(k));
    assert k !in s'.core.tasks;
    assert Next(s, Done(k)) == s'.(live := s'.live - {k});
  }

  lemma GiveUpKeeps(s: System, t: Token)
    requires Inv(s) && Enabled(s, GiveUp(t))
    ensures Inv(Next(s, GiveUp(t)))
  {
    NoTaskYet(s, t);
    ReleaseKeeps(s, t, {});
    ReturnKeeps(s.(core := Release(s.core, t, {})), t);
  }

  /** A call that has nothing left to look after returns. */
  lemma ReturnKeeps(s: System, t: Token)
    requires Inv(s) && t in s.calls && t !in s.core.tokens
    ensures Inv(s.(calls := s.calls[t := Returned]))
  {
  }

  lemma CloseKeeps(s: System)
    requires Inv(s)
    ensures Inv(Next(s, CloseSection))
  {
    var c := Close(s.core);
    SubsetSize(Unstarted(c.tokens, c.tasks), Unstarted(s.core.tokens, s.core.tasks));
  }

  lemma HandleKeeps(s: System, t: Token, h: Handle)
    requires Inv(s) && t in s.core.tokens && t in s.callbacks
    ensures Inv(s.(core := Record(s.core, t, h)))
  {
  }

  lemma KeptReturns(s: System, t: Token)
    requires Inv(s) && t in s.calls && s.calls[t].Posted?
    ensures Inv(s.(calls := s.calls[t := Returned]))
  {
  }

  lemma CancelKeeps(s: System, t: Token)
    requires Inv(s) && t !in s.core.tokens
    ensures Inv(s.(callbacks := s.callbacks - {t}))
  {
  }

  lemma KeepKeeps(s: System, t: Token)
    requires Inv(s) && Enabled(s, Keep(t))
    ensures Inv(Next(s, Keep(t)))
  {
    var r := s.(calls := s.calls[t := Returned]);
    KeptReturns(s, t);
    if s.core.closed || t !in s.core.tokens {
      CancelKeeps(r, t);
      assert Next(s, Keep(t)) == r.(callbacks := r.callbacks - {t});
    } else {
      if t in s.callbacks {
        HandleKeeps(r, t, s.calls[t].handle);
      }
      assert Next(s, Keep(t)) == r.(core := Record(r.core, t, s.calls[t].handle));
    }
  }

  lemma PostKeeps(s: System, t: Token, h: Handle)
    requires Inv(s) && Enabled(s, Post(t, h))
    ensures Inv(Next(s, Post(t, h)))
  {
  }

  lemma CancelHandleKeeps(s: System, t: Token)
    requires Inv(s) && t in s.cancelling
    ensures Inv(Next(s, CancelHandle(t)))
  {
    CancelKeeps(s, t);
  }

  lemma StepKeepsInv(s: System, step: Step)
    requires Inv(s) && Enabled(s, step)
    ensures Inv(Next(s, step))
  {
    match step
    case Call(t) => CallKeeps(s, t);
    case GiveUp(t) => GiveUpKeeps(s, t);
    case RunHere(t, o) => ScheduleKeeps(s.(calls := s.calls[t := Returned]), t, o);
    case Post(t, h) => PostKeeps(s, t, h);
    case Keep(t) => KeepKeeps(s, t);
    case RunCallback(t, o) => ScheduleKeeps(s.(callbacks := s.callbacks - {t}), t, o);
    case RegisterFails(k) => RegisterFailsKeeps(s, k);
    case Done(k) => DoneKeeps(s, k);
    case CloseSection => CloseKeeps(s);
    case CancelHandle(t) => CancelHandleKeeps(s, t);
    case StartSection =>
  }

  // ---------------------------------------------------------------- what close settles

  lemma ReleasedStep(s: System, step: Step, t: Token)
    requires Enabled(s, step) && t in s.calls && t !in s.core.tokens
    ensures var s' := Next(s, step);
            t in s'.calls && t !in s'.core.tokens && (t in s'.started ==> t in s.started)
  {
  }

  /** A token that is known but holds no place never gets one again, hence never a task. */
  lemma {:induction false} ReleasedForGood(s: System, steps: seq<Step>, t: Token)
    requires t in s.calls && t !in s.core.tokens
    ensures t !in Run(s, steps).core.tokens
    ensures t in Run(s, steps).started ==> t in s.started
    decreases |steps|
  {
    if steps != [] {
      if Enabled(s, steps[0]) {
        ReleasedStep(s, steps[0], t);
      }
      ReleasedForGood(if Enabled(s, steps[0]) then Next(s, steps[0]) else s, steps[1..], t);
    }
  }

  /** A message admitted before a `close` yields no task after it, whatever follows, `start`
      included: what `t` has become by then is all it will ever be. */
  lemma CloseIsFinal(limit: nat, before: seq<Step>, after: seq<Step>, t: Token)
    requires t in Run(Initial(limit), before).calls
    ensures var s := Run(Initial(limit), before);
            t in Run(Next(s, CloseSection), after).started ==> t in s.started
  {
    ReleasedForGood(Next(Run(Initial(limit), before), CloseSection), after, t);
  }

  /** A callback that is still to come can be withdrawn: by the call that is about to keep its
      handle, by the next `close`, or by the one that is at it. */
  ghost predicate Withdrawable(s: System) {
    forall t | t in s.callbacks ::
      t in s.calls && (s.calls[t].Posted? || (t in s.core.tokens && t in s.core.handles) || t in s.cancelling)
  }

  lemma ReleasingWithdrawable(s: System, t: Token, ks: set<Task>)
    requires Withdrawable(s) && t !in s.callbacks
    ensures Withdrawable(s.(core := Release(s.core, t, ks)))
  {
  }

  lemma SchedulingWithdrawable(s: System, t: Token, o: Outcome)
    requires Withdrawable(s) && t !in s.callbacks
    ensures Withdrawable(Scheduled(s, t, o))
  {
  }

  lemma KeepingWithdrawable(s: System, t: Token)
    requires Inv(s) && Withdrawable(s) && Enabled(s, Keep(t))
    ensures Withdrawable(Next(s, Keep(t)))
  {
    NotStartedHasNoTask(s);
  }

  lemma CallingWithdrawable(s: System, t: Token)
    requires Withdrawable(s) && t !in s.calls
    ensures Withdrawable(Next(s, Call(t)))
  {
  }

  lemma PostingWithdrawable(s: System, t: Token, h: Handle)
    requires Withdrawable(s) && Enabled(s, Post(t, h))
    ensures Withdrawable(Next(s, Post(t, h)))
  {
  }

  lemma ClosingWithdrawable(s: System)
    requires Withdrawable(s)
    ensures Withdrawable(Next(s, CloseSection))
  {
  }

  lemma NotStartedHasNoTask(s: System)
    requires Inv(s)
    ensures forall t | t in s.callbacks :: !HasTask(s.core.tasks, t)
  {
  }

  lemma WithdrawableStep(s: System, step: Step)
    requires Inv(s) && Withdrawable(s) && Enabled(s, step)
    ensures Withdrawable(Next(s, step))
  {
    match step
    case GiveUp(t) => ReleasingWithdrawable(s, t, {});
    case RunHere(t, o) => SchedulingWithdrawable(s.(calls := s.calls[t := Returned]), t, o);
    case RunCallback(t, o) => SchedulingWithdrawable(s.(callbacks := s.callbacks - {t}), t, o);
    case Keep(t) => KeepingWithdrawable(s, t);
    case RegisterFails(k) => ReleasingWithdrawable(s, s.live[k], {k});
    case Done(k) => ReleasingWithdrawable(s, s.live[k], {k});
    case Call(t) => CallingWithdrawable(s, t);
    case Post(t, h) => PostingWithdrawable(s, t, h);
    case CloseSection => ClosingWithdrawable(s);
    case CancelHandle(t) =>
    case StartSection =>
  }

  lemma {:induction false} RunStaysWithdrawable(s: System, steps: seq<Step>)
    requires Inv(s) && Withdrawable(s)
    ensures Inv(Run(s, steps)) && Withdrawable(Run(s, steps))
    decreases |steps|
  {
    if steps != [] {
      if Enabled(s, steps[0]) {
        StepKeepsInv(s, steps[0]);
        WithdrawableStep(s, steps[0]);
      }
      RunStaysWithdrawable(if Enabled(s, steps[0]) then Next(s, steps[0]) else s, steps[1..]);
    }
  }

  /** Over every run: `close` hands out the handle of each admitted message whose call has returned
      and whose callback is still to come, and once it has cancelled what it was handed, and the calls
      under way have returned, a closed dispatcher has no callback left on the loop. */
  lemma CloseWithdrawsCallbacks(limit: nat, steps: seq<Step>)
    ensures Withdraws(Run(Initial(limit), steps))
  {
    InitialInv(limit);
    RunStaysWithdrawable(Initial(limit), steps);
    WithdrawableMeans(Run(Initial(limit), steps));
  }

  ghost predicate Withdraws(s: System) {
    && (forall t | t in s.callbacks :: t in s.calls)
    && (forall t | t in s.callbacks && s.calls[t] == Returned && t !in s.cancelling :: t in s.core.handles)
    && (forall t | t in s.callbacks && s.calls[t] == Returned :: t in Next(s, CloseSection).cancelling)
    && (s.core.closed && s.cancelling == {} && (forall t | t in s.calls :: s.calls[t] == Returned) ==> s.callbacks == {})
  }

  lemma WithdrawableMeans(s: System)
    requires Inv(s) && Withdrawable(s)
    ensures Withdraws(s)
  {
  }

  /** A place is never lost: once every call has returned, every callback has run and every
      task is done, no token is left. */
  lemma QuiescentIsEmpty(s: System)
    requires Inv(s)
    requires s.callbacks == {} && s.live == map[] && forall t | t in s.calls :: s.calls[t] == Returned
    ensures s.core.tokens == {} && s.core.tasks == map[] && s.core.handles == map[]
  {
  }

  // ---------------------------------------------------------------- what the limit counts

  function Tokens(tasks: map<Task, Token>): set<Token> {
    set k | k in tasks :: tasks[k]
  }

  lemma {:induction false} InjectiveSize(tasks: map<Task, Token>)
    requires forall k, k' | k in tasks && k' in tasks && tasks[k] == tasks[k'] :: k == k'
    ensures |Tokens(tasks)| == |tasks|
    decreases |tasks|
  {
    if k :| k in tasks {
      var rest := tasks - {k};
      InjectiveSize(rest);
      TokensWithout(tasks, k);
      assert forall k' | k' in rest :: tasks[k'] != tasks[k];
      assert tasks.Keys == rest.Keys + {k};
    }
  }

  lemma TokensWithout(tasks: map<Task, Token>, k: Task)
    requires k in tasks
    ensures Tokens(tasks) == Tokens(tasks - {k}) + {tasks[k]}
  {
    var rest := tasks - {k};
    forall t | t in Tokens(tasks)
      ensures t in Tokens(rest) + {tasks[k]}
    {
      var k' :| k' in tasks && tasks[k'] == t;
      assert k' != k ==> k' in rest && rest[k'] == t;
    }
  }

  /** The tasks whose token still counts as admitted. */
  function Holding(c: Core): map<Task, Token> {
    map k | k in c.tasks && c.tasks[k] in c.tokens :: c.tasks[k]
  }

  lemma TokensAreHeldOrUnstarted(c: Core)
    requires forall k, k' | k in c.tasks && k' in c.tasks && c.tasks[k] == c.tasks[k'] :: k == k'
    ensures |c.tokens| == |Holding(c)| + |Unstarted(c.tokens, c.tasks)|
  {
    var held := Tokens(Holding(c));
    InjectiveSize(Holding(c));
    forall t | t in c.tokens && HasTask(c.tasks, t)
      ensures t in held
    {
      var k :| k in c.tasks && c.tasks[k] == t;
      assert k in Holding(c);
    }
    assert c.tokens == held + Unstarted(c.tokens, c.tasks);
  }

  /** The work that counts against the limit: live tasks and admitted messages without a task. */
  function Work(c: Core): nat {
    |c.tasks| + |Unstarted(c.tokens, c.tasks)|
  }

  predicate WronglyRefuses(c: Core, limit: nat) {
    !c.closed && Work(c) < limit && !Accepts(c, limit)
  }

  /** When a call is refused, in every reachable state: the gate counts a task twice while its
      token is still admitted, so it refuses a call that the limit has room for exactly when it is
      open and the double count alone fills the limit. */
  lemma RefusalsAreDoubleCounts(limit: nat, steps: seq<Step>)
    ensures var c := Run(Initial(limit), steps).core;
            && (Accepts(c, limit) <==> !c.closed && Work(c) + |Holding(c)| < limit)
            && (WronglyRefuses(c, limit) <==> !c.closed && Work(c) < limit <= Work(c) + |Holding(c)|)
  {
    RunsKeepInv(limit, steps);
    RunKeepsLimit(Initial(limit), steps);
    TokensAreHeldOrUnstarted(Run(Initial(limit), steps).core);
  }

  lemma {:induction false} RunKeepsLimit(s: System, steps: seq<Step>)
    ensures Run(s, steps).limit == s.limit
    decreases |steps|
  {
    if steps != [] {
      RunKeepsLimit(if Enabled(s, steps[0]) then Next(s, steps[0]) else s, steps[1..]);
    }
  }

  ghost predicate AllHold(c: Core) {
    forall k | k in c.tasks :: c.tasks[k] in c.tokens
  }

  lemma ReleaseHolds(c: Core, t: Token, ks: set<Task>)
    requires AllHold(c) && forall k | k in c.tasks && k !in ks :: c.tasks[k] != t
    ensures AllHold(Release(c, t, ks))
  {
  }

  lemma ScheduleHolds(c: Core, t: Token, o: Outcome)
    requires AllHold(c) && !HasTask(c.tasks, t)
    ensures AllHold(Schedule(c, t, o))
  {
    forall k | k in c.tasks
      ensures c.tasks[k] != t
    {
      assert HasTask(c.tasks, c.tasks[k]);
    }
  }

  lemma TasksHoldStep(s: System, step: Step)
    requires Inv(s) && AllHold(s.core) && Enabled(s, step) && !step.CloseSection?
    ensures AllHold(Next(s, step).core)
  {
    match step
    case GiveUp(t) =>
      NoTaskYet(s, t);
      forall k | k in s.core.tasks
        ensures s.core.tasks[k] != t
      {
        assert HasTask(s.core.tasks, s.core.tasks[k]);
      }
      ReleaseHolds(s.core, t, {});
    case RunHere(t, o) =>
      NoTaskYet(s, t);
      ScheduleHolds(s.core, t, o);
    case RunCallback(t, o) =>
      NoTaskYet(s, t);
      ScheduleHolds(s.core, t, o);
    case RegisterFails(k) =>
      OnlyTask(s, k);
      ReleaseHolds(s.core, s.live[k], {k});
    case Done(k) =>
      OnlyTask(s, k);
      ReleaseHolds(s.core, s.live[k], {k});
    case _ =>
  }

  lemma StaysOpen(s: System, step: Step)
    requires !s.core.closed && Enabled(s, step) && !step.CloseSection?
    ensures !Next(s, step).core.closed
  {
  }

  lemma {:induction false} TasksHoldWhileOpen(s: System, steps: seq<Step>)
    requires Inv(s) && AllHold(s.core) && !s.core.closed && forall i | 0 <= i < |steps| :: !steps[i].CloseSection?
    ensures Inv(Run(s, steps)) && AllHold(Run(s, steps).core) && !Run(s, steps).core.closed
    decreases |steps|
  {
    if steps != [] {
      var s' := if Enabled(s, steps[0]) then Next(s, steps[0]) else s;
      if Enabled(s, steps[0]) {
        StepKeepsInv(s, steps[0]);
        TasksHoldStep(s, steps[0]);
        StaysOpen(s, steps[0]);
      }
      TasksHoldWhileOpen(s', steps[1..]);
    }
  }

  /** In a run without `close` every task holds its token: with n tasks and m waiting messages a
      call is admitted exactly when 2 n + m is under the limit. */
  lemma TasksCountTwice(limit: nat, steps: seq<Step>)
    requires forall i | 0 <= i < |steps| :: !steps[i].CloseSection?
    ensures AllHold(Run(Initial(limit), steps).core)
    ensures var c := Run(Initial(limit), steps).core;
            Accepts(c, limit) <==> 2 * |c.tasks| + |Unstarted(c.tokens, c.tasks)| < limit
  {
    InitialInv(limit);
    TasksHoldWhileOpen(Initial(limit), steps);
    RefusalsAreDoubleCounts(limit, steps);
    var c := Run(Initial(limit), steps).core;
    assert Holding(c) == c.tasks;
  }

  /** The shortest refusal: with a limit of two, one running task keeps a second message out. */
  lemma OneTaskFillsALimitOfTwo()
    ensures var s := Run(Initial(2), [Call(0), RunHere(0, Creates(0))]);
            && Work(s.core) == 1 && WronglyRefuses(s.core, 2)
            && Run(Initial(2), [Call(0), RunHere(0, Creates(0)), Call(1)]).calls[1] == Returned
  {
    var s1 := Next(Initial(2), Call(0));
    var s2 := Next(s1, RunHere(0, Creates(0)));
    assert HasTask(s2.core.tasks, 0) by {
      assert s2.core.tasks[0] == 0;
    }
    assert s2.core == Core(false, {0}, map[], map[0 := 0]);
    assert Unstarted(s2.core.tokens, s2.core.tasks) == {};
    assert Run(s2, []) == s2 && Run(s2, [Call(1)]) == Run(Next(s2, Call(1)), []);
    var steps, more := [RunHere(0, Creates(0))], [RunHere(0, Creates(0)), Call(1)];
    assert steps[1..] == [] && more[1..] == [Call(1)];
    assert [Call(0), RunHere(0, Creates(0))][1..] == steps && [Call(0), RunHere(0, Creates(0)), Call(1)][1..] == more;
    assert Run(s1, steps) == Run(s2, []) && Run(s1, more) == Run(s2, [Call(1)]);
  }

  // ---------------------------------------------------------------- the whole limit

  /** The tokens of the first `n` calls, or the tasks of the first `n` starts. */
  ghost predicate FirstOnes(s: set<nat>, n: nat) {
    forall i: nat :: i in s <==> i < n
  }

  lemma {:induction false} FirstOnesCount(s: set<nat>, n: nat)
    requires FirstOnes(s, n)
    ensures |s| == n
    decreases n
  {
    if n > 0 {
      FirstOnesCount(s - {n - 1}, n - 1);
    } else {
      assert s == {};
    }
  }

  lemma {:induction false} RunAppend(s: System, a: seq<Step>, b: seq<Step>)
    ensures Run(s, a + b) == Run(Run(s, a), b)
    decreases |a|
  {
    if a == [] {
      assert a + b == b;
    } else {
      assert (a + b)[1..] == a[1..] + b;
      RunAppend(if Enabled(s, a[0]) then Next(s, a[0]) else s, a[1..], b);
    }
  }

  /** After `n` calls from another thread, all of which have returned, and `k` of their callbacks. */
  ghost predicate Burst(s: System, n: nat, k: nat) {
    && !s.core.closed && FirstOnes(s.core.tokens, n) && FirstOnes(s.calls.Keys, n)
    && FirstOnes(s.core.tasks.Keys, k) && FirstOnes(s.live.Keys, k)
    && forall t: nat :: t in s.callbacks <==> k <= t < n
  }

  lemma RunCons(s: System, step: Step, rest: seq<Step>)
    requires Enabled(s, step)
    ensures Run(s, [step] + rest) == Run(Next(s, step), rest)
  {
    assert ([step] + rest)[1..] == rest;
  }

  lemma GateIsOpen(s: System, i: nat)
    requires Burst(s, i, 0) && i < s.limit
    ensures Accepts(s.core, s.limit)
  {
    FirstOnesCount(s.core.tasks.Keys, 0);
    FirstOnesCount(s.core.tokens, i);
  }

  lemma CallAdmits(s: System, t: Token)
    requires t !in s.calls && Accepts(s.core, s.limit)
    ensures Next(s, Call(t)) == s.(core := s.core.(tokens := s.core.tokens + {t}), calls := s.calls[t := Admitted])
  {
  }

  /** A whole call from another thread, up to its return. */
  function Arrival(i: nat): seq<Step> {
    [Call(i), Post(i, i), Keep(i)]
  }

  lemma PostAndKeep(s: System, i: nat)
    requires i in s.calls && s.calls[i] == Admitted && !s.core.closed && i in s.core.tokens
    ensures Enabled(s, Post(i, i)) && Enabled(Next(s, Post(i, i)), Keep(i))
    ensures var s' := Next(Next(s, Post(i, i)), Keep(i));
            && s'.core == s.core.(handles := s'.core.handles) && s'.live == s.live && s'.limit == s.limit
            && s'.callbacks == s.callbacks + {i} && s'.calls.Keys == s.calls.Keys
  {
  }

  lemma RunThree(s: System, first: Step, second: Step, third: Step)
    requires Enabled(s, first) && Enabled(Next(s, first), second) && Enabled(Next(Next(s, first), second), third)
    ensures Run(s, [first, second, third]) == Next(Next(Next(s, first), second), third)
  {
    var s1, s2 := Next(s, first), Next(Next(s, first), second);
    assert [first] + [second, third] == [first, second, third] && [second] + [third] == [second, third];
    assert [third] + [] == [third];
    RunCons(s, first, [second, third]);
    RunCons(s1, second, [third]);
    RunCons(s2, third, []);
  }

  /** What a call that is admitted comes to. */
  ghost predicate Arrived(s: System, s': System, i: nat) {
    && s'.core.closed == s.core.closed && s'.core.tokens == s.core.tokens + {i} && s'.core.tasks == s.core.tasks
    && s'.live == s.live && s'.callbacks == s.callbacks + {i} && s'.calls.Keys == s.calls.Keys + {i}
    && s'.limit == s.limit
  }

  lemma BurstGrows(s: System, s': System, i: nat)
    requires Burst(s, i, 0) && Arrived(s, s', i)
    ensures Burst(s', i + 1, 0)
  {
  }

  lemma ArrivalSteps(s: System, i: nat)
    requires i !in s.calls && Accepts(s.core, s.limit)
    ensures var s1 := Next(s, Call(i));
            && Enabled(s1, Post(i, i)) && Enabled(Next(s1, Post(i, i)), Keep(i))
            && Arrived(s, Next(Next(s1, Post(i, i)), Keep(i)), i)
  {
    CallAdmits(s, i);
    PostAndKeep(Next(s, Call(i)), i);
  }

  lemma ArrivalRuns(s: System, i: nat)
    requires i !in s.calls && Accepts(s.core, s.limit)
    ensures Arrived(s, Run(s, Arrival(i)), i)
  {
    ArrivalSteps(s, i);
    RunThree(s, Call(i), Post(i, i), Keep(i));
  }

  lemma ArrivalIsAdmitted(s: System, i: nat)
    requires Burst(s, i, 0) && i < s.limit
    ensures Burst(Run(s, Arrival(i)), i + 1, 0) && Run(s, Arrival(i)).limit == s.limit
  {
    assert i !in s.calls;
    GateIsOpen(s, i);
    ArrivalRuns(s, i);
    BurstGrows(s, Run(s, Arrival(i)), i);
  }

  /** Messages `i` to `n` arrive, one after the other, before the loop runs any of their callbacks. */
  lemma {:induction false} ArrivalsAreAdmitted(s: System, i: nat, n: nat) returns (steps: seq<Step>)
    requires Burst(s, i, 0) && i <= n <= s.limit
    ensures Burst(Run(s, steps), n, 0) && forall j | 0 <= j < |steps| :: !steps[j].RunHere?
    decreases n - i
  {
    steps := [];
    if i < n {
      ArrivalIsAdmitted(s, i);
      var rest := ArrivalsAreAdmitted(Run(s, Arrival(i)), i + 1, n);
      RunAppend(s, Arrival(i), rest);
      steps := Arrival(i) + rest;
    }
  }

  lemma BurstGoesOn(s: System, s': System, n: nat, k: nat)
    requires Burst(s, n, k) && k < n
    requires s'.core == Core(false, s.core.tokens, s.core.handles - {k}, s.core.tasks[k := k])
    requires s'.live == s.live[k := k] && s'.calls == s.calls && s'.callbacks == s.callbacks - {k}
    ensures Burst(s', n, k + 1)
  {
  }

  lemma CallbackCreates(s: System, k: nat)
    requires !s.core.closed && k in s.core.tokens && k in s.callbacks
    ensures var s' := Scheduled(s.(callbacks := s.callbacks - {k}), k, Creates(k));
            && s'.core == Core(false, s.core.tokens, s.core.handles - {k}, s.core.tasks[k := k])
            && s'.live == s.live[k := k] && s'.calls == s.calls && s'.callbacks == s.callbacks - {k}
  {
  }

  lemma CallbackIsRun(s: System, n: nat, k: nat)
    requires Burst(s, n, k) && k < n
    ensures Enabled(s, RunCallback(k, Creates(k))) && Burst(Next(s, RunCallback(k, Creates(k))), n, k + 1)
  {
    CallbackCreates(s, k);
    BurstGoesOn(s, Scheduled(s.(callbacks := s.callbacks - {k}), k, Creates(k)), n, k);
  }

  /** The loop gets to the callbacks. */
  lemma {:induction false} CallbacksAreRun(s: System, n: nat, k: nat) returns (steps: seq<Step>)
    requires Burst(s, n, k) && k <= n
    ensures Burst(Run(s, steps), n, n) && forall j | 0 <= j < |steps| :: !steps[j].RunHere?
    decreases n - k
  {
    steps := [];
    if k < n {
      CallbackIsRun(s, n, k);
      var rest := CallbacksAreRun(Next(s, RunCallback(k, Creates(k))), n, k + 1);
      RunCons(s, RunCallback(k, Creates(k)), rest);
      steps := [RunCallback(k, Creates(k))] + rest;
    }
  }

  /** The whole limit can be in use: messages that arrive from another thread before the loop gets
      to them are all admitted, and all become tasks. */
  lemma WholeLimitIsReachable(limit: nat) returns (steps: seq<Step>)
    ensures |Run(Initial(limit), steps).core.tasks| == limit
    ensures forall i | 0 <= i < |steps| :: !steps[i].RunHere?
  {
    var arrivals := ArrivalsAreAdmitted(Initial(limit), 0, limit);
    var callbacks := CallbacksAreRun(Run(Initial(limit), arrivals), limit, 0);
    RunAppend(Initial(limit), arrivals, callbacks);
    steps := arrivals + callbacks;
    FirstOnesCount(Run(Initial(limit), steps).core.tasks.Keys, limit);
  }

  // ---------------------------------------------------------------- the program

  class Dispatcher {
    const limit: nat
    var closed: bool
    var tokens: set<Token>
    var handles: map<Token, Handle>
    var tasks: map<Task, Token>

    function View(): Core
      reads this
    {
      Core(closed, tokens, handles, tasks)
    }

    constructor (limit: nat)
      ensures this.limit == limit && View() == Initial(limit).core
    {
      this.limit := limit;
      closed, tokens, handles, tasks := false, {}, map[], map[];
    }

    method StartSection()
      modifies this`closed
      ensures View() == Start(old(View())) && !closed
    {
      closed := false;
    }

    /** The locked part of `close`; the caller cancels what it returns. */
    method CloseSection() returns (toCancel: map<Token, Handle>, running: set<Task>)
      modifies this
      ensures View() == Close(old(View())) && toCancel == old(handles) && running == old(tasks.Keys)
      ensures closed && tokens == {} && handles == map[] && tasks == old(tasks)
    {
      closed := true;
      toCancel, running := handles, tasks.Keys;
      handles := map[];
      tokens := {};
    }

    method ReleaseAdmission(token: Token, task: set<Task>)
      modifies this
      ensures View() == Release(old(View()), token, task)
      ensures tokens == old(tokens) - {token} && handles == old(handles) - {token} && tasks == old(tasks) - task
      ensures closed == old(closed)
    {
      tokens := tokens - {token};
      handles := handles - {token};
      tasks := tasks - task;
    }

    /** The first section of `handle_incoming`. */
    method AdmitSection(token: Token) returns (admitted: bool)
      modifies this`tokens
      ensures View() == Admit(old(View()), limit, token) && admitted == Accepts(old(View()), limit)
      ensures admitted <==> !closed && |tasks| + |old(tokens)| < limit
      ensures tokens == if admitted then old(tokens) + {token} else old(tokens)
    {
      var currentTasks := |tasks| + |tokens|;
      if closed || currentTasks >= limit {
        return false;
      }
      tokens := tokens + {token};
      return true;
    }

    /** The locked part of the inner `schedule`. */
    method ScheduleSection(token: Token, outcome: Outcome) returns (created: bool)
      modifies this
      ensures View() == Schedule(old(View()), token, outcome)
      ensures created <==> !old(closed) && token in old(tokens) && outcome.Creates?
      ensures closed == old(closed) && handles == old(handles) - {token}
      ensures created ==> tokens == old(tokens) && tasks == old(tasks)[outcome.task := token]
      ensures !created ==> tokens == old(tokens) - {token} && tasks == old(tasks)
    {
      handles := handles - {token};
      if closed || token !in tokens || outcome.LoopClosed? {
        tokens := tokens - {token};
        return false;
      }
      if outcome.Fails? {
        tokens := tokens - {token};
        return false;
      }
      tasks := tasks[outcome.task := token];
      return true;
    }

    /** The section after `call_soon_threadsafe`. */
    method KeepSection(token: Token, handle: Handle) returns (cancel: bool)
      modifies this`handles
      ensures View() == Record(old(View()), token, handle)
      ensures cancel <==> closed || token !in tokens
      ensures handles == if !cancel && token !in tasks.Values then old(handles)[token := handle] else old(handles)
    {
      if closed || token !in tokens {
        return true;
      }
      if forall k | k in tasks :: tasks[k] != token {
        handles := handles[token := handle];
      }
      return false;
    }
  }
}
