/**
 One-shot consent: a session grants a plan, a confirmation runs it at most once. Calls
 may overlap, so a confirmation is cut into the steps between which others can act.
 */
module ConsentSession {
  import opened Text

  datatype Kind = Install | Maintenance | VM

  /** A granted intent: its plan, and the facts it was granted on (none for an install). */
  datatype Authority = Authority(kind: Kind, plan: nat, facts: Option<string>, used: bool)

  /** How far a confirmation call has come. */
  datatype Stage = Taken | Consumed | Checked(seen: Option<string>) | Ran(succeeded: bool) | Refused

  /** A confirmation call that found an intent, and the intent its message names. */
  datatype Call = Call(kind: Kind, intent: nat, message: nat, stage: Stage)

  /** An action that ran: for which call, with which plan, on which facts seen just before. */
  datatype Action = Action(call: nat, kind: Kind, plan: nat, facts: Option<string>)

  /** The session's fields, the intents and calls it has seen, the machine, and what was done. */
  datatype State = State(
    prepared: bool, confirmed: bool, started: bool, vmUsed: bool,
    install: Option<nat>, maintenance: Option<nat>, vm: Option<nat>,
    authorities: seq<Authority>, calls: seq<Call>, world: nat, actions: seq<Action>, restarts: nat)

  const START := State(false, false, false, false, None, None, None, [], [], 0, [], 0)

  datatype Event =
    | PrepareInstall(plan: nat, accepted: bool)
    | PrepareMaintenance(plan: nat, accepted: bool)
    | PrepareVM(plan: nat, decoded: bool, accepted: bool)
    | Take(kind: Kind, message: nat)
    | Consume(call: nat)
    | Check(call: nat, valid: bool)
    | Act(call: nat, succeeds: bool)
    | Record(call: nat)
    | Restart(finished: bool)
    | Change(world: nat)

  /** The facts on which a plan may be granted in a given world; None when it may not. */
  type Admission = (Kind, nat, nat) -> Option<string>

  // ---- one atomic step -------------------------------------------------------------------

  function Grant(s: State, a: Authority): State {
    s.(authorities := s.authorities + [a])
  }

  function NextPrepareInstall(s: State, plan: nat, accepted: bool): State {
    if s.prepared || s.vmUsed then s
    else if !accepted then s.(prepared := true)
    else Grant(s, Authority(Install, plan, None, false)).(prepared := true, install := Some(|s.authorities|))
  }

  function NextPrepareMaintenance(s: State, admit: Admission, plan: nat, accepted: bool): State {
    if s.prepared || s.vmUsed then s
    else
      var facts := admit(Maintenance, plan, s.world);
      if !accepted || facts.None? then s.(prepared := true)
      else Grant(s, Authority(Maintenance, plan, facts, false)).(prepared := true, maintenance := Some(|s.authorities|))
  }

  function NextPrepareVM(s: State, admit: Admission, plan: nat, decoded: bool, accepted: bool): State {
    if s.prepared || !decoded then s
    else
      var facts := admit(VM, plan, s.world);
      if !accepted || facts.None? then s.(vmUsed := true, vm := None)
      else Grant(s, Authority(VM, plan, facts, false)).(vmUsed := true, vm := Some(|s.authorities|))
  }

  function Slot(s: State, kind: Kind): Option<nat> {
    match kind
    case Install => s.install
    case Maintenance => s.maintenance
    case VM => s.vm
  }

  function Emptied(s: State, kind: Kind): State {
    match kind
    case Install => s.(install := None, confirmed := true)
    case Maintenance => s.(maintenance := None, confirmed := true)
    case VM => s.(vm := None)
  }

  /** A confirmation takes the intent out of the session, whatever becomes of it. */
  function NextTake(s: State, kind: Kind, message: nat): State {
    var slot := Slot(s, kind);
    var e := Emptied(s, kind);
    if slot.None? || (kind != VM && s.confirmed) then e
    else e.(calls := e.calls + [Call(kind, slot.value, message, Taken)])
  }

  function At(s: State, k: nat, stage: Stage): State
    requires k < |s.calls|
  {
    s.(calls := s.calls[k := s.calls[k].(stage := stage)])
  }

  predicate Waits(s: State, k: nat, stage: Stage) {
    k < |s.calls| && s.calls[k].stage == stage && s.calls[k].intent < |s.authorities|
  }

  /** The first attempt uses the intent up. */
  function NextConsume(s: State, k: nat): State {
    if !Waits(s, k, Taken) then s
    else
      var i := s.calls[k].intent;
      if s.authorities[i].used then At(s, k, Refused)
      else At(s.(authorities := s.authorities[i := s.authorities[i].(used := true)]), k, Consumed)
  }

  /** The facts seen at the confirmation; an install is revalidated by other means. */
  function Seen(s: State, admit: Admission, k: nat): Option<string>
    requires Waits(s, k, Consumed)
  {
    var a := s.authorities[s.calls[k].intent];
    if a.kind == Install then None else admit(a.kind, a.plan, s.world)
  }

  /** The message must name this intent, the user be the same, and the facts be as granted. */
  function NextCheck(s: State, admit: Admission, k: nat, valid: bool): State {
    if !Waits(s, k, Consumed) then s
    else
      var a := s.authorities[s.calls[k].intent];
      var seen := Seen(s, admit, k);
      if valid && s.calls[k].message == s.calls[k].intent && seen == a.facts then At(s, k, Checked(seen))
      else At(s, k, Refused)
  }

  predicate MayAct(s: State, k: nat) {
    k < |s.calls| && s.calls[k].stage.Checked? && s.calls[k].intent < |s.authorities|
  }

  function NextAct(s: State, k: nat, succeeds: bool): State {
    if !MayAct(s, k) then s
    else
      var a := s.authorities[s.calls[k].intent];
      At(s.(actions := s.actions + [Action(k, a.kind, a.plan, s.calls[k].stage.seen)]), k, Ran(succeeds))
  }

  function Next(s: State, admit: Admission, e: Event): State {
    match e
    case PrepareInstall(plan, accepted) => NextPrepareInstall(s, plan, accepted)
    case PrepareMaintenance(plan, accepted) => NextPrepareMaintenance(s, admit, plan, accepted)
    case PrepareVM(plan, decoded, accepted) => NextPrepareVM(s, admit, plan, decoded, accepted)
    case Take(kind, message) => NextTake(s, kind, message)
    case Consume(k) => NextConsume(s, k)
    case Check(k, valid) => NextCheck(s, admit, k, valid)
    case Act(k, succeeds) => NextAct(s, k, succeeds)
    case Record(k) => if Waits(s, k, Ran(true)) && s.calls[k].kind == Install then s.(started := true) else s
    case Restart(finished) => if s.started && finished then s.(restarts := s.restarts + 1) else s
    case Change(world) => s.(world := world)
  }

  /** Any interleaving of the steps of any calls, from a given state. */
  function After(s: State, admit: Admission, events: seq<Event>): State
    decreases |events|
  {
    if events == [] then s else After(Next(s, admit, events[0]), admit, events[1..])
  }

  // ---- what every step keeps ----------------------------------------------------------------

  /** A plan and a VM exclude each other, and there is never a second plan. */
  predicate OnePlan(s: State) {
    && !(s.prepared && s.vmUsed) && (!s.prepared && !s.vmUsed ==> s.authorities == [])
    && (forall i :: 0 <= i < |s.authorities| ==> (if s.authorities[i].kind == VM then s.vmUsed else s.prepared))
    && (forall i :: 0 <= i < |s.authorities| && s.authorities[i].kind != VM ==> |s.authorities| == 1)
  }

  predicate SlotOk(s: State, slot: Option<nat>, kind: Kind) {
    slot.Some? ==>
      && slot.value < |s.authorities| && s.authorities[slot.value].kind == kind && !s.authorities[slot.value].used
      && forall k :: 0 <= k < |s.calls| ==> s.calls[k].intent != slot.value
  }

  /** An intent waits in the session or belongs to one call, never to two. */
  predicate IntentsApart(s: State) {
    && SlotOk(s, s.install, Install) && SlotOk(s, s.maintenance, Maintenance) && SlotOk(s, s.vm, VM)
    && (forall k :: 0 <= k < |s.calls| ==>
          s.calls[k].intent < |s.authorities| && s.authorities[s.calls[k].intent].kind == s.calls[k].kind)
    && (forall j, k :: 0 <= j < k < |s.calls| ==> s.calls[j].intent != s.calls[k].intent)
  }

  /** A call that passed the check named its own intent and saw the facts of its grant. */
  predicate CallsBound(s: State) {
    forall k :: 0 <= k < |s.calls| && (s.calls[k].stage.Checked? || s.calls[k].stage.Ran?) ==>
      && s.calls[k].message == s.calls[k].intent < |s.authorities|
      && (s.calls[k].stage.Checked? ==> s.calls[k].stage.seen == s.authorities[s.calls[k].intent].facts)
  }

  /** The action ran for a call that named the intent, with the plan and on the facts of the grant. */
  predicate ActionOk(s: State, a: Action) {
    && a.call < |s.calls| && s.calls[a.call].stage.Ran?
    && s.calls[a.call].message == s.calls[a.call].intent < |s.authorities|
    && var g := s.authorities[s.calls[a.call].intent];
       a.kind == g.kind && a.plan == g.plan && a.facts == g.facts
  }

  predicate ActionsOk(s: State) {
    && (forall i :: 0 <= i < |s.actions| ==> ActionOk(s, s.actions[i]))
    && (forall i, j :: 0 <= i < j < |s.actions| ==> s.actions[i].call != s.actions[j].call)
  }

  predicate Installed(s: State) {
    exists k :: 0 <= k < |s.calls| && s.calls[k].kind == Install && s.calls[k].stage == Ran(true)
  }

  predicate Sound(s: State) {
    && OnePlan(s) && IntentsApart(s) && CallsBound(s) && ActionsOk(s)
    && (s.started ==> Installed(s)) && (s.restarts > 0 ==> s.started)
  }

  predicate SameGrant(a: Authority, b: Authority) {
    a.(used := b.used) == b
  }

  predicate SameCall(a: Call, b: Call) {
    a.(stage := b.stage) == b && (a.stage.Ran? ==> a == b)
  }

  /** t has the grants and the calls of s, perhaps further on, and the same actions. */
  predicate Extends(s: State, t: State) {
    && |s.authorities| <= |t.authorities| && |s.calls| <= |t.calls| && s.actions == t.actions
    && (forall i :: 0 <= i < |s.authorities| ==> SameGrant(s.authorities[i], t.authorities[i]))
    && (forall k :: 0 <= k < |s.calls| ==> SameCall(s.calls[k], t.calls[k]))
  }

  lemma ExtendingKeepsActions(s: State, t: State)
    requires Extends(s, t) && ActionsOk(s)
    ensures ActionsOk(t) && (Installed(s) ==> Installed(t))
  {
  }

  lemma PrepareInstallKeepsSound(s: State, plan: nat, accepted: bool)
    requires Sound(s)
    ensures Sound(NextPrepareInstall(s, plan, accepted))
  {
  }

  lemma PrepareMaintenanceKeepsSound(s: State, admit: Admission, plan: nat, accepted: bool)
    requires Sound(s)
    ensures Sound(NextPrepareMaintenance(s, admit, plan, accepted))
  {
  }

  lemma PrepareVMKeepsSound(s: State, admit: Admission, plan: nat, decoded: bool, accepted: bool)
    requires Sound(s)
    ensures Sound(NextPrepareVM(s, admit, plan, decoded, accepted))
  {
  }

  lemma TakeKeepsApart(s: State, kind: Kind, message: nat)
    requires OnePlan(s) && IntentsApart(s)
    ensures IntentsApart(NextTake(s, kind, message))
  {
    var slot := Slot(s, kind);
    if slot.Some? {
      assert SlotOk(s, slot, kind);
    }
    var e := Emptied(s, kind);
    assert IntentsApart(e) && (slot.Some? ==> forall k: Kind :: k != kind && Slot(e, k).Some? ==> Slot(e, k) != slot);
    var t := NextTake(s, kind, message);
    if t != e {
      AddCallKeepsApart(e, Call(kind, slot.value, message, Taken));
    }
  }

  lemma AddCallKeepsApart(e: State, c: Call)
    requires IntentsApart(e) && c.intent < |e.authorities| && e.authorities[c.intent].kind == c.kind
    requires forall k :: 0 <= k < |e.calls| ==> e.calls[k].intent != c.intent
    requires e.install != Some(c.intent) && e.maintenance != Some(c.intent) && e.vm != Some(c.intent)
    ensures IntentsApart(e.(calls := e.calls + [c]))
  {
  }

  lemma TakeExtends(s: State, kind: Kind, message: nat)
    requires CallsBound(s)
    ensures Extends(s, NextTake(s, kind, message)) && CallsBound(NextTake(s, kind, message))
  {
    var e, t := Emptied(s, kind), NextTake(s, kind, message);
    assert e.calls == s.calls && e.authorities == s.authorities && e.actions == s.actions;
    if t != e {
      AddedCallExtends(s, e, Call(kind, Slot(s, kind).value, message, Taken));
    }
  }

  lemma AddedCallExtends(s: State, e: State, c: Call)
    requires CallsBound(s) && c.stage == Taken
    requires e.calls == s.calls && e.authorities == s.authorities && e.actions == s.actions
    ensures var t := e.(calls := e.calls + [c]); Extends(s, t) && CallsBound(t)
  {
  }

  lemma TakeKeepsSound(s: State, kind: Kind, message: nat)
    requires Sound(s)
    ensures Sound(NextTake(s, kind, message))
  {
    TakeKeepsApart(s, kind, message);
    TakeExtends(s, kind, message);
    ExtendingKeepsActions(s, NextTake(s, kind, message));
  }

  /** Moving one call on, and perhaps using up its intent, keeps everything apart. */
  lemma MoveKeepsApart(s: State, t: State, k: nat)
    requires IntentsApart(s) && OnePlan(s) && Extends(s, t) && k < |s.calls|
    requires t.install == s.install && t.maintenance == s.maintenance && t.vm == s.vm
    requires |t.calls| == |s.calls| && |t.authorities| == |s.authorities| && t.prepared == s.prepared && t.vmUsed == s.vmUsed
    requires forall i :: 0 <= i < |s.authorities| && i != s.calls[k].intent ==> t.authorities[i] == s.authorities[i]
    ensures IntentsApart(t) && OnePlan(t)
  {
  }

  lemma UsingUpExtends(s: State, k: nat)
    requires CallsBound(s) && Waits(s, k, Taken)
    ensures var i := s.calls[k].intent;
            var t := At(s.(authorities := s.authorities[i := s.authorities[i].(used := true)]), k, Consumed);
            Extends(s, t) && CallsBound(t)
  {
  }

  lemma MovingExtends(s: State, k: nat, stage: Stage)
    requires CallsBound(s) && k < |s.calls| && !s.calls[k].stage.Ran? && !stage.Checked? && !stage.Ran?
    ensures Extends(s, At(s, k, stage)) && CallsBound(At(s, k, stage))
  {
  }

  lemma ConsumeKeepsSound(s: State, k: nat)
    requires Sound(s)
    ensures Sound(NextConsume(s, k))
  {
    if Waits(s, k, Taken) {
      var t := NextConsume(s, k);
      if s.authorities[s.calls[k].intent].used {
        MovingExtends(s, k, Refused);
      } else {
        UsingUpExtends(s, k);
      }
      MoveKeepsApart(s, t, k);
      ExtendingKeepsActions(s, t);
    }
  }

  lemma CheckKeepsSound(s: State, admit: Admission, k: nat, valid: bool)
    requires Sound(s)
    ensures Sound(NextCheck(s, admit, k, valid))
  {
  }

  lemma ActingExtends(s: State, k: nat, succeeds: bool)
    requires CallsBound(s) && MayAct(s, k)
    ensures var u := At(s, k, Ran(succeeds)); Extends(s, u) && CallsBound(u)
  {
  }

  /** The one call that has just run adds its action. */
  lemma AddActionKeepsActions(s: State, u: State, a: Action)
    requires ActionsOk(s) && ActionsOk(u) && u.actions == s.actions && ActionOk(u, a)
    requires a.call < |s.calls| && !s.calls[a.call].stage.Ran?
    ensures ActionsOk(u.(actions := u.actions + [a]))
  {
  }

  lemma ActKeepsSound(s: State, k: nat, succeeds: bool)
    requires Sound(s)
    ensures Sound(NextAct(s, k, succeeds))
  {
    if MayAct(s, k) {
      var u := At(s, k, Ran(succeeds));
      var g := s.authorities[s.calls[k].intent];
      var a := Action(k, g.kind, g.plan, s.calls[k].stage.seen);
      ActingExtends(s, k, succeeds);
      MoveKeepsApart(s, u, k);
      ExtendingKeepsActions(s, u);
      AddActionKeepsActions(s, u, a);
      assert NextAct(s, k, succeeds) == u.(actions := u.actions + [a]);
    }
  }

  /** A change of the world, a start noted after an install ran, and a restart after a start keep all else. */
  lemma NotingKeepsSound(s: State, t: State)
    requires Sound(s) && t == s.(world := t.world, started := t.started, restarts := t.restarts)
    requires (t.started ==> Installed(s)) && (t.restarts > 0 ==> t.started)
    ensures Sound(t)
  {
    ExtendingKeepsActions(s, t);
  }

  lemma NotedStepKeepsSound(s: State, admit: Admission, e: Event)
    requires Sound(s) && (e.Record? || e.Restart? || e.Change?)
    ensures Sound(Next(s, admit, e))
  {
    NotingKeepsSound(s, Next(s, admit, e));
  }

  lemma TakeStepKeepsSound(s: State, admit: Admission, e: Event)
    requires Sound(s) && e.Take?
    ensures Sound(Next(s, admit, e))
  {
    TakeKeepsSound(s, e.kind, e.message);
  }

  lemma ConsumeStepKeepsSound(s: State, admit: Admission, e: Event)
    requires Sound(s) && e.Consume?
    ensures Sound(Next(s, admit, e))
  {
    ConsumeKeepsSound(s, e.call);
  }

  lemma CheckStepKeepsSound(s: State, admit: Admission, e: Event)
    requires Sound(s) && e.Check?
    ensures Sound(Next(s, admit, e))
  {
    CheckKeepsSound(s, admit, e.call, e.valid);
  }

  lemma ActStepKeepsSound(s: State, admit: Admission, e: Event)
    requires Sound(s) && e.Act?
    ensures Sound(Next(s, admit, e))
  {
    ActKeepsSound(s, e.call, e.succeeds);
  }

  lemma PrepareStepKeepsSound(s: State, admit: Admission, e: Event)
    requires Sound(s) && (e.PrepareInstall? || e.PrepareMaintenance? || e.PrepareVM?)
    ensures Sound(Next(s, admit, e))
  {
    match e
    case PrepareInstall(plan, accepted) => PrepareInstallKeepsSound(s, plan, accepted);
    case PrepareMaintenance(plan, accepted) => PrepareMaintenanceKeepsSound(s, admit, plan, accepted);
    case PrepareVM(plan, decoded, accepted) => PrepareVMKeepsSound(s, admit, plan, decoded, accepted);
  }

  lemma StepKeepsSound(s: State, admit: Admission, e: Event)
    requires Sound(s)
    ensures Sound(Next(s, admit, e))
  {
    match e
    case Take(_, _) => TakeStepKeepsSound(s, admit, e);
    case Consume(_) => ConsumeStepKeepsSound(s, admit, e);
    case Check(_, _) => CheckStepKeepsSound(s, admit, e);
    case Act(_, _) => ActStepKeepsSound(s, admit, e);
    case Record(_) => NotedStepKeepsSound(s, admit, e);
    case Restart(_) => NotedStepKeepsSound(s, admit, e);
    case Change(_) => NotedStepKeepsSound(s, admit, e);
    case _ => PrepareStepKeepsSound(s, admit, e);
  }

  lemma {:induction false} RunKeepsSound(s: State, admit: Admission, events: seq<Event>)
    requires Sound(s)
    ensures Sound(After(s, admit, events))
    decreases |events|
  {
    if events != [] {
      StepKeepsSound(s, admit, events[0]);
      RunKeepsSound(Next(s, admit, events[0]), admit, events[1..]);
    }
  }

  // ---- what no interleaving can do ------------------------------------------------------------

  function IntentOf(s: State, a: Action): nat
    requires ActionOk(s, a)
  {
    s.calls[a.call].intent
  }

  /** Two actions of one session are both for the VM and use up two intents. */
  predicate Apart(s: State, a: Action, b: Action) {
    && ActionOk(s, a) && ActionOk(s, b) && a.kind == VM && b.kind == VM
    && IntentOf(s, a) != IntentOf(s, b)
  }

  /** At most one action that is not for the VM, and then no other; no intent runs twice. */
  predicate OneShot(s: State) {
    forall i, j :: 0 <= i < j < |s.actions| ==> Apart(s, s.actions[i], s.actions[j])
  }

  lemma SoundIsOneShot(s: State)
    requires OnePlan(s) && IntentsApart(s) && ActionsOk(s)
    ensures OneShot(s)
  {
  }

  /**
   Over every interleaving: at most one install or maintenance action runs, and then no
   other action at all; no intent runs twice; whatever runs was named by its confirmation
   and has the plan and the facts of its grant; and a restart follows a finished install.
   */
  lemma OneShotConsent(admit: Admission, events: seq<Event>)
    ensures var s := After(START, admit, events);
            && ActionsOk(s) && OneShot(s) && !(s.prepared && s.vmUsed)
            && (s.restarts > 0 ==> Installed(s))
  {
    RunKeepsSound(START, admit, events);
    SoundIsOneShot(After(START, admit, events));
  }

  predicate WasAdmitted(admit: Admission, a: Authority, world: nat) {
    a.facts.Some? && admit(a.kind, a.plan, world) == a.facts
  }

  /** Each maintenance or VM grant rests on an observation that admitted it. */
  ghost predicate AllAdmitted(s: State, admit: Admission) {
    forall i :: 0 <= i < |s.authorities| && s.authorities[i].kind != Install ==>
      exists world: nat :: WasAdmitted(admit, s.authorities[i], world)
  }

  lemma AddingKeepsAdmitted(s: State, admit: Admission, a: Authority)
    requires AllAdmitted(s, admit) && (a.kind != Install ==> WasAdmitted(admit, a, s.world))
    ensures AllAdmitted(Grant(s, a), admit)
  {
  }

  lemma UsingKeepsAdmitted(s: State, admit: Admission, i: nat)
    requires AllAdmitted(s, admit) && i < |s.authorities|
    ensures AllAdmitted(s.(authorities := s.authorities[i := s.authorities[i].(used := true)]), admit)
  {
    var used := s.authorities[i].(used := true);
    if used.kind != Install {
      var world: nat :| WasAdmitted(admit, s.authorities[i], world);
      assert WasAdmitted(admit, used, world);
    }
  }

  lemma PrepareKeepsAdmitted(s: State, admit: Admission, plan: nat, decoded: bool, accepted: bool)
    requires AllAdmitted(s, admit)
    ensures AllAdmitted(NextPrepareInstall(s, plan, accepted), admit)
    ensures AllAdmitted(NextPrepareMaintenance(s, admit, plan, accepted), admit)
    ensures AllAdmitted(NextPrepareVM(s, admit, plan, decoded, accepted), admit)
  {
    AddingKeepsAdmitted(s, admit, Authority(Install, plan, None, false));
    if admit(Maintenance, plan, s.world).Some? {
      AddingKeepsAdmitted(s, admit, Authority(Maintenance, plan, admit(Maintenance, plan, s.world), false));
    }
    if admit(VM, plan, s.world).Some? {
      AddingKeepsAdmitted(s, admit, Authority(VM, plan, admit(VM, plan, s.world), false));
    }
  }

  lemma ConsumeKeepsAdmitted(s: State, admit: Admission, k: nat)
    requires AllAdmitted(s, admit)
    ensures AllAdmitted(NextConsume(s, k), admit)
  {
    if Waits(s, k, Taken) {
      UsingKeepsAdmitted(s, admit, s.calls[k].intent);
    }
  }

  lemma StepKeepsAdmitted(s: State, admit: Admission, e: Event)
    requires AllAdmitted(s, admit)
    ensures AllAdmitted(Next(s, admit, e), admit)
  {
    match e {
      case PrepareInstall(plan, accepted) => PrepareKeepsAdmitted(s, admit, plan, true, accepted);
      case PrepareMaintenance(plan, accepted) => PrepareKeepsAdmitted(s, admit, plan, true, accepted);
      case PrepareVM(plan, decoded, accepted) => PrepareKeepsAdmitted(s, admit, plan, decoded, accepted);
      case Consume(k) => ConsumeKeepsAdmitted(s, admit, k);
      case _ => assert Next(s, admit, e).authorities == s.authorities;
    }
  }

  lemma {:induction false} GrantsWereAdmitted(s: State, admit: Admission, events: seq<Event>)
    requires AllAdmitted(s, admit)
    ensures AllAdmitted(After(s, admit, events), admit)
    decreases |events|
  {
    if events != [] {
      StepKeepsAdmitted(s, admit, events[0]);
      GrantsWereAdmitted(Next(s, admit, events[0]), admit, events[1..]);
    }
  }

  /** The intent neither waits in the session nor in a call that may still run it. */
  predicate Spent(s: State, i: nat) {
    && i < |s.authorities| && s.install != Some(i) && s.maintenance != Some(i) && s.vm != Some(i)
    && forall k :: 0 <= k < |s.calls| && s.calls[k].intent == i ==> s.calls[k].stage.Refused?
  }

  /** A VM intent that a newer one replaces can never run, nor one whose confirmation was refused. */
  lemma ReplacedIsSpent(s: State, admit: Admission, plan: nat, accepted: bool)
    requires Sound(s) && s.vm.Some? && !s.prepared
    ensures Spent(NextPrepareVM(s, admit, plan, true, accepted), s.vm.value)
  {
    assert SlotOk(s, s.install, Install) && SlotOk(s, s.maintenance, Maintenance) && SlotOk(s, s.vm, VM);
  }

  lemma {:induction false} SpentNeverRuns(s: State, admit: Admission, events: seq<Event>, i: nat)
    requires Sound(s) && Spent(s, i)
    ensures var t := After(s, admit, events);
            && ActionsOk(t) && Spent(t, i)
            && forall k :: 0 <= k < |t.actions| ==> IntentOf(t, t.actions[k]) != i
    decreases |events|
  {
    if events == [] {
      assert forall k :: 0 <= k < |s.actions| ==> ActionOk(s, s.actions[k]);
    } else {
      StepKeepsSound(s, admit, events[0]);
      SpentStaysSpent(s, admit, events[0], i);
      SpentNeverRuns(Next(s, admit, events[0]), admit, events[1..], i);
    }
  }

  lemma PrepareKeepsSpent(s: State, admit: Admission, plan: nat, decoded: bool, accepted: bool, i: nat)
    requires Spent(s, i)
    ensures Spent(NextPrepareInstall(s, plan, accepted), i)
    ensures Spent(NextPrepareMaintenance(s, admit, plan, accepted), i)
    ensures Spent(NextPrepareVM(s, admit, plan, decoded, accepted), i)
  {
  }

  lemma TakeKeepsSpent(s: State, kind: Kind, message: nat, i: nat)
    requires Spent(s, i)
    ensures Spent(NextTake(s, kind, message), i)
  {
  }

  lemma MoveKeepsSpent(s: State, k: nat, stage: Stage, i: nat)
    requires Spent(s, i) && k < |s.calls| && !s.calls[k].stage.Refused?
    ensures Spent(At(s, k, stage), i)
  {
  }

  lemma CallKeepsSpent(s: State, admit: Admission, k: nat, b: bool, i: nat)
    requires Spent(s, i)
    ensures Spent(NextConsume(s, k), i) && Spent(NextCheck(s, admit, k, b), i) && Spent(NextAct(s, k, b), i)
  {
    if k < |s.calls| && !s.calls[k].stage.Refused? {
      MoveKeepsSpent(s, k, Refused, i);
      MoveKeepsSpent(s, k, Consumed, i);
      MoveKeepsSpent(s, k, Ran(b), i);
      if Waits(s, k, Consumed) {
        MoveKeepsSpent(s, k, Checked(Seen(s, admit, k)), i);
      }
    }
  }

  lemma SpentStaysSpent(s: State, admit: Admission, e: Event, i: nat)
    requires Spent(s, i)
    ensures Spent(Next(s, admit, e), i)
  {
    match e {
      case PrepareInstall(plan, accepted) => PrepareKeepsSpent(s, admit, plan, true, accepted, i);
      case PrepareMaintenance(plan, accepted) => PrepareKeepsSpent(s, admit, plan, true, accepted, i);
      case PrepareVM(plan, decoded, accepted) => PrepareKeepsSpent(s, admit, plan, decoded, accepted, i);
      case Take(kind, message) => TakeKeepsSpent(s, kind, message, i);
      case Consume(k) => CallKeepsSpent(s, admit, k, true, i);
      case Check(k, valid) => CallKeepsSpent(s, admit, k, valid, i);
      case Act(k, succeeds) => CallKeepsSpent(s, admit, k, succeeds, i);
      case Record(_) =>
      case Restart(_) =>
      case Change(_) =>
    }
  }

  // ---- what a session does when nothing stands in the way --------------------------------------

  /** What the fresh observation of a confirmation must show. */
  predicate FactsHold(s: State, admit: Admission, a: Authority) {
    a.facts == if a.kind == Install then None else admit(a.kind, a.plan, s.world)
  }

  /** One confirmation, start to end, with nothing in between. */
  function Confirmation(s: State, kind: Kind, message: nat, valid: bool, succeeds: bool): seq<Event> {
    [Take(kind, message), Consume(|s.calls|), Check(|s.calls|, valid), Act(|s.calls|, succeeds)]
  }

  lemma AfterTake(s: State, admit: Admission, kind: Kind, message: nat, rest: seq<Event>)
    ensures After(s, admit, [Take(kind, message)] + rest) == After(NextTake(s, kind, message), admit, rest)
  {
    assert ([Take(kind, message)] + rest)[1..] == rest;
  }

  lemma AfterConsume(s: State, admit: Admission, k: nat, rest: seq<Event>)
    ensures After(s, admit, [Consume(k)] + rest) == After(NextConsume(s, k), admit, rest)
  {
    assert ([Consume(k)] + rest)[1..] == rest;
  }

  lemma AfterCheck(s: State, admit: Admission, k: nat, valid: bool, rest: seq<Event>)
    ensures After(s, admit, [Check(k, valid)] + rest) == After(NextCheck(s, admit, k, valid), admit, rest)
  {
    assert ([Check(k, valid)] + rest)[1..] == rest;
  }

  lemma AfterAct(s: State, admit: Admission, k: nat, succeeds: bool)
    ensures After(s, admit, [Act(k, succeeds)]) == NextAct(s, k, succeeds)
  {
    assert [Act(k, succeeds)][1..] == [];
  }

  /** The last call of the session is c, and the earlier ones are q. */
  predicate LastCall(s: State, q: seq<Call>, c: Call) {
    s.calls == q + [c] && c.intent < |s.authorities|
  }

  lemma TakeWaiting(s: State, kind: Kind, message: nat, i: nat)
    requires Slot(s, kind) == Some(i) && (kind == VM || !s.confirmed) && i < |s.authorities|
    ensures var t := NextTake(s, kind, message);
            && LastCall(t, s.calls, Call(kind, i, message, Taken))
            && t.authorities == s.authorities && t.actions == s.actions && t.world == s.world
  {
  }

  lemma ConsumeLast(s: State, q: seq<Call>, c: Call)
    requires LastCall(s, q, c) && c.stage == Taken && !s.authorities[c.intent].used
    ensures var t := NextConsume(s, |q|);
            && LastCall(t, q, c.(stage := Consumed))
            && t.authorities == s.authorities[c.intent := s.authorities[c.intent].(used := true)]
            && t.actions == s.actions && t.world == s.world
  {
    assert s.calls[|q|] == c;
  }

  lemma CheckLast(s: State, admit: Admission, q: seq<Call>, c: Call, valid: bool)
    requires LastCall(s, q, c) && c.stage == Consumed
    ensures var t := NextCheck(s, admit, |q|, valid);
            var a := s.authorities[c.intent];
            && LastCall(t, q, c.(stage := if valid && c.message == c.intent && FactsHold(s, admit, a) then Checked(a.facts) else Refused))
            && t.authorities == s.authorities && t.actions == s.actions && t.world == s.world
  {
    assert s.calls[|q|] == c;
  }

  lemma ActLast(s: State, q: seq<Call>, c: Call, succeeds: bool)
    requires LastCall(s, q, c) && (c.stage.Checked? || c.stage.Refused?)
    ensures var t := NextAct(s, |q|, succeeds);
            var a := s.authorities[c.intent];
            if c.stage.Checked? then
              t.actions == s.actions + [Action(|q|, a.kind, a.plan, c.stage.seen)] && LastCall(t, q, c.(stage := Ran(succeeds)))
            else t == s
  {
    assert s.calls[|q|] == c;
  }

  /** The intent of a waiting authority, taken and used up. */
  lemma TakenAndConsumed(s: State, kind: Kind, message: nat, i: nat)
    requires Slot(s, kind) == Some(i) && (kind == VM || !s.confirmed) && i < |s.authorities| && !s.authorities[i].used
    ensures var t := NextConsume(NextTake(s, kind, message), |s.calls|);
            && LastCall(t, s.calls, Call(kind, i, message, Consumed)) && t.actions == s.actions && t.world == s.world
            && t.authorities == s.authorities[i := s.authorities[i].(used := true)]
  {
    TakeWaiting(s, kind, message, i);
    ConsumeLast(NextTake(s, kind, message), s.calls, Call(kind, i, message, Taken));
  }

  /** A call that has used its intent up runs exactly when the check lets it. */
  lemma CheckedAndRun(s: State, admit: Admission, q: seq<Call>, c: Call, a: Authority, valid: bool, succeeds: bool)
    requires LastCall(s, q, c) && c.stage == Consumed && s.authorities[c.intent] == a
    ensures var t := NextAct(NextCheck(s, admit, |q|, valid), |q|, succeeds);
            if c.message == c.intent && valid && FactsHold(s, admit, a) then
              t.actions == s.actions + [Action(|q|, a.kind, a.plan, a.facts)] && t.calls == q + [c.(stage := Ran(succeeds))]
            else t.actions == s.actions && t.calls == q + [c.(stage := Refused)]
  {
    CheckLast(s, admit, q, c, valid);
    var ok := valid && c.message == c.intent && FactsHold(s, admit, a);
    ActLast(NextCheck(s, admit, |q|, valid), q, c.(stage := if ok then Checked(a.facts) else Refused), succeeds);
  }

  lemma StepsOfConfirmation(s: State, admit: Admission, kind: Kind, message: nat, valid: bool, succeeds: bool)
    ensures var k := |s.calls|;
            After(s, admit, Confirmation(s, kind, message, valid, succeeds))
            == NextAct(NextCheck(NextConsume(NextTake(s, kind, message), k), admit, k, valid), k, succeeds)
  {
    var k := |s.calls|;
    var acts := [Act(k, succeeds)];
    var s1 := NextTake(s, kind, message);
    var s2 := NextConsume(s1, k);
    AfterTake(s, admit, kind, message, [Consume(k)] + ([Check(k, valid)] + acts));
    AfterConsume(s1, admit, k, [Check(k, valid)] + acts);
    AfterCheck(s2, admit, k, valid, acts);
    AfterAct(NextCheck(s2, admit, k, valid), admit, k, succeeds);
    FourInOrder(Take(kind, message), Consume(k), Check(k, valid), Act(k, succeeds));
  }

  lemma FourInOrder(a: Event, b: Event, c: Event, d: Event)
    ensures [a, b, c, d] == [a] + ([b] + ([c] + [d]))
  {
  }

  lemma WaitingIsUnused(s: State, kind: Kind, i: nat)
    requires IntentsApart(s) && Slot(s, kind) == Some(i)
    ensures i < |s.authorities| && s.authorities[i].kind == kind && !s.authorities[i].used
  {
    assert SlotOk(s, Some(i), kind);
  }

  /**
   A waiting intent is run by its confirmation exactly when the message names it, the user
   is valid and the facts are as granted; what runs is the granted plan, once.
   */
  lemma ConfirmationRunsIff(s: State, admit: Admission, kind: Kind, message: nat, valid: bool, succeeds: bool, i: nat)
    requires Sound(s) && Slot(s, kind) == Some(i) && (kind == VM || !s.confirmed)
    ensures i < |s.authorities|
    ensures var t := After(s, admit, Confirmation(s, kind, message, valid, succeeds));
            var a := s.authorities[i];
            if message == i && valid && FactsHold(s, admit, a) then
              && t.actions == s.actions + [Action(|s.calls|, kind, a.plan, a.facts)]
              && t.calls == s.calls + [Call(kind, i, message, Ran(succeeds))]
            else t.actions == s.actions && t.calls == s.calls + [Call(kind, i, message, Refused)]
  {
    WaitingIsUnused(s, kind, i);
    StepsOfConfirmation(s, admit, kind, message, valid, succeeds);
    TakenAndConsumed(s, kind, message, i);
    var t := NextConsume(NextTake(s, kind, message), |s.calls|);
    CheckedAndRun(t, admit, s.calls, Call(kind, i, message, Consumed), s.authorities[i].(used := true), valid, succeeds);
  }

  /** A session that has granted nothing grants an acceptable install, and runs it when it is confirmed. */
  lemma InstallRuns(admit: Admission, plan: nat, succeeds: bool)
    ensures var s := Next(START, admit, PrepareInstall(plan, true));
            var t := After(s, admit, Confirmation(s, Install, 0, true, succeeds));
            t.actions == [Action(0, Install, plan, None)] && t.calls == [Call(Install, 0, 0, Ran(succeeds))]
  {
    var s := Next(START, admit, PrepareInstall(plan, true));
    PrepareInstallKeepsSound(START, plan, true);
    ConfirmationRunsIff(s, admit, Install, 0, true, succeeds, 0);
  }

  /** A restart is given after an install that ran and finished. */
  lemma RestartIsGiven(s: State, admit: Admission, k: nat, finished: bool)
    requires k < |s.calls| && s.calls[k].kind == Install && s.calls[k].stage == Ran(true) && s.calls[k].intent < |s.authorities|
    ensures Next(Next(s, admit, Record(k)), admit, Restart(finished)).restarts == s.restarts + if finished then 1 else 0
  {
  }

  /** Maintenance runs when the facts at the confirmation are those of the grant, whatever changed in between. */
  lemma MaintenanceRunsIff(admit: Admission, plan: nat, world: nat)
    requires admit(Maintenance, plan, 0).Some?
    ensures var s := Next(Next(START, admit, PrepareMaintenance(plan, true)), admit, Change(world));
            var t := After(s, admit, Confirmation(s, Maintenance, 0, true, true));
            t.actions == if admit(Maintenance, plan, world) == admit(Maintenance, plan, 0)
                         then [Action(0, Maintenance, plan, admit(Maintenance, plan, 0))] else []
  {
    var g := Next(START, admit, PrepareMaintenance(plan, true));
    var s := Next(g, admit, Change(world));
    PrepareMaintenanceKeepsSound(START, admit, plan, true);
    NotedStepKeepsSound(g, admit, Change(world));
    ConfirmationRunsIff(s, admit, Maintenance, 0, true, true, 0);
  }

  /** In a session without a plan every VM request that may be granted is, and can be run, however often. */
  lemma VMRuns(s: State, admit: Admission, plan: nat, succeeds: bool)
    requires Sound(s) && !s.prepared && admit(VM, plan, s.world).Some?
    ensures var g := Next(s, admit, PrepareVM(plan, true, true));
            var t := After(g, admit, Confirmation(g, VM, |s.authorities|, true, succeeds));
            t.actions == s.actions + [Action(|s.calls|, VM, plan, admit(VM, plan, s.world))]
  {
    var g := Next(s, admit, PrepareVM(plan, true, true));
    PrepareVMKeepsSound(s, admit, plan, true, true);
    ConfirmationRunsIff(g, admit, VM, |s.authorities|, true, succeeds, |s.authorities|);
  }

  // ---- the session -----------------------------------------------------------------------------

  /** The session object; each method is one critical section, between which others may run. */
  class Session {
    var prepared: bool
    var confirmed: bool
    var started: bool
    var vmUsed: bool
    var install: Option<nat>
    var maintenance: Option<nat>
    var vm: Option<nat>
    var authorities: seq<Authority>
    var calls: seq<Call>
    var world: nat
    var actions: seq<Action>
    var restarts: nat
    const admit: Admission

    constructor (admit: Admission)
      ensures Now() == START && this.admit == admit
    {
      this.admit := admit;
      prepared, confirmed, started, vmUsed := false, false, false, false;
      install, maintenance, vm := None, None, None;
      authorities, calls, world, actions, restarts := [], [], 0, [], 0;
    }

    function Now(): State
      reads this
    {
      State(prepared, confirmed, started, vmUsed, install, maintenance, vm, authorities, calls, world, actions, restarts)
    }

    method PrepareNativeInstall(plan: nat, accepted: bool) returns (intent: Option<nat>)
      modifies this
      ensures Now() == Next(old(Now()), admit, PrepareInstall(plan, accepted))
      ensures intent.Some? <==> !old(prepared) && !old(vmUsed) && accepted
      ensures intent.Some? ==> intent == install
    {
      if prepared || vmUsed {
        return None;
      }
      prepared := true;
      if !accepted {
        return None;
      }
      intent := Some(|authorities|);
      authorities := authorities + [Authority(Install, plan, None, false)];
      install := intent;
    }

    method PrepareNativeMaintenance(plan: nat, accepted: bool) returns (intent: Option<nat>)
      modifies this
      ensures Now() == Next(old(Now()), admit, PrepareMaintenance(plan, accepted))
      ensures intent.Some? <==> !old(prepared) && !old(vmUsed) && accepted && admit(Maintenance, plan, old(world)).Some?
      ensures intent.Some? ==> intent == maintenance
    {
      if prepared || vmUsed {
        return None;
      }
      prepared := true;
      var facts := admit(Maintenance, plan, world);
      if !accepted || facts.None? {
        return None;
      }
      intent := Some(|authorities|);
      authorities := authorities + [Authority(Maintenance, plan, facts, false)];
      maintenance := intent;
    }

    method PrepareNativeVMAction(plan: nat, decoded: bool, accepted: bool) returns (intent: Option<nat>)
      modifies this
      ensures Now() == Next(old(Now()), admit, PrepareVM(plan, decoded, accepted))
      ensures intent.Some? <==> !old(prepared) && decoded && accepted && admit(VM, plan, old(world)).Some?
      ensures intent.Some? ==> intent == vm
    {
      if prepared || !decoded {
        return None;
      }
      vm := None;
      vmUsed := true;
      var facts := admit(VM, plan, world);
      if !accepted || facts.None? {
        return None;
      }
      intent := Some(|authorities|);
      authorities := authorities + [Authority(VM, plan, facts, false)];
      vm := intent;
    }

    /** The first part of a confirmation: take the intent out of the session. */
    method TakeIntent(kind: Kind, message: nat) returns (call: Option<nat>)
      modifies this
      ensures Now() == Next(old(Now()), admit, Take(kind, message))
      ensures call.Some? <==> Slot(old(Now()), kind).Some? && (kind == VM || !old(confirmed))
      ensures call.Some? ==> call.value == |old(calls)| < |calls| && calls[call.value].stage == Taken
    {
      var authority: Option<nat>;
      var already := false;
      match kind {
        case Install =>
          authority, already := install, confirmed;
          confirmed := true;
          install := None;
        case Maintenance =>
          authority, already := maintenance, confirmed;
          confirmed := true;
          maintenance := None;
        case VM =>
          authority := vm;
          vm := None;
      }
      if already || authority.None? {
        return None;
      }
      call := Some(|calls|);
      calls := calls + [Call(kind, authority.value, message, Taken)];
    }

    /** The second part: use the intent up before looking at the message. */
    method ConsumeIntent(k: nat)
      requires Waits(Now(), k, Taken)
      modifies this
      ensures Now() == Next(old(Now()), admit, Consume(k))
    {
      var i := calls[k].intent;
      if authorities[i].used {
        calls := calls[k := calls[k].(stage := Refused)];
        return;
      }
      authorities := authorities[i := authorities[i].(used := true)];
      calls := calls[k := calls[k].(stage := Consumed)];
    }

    /** The third part: the message, the user and a fresh observation must all agree with the grant. */
    method CheckConfirmation(k: nat, valid: bool) returns (ok: bool)
      requires Waits(Now(), k, Consumed)
      modifies this
      ensures Now() == Next(old(Now()), admit, Check(k, valid))
      ensures ok <==> MayAct(Now(), k)
    {
      var i := calls[k].intent;
      var a := authorities[i];
      var seen := if a.kind == Install then None else admit(a.kind, a.plan, world);
      ok := valid && calls[k].message == i && seen == a.facts;
      calls := calls[k := calls[k].(stage := if ok then Checked(seen) else Refused)];
    }

    /** The last part: run the granted plan. */
    method RunAction(k: nat, succeeds: bool)
      requires MayAct(Now(), k)
      modifies this
      ensures Now() == Next(old(Now()), admit, Act(k, succeeds))
    {
      var a := authorities[calls[k].intent];
      actions := actions + [Action(k, a.kind, a.plan, calls[k].stage.seen)];
      calls := calls[k := calls[k].(stage := Ran(succeeds))];
    }

    method RecordStarted(k: nat)
      requires Waits(Now(), k, Ran(true)) && calls[k].kind == Install
      modifies this
      ensures Now() == Next(old(Now()), admit, Record(k))
    {
      started := true;
    }

    method RestartComputer(finished: bool) returns (ok: bool)
      modifies this
      ensures Now() == Next(old(Now()), admit, Restart(finished))
      ensures ok ==> started && finished
    {
      ok := started && finished;
      if ok {
        restarts := restarts + 1;
      }
    }
  }
}
