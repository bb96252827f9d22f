/** NotificationActor as an event-driven state machine: every callback the
    actor registers, and every resolution of its permission check, is an
    Event; Step applies one, Run applies a sequence of them in order. */
module NotificationActor {
  import opened ActorTypes
  import opened DeliveryMode
  import opened SilentSwitchBridge
  import opened NotificationRouter

  /** The inputs the actor reacts to. */
  datatype Event =
      /** a checkStatus call (from the app-state listener or from startup) resolved */
    | PermissionsChecked(outcome: CheckOutcome)
      /** the silent-switch listener fired */
    | SilentSwitchToggled(silent: bool, app: AppLifecycle)
      /** one of the three local-notification listeners fired */
    | LocalNotificationEvent(channel: LocalChannel, notification: LocalNotification)
      /** OneSignal's received listener fired */
    | PushReceived(push: PushNotification)
      /** the user chose the Snooze or Stop action */
    | ActionInvoked(kind: ActionKind, notification: LocalNotification)
      /** getInitialNotification resolved at cold start */
    | InitialNotification(initial: Option<LocalNotification>)
  {
    /** The events the notification callbacks handle. */
    predicate IsNotificationEvent() {
      LocalNotificationEvent? || PushReceived? || ActionInvoked? || InitialNotification?
    }
  }

  /** The status a successful check stores and dispatches, if the event is one. */
  function StatusOf(e: Event): seq<PermissionStatus> {
    if e.PermissionsChecked? && e.outcome.Resolved? then [e.outcome.status] else []
  }

  /** The statuses of the successful checks among the events, in order. */
  function ResolvedStatuses(es: seq<Event>): seq<PermissionStatus>
    decreases |es|
  {
    if es == [] then [] else StatusOf(es[0]) + ResolvedStatuses(es[1..])
  }

  /** The event-to-command table: the alarm command each notification event
      should yield, given that its payload is readable. */
  function CommandFor(e: Event): seq<Action> {
    match e
    case PermissionsChecked(_) => []
    case SilentSwitchToggled(_, _) => []
    case LocalNotificationEvent(_, n) =>
      if n.data.Some? then [SoundAlarm(n.data.value.alarmUUID)] else []
    case PushReceived(p) =>
      if WellFormedPush(p)
      then [SoundAlarm(p.payload.value.additionalData.value.p2pNotification.value.alarmUUID)]
      else []
    case ActionInvoked(Snooze, n) =>
      if n.data.Some? then [SnoozeAlarm(n.data.value.alarmUUID)] else []
    case ActionInvoked(Stop, n) =>
      if n.data.Some? then [StopAlarm(n.data.value.alarmUUID)] else []
    case InitialNotification(initial) =>
      if initial.Some? && initial.value.data.Some?
      then [SnoozeAlarm(initial.value.data.value.alarmUUID)]
      else []
  }

  /** Every store action an event should dispatch: the status of a
      successful check, the switch state of a toggle while active, and the
      table's command for a notification event. */
  function DispatchesFor(e: Event): seq<Action> {
    match e
    case PermissionsChecked(outcome) =>
      if outcome.Resolved? then [UpdateNotificationPermissions(outcome.status)] else []
    case SilentSwitchToggled(silent, app) =>
      if app == Active then [UpdateSilentSwitchState(silent)] else []
    case _ => CommandFor(e)
  }

  /** The idle-timer value an event applies, given the status stored when it
      arrives: only a toggle while active applies one, from the policy. */
  function IdleTimerCallFor(permissions: PermissionStatus, e: Event): seq<bool> {
    if e.SilentSwitchToggled? && e.app == Active then [IdleTimerPolicy(e.silent, permissions)] else []
  }

  /** The status stored once the event is handled: a successful check's, or
      the previous one. */
  function StatusAfter(permissions: PermissionStatus, e: Event): PermissionStatus {
    if StatusOf(e) != [] then StatusOf(e)[0] else permissions
  }

  /** The idle-timer values the events should apply, in order, tracking the
      stored status from `permissions` on. */
  function IdleTimerTrace(permissions: PermissionStatus, es: seq<Event>): seq<bool>
    decreases |es|
  {
    if es == [] then []
    else IdleTimerCallFor(permissions, es[0]) + IdleTimerTrace(StatusAfter(permissions, es[0]), es[1..])
  }

  /** The table applied to every event, in order. */
  function ExpectedCommands(es: seq<Event>): seq<Action>
    decreases |es|
  {
    if es == [] then [] else CommandFor(es[0]) + ExpectedCommands(es[1..])
  }

  /** The statuses carried by the permission updates among the actions. */
  function PermissionUpdates(actions: seq<Action>): seq<PermissionStatus>
    decreases |actions|
  {
    if actions == [] then []
    else if actions[0].UpdateNotificationPermissions? then [actions[0].status] + PermissionUpdates(actions[1..])
    else PermissionUpdates(actions[1..])
  }

  /** The alarm commands among the actions, in order. */
  function AlarmCommands(actions: seq<Action>): seq<Action>
    decreases |actions|
  {
    if actions == [] then []
    else if actions[0].IsAlarmCommand() then [actions[0]] + AlarmCommands(actions[1..])
    else AlarmCommands(actions[1..])
  }

  lemma {:induction false} PermissionUpdatesConcat(a: seq<Action>, b: seq<Action>)
    ensures PermissionUpdates(a + b) == PermissionUpdates(a) + PermissionUpdates(b)
    decreases |a|
  {
    if a == [] {
      assert a + b == b;
    } else {
      assert (a + b)[0] == a[0];
      assert (a + b)[1..] == a[1..] + b;
      PermissionUpdatesConcat(a[1..], b);
    }
  }

  lemma {:induction false} AlarmCommandsConcat(a: seq<Action>, b: seq<Action>)
    ensures AlarmCommands(a + b) == AlarmCommands(a) + AlarmCommands(b)
    decreases |a|
  {
    if a == [] {
      assert a + b == b;
    } else {
      assert (a + b)[0] == a[0];
      assert (a + b)[1..] == a[1..] + b;
      AlarmCommandsConcat(a[1..], b);
    }
  }

  /** What the two filters keep of a single action. */
  lemma SingleActionFilters(a: Action)
    ensures PermissionUpdates([a]) == if a.UpdateNotificationPermissions? then [a.status] else []
    ensures AlarmCommands([a]) == if a.IsAlarmCommand() then [a] else []
  {
    assert [a][1..] == [];
  }

  /** The watcher runs exactly when the stored status does not allow
      notifications. */
  predicate Consistent(s: ActorState) {
    s.hasWatcher == FallbackRequired(s.permissions)
  }

  /** The watcher calls an event owes: a successful check creates the
      watcher when notifications are not authorized and none exists, and
      kills it, with the current switch state, when they are and one exists;
      nothing else creates or kills one. */
  function WatcherCallsFor(s: ActorState, e: Event): seq<Effect> {
    if StatusOf(e) != [] && FallbackRequired(StatusOf(e)[0]) && !s.hasWatcher then [CreateWatcher]
    else if StatusOf(e) != [] && !FallbackRequired(StatusOf(e)[0]) && s.hasWatcher then [KillWatcher(s.silent)]
    else []
  }

  /** What every handler promises about one event: a watcher created only
      by a successful check that does not authorize notifications while none
      exists, and killed, with the current switch state, only by one that
      does while one exists, so never created twice or killed when absent;
      exactly the store actions the event owes, in
      order; an idle-timer call only from a toggle while active; completion
      signalled only by an action whose payload was read; the status stored
      only by a successful check and the switch only by a toggle. */
  predicate Conforms(s: ActorState, e: Event, r: Reaction) {
    && ReplayWatcher(s.hasWatcher, r.effects) == Some(r.state.hasWatcher)
    && WatcherCalls(r.effects) == WatcherCallsFor(s, e)
    && Dispatched(r.effects) == DispatchesFor(e)
    && PermissionUpdates(Dispatched(r.effects)) == StatusOf(e)
    && AlarmCommands(Dispatched(r.effects)) == CommandFor(e)
    && IdleTimerValues(r.effects) == IdleTimerCallFor(s.permissions, e)
    && (Completed in r.effects <==> e.ActionInvoked? && CommandFor(e) != [])
    && (StatusOf(e) == [] ==> r.state.permissions == s.permissions && r.state.hasWatcher == s.hasWatcher)
    && (StatusOf(e) != [] ==> r.state.permissions == StatusOf(e)[0] && Consistent(r.state))
    && (e.SilentSwitchToggled? ==> r.state.silent == e.silent)
    && (!e.SilentSwitchToggled? ==> r.state.silent == s.silent)
  }

  lemma CheckConforms(s: ActorState, outcome: CheckOutcome)
    ensures Conforms(s, PermissionsChecked(outcome), CheckStatus(s, outcome))
  {
    SingleActionFilters(UpdateNotificationPermissions(if outcome.Resolved? then outcome.status else Authorized));
    NoIdleTimerValues(CheckStatus(s, outcome).effects);
  }

  lemma SilentSwitchConforms(s: ActorState, silent: bool, app: AppLifecycle)
    ensures Conforms(s, SilentSwitchToggled(silent, app), OnSilentSwitch(s, silent, app))
  {
    if app == Active {
      var r := OnSilentSwitch(s, silent, app);
      assert Dispatched(r.effects) == [UpdateSilentSwitchState(silent)];
    }
  }

  /** A router handler that leaves the fields alone, touches no watcher and
      dispatches exactly the table's entry for its event conforms. */
  lemma RouterConforms(s: ActorState, e: Event, r: Reaction, command: Action)
    requires r.state == s && !e.SilentSwitchToggled? && StatusOf(e) == []
    requires forall x :: x in r.effects ==> x.Dispatch? || x.Completed?
    requires e.IsNotificationEvent()
    requires Dispatched(r.effects) == CommandFor(e)
    requires CommandFor(e) == [] || CommandFor(e) == [command]
    requires command.IsAlarmCommand()
    requires Completed in r.effects <==> e.ActionInvoked? && CommandFor(e) != []
    ensures Conforms(s, e, r)
  {
    WithoutWatcherEffects(s.hasWatcher, r.effects);
    NoIdleTimerValues(r.effects);
    SingleActionFilters(command);
  }

  /** One event, handled by the listener the actor registered for it. */
  function Step(s: ActorState, e: Event): (r: Reaction)
    ensures Conforms(s, e, r)
  {
    match e
    case PermissionsChecked(outcome) =>
      CheckConforms(s, outcome);
      CheckStatus(s, outcome)
    case SilentSwitchToggled(silent, app) =>
      SilentSwitchConforms(s, silent, app);
      OnSilentSwitch(s, silent, app)
    case LocalNotificationEvent(channel, n) =>
      var r := OnLocalNotification(s, channel, n);
      var id := if n.data.Some? then n.data.value.alarmUUID else "";
      RouterConforms(s, e, r, SoundAlarm(id));
      r
    case PushReceived(p) =>
      var r := OnPushNotificationReceived(s, p);
      var id := if WellFormedPush(p) then p.payload.value.additionalData.value.p2pNotification.value.alarmUUID else "";
      RouterConforms(s, e, r, SoundAlarm(id));
      r
    case ActionInvoked(kind, n) =>
      var r := OnNotificationAction(s, kind, n);
      var id := if n.data.Some? then n.data.value.alarmUUID else "";
      RouterConforms(s, e, r, ActionCommand(kind, id));
      r
    case InitialNotification(initial) =>
      var r := OnInitialNotification(s, initial);
      var id := if initial.Some? && initial.value.data.Some? then initial.value.data.value.alarmUUID else "";
      RouterConforms(s, e, r, SnoozeAlarm(id));
      r
  }

  /** Only a successful check creates or kills a watcher: it creates one
      exactly once when notifications are not authorized and none exists,
      kills it exactly once, with the current switch state, when they are and
      one exists, and never kills with the other switch state. */
  lemma StepWatcherEffects(s: ActorState, e: Event)
    ensures var r := Step(s, e);
            && multiset(r.effects)[CreateWatcher] ==
               (if StatusOf(e) != [] && FallbackRequired(StatusOf(e)[0]) && !s.hasWatcher then 1 else 0)
            && multiset(r.effects)[KillWatcher(s.silent)] ==
               (if StatusOf(e) != [] && !FallbackRequired(StatusOf(e)[0]) && s.hasWatcher then 1 else 0)
            && KillWatcher(!s.silent) !in r.effects
  {
    var r := Step(s, e);
    WatcherCallsCount(r.effects, CreateWatcher);
    WatcherCallsCount(r.effects, KillWatcher(s.silent));
    WatcherCallsCount(r.effects, KillWatcher(!s.silent));
  }

  /** What a run of the events `es` from `s` promises: the watcher is never
      created twice or killed when absent; the permission updates dispatched
      are exactly the statuses of the successful checks and the alarm
      commands exactly the table applied to the events, both in event order;
      the last successful check decides the stored status and the watcher.
      So at most one fallback watcher is ever alive, after any prefix of the
      effects, and one is alive at the end exactly when the handle is set.
      The only idle-timer calls are those of the toggles made while active,
      each applying the policy to its switch state and the status stored at
      that moment. */
  predicate TraceConforms(s: ActorState, es: seq<Event>, r: Reaction) {
    && ReplayWatcher(s.hasWatcher, r.effects) == Some(r.state.hasWatcher)
    && PermissionUpdates(Dispatched(r.effects)) == ResolvedStatuses(es)
    && AlarmCommands(Dispatched(r.effects)) == ExpectedCommands(es)
    && (ResolvedStatuses(es) == [] ==>
          r.state.permissions == s.permissions && r.state.hasWatcher == s.hasWatcher)
    && (ResolvedStatuses(es) != [] ==>
          && r.state.permissions == ResolvedStatuses(es)[|ResolvedStatuses(es)| - 1]
          && Consistent(r.state))
    && (Consistent(s) ==> Consistent(r.state))
    && (forall k :: 0 <= k <= |r.effects| ==> 0 <= LiveWatchers(s.hasWatcher, r.effects[..k]) <= 1)
    && LiveWatchers(s.hasWatcher, r.effects) == (if r.state.hasWatcher then 1 else 0)
    && IdleTimerValues(r.effects) == IdleTimerTrace(s.permissions, es)
  }

  /** The dispatches of the first event followed by those of the rest are
      those owed by all the events. */
  lemma DispatchesCons(es: seq<Event>, a: seq<Effect>, b: seq<Effect>)
    requires es != []
    requires PermissionUpdates(Dispatched(a)) == StatusOf(es[0])
    requires AlarmCommands(Dispatched(a)) == CommandFor(es[0])
    requires PermissionUpdates(Dispatched(b)) == ResolvedStatuses(es[1..])
    requires AlarmCommands(Dispatched(b)) == ExpectedCommands(es[1..])
    ensures PermissionUpdates(Dispatched(a + b)) == ResolvedStatuses(es)
    ensures AlarmCommands(Dispatched(a + b)) == ExpectedCommands(es)
  {
    DispatchedConcat(a, b);
    PermissionUpdatesConcat(Dispatched(a), Dispatched(b));
    AlarmCommandsConcat(Dispatched(a), Dispatched(b));
  }

  /** The idle-timer calls of the first event followed by those of the rest,
      made under the status the first left, are those owed by all the events. */
  lemma IdleTimerCons(permissions: PermissionStatus, es: seq<Event>, a: seq<Effect>, b: seq<Effect>)
    requires es != []
    requires IdleTimerValues(a) == IdleTimerCallFor(permissions, es[0])
    requires IdleTimerValues(b) == IdleTimerTrace(StatusAfter(permissions, es[0]), es[1..])
    ensures IdleTimerValues(a + b) == IdleTimerTrace(permissions, es)
  {
    IdleTimerValuesConcat(a, b);
  }

  /** The last successful check among all the events is the last among the
      rest, or else the first event's. */
  lemma StatusCons(s: ActorState, es: seq<Event>, mid: ActorState, last: ActorState)
    requires es != []
    requires StatusOf(es[0]) == [] ==> mid.permissions == s.permissions && mid.hasWatcher == s.hasWatcher
    requires StatusOf(es[0]) != [] ==> mid.permissions == StatusOf(es[0])[0] && Consistent(mid)
    requires ResolvedStatuses(es[1..]) == [] ==>
               last.permissions == mid.permissions && last.hasWatcher == mid.hasWatcher
    requires ResolvedStatuses(es[1..]) != [] ==>
               && last.permissions == ResolvedStatuses(es[1..])[|ResolvedStatuses(es[1..])| - 1]
               && Consistent(last)
    ensures ResolvedStatuses(es) == [] ==>
              last.permissions == s.permissions && last.hasWatcher == s.hasWatcher
    ensures ResolvedStatuses(es) != [] ==>
              && last.permissions == ResolvedStatuses(es)[|ResolvedStatuses(es)| - 1]
              && Consistent(last)
    ensures Consistent(s) ==> Consistent(last)
  {
    assert ResolvedStatuses(es) == StatusOf(es[0]) + ResolvedStatuses(es[1..]);
  }

  /** Handling the first event and then the rest conforms for all events:
      the effects are concatenated and the fields are those the rest left. */
  lemma TraceConformsCons(s: ActorState, es: seq<Event>, head: Reaction, tail: Reaction)
    requires es != []
    requires ReplayWatcher(s.hasWatcher, head.effects) == Some(head.state.hasWatcher)
    requires PermissionUpdates(Dispatched(head.effects)) == StatusOf(es[0])
    requires AlarmCommands(Dispatched(head.effects)) == CommandFor(es[0])
    requires IdleTimerValues(head.effects) == IdleTimerCallFor(s.permissions, es[0])
    requires StatusOf(es[0]) == [] ==>
               head.state.permissions == s.permissions && head.state.hasWatcher == s.hasWatcher
    requires StatusOf(es[0]) != [] ==> head.state.permissions == StatusOf(es[0])[0] && Consistent(head.state)
    requires TraceConforms(head.state, es[1..], tail)
    ensures TraceConforms(s, es, Reaction(tail.state, head.effects + tail.effects, head.threw || tail.threw))
  {
    ReplaySequence(s.hasWatcher, head.effects, tail.effects, head.state.hasWatcher, tail.state.hasWatcher);
    DispatchesCons(es, head.effects, tail.effects);
    assert head.state.permissions == StatusAfter(s.permissions, es[0]);
    IdleTimerCons(s.permissions, es, head.effects, tail.effects);
    StatusCons(s, es, head.state, tail.state);
  }

  /** The events handled one after another.  A handler that throws changes
      nothing of its own event; the model goes on with the next event, so
      every property holds of every prefix of the events, whatever happens
      to the later ones. */
  function Run(s: ActorState, es: seq<Event>): (r: Reaction)
    ensures TraceConforms(s, es, r)
    decreases |es|
  {
    if es == [] then
      ReplayBoundsLiveWatchers(s.hasWatcher, []);
      Reaction(s, [], false)
    else
      var head := Step(s, es[0]);
      var tail := Run(head.state, es[1..]);
      TraceConformsCons(s, es, head, tail);
      Reaction(tail.state, head.effects + tail.effects, head.threw || tail.threw)
  }

  /** The fallback only starts once a check succeeds: from the initial fields,
      events without a successful check (failed checks included) leave the
      status not determined and no watcher running. */
  lemma NoFallbackBeforeFirstSuccessfulCheck(es: seq<Event>)
    requires ResolvedStatuses(es) == []
    ensures Run(Initial, es).state.permissions == NotDetermined
    ensures !Run(Initial, es).state.hasWatcher
  {
  }

  /** Startup: once requestPermissions settles, checkStatus runs, and runs
      again only if the first call rejects.  The first call never rejects, so
      the retry never happens and its outcome is irrelevant. */
  function StartupCheck(s: ActorState, first: CheckOutcome, retry: CheckOutcome): (r: Reaction)
    ensures r == CheckStatus(s, first)
  {
    var attempt := CheckStatus(s, first);
    if attempt.threw then
      var again := CheckStatus(attempt.state, retry);
      Reaction(again.state, attempt.effects + again.effects, again.threw)
    else
      attempt
  }

  /** The idle timer is applied only on switch toggles: when notifications
      become authorized after an active toggle, the only idle-timer call made
      keeps the screen on, although the policy for the resulting fields would
      let it dim. */
  lemma IdleTimerNotReappliedOnAuthorization()
    ensures var r := Run(Initial, [SilentSwitchToggled(false, Active), PermissionsChecked(Resolved(Authorized))]);
            && IdleTimerValues(r.effects) == [true]
            && !IdleTimerPolicy(r.state.silent, r.state.permissions)
  {
  }
}
