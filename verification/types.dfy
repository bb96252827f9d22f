/** Values shared by every part of the notification actor model: the fields
    the actor keeps, the store actions it dispatches and the effects it asks
    of the platform.  Each handler of the actor becomes a pure function from
    the fields and its input to a Reaction. */
module ActorTypes {

  /** The alarm identifier carried in notification payloads. */
  type AlarmId = string

  datatype Option<+T> = None | Some(value: T)

  /** The authorization level reported by the native permissions manager.
      The actor only ever compares it with Authorized. */
  datatype PermissionStatus = Authorized | Denied | NotDetermined | Provisional

  /** React Native's AppState.currentState. */
  datatype AppLifecycle = Active | Background | Inactive

  /** The store actions built by the imported action creators. */
  datatype Action =
    | UpdateNotificationPermissions(status: PermissionStatus)
    | UpdateSilentSwitchState(silent: bool)
    | SoundAlarm(alarmId: AlarmId)
    | SnoozeAlarm(alarmId: AlarmId)
    | StopAlarm(alarmId: AlarmId)
  {
    /** The three commands addressed to the alarm state machine. */
    predicate IsAlarmCommand() {
      SoundAlarm? || SnoozeAlarm? || StopAlarm?
    }
  }

  /** Everything a handler does outside its own fields, in the order it does it. */
  datatype Effect =
    | Dispatch(action: Action)               // store.dispatch(action)
    | SetIdleTimerDisabled(disabled: bool)   // IdleTimerManager.setIdleTimerDisabled
    | CreateWatcher                          // new TimeWatcherActor(store)
    | KillWatcher(silent: bool)              // TimeWatcherActor.killActor(silent)
    | Completed                              // the notification action's completed()

  /** The actor's fields.  hasWatcher says whether the fallback
      TimeWatcherActor handle is set. */
  datatype ActorState = ActorState(permissions: PermissionStatus, silent: bool, hasWatcher: bool)

  /** The fields right after construction: status not determined, switch not
      silent, and the watcher handle the checks read still unset. */
  const Initial: ActorState := ActorState(NotDetermined, false, false)

  /** What one handler invocation does: the fields afterwards, its effects in
      order, and whether it threw before reaching its end. */
  datatype Reaction = Reaction(state: ActorState, effects: seq<Effect>, threw: bool)

  /** The store actions among the effects, in dispatch order. */
  function Dispatched(effects: seq<Effect>): (actions: seq<Action>)
    ensures |actions| <= |effects|
    ensures forall a :: a in actions <==> Dispatch(a) in effects
  {
    if effects == [] then []
    else
      assert effects == [effects[0]] + effects[1..];
      if effects[0].Dispatch? then [effects[0].action] + Dispatched(effects[1..])
      else Dispatched(effects[1..])
  }

  lemma {:induction false} DispatchedConcat(a: seq<Effect>, b: seq<Effect>)
    ensures Dispatched(a + b) == Dispatched(a) + Dispatched(b)
  {
    if a == [] {
      assert a + b == b;
    } else {
      assert (a + b)[0] == a[0];
      assert (a + b)[1..] == a[1..] + b;
      DispatchedConcat(a[1..], b);
    }
  }
}
