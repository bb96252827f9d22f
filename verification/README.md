# NotificationActor decision logic, modelled in Dafny

DawnChorus is an alarm app. On iOS, its `NotificationActor` decides how alarms reach the user. It also routes every notification-originating event to the alarm state machine in the store.

The actor keeps three fields:

- the notification permission status;
- the silent-switch state;
- an optional handle to a fallback `TimeWatcherActor`, which polls the clock when notifications cannot be trusted.

This project models the actor as an event-driven state machine. Each callback is a pure function from the fields and its input to a `Reaction`. A `Reaction` holds:

- the fields afterwards;
- the effects in order: store dispatches, idle-timer calls, watcher creation and kill, and the notification action's `completed()`;
- whether the handler threw.

Each `await` on a native call is replaced by its outcome, which the model takes as an input.

Modules:

- `ActorTypes` (types.dfy): fields, store actions, effects and reactions.
- `DeliveryMode` (delivery_mode.dfy): `checkStatus` and the watcher lifecycle ledger.
- `SilentSwitchBridge` (silent_switch.dfy): the silent-switch listener and the idle-timer policy.
- `NotificationRouter` (router.dfy): the local-notification, push, action and initial-notification handlers.
- `NotificationActor` (actor.dfy): the event type, `Step`, `Run` over event sequences, startup, and the trace-level theorems.

Modelling decisions:

- **Permission status.** The status is an enumeration, and only equality with `Authorized` is ever tested.
- **Watcher handle.** The handle the checks read is the capitalised `TimeWatcherActor` field. It is never initialised, so it starts absent. The lower-case field set in the constructor is never read.
- **Payload reads.** Payload fields are read without guards. A missing object on the read path is an `Option` that is `None`. In that case the handler throws before any effect, and an action handler then never calls `completed()`.
- **Failed checks.** A conservative policy would treat a status that cannot be determined as not authorized, and start the fallback watcher. The code instead does nothing: a failed check is caught and changes nothing, and the actor starts without a watcher. The model follows the code: see `NotificationActor.NoFallbackBeforeFirstSuccessfulCheck`.
- **Startup retry.** The constructor's retry-once `.catch` can never fire, because `checkStatus` catches its own errors: see `NotificationActor.StartupCheck`.
- **Idle timer.** The idle-timer policy is applied only when the silent switch toggles while the app is active. A later change in permissions does not re-apply it. `NotificationActor.Run` states this for every event sequence, and `NotificationActor.IdleTimerNotReappliedOnAuthorization` gives a concrete case.

## Model

| member | source | states |
|---|---|---|
| `DeliveryMode.CheckStatus` | app/actors/notifications.ios.js:179-200 | A check never rejects. A failed query leaves the fields unchanged and has no effects. A successful one stores the status and ends with exactly one `updateNotificationPermissions(status)`, which is the only dispatch. After it, the watcher is present iff the status is not authorized. A watcher is created once, and only if none existed. It is killed once, with the current `silent` flag, and only if one existed. The watcher ledger replays without a double create or kill. No idle-timer call and no completion happen. |
| `DeliveryMode.WatcherDecision` | app/actors/notifications.ios.js:183-194 | A check that does not authorize notifications creates a watcher exactly when none exists. One that authorizes them kills the live watcher, with the current `silent` flag, exactly when one exists. There is at most one such call, and replaying it leaves a watcher alive exactly when the fallback is required. |
| `DeliveryMode.RepeatedCheckIsIdempotent` | app/actors/notifications.ios.js:183-196 | A second successful check with the same status leaves the fields as the first left them. Its only effect is the status dispatch, so it does no duplicate watcher creation or kill. |
| `DeliveryMode.AuthorizationRoundTrip` | app/actors/notifications.ios.js:183-193 | Start from any fields without a watcher, such as the constructor's. A not-authorized check then creates exactly one watcher. A following authorized check kills it exactly once, with the silent flag. Afterwards the fields are the original ones with the status set to authorized. |
| `DeliveryMode.ReplayBoundsLiveWatchers` | app/actors/notifications.ios.js:186-192 | The ledger may replay without a double create or kill. If it does, the count of live watchers (created minus killed) stays between 0 and 1 after every prefix, and at the end it matches the replayed handle. |
| `SilentSwitchBridge.OnSilentSwitch` | app/actors/notifications.ios.js:45-61 | A toggle always records the new `silent` value and changes nothing else. When the app is not active, it has no effect at all. When active, it calls `setIdleTimerDisabled(silent or not authorized)` exactly once, then dispatches `updateSilentSwitchState(silent)`. |
| `SilentSwitchBridge.IdleTimerMatchesNewState` | app/actors/notifications.ios.js:47-58 | While active, silencing always disables the idle timer and never enables it. Unsilencing lets the screen dim iff notifications are authorized. The value applied is the policy evaluated on the fields after the toggle. |
| `SilentSwitchBridge.ToggleLeavesDeliveryModeAlone` | app/actors/notifications.ios.js:45-61 | A toggle changes neither the permission status nor the watcher, and it creates or kills no watcher. |
| `NotificationRouter.OnLocalNotification` | app/actors/notifications.ios.js:132-142 | Foreground delivery, background delivery and opening each behave alike. With readable data, the handler dispatches exactly one `soundAlarm` carrying the payload's alarm id. Without it, the handler throws with no effect. The fields never change. |
| `NotificationRouter.OnPushNotificationReceived` | app/actors/notifications.ios.js:150-177 | If every link of `payload.additionalData.p2p_notification` is present, exactly one `soundAlarm` is dispatched with the id found there. Otherwise the handler throws with no effect. The fields never change. |
| `NotificationRouter.OnNotificationAction` | app/actors/notifications.ios.js:73-89 | Snooze or stop first dispatches `snoozeAlarm` or `stopAlarm` with the payload's id, as the only dispatch. It then calls `completed()` exactly once, as the last effect. With unreadable data it throws first, so `completed()` is never called. |
| `NotificationRouter.ActionCommand` | app/actors/notifications.ios.js:77-88 | The snooze action maps to a snooze command and the stop action to a stop command. Each is an alarm command carrying the given id. |
| `NotificationRouter.OnInitialNotification` | app/actors/notifications.ios.js:106-110 | No initial notification dispatches nothing and does not throw. One with readable data dispatches exactly one `snoozeAlarm` with its id. One without readable data throws with no effect. |
| `NotificationActor.Step` | app/actors/notifications.ios.js:40-110 | The contract is the predicate `Conforms`. Every event is handled, so the event-to-handler table is total. The handler keeps the watcher ledger sound. The store actions dispatched are exactly those the event owes, in order: a successful check's status update, an active toggle's switch state, or a notification event's command from the event-to-command table, and nothing else. An idle-timer call happens only for a toggle while active, and it carries the policy for the toggle's flag and the current status. `completed()` is signalled only by an action whose payload was read. Only a successful check creates or kills a watcher. It creates one exactly once if notifications are not authorized and none exists, and kills it exactly once, with the current `silent` flag, if they are and one exists. Only a successful check stores the status and makes the watcher agree with it. A toggle stores its flag, and no other event changes `silent`. |
| `NotificationActor.StepWatcherEffects` | app/actors/notifications.ios.js:183-194 | For every event, a watcher is created once if the event is a successful check that does not authorize notifications while none exists, and otherwise never. It is killed once, with the current `silent` flag, if the event is a successful check that authorizes them while one exists, and otherwise never. It is never killed with the other flag. |
| `NotificationActor.Run` | app/actors/notifications.ios.js:40-110 | The contract is the predicate `TraceConforms`. Over any sequence of events, the watcher is never created while alive or killed while absent. The permission updates dispatched are exactly the statuses of the successful checks, in order. The alarm commands dispatched are exactly the table applied to the events, in order, with none dropped or reordered. The last successful check decides the stored status, and the watcher agrees with it. Without one, status and watcher are unchanged. At most one fallback watcher is alive after any prefix of the effects, and one is alive at the end exactly when the handle is set. The idle-timer calls are exactly one per toggle made while active, in order. Each carries the policy for that toggle's flag and the status stored at that moment. |
| `NotificationActor.NoFallbackBeforeFirstSuccessfulCheck` | app/actors/notifications.ios.js:32-37 | From the fields set in the constructor, events that include no successful check leave the status not determined and no watcher running. This includes any number of failed checks. |
| `NotificationActor.StartupCheck` | app/actors/notifications.ios.js:97-101 | The startup check with its retry-on-rejection is exactly one `checkStatus`: the retry's outcome never matters. |
| `NotificationActor.IdleTimerNotReappliedOnAuthorization` | app/actors/notifications.ios.js:45-61 | Take an active toggle to not silent while notifications are not determined, followed by a check returning authorized. The only idle-timer call keeps the screen on, although the policy for the resulting fields would let it dim. |

## Left out

- `killActor` (teardown) is not modelled. It reads the undefined `this.onReceived` and throws before the watcher kill is reached. It also never clears the handle, so no teardown property holds of it.
- `onIds` is not modelled. It builds a push-id action but never dispatches it.
- `requestPermissions` is not modelled. It only makes foreign calls, and it swallows their errors.
- Sound loading and playback in the push handler are not modelled. They are callback-driven audio that has no effect on the actor's fields or dispatches.
- Listener registration and removal, `OneSignal.configure`, `consumeBackgroundQueue` and category registration are not modelled. So are the actions' titles and activation mode. These are platform calls. Queued notifications reach the model as ordinary events.
- The app-state listener is modelled only through the resolution of the check it starts (`PermissionsChecked`). Interleaving between awaits is concurrency, not state logic. Every ordering of resolutions is covered, because `Run` accepts any event sequence.
- The internals of `TimeWatcherActor` are not modelled. `TimeWatcherActor` is not part of this model.
- `DeliveryMode.CheckStatus`: errors thrown by the `TimeWatcherActor` constructor, its `killActor`, or `dispatch` inside the `try` are not modelled. In the code such an error would be caught after the status was stored and before it was dispatched.
- `NotificationRouter.OnLocalNotification`: a payload object that exists but lacks `alarmUUID` is not modelled. JavaScript would then dispatch a command carrying `undefined`. The same holds for the push, action and initial-notification handlers.
- Console logging is not modelled.
