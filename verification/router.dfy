/** The notification callbacks: each maps one notification-originating event
    to one alarm command carrying the payload's alarm identifier.  None of
    them reads or writes the actor's fields.  Payload fields are read without
    guards, so a missing object on the path throws before anything happens. */
module NotificationRouter {
  import opened ActorTypes

  /** The object a notification's getData() returns. */
  datatype NotificationData = NotificationData(alarmUUID: AlarmId)

  /** A local notification; data is None when getData() yields no object, in
      which case reading alarmUUID throws. */
  datatype LocalNotification = LocalNotification(data: Option<NotificationData>)

  /** A OneSignal notification, read along
      payload.additionalData.p2p_notification.alarmUUID; each None is a link of
      that path that is absent. */
  datatype PushNotification = PushNotification(payload: Option<PushPayload>)
  datatype PushPayload = PushPayload(additionalData: Option<AdditionalData>)
  datatype AdditionalData = AdditionalData(p2pNotification: Option<P2PNotification>)
  datatype P2PNotification = P2PNotification(alarmUUID: AlarmId)

  /** The three local-notification listeners, which behave alike. */
  datatype LocalChannel = ReceivedForeground | ReceivedBackground | Opened

  /** The two background actions of the ALARM category. */
  datatype ActionKind = Snooze | Stop

  /** Every link of the push payload path is present. */
  predicate WellFormedPush(p: PushNotification) {
    && p.payload.Some?
    && p.payload.value.additionalData.Some?
    && p.payload.value.additionalData.value.p2pNotification.Some?
  }

  /** The command an action dispatches for an alarm. */
  function ActionCommand(kind: ActionKind, id: AlarmId): (a: Action)
    ensures a.IsAlarmCommand() && a.alarmId == id
    ensures a.SnoozeAlarm? <==> kind == Snooze
    ensures a.StopAlarm? <==> kind == Stop
  {
    match kind
    case Snooze => SnoozeAlarm(id)
    case Stop => StopAlarm(id)
  }

  /** A local notification was delivered in the foreground or background, or
      opened: it sounds the alarm it names. */
  function OnLocalNotification(s: ActorState, channel: LocalChannel, n: LocalNotification): (r: Reaction)
    ensures r.state == s
    ensures forall e :: e in r.effects ==> e.Dispatch? || e.Completed?
    ensures r.threw <==> n.data.None?
    ensures r.threw ==> r.effects == []
    ensures !r.threw ==>
      && Dispatched(r.effects) == [SoundAlarm(n.data.value.alarmUUID)]
      && |r.effects| == 1
  {
    match n.data
    case None => Reaction(s, [], true)
    case Some(data) => Reaction(s, [Dispatch(SoundAlarm(data.alarmUUID))], false)
  }

  /** A push notification arrived: it sounds the alarm named deep in its
      payload.  The audio cue the handler also starts is not modelled. */
  function OnPushNotificationReceived(s: ActorState, p: PushNotification): (r: Reaction)
    ensures r.state == s
    ensures forall e :: e in r.effects ==> e.Dispatch? || e.Completed?
    ensures r.threw <==> !WellFormedPush(p)
    ensures r.threw ==> r.effects == []
    ensures !r.threw ==>
      && Dispatched(r.effects) == [SoundAlarm(p.payload.value.additionalData.value.p2pNotification.value.alarmUUID)]
      && |r.effects| == 1
  {
    match p.payload
    case None => Reaction(s, [], true)
    case Some(payload) =>
      match payload.additionalData
      case None => Reaction(s, [], true)
      case Some(additional) =>
        match additional.p2pNotification
        case None => Reaction(s, [], true)
        case Some(p2p) => Reaction(s, [Dispatch(SoundAlarm(p2p.alarmUUID))], false)
  }

  /** The user chose Snooze or Stop on a notification: the matching command
      is dispatched, and only then is the platform told the action completed.
      When the payload cannot be read the handler throws first, so completion
      is never signalled. */
  function OnNotificationAction(s: ActorState, kind: ActionKind, n: LocalNotification): (r: Reaction)
    ensures r.state == s
    ensures forall e :: e in r.effects ==> e.Dispatch? || e.Completed?
    ensures r.threw <==> n.data.None?
    ensures r.threw ==> r.effects == []
    ensures !r.threw ==>
      && Dispatched(r.effects) == [ActionCommand(kind, n.data.value.alarmUUID)]
      && multiset(r.effects)[Completed] == 1
      && r.effects[0] == Dispatch(ActionCommand(kind, n.data.value.alarmUUID))
      && r.effects[|r.effects| - 1] == Completed
  {
    match n.data
    case None => Reaction(s, [], true)
    case Some(data) =>
      var command := if kind == Snooze then SnoozeAlarm(data.alarmUUID) else StopAlarm(data.alarmUUID);
      Reaction(s, [Dispatch(command), Completed], false)
  }

  /** The notification the app was launched from, if any, snoozes its alarm. */
  function OnInitialNotification(s: ActorState, initial: Option<LocalNotification>): (r: Reaction)
    ensures r.state == s
    ensures forall e :: e in r.effects ==> e.Dispatch? || e.Completed?
    ensures initial.None? ==> r.effects == [] && !r.threw
    ensures initial.Some? ==>
      && (r.threw <==> initial.value.data.None?)
      && (r.threw ==> r.effects == [])
      && (!r.threw ==> Dispatched(r.effects) == [SnoozeAlarm(initial.value.data.value.alarmUUID)]
                       && |r.effects| == 1)
  {
    match initial
    case None => Reaction(s, [], false)
    case Some(n) =>
      match n.data
      case None => Reaction(s, [], true)
      case Some(data) => Reaction(s, [Dispatch(SnoozeAlarm(data.alarmUUID))], false)
  }
}
