/** The rows the service keeps. Times are instants in nanoseconds. */
module Domain {
  import opened GoLib

  datatype DeviceStatus = DevicePending | DeviceActive | DeviceSuspended | DeviceDeleted

  datatype Device = Device(deviceId: string, status: DeviceStatus, lastSeenAt: Option<int>, updatedAt: int)

  datatype RawStatus = RawReceived | RawParsed | RawRejected | RawDuplicate

  datatype RawMessage = RawMessage(
    deviceId: string, rawText: string, checksumReceived: string, checksumExpected: string,
    receivedAt: int, dedupKey: string, status: RawStatus, eventId: Option<string>)

  datatype EventStatus = EventCreated | EventRouted | EventDispatched | EventDeadLetter

  datatype Event = Event(
    eventId: string, deviceId: string, ts: int, metric: string, value: Float, unit: string,
    dedupKey: string, routeKey: string, status: EventStatus, parsedAt: int)

  /** A nil metric list and an empty one are two values. */
  datatype Matcher = Matcher(devicePattern: string, metrics: Option<seq<string>>, expr: string)

  datatype RouteRule = RouteRule(
    id: nat, ruleId: string, name: string, matcher: Matcher, topic: string, priority: int,
    enabled: bool, deletedAt: Option<int>, createdAt: int, updatedAt: int)

  datatype ChangeAction = ActionCreate | ActionUpdate | ActionDisable | ActionEnable | ActionDelete

  datatype Change = Change(
    ruleId: string, action: ChangeAction, before: Option<RouteRule>, after: Option<RouteRule>,
    operator: string, changedAt: int)

  datatype DeliveryStatus = DeliveryPending | DeliveryDispatched | DeliveryFailed | DeliveryDead

  datatype Delivery = Delivery(
    id: nat, eventId: string, ruleId: string, topic: string, status: DeliveryStatus, attempts: int,
    lastError: string, nextRetryAt: Option<int>, dispatchedAt: Option<int>)
}
