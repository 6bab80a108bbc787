/** The records shared by the services: routes, trips, alerts, users and monitoring jobs. */
module Types {
  import opened Wrappers

  datatype RouteStatus = Clear | Moderate | Heavy

  /** A route with its traffic figures; durations and delay are in seconds, distance in metres. */
  datatype Route = Route(
    id: string,
    name: string,
    polyline: string,
    distance: int,
    staticDuration: int,
    currentDuration: int,
    delay: int,
    delayPercentage: real,
    status: RouteStatus,
    reason: Option<string>)

  datatype Location = Location(latitude: real, longitude: real, address: string, name: Option<string>)

  /** Days are 0 (Sunday) to 6 (Saturday); the window bounds are "HH:MM" texts. */
  datatype Schedule = Schedule(days: seq<int>, windowStart: string, windowEnd: string)

  /** The declared kinds are MINUTES and PERCENTAGE; stored data may carry any other text. */
  datatype ThresholdKind = Minutes | Percentage | OtherKind(text: string)

  datatype AlertThreshold = AlertThreshold(kind: ThresholdKind, value: real)

  /** Timestamps are milliseconds since the epoch. */
  datatype Trip = Trip(
    id: string,
    userId: string,
    name: string,
    origin: Location,
    destination: Location,
    schedule: Schedule,
    alertThreshold: AlertThreshold,
    isActive: bool,
    createdAt: int,
    updatedAt: int)

  datatype UserAction = Dismissed | NavigatedAlternative | NavigatedOriginal

  datatype TrafficAlert = TrafficAlert(
    id: string,
    tripId: string,
    timestamp: int,
    triggeredBy: string,
    delayMinutes: int,
    reason: string,
    routes: seq<Route>,
    userAction: Option<UserAction>)

  datatype QuietHours = QuietHours(enabled: bool, start: string, end: string)

  datatype Settings = Settings(defaultNavApp: string, quietHours: Option<QuietHours>)

  datatype User = User(id: string, email: string, name: string, createdAt: int, settings: Settings)

  datatype JobStatus = Pending | Running | Completed | Failed

  datatype MonitoringJob = MonitoringJob(
    id: string,
    tripId: string,
    scheduledFor: int,
    status: JobStatus,
    routes: Option<seq<Route>>,
    alertSent: bool)

  /** JavaScript `Math.round`: the nearest integer, halves rounded up. */
  function Round(x: real): (r: int)
    ensures x - 0.5 < r as real <= x + 0.5
  {
    (x + 0.5).Floor
  }

  /** JavaScript truthiness of an optional text: absent and empty are both false. */
  predicate Truthy(s: Option<string>) {
    s.Some? && s.value != ""
  }
}
