/**
 * The click-event record (`Analytics` in src/models/Analytics.ts). Nothing in
 * the modelled code writes events: the aggregation queries read an event log
 * supplied from outside.
 */
module Events {
  import opened Optional
  import opened Links

  /**
   * One click. `timestamp` is in milliseconds since the Unix epoch; `country`
   * and `city` are the only optional fields, every other field is required,
   * so each event has exactly one link, one address, one OS and one device.
   */
  datatype Event = Event(
    urlId: LinkId,
    timestamp: int,
    userAgent: string,
    ipAddress: string,
    country: Option<string>,
    city: Option<string>,
    osType: string,
    deviceType: string,
    browser: string)

  const MsPerDay: int := 86_400_000

  /**
   * The UTC calendar day of a timestamp, the key `$dateToString` with format
   * '%Y-%m-%d' produces. Dafny's `/` floors for a positive divisor, as UTC
   * days do before 1970 too.
   */
  function Day(timestamp: int): (d: int)
    ensures d * MsPerDay <= timestamp < (d + 1) * MsPerDay
  {
    timestamp / MsPerDay
  }
}
