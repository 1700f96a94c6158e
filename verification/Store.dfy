// internal/store/store.go: the persisted rows.
module Store {

  import opened Wrappers

  datatype ProxyUser = ProxyUser(
    id: int, username: string, status: string, protocols: seq<string>,
    downloadBPS: int, uploadBPS: int, maxConnections: int,
    quotaDaily: int, quotaMonthly: int,
    expiresAt: Option<int>, version: int)

  datatype EngineUser = EngineUser(user: ProxyUser, engineHash: string)

  // Neither disabled nor expired at the given time.
  predicate Live(u: ProxyUser, now: int) {
    u.status == "active" && (u.expiresAt.Some? ==> u.expiresAt.value > now)
  }

  // The increments one flush writes; lastSeenUnix and lastSeen are Unix milliseconds.
  datatype UsageDelta = UsageDelta(
    userID: int, username: string, day: string, month: string,
    bytesIn: int, bytesOut: int, connections: int, lastSeenUnix: int)

  datatype DestinationDelta = DestinationDelta(
    userID: int, day: string, host: string, port: int, protocol: string,
    requests: int, blocked: int, bytesIn: int, bytesOut: int, lastSeen: int)

  datatype LogCursor = LogCursor(path: string, offset: nat)
}
