/**
 * The xrpld copy of the readiness probe. Its `make_request` and
 * `get_server_info` are the rippled ones word for word apart from log text,
 * so the model shares them; the predicate is its own function.
 */
module XrpldSync {
  import opened Wrappers
  import opened Values
  import opened RippledSync

  /**
   * `is_xrpld_synced`: every exception is caught and leaves the answer
   * False; otherwise synced means complete ledgers other than "empty" and the
   * server state "full".
   */
  function IsXrpldSynced(x: Exchange): (r: bool)
    ensures r <==> ReportsSynced(x)
  {
    SyncProjection(x);
    match GetServerInfo(x, Some(SyncKeys))
    case Err(_) => false
    case Ok(info) =>
      if !InfoTruthy(info) || !info.Entries? || |info.entries| != 2 then false
      else
        var completeLedgers := info.entries[0].1;
        var serverState := info.entries[1].1;
        completeLedgers != VStr("empty") && serverState == VStr("full")
  }

  /**
   * Synced exactly when a non-empty body was obtained whose info has both
   * keys, complete ledgers other than "empty" and the state "full"; a missing
   * response, a missing key or any other exception gives False.
   */
  lemma XrpldSyncedIff(x: Exchange)
    ensures IsXrpldSynced(x) <==> ReportsSynced(x)
    ensures MakeRequest(x) == Ok(None) ==> !IsXrpldSynced(x)
  {
    SyncProjection(x);
  }

  /** The two probes give the same answer on every exchange. */
  lemma SameAsRippled(x: Exchange)
    ensures IsXrpldSynced(x) == IsRippledSynced(x)
  {
    XrpldSyncedIff(x);
    RippledSyncedIff(x);
  }
}
