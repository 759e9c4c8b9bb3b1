/** The administration screen for blocked addresses: the status column and
  * the three bulk actions on the selected rows. */
module Admin {
  import opened Common
  import opened Blocks

  /** The status column of a row. */
  datatype BlockStatus = Inactive | Permanent | Expired | ActiveBlock

  /** The status shown at `now`, first match: switched off, permanent,
    * past its expiry, or in force. Reading it changes nothing. */
  function StatusOf(r: BlockRecord, now: int): BlockStatus {
    if !r.active then Inactive
    else if r.permanent then Permanent
    else if r.expiresAt.Some? && now > r.expiresAt.value then Expired
    else ActiveBlock
  }

  /** The column agrees with the status check: it shows a block in force
    * exactly when the check blocks, and `Expired` exactly for the rows the
    * check would switch off, which then show `Inactive`. */
  lemma StatusAgreesWithCheck(r: BlockRecord, now: int)
    ensures StatusOf(r, now) in {Permanent, ActiveBlock} <==> BlockedNow(r, now)
    ensures StatusOf(r, now) == Expired <==> AfterBlockCheck(r, now) != r
    ensures StatusOf(AfterBlockCheck(r, now), now) == if StatusOf(r, now) == Expired then Inactive else StatusOf(r, now)
  {
  }

  const ExtendSeconds: int := 24 * 3600

  /** Switch off every selected row and report how many rows were selected. */
  method UnblockIps(registry: BlockRegistry, selected: set<string>) returns (count: int)
    modifies registry
    ensures registry.records.Keys == old(registry.records).Keys
    ensures forall ip :: ip in old(registry.records) ==>
      registry.records[ip] == if ip in selected then old(registry.records)[ip].(active := false) else old(registry.records)[ip]
    ensures count == |selected * old(registry.records).Keys|
  {
    count := |selected * registry.records.Keys|;
    var rows := registry.records;
    registry.records := map ip | ip in rows :: if ip in selected then rows[ip].(active := false) else rows[ip];
  }

  /** Make every selected row a permanent block in force. */
  method MakePermanent(registry: BlockRegistry, selected: set<string>) returns (count: int)
    modifies registry
    ensures registry.records.Keys == old(registry.records).Keys
    ensures forall ip :: ip in old(registry.records) ==>
      registry.records[ip] == if ip in selected then old(registry.records)[ip].(permanent := true, active := true)
                              else old(registry.records)[ip]
    ensures count == |selected * old(registry.records).Keys|
  {
    count := |selected * registry.records.Keys|;
    var rows := registry.records;
    registry.records := map ip | ip in rows ::
      if ip in selected then rows[ip].(permanent := true, active := true) else rows[ip];
  }

  /** Put every selected row in force until 24 hours from now; the new end
    * is counted from now, not from the old expiry. */
  method ExtendBlock(registry: BlockRegistry, selected: set<string>, now: int) returns (count: int)
    modifies registry
    ensures registry.records.Keys == old(registry.records).Keys
    ensures forall ip :: ip in old(registry.records) ==>
      registry.records[ip] == if ip in selected then old(registry.records)[ip].(expiresAt := Some(now + ExtendSeconds), active := true)
                              else old(registry.records)[ip]
    ensures count == |selected * old(registry.records).Keys|
  {
    count := |selected * registry.records.Keys|;
    var rows := registry.records;
    var newExpiry := now + ExtendSeconds;
    registry.records := map ip | ip in rows ::
      if ip in selected then rows[ip].(expiresAt := Some(newExpiry), active := true) else rows[ip];
  }

  /** What the three actions mean for the status of a row: unblocked rows
    * never block again until changed, permanent ones block at every time,
    * extended ones block through the next 24 hours (and afterwards only if
    * permanent); none of them touches the reason, the rule or the
    * attempts. */
  lemma BulkActionEffects(r: BlockRecord, now: int, t: int)
    ensures !BlockedNow(r.(active := false), t)
    ensures BlockedNow(r.(permanent := true, active := true), t)
    ensures var e := r.(expiresAt := Some(now + ExtendSeconds), active := true);
      && (t <= now + ExtendSeconds ==> BlockedNow(e, t))
      && (t > now + ExtendSeconds ==> (BlockedNow(e, t) <==> r.permanent))
    ensures forall u :: u in [r.(active := false), r.(permanent := true, active := true),
                              r.(expiresAt := Some(now + ExtendSeconds), active := true)] ==>
      u.reason == r.reason && u.rule == r.rule && u.attemptCount == r.attemptCount
  {
  }

  /** Extending forgets the old expiry: two rows that differ only in it
    * are equal after the action. */
  lemma ExtendIgnoresOldExpiry(r: BlockRecord, previous: Option<int>, now: int)
    ensures r.(expiresAt := previous).(expiresAt := Some(now + ExtendSeconds), active := true)
      == r.(expiresAt := Some(now + ExtendSeconds), active := true)
  {
  }
}
