/** Blocked addresses: the block record, its lazily expiring status, the
  * rules that escalate failures into blocks, and the table of records. */
module Blocks {
  import opened Common

  /** One blocked-address row (times in seconds). `rule` names the rule
    * that created it; at most one row exists per address. */
  datatype BlockRecord = BlockRecord(
    rule: Option<string>,
    reason: string,
    blockedAt: int,
    expiresAt: Option<int>,
    attemptCount: int,
    lastAttemptAt: Option<int>,
    permanent: bool,
    active: bool,
    blockedByAdmin: bool,
    adminNotes: Option<string>)

  /** A row created with the column defaults: active, not permanent, no
    * expiry, no attempts, not set by an administrator. */
  function NewRecord(reason: string, now: int): BlockRecord {
    BlockRecord(None, reason, now, None, 0, None, false, true, false, None)
  }

  /** Whether the record blocks its address at `now`. An expiry is still
    * in force at the very second it names. */
  predicate BlockedNow(r: BlockRecord, now: int) {
    r.active && (r.permanent || !(r.expiresAt.Some? && now > r.expiresAt.value))
  }

  /** The record after its status was checked at `now`: a timed block found
    * past its expiry is switched off and saved. */
  function AfterBlockCheck(r: BlockRecord, now: int): BlockRecord {
    if r.active && !r.permanent && r.expiresAt.Some? && now > r.expiresAt.value then r.(active := false) else r
  }

  /** What the check does, case by case: inactive records never block,
    * permanent ones always do, timed ones stop at their expiry; only the
    * expired case writes, and then only the active flag. */
  lemma BlockCheckCases(r: BlockRecord, now: int)
    ensures !r.active ==> !BlockedNow(r, now) && AfterBlockCheck(r, now) == r
    ensures r.active && r.permanent ==> BlockedNow(r, now) && AfterBlockCheck(r, now) == r
    ensures BlockedNow(r, now) ==> AfterBlockCheck(r, now) == r
    ensures r.active && !BlockedNow(r, now) ==> AfterBlockCheck(r, now) == r.(active := false)
    ensures r.active && !r.permanent && r.expiresAt.Some? ==>
      (BlockedNow(r, now) <==> now <= r.expiresAt.value)
  {
  }

  /** The lazy switch-off never changes a later answer: checking at `now`
    * and again at any later time is the same as checking only later. */
  lemma {:induction false} BlockCheckComposes(r: BlockRecord, now: int, later: int)
    requires now <= later
    ensures AfterBlockCheck(AfterBlockCheck(r, now), later) == AfterBlockCheck(r, later)
    ensures BlockedNow(AfterBlockCheck(r, now), later) == BlockedNow(r, later)
  {
    if r.active && !r.permanent && r.expiresAt.Some? && now > r.expiresAt.value {
      assert later > r.expiresAt.value;
    }
  }

  /** A rule that turns failed requests on matching paths into blocks. */
  datatype BlockRule = BlockRule(
    name: string,
    pattern: Option<string>,
    maxAttempts: int,
    timeWindow: int,
    blockDuration: int,
    permanentBlock: bool,
    active: bool)

  /** A rule created with the column defaults. */
  function NewRule(name: string, pattern: Option<string>): BlockRule {
    BlockRule(name, pattern, 10, 300, 3600, false, true)
  }

  /** The row a rule creates for an address that has none yet. */
  function RuleRecord(rule: BlockRule, now: int): BlockRecord {
    NewRecord("Triggered rule: " + rule.name, now).(rule := Some(rule.name), permanent := rule.permanentBlock)
  }

  /** The address's row after `rule` fired once for it at `now`: one more
    * attempt, the expiry pushed out for timed blocks of a rule with a
    * duration, and the row switched on once the attempts reach the rule's
    * maximum. */
  function Escalate(existing: Option<BlockRecord>, rule: BlockRule, now: int): BlockRecord {
    var base := existing.GetOr(RuleRecord(rule, now));
    var counted := base.(attemptCount := base.attemptCount + 1, lastAttemptAt := Some(now));
    var timed := if !counted.permanent && rule.blockDuration != 0
                 then counted.(expiresAt := Some(now + rule.blockDuration)) else counted;
    if timed.attemptCount >= rule.maxAttempts then timed.(active := true) else timed
  }

  /** Escalation counts one attempt, never switches a block off, and keeps
    * who created the row and why. */
  lemma EscalateKeepsHistory(existing: Option<BlockRecord>, rule: BlockRule, now: int)
    ensures var r := Escalate(existing, rule, now);
      var base := existing.GetOr(RuleRecord(rule, now));
      && r.attemptCount == base.attemptCount + 1
      && r.lastAttemptAt == Some(now)
      && (base.active ==> r.active)
      && r.reason == base.reason && r.rule == base.rule && r.blockedAt == base.blockedAt
      && r.permanent == base.permanent && r.blockedByAdmin == base.blockedByAdmin
      && r.adminNotes == base.adminNotes
  {
  }

  /** A row a rule creates is active from its first attempt, whatever the
    * rule's threshold: the threshold only matters for rows switched off
    * in the meantime. */
  lemma FirstEscalationBlocks(rule: BlockRule, now: int)
    ensures Escalate(None, rule, now).active
    ensures Escalate(None, rule, now).attemptCount == 1
    ensures BlockedNow(Escalate(None, rule, now), now) <==> rule.permanentBlock || rule.blockDuration >= 0
  {
  }

  /** With a default rule, the first failed request blocks the address for
    * one hour, nine attempts before the rule's threshold. */
  lemma DefaultRuleFirstFailure(name: string, pattern: Option<string>, now: int, t: int)
    ensures var r := Escalate(None, NewRule(name, pattern), now);
      && r.attemptCount < NewRule(name, pattern).maxAttempts
      && r.expiresAt == Some(now + 3600)
      && (now <= t ==> (BlockedNow(r, t) <==> t <= now + 3600))
  {
  }

  function Lookup(records: map<string, BlockRecord>, ip: string): Option<BlockRecord> {
    if ip in records then Some(records[ip]) else None
  }

  /** The table after `rules` fired in turn for `ip`. */
  function EscalateAll(records: map<string, BlockRecord>, ip: string, rules: seq<BlockRule>, now: int): map<string, BlockRecord>
    decreases |rules|
  {
    if rules == [] then records
    else
      var before := EscalateAll(records, ip, rules[..|rules| - 1], now);
      before[ip := Escalate(Lookup(before, ip), rules[|rules| - 1], now)]
  }

  function AttemptsOf(records: map<string, BlockRecord>, ip: string): int {
    if ip in records then records[ip].attemptCount else 0
  }

  /** Every rule that fires adds exactly one attempt to the address's row,
    * and no other address's row changes. */
  lemma {:induction false} EscalateAllCounts(records: map<string, BlockRecord>, ip: string, rules: seq<BlockRule>, now: int)
    ensures AttemptsOf(EscalateAll(records, ip, rules, now), ip) == AttemptsOf(records, ip) + |rules|
    ensures rules != [] ==> ip in EscalateAll(records, ip, rules, now)
    ensures forall other :: other != ip ==> Lookup(EscalateAll(records, ip, rules, now), other) == Lookup(records, other)
    decreases |rules|
  {
    if rules != [] {
      var front := rules[..|rules| - 1];
      EscalateAllCounts(records, ip, front, now);
      var before := EscalateAll(records, ip, front, now);
      if ip in before {
        assert Escalate(Lookup(before, ip), rules[|rules| - 1], now).attemptCount == before[ip].attemptCount + 1;
      } else {
        assert Escalate(None, rules[|rules| - 1], now).attemptCount == 1;
      }
    }
  }

  /** The blocked-address table. */
  class BlockRegistry {
    var records: map<string, BlockRecord>

    constructor ()
      ensures records == map[]
    {
      records := map[];
    }

    /** The status check of the row for `ip`, with its save on expiry. */
    method IsBlocked(ip: string, now: int) returns (blocked: bool)
      requires ip in records
      modifies this
      ensures blocked == BlockedNow(old(records[ip]), now)
      ensures records == old(records)[ip := AfterBlockCheck(old(records[ip]), now)]
    {
      var r := records[ip];
      if !r.active {
        return false;
      }
      if r.permanent {
        return true;
      }
      if r.expiresAt.Some? && now > r.expiresAt.value {
        records := records[ip := r.(active := false)];
        return false;
      }
      return true;
    }

    /** The limiter's question: is there an active row for `ip` that still
      * blocks it? */
    method IsIpBlocked(ip: string, now: int) returns (blocked: bool)
      modifies this
      ensures blocked <==> ip in old(records) && BlockedNow(old(records[ip]), now)
      ensures ip in old(records) ==> records == old(records)[ip := AfterBlockCheck(old(records[ip]), now)]
      ensures ip !in old(records) ==> records == old(records)
    {
      if ip in records && records[ip].active {
        blocked := IsBlocked(ip, now);
      } else {
        blocked := false;
      }
    }

    /** Fire `rule` once for `ip`: fetch or create its row, then escalate. */
    method ApplyBlockRule(ip: string, rule: BlockRule, now: int)
      modifies this
      ensures records == old(records)[ip := Escalate(Lookup(old(records), ip), rule, now)]
    {
      var existing: BlockRecord;
      if ip in records {
        existing := records[ip];
      } else {
        existing := RuleRecord(rule, now);
      }
      var updated := existing.(attemptCount := existing.attemptCount + 1, lastAttemptAt := Some(now));
      if !updated.permanent && rule.blockDuration != 0 {
        updated := updated.(expiresAt := Some(now + rule.blockDuration));
      }
      if updated.attemptCount >= rule.maxAttempts {
        updated := updated.(active := true);
      }
      records := records[ip := updated];
    }
  }
}
