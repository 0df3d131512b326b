/**
 The report-and-suspend portal: a scanned or typed code is trimmed, resolved against the
 partitions in their fixed order (first hit wins, a `mobile_number` schema error earns one
 retry with `phone`, any other error skips the partition), and a fresh match is flagged
 `is_suspended`. The outcome is one of not found, already suspended, update failed (the
 portal fails closed) or suspended, and only the last emits a sync event.
 */
module Suspension {
  import opened Options
  import opened Text
  import opened Store
  import opened Partitions

  /**
   What the database does to this scan's lookups, supplied from outside: `errors[t]` is the
   message of the error the first lookup on partition `t` returns, and a partition in
   `retryFails` returns no data to the `phone` retry.
   */
  datatype Faults = Faults(errors: map<string, string>, retryFails: set<string>)

  /** The contact column a lookup projects. */
  datatype Projection = WithMobile | WithPhone

  datatype Query = Select(table: string, projection: Projection)

  /**
   A resolved credential: the partition, its key column, the row, and the contact fields of
   the projected object (after a retry, `mobile_number` is copied from `phone`).
   */
  datatype Match = Match(table: string, keyColumn: string, record: Record, mobile_number: Option<string>, phone: Option<string>)

  /** The lookups issued on one partition and what they found. */
  datatype Probe = Probe(hit: Option<Match>, queries: seq<Query>)

  /** How many partitions were probed, in order, and the match the last of them gave, if any. */
  datatype Resolution = Resolution(hit: Option<Match>, probes: nat)

  /** The first lookup failed with a message naming `mobile_number`, so the partition is asked again with `phone`. */
  predicate RetriesWithPhone(faults: Faults, table: string) {
    table in faults.errors && Contains(faults.errors[table], "mobile_number")
  }

  /** Some lookup on the partition returns data. */
  predicate Reachable(faults: Faults, table: string) {
    table !in faults.errors || (RetriesWithPhone(faults, table) && table !in faults.retryFails)
  }

  /** Probing the partition yields the row `code` names. */
  predicate Visible(db: Db, faults: Faults, code: string, table: string) {
    Reachable(faults, table) && FindIndex(Rows(db, table), code).Some?
  }

  /** None of the first `n` partitions of `tables` yields the row `code` names. */
  predicate NoneVisibleBefore(db: Db, faults: Faults, code: string, tables: seq<string>, n: nat)
    requires n <= |tables|
  {
    forall i :: 0 <= i < n ==> !Visible(db, faults, code, tables[i])
  }

  lemma NoneVisibleCons(db: Db, faults: Faults, code: string, tables: seq<string>, n: nat)
    requires 0 < |tables| && n < |tables|
    ensures NoneVisibleBefore(db, faults, code, tables, n + 1)
            <==> !Visible(db, faults, code, tables[0]) && NoneVisibleBefore(db, faults, code, tables[1..], n)
  {
    assert forall i :: 0 < i < |tables| ==> tables[i] == tables[1..][i - 1];
  }

  /** `m` is what the lookup on `m.table` returns for `code`. */
  predicate IsMatchFor(db: Db, faults: Faults, code: string, m: Match) {
    var k := FindIndex(Rows(db, m.table), code);
    && m.keyColumn == KeyColumn(m.table)
    && k.Some?
    && m.record == Rows(db, m.table)[k.value]
    && (if m.table in faults.errors
        then m.mobile_number == m.record.phone && m.phone == m.record.phone
        else m.mobile_number == m.record.mobile_number && m.phone == None)
  }

  /** One iteration of the resolver loop. */
  function ProbePartition(db: Db, faults: Faults, code: string, table: string): (p: Probe)
    ensures p.hit.Some? <==> Visible(db, faults, code, table)
    ensures p.hit.Some? ==> p.hit.value.table == table && IsMatchFor(db, faults, code, p.hit.value)
    ensures |p.queries| == (if RetriesWithPhone(faults, table) then 2 else 1)
    ensures p.queries[0] == Select(table, WithMobile)
    ensures |p.queries| == 2 ==> p.queries[1] == Select(table, WithPhone)
  {
    var rows := Rows(db, table);
    var column := KeyColumn(table);
    var first := Select(table, WithMobile);
    if table in faults.errors then
      if Contains(faults.errors[table], "mobile_number") then
        var queries := [first, Select(table, WithPhone)];
        if table in faults.retryFails then Probe(None, queries)
        else
          match FindIndex(rows, code)
          case None => Probe(None, queries)
          case Some(k) => Probe(Some(Match(table, column, rows[k], rows[k].phone, rows[k].phone)), queries)
      else
        Probe(None, [first])
    else
      match FindIndex(rows, code)
      case None => Probe(None, [first])
      case Some(k) => Probe(Some(Match(table, column, rows[k], rows[k].mobile_number, None)), [first])
  }

  /**
   `r` is the first hit of probing `tables` in order: `probes` counts the partitions asked,
   every one before the last saw nothing, and no hit means no partition could answer.
   */
  predicate IsFirstHit(db: Db, faults: Faults, code: string, tables: seq<string>, r: Resolution) {
    && r.probes <= |tables|
    && (r.hit.None? <==> NoneVisibleBefore(db, faults, code, tables, |tables|))
    && (r.hit.None? ==> r.probes == |tables|)
    && (r.hit.Some? ==>
          && 0 < r.probes
          && r.hit.value.table == tables[r.probes - 1]
          && Visible(db, faults, code, r.hit.value.table)
          && IsMatchFor(db, faults, code, r.hit.value)
          && NoneVisibleBefore(db, faults, code, tables, r.probes - 1))
  }

  lemma FirstHitAfterMiss(db: Db, faults: Faults, code: string, tables: seq<string>, rest: Resolution)
    requires tables != [] && !Visible(db, faults, code, tables[0])
    requires IsFirstHit(db, faults, code, tables[1..], rest)
    ensures IsFirstHit(db, faults, code, tables, Resolution(rest.hit, rest.probes + 1))
  {
    NoneVisibleCons(db, faults, code, tables, |tables| - 1);
    if rest.hit.Some? {
      NoneVisibleCons(db, faults, code, tables, rest.probes - 1);
    }
  }

  /** The resolver: probes `tables` in order and stops at the first partition that yields a row. */
  function Resolve(db: Db, faults: Faults, code: string, tables: seq<string>): (r: Resolution)
    ensures IsFirstHit(db, faults, code, tables, r)
    decreases |tables|
  {
    if tables == [] then Resolution(None, 0)
    else
      var p := ProbePartition(db, faults, code, tables[0]);
      if p.hit.Some? then Resolution(p.hit, 1)
      else
        var rest := Resolve(db, faults, code, tables[1..]);
        FirstHitAfterMiss(db, faults, code, tables, rest);
        Resolution(rest.hit, rest.probes + 1)
  }

  /** A pass the portal has just suspended, as shown to the operator. */
  datatype SuspendedPass = SuspendedPass(m: Match, blockName: string, isVip: bool)

  datatype Outcome =
    | Ignored            // empty input: nothing happens at all
    | PassNotFound
    | AlreadySuspended
    | UpdateFailed
    | Suspended(pass: SuspendedPass)

  /** The message the operator sees for an outcome. */
  function Message(o: Outcome): string
    requires !o.Ignored?
  {
    match o
    case PassNotFound => "Pass Not Found"
    case AlreadySuspended => "ERROR: PASS IS ALREADY SUSPENDED"
    case UpdateFailed => "Failed to update database"
    case Suspended(_) => "PASS HAS BEEN SUSPENDED"
  }

  /**
   The four outcomes show four different messages, so an invalid pass never reads like a
   failed update. A failed lookup is not distinguished: it reads as 'Pass Not Found'
   (`FailedLookupsReadAsNotFound`).
   */
  lemma MessagesDistinguishOutcomes(a: Outcome, b: Outcome)
    requires !a.Ignored? && !b.Ignored?
    requires Message(a) == Message(b)
    ensures a.Suspended? == b.Suspended? && a.PassNotFound? == b.PassNotFound?
    ensures a.AlreadySuspended? == b.AlreadySuspended? && a.UpdateFailed? == b.UpdateFailed?
  {
    assert Message(a)[0] == Message(b)[0];
    if a.UpdateFailed? || b.UpdateFailed? {
      assert Message(a)[1] == Message(b)[1];
    }
  }

  /** The reason the portal attaches to every suspension it forwards. */
  const ObserverReport: string := "Observer Report"

  /** The spreadsheet row sent for a suspension (the local timestamp is not modelled). */
  datatype Payload = Payload(
    kind: string,
    id: string,
    full_name: string,
    pin_number: string,
    mobile_number: string,
    block: string,
    reason: string)

  datatype SyncEvent = SuspensionSync(payload: Payload)

  /** JavaScript's `a || b` on a string that may be empty. */
  function Or(a: string, b: string): string {
    if a != "" then a else b
  }

  /** JavaScript's `a || b` on a field that may be null or empty. */
  function OrOpt(a: Option<string>, b: string): string {
    if a.Some? && a.value != "" then a.value else b
  }

  /** A column of the projected object; a column the lookup did not select reads as undefined. */
  function Column(m: Match, column: string): string {
    if m.keyColumn == column then m.record.key else ""
  }

  /**
   The payload of `syncSuspensionToGoogleSheets`, built with JavaScript's `||` fallbacks.
   */
  function PayloadOf(s: SuspendedPass, reason: string): (p: Payload)
  {
    var m := s.m;
    var pin := Or(Column(m, "pin_number"), Or(Column(m, "vip_code"), "N/A"));
    Payload(
      "suspension",
      Or(m.record.id, pin),
      m.record.full_name,
      pin,
      OrOpt(m.mobile_number, OrOpt(m.phone, "N/A")),
      Or(s.blockName, "UNKNOWN"),
      reason)
  }

  /**
   No fallback field (`id`, `pin_number`, `mobile_number`, `block`) is ever empty: the id falls back to the pin or VIP code, the code to
   'N/A' (always so for faculty codes, which the lookup projects under `fac_code`), the
   contact to `phone` and then 'N/A', the block to 'UNKNOWN'. The name and the reason are
   passed through unchanged.
   */
  lemma PayloadFallbacks(s: SuspendedPass, reason: string)
    ensures var p := PayloadOf(s, reason);
            var m := s.m;
            && p.kind == "suspension" && p.reason == reason && p.full_name == m.record.full_name
            && p.id != "" && p.pin_number != "" && p.mobile_number != "" && p.block != ""
            && (m.record.id != "" ==> p.id == m.record.id)
            && (m.record.id == "" ==> p.id == p.pin_number)
            && (m.keyColumn in {"pin_number", "vip_code"} && m.record.key != "" ==> p.pin_number == m.record.key)
            && (m.keyColumn !in {"pin_number", "vip_code"} || m.record.key == "" ==> p.pin_number == "N/A")
            && (m.mobile_number.Some? && m.mobile_number.value != "" ==> p.mobile_number == m.mobile_number.value)
            && (p.mobile_number == "N/A" || Some(p.mobile_number) in {m.mobile_number, m.phone})
            && (OrOpt(m.mobile_number, "") == "" && OrOpt(m.phone, "") != "" ==> p.mobile_number == m.phone.value)
            && (OrOpt(m.mobile_number, "") == "" && OrOpt(m.phone, "") == "" ==> p.mobile_number == "N/A")
            && (s.blockName != "" ==> p.block == s.blockName)
            && (s.blockName == "" ==> p.block == "UNKNOWN")
  {
  }

  /**
   The payload's `phone` fallback never decides the contact of a real match: a lookup that
   selected `mobile_number` projects no `phone`, and the `phone` retry copies `phone` into
   `mobile_number`, so whenever the first is empty so is the second.
   */
  lemma PhoneFallbackUnused(db: Db, faults: Faults, code: string, m: Match)
    requires IsMatchFor(db, faults, code, m)
    ensures OrOpt(m.mobile_number, "") == "" ==> OrOpt(m.phone, "") == ""
  {
  }

  /** What one scan leaves behind: the outcome, the database, the sync events and the partitions probed. */
  datatype Step = Step(outcome: Outcome, db: Db, events: seq<SyncEvent>, probed: seq<string>)

  /** `verifyAndSuspend`. */
  function VerifyAndSuspend(db: Db, faults: Faults, updateFails: bool, input: string): (s: Step)
    ensures input == "" ==> s == Step(Ignored, db, [], [])
    ensures input != "" ==> !s.outcome.Ignored? && 0 < |s.probed| <= |Tables| && s.probed == Tables[..|s.probed|]
    ensures !s.outcome.Suspended? ==> s.db == db && s.events == []
    ensures s.outcome.Suspended? ==> !updateFails && |s.events| == 1 && s.events[0].payload.reason == ObserverReport
  {
    if input == "" then Step(Ignored, db, [], [])
    else Settle(db, Trim(input), Resolve(db, faults, Trim(input), Tables), updateFails)
  }

  /** What follows resolution: the suspended check, the update, and the sync event. */
  function Settle(db: Db, code: string, res: Resolution, updateFails: bool): (s: Step)
    requires res.probes <= |Tables|
    ensures !s.outcome.Ignored? && s.probed == Tables[..res.probes]
    ensures !s.outcome.Suspended? ==> s.db == db && s.events == []
    ensures s.outcome.Suspended? ==> res.hit.Some? && !updateFails && |s.events| == 1 && s.events[0].payload.reason == ObserverReport
    ensures s.outcome.Suspended? ==> !res.hit.value.record.is_suspended
    ensures res.hit.Some? && res.hit.value.record.is_suspended ==> s.outcome.AlreadySuspended?
  {
    var probed := Tables[..res.probes];
    match res.hit
    case None => Step(PassNotFound, db, [], probed)
    case Some(m) =>
      if m.record.is_suspended then Step(AlreadySuspended, db, [], probed)
      else if updateFails then Step(UpdateFailed, db, [], probed)
      else
        var pass := SuspendedPass(m, BlockName(m.table), IsVip(m.record.is_vip, m.table));
        var db' := db[m.table := UpdateMatching(Rows(db, m.table), code, SetSuspended)];
        Step(Suspended(pass), db', [SuspensionSync(PayloadOf(pass, ObserverReport))], probed)
  }

  /**
   Each scan of a non-empty code ends in exactly one outcome, decided by the first partition
   that answers: none answers, its row is already suspended, the update fails (fail closed),
   or the pass is suspended.
   */
  lemma SuspendOutcomes(db: Db, faults: Faults, updateFails: bool, input: string)
    requires input != ""
    ensures var o := VerifyAndSuspend(db, faults, updateFails, input).outcome;
            var r := Resolve(db, faults, Trim(input), Tables);
            && (o.PassNotFound? <==> NoneVisibleBefore(db, faults, Trim(input), Tables, |Tables|))
            && (o.AlreadySuspended? <==> r.hit.Some? && r.hit.value.record.is_suspended)
            && (o.UpdateFailed? <==> r.hit.Some? && !r.hit.value.record.is_suspended && updateFails)
            && (o.Suspended? <==> r.hit.Some? && !r.hit.value.record.is_suspended && !updateFails)
  {
    var r := Resolve(db, faults, Trim(input), Tables);
    assert VerifyAndSuspend(db, faults, updateFails, input) == Settle(db, Trim(input), r, updateFails);
  }

  /**
   A successful suspension flags `is_suspended` on the matching rows of the matched partition
   and nowhere else, reports the partition's label and VIP status, and forwards exactly one
   sync event carrying the 'Observer Report' reason.
   */
  lemma SuspendEffect(db: Db, faults: Faults, input: string)
    requires VerifyAndSuspend(db, faults, false, input).outcome.Suspended?
    ensures var s := VerifyAndSuspend(db, faults, false, input);
            var code := Trim(input);
            var pass := s.outcome.pass;
            var m := pass.m;
            && m.table in Tables
            && IsMatchFor(db, faults, code, m)
            && !m.record.is_suspended
            && pass.blockName == BlockName(m.table)
            && pass.isVip == (m.record.is_vip || m.table == VipTable)
            && s.events == [SuspensionSync(PayloadOf(pass, ObserverReport))]
            && (forall t :: t != m.table ==> Rows(s.db, t) == Rows(db, t))
            && |Rows(s.db, m.table)| == |Rows(db, m.table)|
            && (forall i :: 0 <= i < |Rows(db, m.table)| ==>
                  Rows(s.db, m.table)[i] ==
                    if KeyMatches(Rows(db, m.table)[i], code)
                    then Rows(db, m.table)[i].(is_suspended := true)
                    else Rows(db, m.table)[i])
  {
    var code := Trim(input);
    var r := Resolve(db, faults, code, Tables);
    assert VerifyAndSuspend(db, faults, false, input) == Settle(db, code, r, false);
    var m := r.hit.value;
    assert m.table == Tables[r.probes - 1];
  }

  /** A scan writes at most one partition: the matched one, with the update the portal issues. */
  lemma SuspendWritesOneTable(db: Db, faults: Faults, updateFails: bool, input: string)
    ensures var s := VerifyAndSuspend(db, faults, updateFails, input);
            s.outcome.Suspended? ==>
              var t := s.outcome.pass.m.table;
              s.db == db[t := UpdateMatching(Rows(db, t), Trim(input), SetSuspended)]
  {
    if input != "" {
      var r := Resolve(db, faults, Trim(input), Tables);
      assert VerifyAndSuspend(db, faults, updateFails, input) == Settle(db, Trim(input), r, updateFails);
    }
  }

  /**
   When one partition holds the code and an earlier-ordered one also does, the earlier one
   wins: resolution never reaches a later partition while an earlier one would answer.
   */
  lemma EarlierPartitionWins(db: Db, faults: Faults, code: string, tables: seq<string>, i: int)
    requires 0 <= i < |tables| && Visible(db, faults, code, tables[i])
    ensures Resolve(db, faults, code, tables).hit.Some?
    ensures Resolve(db, faults, code, tables).probes <= i + 1
  {
  }

  /** The resolver reads the code only through its case folding. */
  lemma {:induction false} ResolveIgnoresCase(db: Db, faults: Faults, a: string, b: string, tables: seq<string>)
    requires FoldCase(a) == FoldCase(b)
    ensures Resolve(db, faults, a, tables) == Resolve(db, faults, b, tables)
    decreases |tables|
  {
    if tables != [] {
      FindIgnoresCase(Rows(db, tables[0]), a, b);
      ResolveIgnoresCase(db, faults, a, b, tables[1..]);
    }
  }

  /**
   Codes that differ only in letter case or in surrounding white space are the same scan:
   same outcome, same database afterwards, same events.
   */
  lemma SameCodeSameScan(db: Db, faults: Faults, updateFails: bool, a: string, b: string)
    requires a != "" && b != ""
    requires FoldCase(Trim(a)) == FoldCase(Trim(b))
    ensures VerifyAndSuspend(db, faults, updateFails, a) == VerifyAndSuspend(db, faults, updateFails, b)
  {
    var ca, cb := Trim(a), Trim(b);
    ResolveIgnoresCase(db, faults, ca, cb, Tables);
    var r := Resolve(db, faults, ca, Tables);
    assert VerifyAndSuspend(db, faults, updateFails, a) == Settle(db, ca, r, updateFails);
    assert VerifyAndSuspend(db, faults, updateFails, b) == Settle(db, cb, r, updateFails);
    if r.hit.Some? {
      UpdateIgnoresCase(Rows(db, r.hit.value.table), ca, cb, SetSuspended);
    }
  }

  /** Two databases whose partitions answer `code` alike resolve it alike. */
  lemma {:induction false} ResolveFollowsVisibility(db1: Db, db2: Db, faults: Faults, code: string, tables: seq<string>)
    requires forall t :: t in tables ==> FindIndex(Rows(db1, t), code) == FindIndex(Rows(db2, t), code)
    ensures Resolve(db1, faults, code, tables).probes == Resolve(db2, faults, code, tables).probes
    ensures Resolve(db1, faults, code, tables).hit.Some? == Resolve(db2, faults, code, tables).hit.Some?
    ensures Resolve(db1, faults, code, tables).hit.Some? ==>
              Resolve(db1, faults, code, tables).hit.value.table == Resolve(db2, faults, code, tables).hit.value.table
    decreases |tables|
  {
    if tables != [] {
      assert tables[0] in tables;
      var p1 := ProbePartition(db1, faults, code, tables[0]);
      var p2 := ProbePartition(db2, faults, code, tables[0]);
      assert p1.hit.Some? == p2.hit.Some?;
      if p1.hit.None? {
        assert forall t :: t in tables[1..] ==> t in tables;
        ResolveFollowsVisibility(db1, db2, faults, code, tables[1..]);
      }
    }
  }

  /**
   Updating the partition a code resolved to, on that code, leaves resolution where it was:
   the same partition answers, now with the flag set.
   */
  lemma ResolveAfterOwnUpdate(db: Db, faults: Faults, code: string, p: Patch)
    requires Resolve(db, faults, code, Tables).hit.Some?
    ensures var r1 := Resolve(db, faults, code, Tables);
            var t := r1.hit.value.table;
            var r2 := Resolve(db[t := UpdateMatching(Rows(db, t), code, p)], faults, code, Tables);
            && r2.probes == r1.probes
            && r2.hit.Some?
            && r2.hit.value.table == t
            && r2.hit.value.record == Apply(p, r1.hit.value.record)
  {
    var r1 := Resolve(db, faults, code, Tables);
    var t := r1.hit.value.table;
    var db' := db[t := UpdateMatching(Rows(db, t), code, p)];
    forall x | x in Tables
      ensures FindIndex(Rows(db', x), code) == FindIndex(Rows(db, x), code)
    {
      UpdateTableKeepsLookups(db, t, code, p, x);
    }
    ResolveFollowsVisibility(db', db, faults, code, Tables);
    var r2 := Resolve(db', faults, code, Tables);
    var k := FindIndex(Rows(db, t), code).value;
    assert IsMatchFor(db, faults, code, r1.hit.value);
    assert IsMatchFor(db', faults, code, r2.hit.value);
    UpdatedRow(Rows(db, t), code, p, k);
  }

  /** Updating one partition leaves every partition's point read of `code` where it was. */
  lemma UpdateTableKeepsLookups(db: Db, t: string, code: string, p: Patch, x: string)
    ensures FindIndex(Rows(db[t := UpdateMatching(Rows(db, t), code, p)], x), code) == FindIndex(Rows(db, x), code)
  {
    if x == t {
      UpdateKeepsLookups(Rows(db, t), code, p, code);
    }
  }

  /**
   Suspending is not repeatable: once a scan suspends a pass, scanning the same input again
   (with the same lookups answering) reports it already suspended and changes nothing.
   */
  lemma SuspendTwice(db: Db, faults: Faults, input: string, updateFails: bool)
    requires VerifyAndSuspend(db, faults, false, input).outcome.Suspended?
    ensures var s1 := VerifyAndSuspend(db, faults, false, input);
            var s2 := VerifyAndSuspend(s1.db, faults, updateFails, input);
            s2.outcome.AlreadySuspended? && s2.db == s1.db && s2.events == []
  {
    var code := Trim(input);
    var r1 := Resolve(db, faults, code, Tables);
    assert VerifyAndSuspend(db, faults, false, input) == Settle(db, code, r1, false);
    var t := r1.hit.value.table;
    var db' := db[t := UpdateMatching(Rows(db, t), code, SetSuspended)];
    ResolveAfterOwnUpdate(db, faults, code, SetSuspended);
    var r2 := Resolve(db', faults, code, Tables);
    assert VerifyAndSuspend(db', faults, updateFails, input) == Settle(db', code, r2, updateFails);
  }

  /**
   The resolver never reports a lookup failure as such: when every partition's lookup fails
   for a reason other than the contact column, a non-empty code reads as 'Pass Not Found'.
   */
  lemma FailedLookupsReadAsNotFound(db: Db, faults: Faults, updateFails: bool, input: string)
    requires input != ""
    requires forall t :: t in Tables ==> t in faults.errors && !Contains(faults.errors[t], "mobile_number")
    ensures VerifyAndSuspend(db, faults, updateFails, input).outcome == PassNotFound
  {
    assert forall i :: 0 <= i < |Tables| ==> Tables[i] in Tables;
  }
}
