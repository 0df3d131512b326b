/**
 The entry-gate check-in: a decoded QR text is trimmed, looked up by `pin_number` in the
 single registration table, and a registered pass is marked `attended_fest`. A lookup error
 or an unknown pin denies entry and writes nothing; a failed attendance write still grants
 entry, with a warning (the gate fails open).
 */
module CheckIn {
  import opened Options
  import opened Text
  import opened Store

  /** The only table the gate reads and writes; its key column is `pin_number`. */
  const RegistrationTable: string := "maitri_registrations"

  /** How the lookup call ends: with data (possibly none), with a returned error, or by throwing. */
  datatype LookupReply = Answered | Errored(message: string) | Threw(message: string)

  /** What the operator's card shows. */
  datatype Verdict =
    | Granted(full_name: string, pin_number: string, warning: Option<string>)
    | Denied(message: string)

  /** The scanned code as stored for display, the verdict, and the database afterwards. */
  datatype Scan = Scan(scanned: string, verdict: Verdict, db: Db)

  const NotRegistered: string := "Invalid Pass or Not Registered"
  const AttendanceWarning: string := "Warning: Failed to log attendance in DB"

  /** `onScanSuccess`. */
  function OnScanSuccess(db: Db, decoded: string, reply: LookupReply, updateFails: bool): (s: Scan)
    ensures s.verdict.Denied? ==> s.db == db
    ensures s.verdict.Granted? ==> reply.Answered?
    ensures s.db != db ==> s.verdict.Granted? && s.verdict.warning.None?
    ensures s.verdict.Granted? ==> (s.verdict.warning.Some? <==> updateFails)
  {
    var pin := Trim(decoded);
    var rows := Rows(db, RegistrationTable);
    match reply
    case Errored(message) => Scan(pin, Denied("DB Error: " + message), db)
    case Threw(message) => Scan(pin, Denied("Connection Error: " + message), db)
    case Answered =>
      match Find(rows, pin)
      case None => Scan(pin, Denied(NotRegistered), db)
      case Some(r) =>
        if updateFails then Scan(pin, Granted(r.full_name, r.key, Some(AttendanceWarning)), db)
        else Scan(pin, Granted(r.full_name, r.key, None), db[RegistrationTable := UpdateMatching(rows, pin, SetAttended)])
  }

  /**
   The verdict: a returned lookup error is reported as a database error, an unknown pin as
   not registered, and a registered pin is granted under the first matching row's name and
   pin, whether or not the attendance write succeeds.
   */
  lemma CheckInVerdicts(db: Db, decoded: string, reply: LookupReply, updateFails: bool)
    ensures var s := OnScanSuccess(db, decoded, reply, updateFails);
            var rows := Rows(db, RegistrationTable);
            var k := FindIndex(rows, Trim(decoded));
            && (reply.Errored? ==> s.verdict == Denied("DB Error: " + reply.message))
            && (reply.Threw? ==> s.verdict == Denied("Connection Error: " + reply.message))
            && (reply.Answered? && k.None? ==> s.verdict == Denied(NotRegistered))
            && (reply.Answered? && k.Some? ==>
                  s.verdict.Granted?
                  && s.verdict.full_name == rows[k.value].full_name
                  && s.verdict.pin_number == rows[k.value].key
                  && KeyMatches(rows[k.value], Trim(decoded)))
            && (s.verdict.Granted? <==> reply.Answered? && exists r :: r in rows && KeyMatches(r, Trim(decoded)))
  {
    var rows := Rows(db, RegistrationTable);
    var code := Trim(decoded);
    var k := FindIndex(rows, code);
    if k.Some? {
      assert rows[k.value] in rows;
    }
  }

  /**
   A granted scan whose write succeeds sets `attended_fest` on the matching rows of the
   registration table and nowhere else, and changes no other field.
   */
  lemma CheckInEffect(db: Db, decoded: string)
    requires OnScanSuccess(db, decoded, Answered, false).verdict.Granted?
    ensures var s := OnScanSuccess(db, decoded, Answered, false);
            var rows := Rows(db, RegistrationTable);
            var rows' := Rows(s.db, RegistrationTable);
            && (forall t :: t != RegistrationTable ==> Rows(s.db, t) == Rows(db, t))
            && |rows'| == |rows|
            && (forall i :: 0 <= i < |rows| ==> rows'[i].attended == (rows[i].attended || KeyMatches(rows[i], Trim(decoded))))
            && (forall i :: 0 <= i < |rows| ==> rows'[i].(attended := rows[i].attended) == rows[i])
  {
    var rows := Rows(db, RegistrationTable);
    assert OnScanSuccess(db, decoded, Answered, false).db == db[RegistrationTable := UpdateMatching(rows, Trim(decoded), SetAttended)];
  }

  /** The gate writes nothing but the registration table. */
  lemma CheckInWritesOneTable(db: Db, decoded: string, reply: LookupReply, updateFails: bool, t: string)
    requires t != RegistrationTable
    ensures Rows(OnScanSuccess(db, decoded, reply, updateFails).db, t) == Rows(db, t)
  {
  }

  /** Attendance is monotone: no scan ever clears `attended_fest`. */
  lemma CheckInMonotone(db: Db, decoded: string, reply: LookupReply, updateFails: bool, t: string, i: int)
    requires 0 <= i < |Rows(db, t)| && Rows(db, t)[i].attended
    ensures var rows' := Rows(OnScanSuccess(db, decoded, reply, updateFails).db, t);
            i < |rows'| && rows'[i].attended
  {
  }

  /**
   Re-scanning a pass is harmless: the second scan (same lookup and write behaviour) gives
   the same verdict and leaves the database exactly as the first scan left it.
   */
  lemma RescanIdempotent(db: Db, decoded: string, reply: LookupReply, updateFails: bool)
    ensures var s1 := OnScanSuccess(db, decoded, reply, updateFails);
            var s2 := OnScanSuccess(s1.db, decoded, reply, updateFails);
            s2.verdict == s1.verdict && s2.db == s1.db
  {
    var code := Trim(decoded);
    var rows := Rows(db, RegistrationTable);
    var s1 := OnScanSuccess(db, decoded, reply, updateFails);
    if reply.Answered? && !updateFails && FindIndex(rows, code).Some? {
      var u := UpdateMatching(rows, code, SetAttended);
      assert s1.db == db[RegistrationTable := u];
      UpdateKeepsLookups(rows, code, SetAttended, code);
      UpdateIdempotent(rows, code, SetAttended);
      var k := FindIndex(rows, code).value;
      UpdatedRow(rows, code, SetAttended, k);
    }
  }

  /** Pins differing only in letter case or surrounding white space check in the same pass. */
  lemma SamePinSameCheckIn(db: Db, a: string, b: string, reply: LookupReply, updateFails: bool)
    requires FoldCase(Trim(a)) == FoldCase(Trim(b))
    ensures OnScanSuccess(db, a, reply, updateFails).verdict == OnScanSuccess(db, b, reply, updateFails).verdict
    ensures OnScanSuccess(db, a, reply, updateFails).db == OnScanSuccess(db, b, reply, updateFails).db
  {
    var rows := Rows(db, RegistrationTable);
    FindIgnoresCase(rows, Trim(a), Trim(b));
    UpdateIgnoresCase(rows, Trim(a), Trim(b), SetAttended);
  }
}
