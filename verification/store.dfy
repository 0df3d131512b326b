/**
 The partitioned row store the scanners talk to, reduced to pure data: each table name maps
 to its rows, a point read is the first row whose key matches case-insensitively, and an
 update sets one flag on every row whose key matches.
 */
module Store {
  import opened Options
  import opened Text

  /**
   One registration row. `key` is the partition's own key column (`pin_number`, `vip_code`
   or `fac_code`); `mobile_number` and `phone` are the two spellings of the contact column.
   An `id` or contact of "" behaves as a missing (falsy) value.
   */
  datatype Record = Record(
    id: string,
    key: string,
    full_name: string,
    mobile_number: Option<string>,
    phone: Option<string>,
    is_vip: bool,
    attended: bool,
    entered_at: Option<int>,
    is_suspended: bool)

  /** The whole database: table name to rows. */
  type Db = map<string, seq<Record>>

  /** The rows of a table; a table the map does not hold reads as empty. */
  function Rows(db: Db, table: string): seq<Record> {
    if table in db then db[table] else []
  }

  /** `.ilike(keyColumn, code)` for a code without wildcards. */
  predicate KeyMatches(r: Record, code: string) {
    EqualsIgnoringCase(r.key, code)
  }

  /** The position of the first row whose key matches `code`, if any. */
  function FindIndex(rows: seq<Record>, code: string): (k: Option<nat>)
    ensures k.Some? ==> k.value < |rows| && KeyMatches(rows[k.value], code)
    ensures k.Some? ==> forall j :: 0 <= j < k.value ==> !KeyMatches(rows[j], code)
    ensures k.None? <==> forall j :: 0 <= j < |rows| ==> !KeyMatches(rows[j], code)
  {
    if |rows| == 0 then None
    else if KeyMatches(rows[0], code) then Some(0)
    else
      match FindIndex(rows[1..], code)
      case None => None
      case Some(k) => Some(k + 1)
  }

  /** A point read: the matching row, if any. */
  function Find(rows: seq<Record>, code: string): (r: Option<Record>)
    ensures r.Some? ==> r.value in rows && KeyMatches(r.value, code)
    ensures r.None? <==> forall x :: x in rows ==> !KeyMatches(x, code)
  {
    match FindIndex(rows, code)
    case None => None
    case Some(k) => Some(rows[k])
  }

  /** The single-flag updates the scanners issue. */
  datatype Patch = SetSuspended | SetAttended

  function Apply(p: Patch, r: Record): Record {
    match p
    case SetSuspended => r.(is_suspended := true)
    case SetAttended => r.(attended := true)
  }

  /** The flag a patch sets. */
  predicate Flagged(p: Patch, r: Record) {
    match p
    case SetSuspended => r.is_suspended
    case SetAttended => r.attended
  }

  /**
   `.update({flag: true}).ilike(keyColumn, code)`: every matching row gets the flag, every
   other row is untouched, and no field besides the flag changes.
   */
  function UpdateMatching(rows: seq<Record>, code: string, p: Patch): (r: seq<Record>)
  {
    seq(|rows|, i requires 0 <= i < |rows| => if KeyMatches(rows[i], code) then Apply(p, rows[i]) else rows[i])
  }

  /** Every matching row gets the flag, every other row is untouched, and no field besides the flag changes. */
  lemma UpdateSetsOnlyFlag(rows: seq<Record>, code: string, p: Patch)
    ensures var r := UpdateMatching(rows, code, p);
            && |r| == |rows|
            && (forall i :: 0 <= i < |rows| && KeyMatches(rows[i], code) ==> Flagged(p, r[i]))
            && (forall i :: 0 <= i < |rows| && !KeyMatches(rows[i], code) ==> r[i] == rows[i])
            && (forall i :: 0 <= i < |rows| ==> Apply(p, r[i]) == Apply(p, rows[i]))
  {
  }

  /** The row a point read lands on is the one the update flagged. */
  lemma UpdatedRow(rows: seq<Record>, code: string, p: Patch, k: nat)
    requires FindIndex(rows, code) == Some(k)
    ensures k < |UpdateMatching(rows, code, p)| && UpdateMatching(rows, code, p)[k] == Apply(p, rows[k])
  {
  }

  /** An update never moves a row or changes a key, so every later point read lands on the same row. */
  lemma {:induction false} UpdateKeepsLookups(rows: seq<Record>, code: string, p: Patch, other: string)
    ensures FindIndex(UpdateMatching(rows, code, p), other) == FindIndex(rows, other)
  {
    if |rows| > 0 {
      var u := UpdateMatching(rows, code, p);
      assert u[0].key == rows[0].key;
      assert u[1..] == UpdateMatching(rows[1..], code, p);
      UpdateKeepsLookups(rows[1..], code, p, other);
    }
  }

  /** Re-issuing the same update changes nothing. */
  lemma UpdateIdempotent(rows: seq<Record>, code: string, p: Patch)
    ensures UpdateMatching(UpdateMatching(rows, code, p), code, p) == UpdateMatching(rows, code, p)
  {
    var u := UpdateMatching(rows, code, p);
    var v := UpdateMatching(u, code, p);
    forall i | 0 <= i < |rows|
      ensures v[i] == u[i]
    {
      if KeyMatches(rows[i], code) {
        match p
        case SetSuspended =>
        case SetAttended =>
      }
    }
  }

  /** Flags only ever go from false to true: an update never clears one. */
  lemma UpdateMonotone(rows: seq<Record>, code: string, p: Patch, q: Patch, i: int)
    requires 0 <= i < |rows| && Flagged(q, rows[i])
    ensures Flagged(q, UpdateMatching(rows, code, p)[i])
  {
  }

  /** A point read sees the code only through its case folding. */
  lemma {:induction false} FindIgnoresCase(rows: seq<Record>, a: string, b: string)
    requires FoldCase(a) == FoldCase(b)
    ensures FindIndex(rows, a) == FindIndex(rows, b)
  {
    if rows != [] {
      FindIgnoresCase(rows[1..], a, b);
    }
  }

  /** So does an update. */
  lemma UpdateIgnoresCase(rows: seq<Record>, a: string, b: string, p: Patch)
    requires FoldCase(a) == FoldCase(b)
    ensures UpdateMatching(rows, a, p) == UpdateMatching(rows, b, p)
  {
    assert forall i :: 0 <= i < |rows| ==> (KeyMatches(rows[i], a) <==> KeyMatches(rows[i], b));
  }
}
