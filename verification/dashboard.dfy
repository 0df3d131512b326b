/**
 The observer dashboard's snapshot: every partition's attended rows are fetched, the
 partitions' callbacks fold them into shared counters (total, VIP, student, today) and a log
 of dated entries in whatever order the fetches complete, and the log is then sorted newest
 first and cut to fifty entries. A partition whose fetch fails is skipped.
 */
module Dashboard {
  import opened Options
  import opened Store
  import opened Partitions
  import opened Counting
  import CheckIn
  import Suspension

  /** A row as `.select('full_name, is_vip, entered_at').eq('attended_fest', true)` returns it. */
  datatype Fetched = Fetched(full_name: string, is_vip: bool, entered_at: Option<int>)

  /** A stored row as the select projects it. */
  function Project(r: Record): Fetched {
    Fetched(r.full_name, r.is_vip, r.entered_at)
  }

  /** The attended rows of a partition, projected, in stored order. */
  function Fetch(rows: seq<Record>): seq<Fetched> {
    if rows == [] then []
    else (if rows[0].attended then [Project(rows[0])] else []) + Fetch(rows[1..])
  }

  /** A log line: the fetched row with its partition and the partition's label. */
  datatype LogEntry = LogEntry(full_name: string, is_vip: bool, entered_at: int, table: string, blockName: string)

  /** The shared accumulators of `fetchDashboardData`. */
  datatype Tally = Tally(total: nat, vip: nat, student: nat, today: nat, logs: seq<LogEntry>)

  const Zero: Tally := Tally(0, 0, 0, 0, [])

  function Tag(f: Fetched, table: string): LogEntry
    requires f.entered_at.Some?
  {
    LogEntry(f.full_name, f.is_vip, f.entered_at.value, table, BlockName(table))
  }

  /** The stored row `r` of `table` is attended, dated, and shows in the log as `e`. */
  predicate Logs(r: Record, table: string, e: LogEntry) {
    r.attended && r.entered_at.Some?
    && e == LogEntry(r.full_name, r.is_vip, r.entered_at.value, table, BlockName(table))
  }

  /** One iteration of `data.forEach`: the VIP/student split, the today count, and the log push. */
  function CountRow(acc: Tally, f: Fetched, table: string, todayStart: int): Tally {
    var a1 := if IsVip(f.is_vip, table) then acc.(vip := acc.vip + 1) else acc.(student := acc.student + 1);
    var a2 := if f.entered_at.Some? && f.entered_at.value >= todayStart then a1.(today := a1.today + 1) else a1;
    if f.entered_at.Some? then a2.(logs := a2.logs + [Tag(f, table)]) else a2
  }

  function CountRows(acc: Tally, data: seq<Fetched>, table: string, todayStart: int): Tally
    decreases |data|
  {
    if data == [] then acc
    else CountRows(CountRow(acc, data[0], table, todayStart), data[1..], table, todayStart)
  }

  /** One partition's callback: nothing when its fetch failed, else `totalCount += data.length` and the row loop. */
  function CountTable(acc: Tally, db: Db, failed: set<string>, table: string, todayStart: int): Tally {
    if table in failed then acc
    else
      var data := Fetch(Rows(db, table));
      CountRows(acc.(total := acc.total + |data|), data, table, todayStart)
  }

  /** The callbacks in completion order, all mutating the same accumulators. */
  function CountTables(acc: Tally, db: Db, failed: set<string>, order: seq<string>, todayStart: int): Tally
    decreases |order|
  {
    if order == [] then acc
    else CountTables(CountTable(acc, db, failed, order[0], todayStart), db, failed, order[1..], todayStart)
  }

  // ---------------------------------------------------------------------------------------
  // The reference definition: what each partition contributes, counted directly.

  /** The row classes the dashboard counts. */
  datatype Criterion = VipRows(table: string) | StudentRows(table: string) | TodayRows(todayStart: int) | DatedRows

  predicate Meets(f: Fetched, c: Criterion) {
    match c
    case VipRows(table) => f.is_vip || table == VipTable
    case StudentRows(table) => !(f.is_vip || table == VipTable)
    case TodayRows(todayStart) => f.entered_at.Some? && f.entered_at.value >= todayStart
    case DatedRows => f.entered_at.Some?
  }

  function Count(data: seq<Fetched>, c: Criterion): nat {
    if data == [] then 0 else (if Meets(data[0], c) then 1 else 0) + Count(data[1..], c)
  }

  /** The dated rows, tagged, in order. */
  function Entries(data: seq<Fetched>, table: string): seq<LogEntry> {
    if data == [] then []
    else (if data[0].entered_at.Some? then [Tag(data[0], table)] else []) + Entries(data[1..], table)
  }

  /** What one partition adds: all of its attended rows, split by the VIP rule, and its dated ones as log lines. */
  function Share(db: Db, failed: set<string>, table: string, todayStart: int): Tally {
    if table in failed then Zero
    else
      var data := Fetch(Rows(db, table));
      Tally(
        |data|,
        Count(data, VipRows(table)),
        Count(data, StudentRows(table)),
        Count(data, TodayRows(todayStart)),
        Entries(data, table))
  }

  function Add(a: Tally, b: Tally): Tally {
    Tally(a.total + b.total, a.vip + b.vip, a.student + b.student, a.today + b.today, a.logs + b.logs)
  }

  function SumShares(db: Db, failed: set<string>, order: seq<string>, todayStart: int): Tally
    decreases |order|
  {
    if order == [] then Zero
    else Add(Share(db, failed, order[0], todayStart), SumShares(db, failed, order[1..], todayStart))
  }

  /** Equal counters and the same log lines, in any order. */
  predicate SameTally(a: Tally, b: Tally) {
    a.total == b.total && a.vip == b.vip && a.student == b.student && a.today == b.today
    && multiset(a.logs) == multiset(b.logs)
  }

  // ---------------------------------------------------------------------------------------
  // Sorting and truncation.

  /** Non-increasing `entered_at`. */
  predicate NewestFirst(s: seq<LogEntry>) {
    forall i, j :: 0 <= i < j < |s| ==> s[i].entered_at >= s[j].entered_at
  }

  /** Inserts `e` before the first entry it is not older than, so equal entries keep their order. */
  function Insert(e: LogEntry, s: seq<LogEntry>): seq<LogEntry> {
    if s == [] || e.entered_at >= s[0].entered_at then [e] + s
    else [s[0]] + Insert(e, s[1..])
  }

  /** The stable sort `(a, b) => b.entered_at - a.entered_at`. */
  function SortNewestFirst(s: seq<LogEntry>): seq<LogEntry> {
    if s == [] then [] else Insert(s[0], SortNewestFirst(s[1..]))
  }

  /** How many log lines the dashboard shows. */
  const LogLimit: nat := 50

  function Min(a: nat, b: nat): nat {
    if a <= b then a else b
  }

  datatype Stats = Stats(total: nat, vip: nat, student: nat, today: nat)

  datatype Snapshot = Snapshot(stats: Stats, logs: seq<LogEntry>)

  /** The log candidates a run collects, in push order. */
  function Candidates(db: Db, failed: set<string>, todayStart: int, order: seq<string>): seq<LogEntry> {
    CountTables(Zero, db, failed, order, todayStart).logs
  }

  /**
   After `Promise.all`: the counters are published as they stand, and the log is sorted
   newest first and cut to its first `LogLimit` entries.
   */
  function Publish(acc: Tally): (s: Snapshot)
    ensures s.stats == Stats(acc.total, acc.vip, acc.student, acc.today)
    ensures NewestFirst(s.logs)
    ensures |s.logs| == Min(LogLimit, |acc.logs|)
    ensures multiset(s.logs) <= multiset(acc.logs)
    ensures forall e, l :: e in multiset(acc.logs) - multiset(s.logs) && l in s.logs ==> e.entered_at <= l.entered_at
  {
    var sorted := SortNewestFirst(acc.logs);
    SortSpec(acc.logs);
    TakeNewest(sorted, LogLimit);
    Snapshot(Stats(acc.total, acc.vip, acc.student, acc.today), sorted[..Min(LogLimit, |sorted|)])
  }

  /**
   `fetchDashboardData`: `order` is the order the partitions' fetches complete in, a
   rearrangement of `TABLES`; `failed` the partitions whose fetch returns an error.
   */
  function FetchDashboardData(db: Db, failed: set<string>, todayStart: int, order: seq<string>): (s: Snapshot)
    requires multiset(order) == multiset(Tables)
    ensures NewestFirst(s.logs)
    ensures |s.logs| == Min(LogLimit, |Candidates(db, failed, todayStart, order)|)
    ensures multiset(s.logs) <= multiset(Candidates(db, failed, todayStart, order))
    ensures forall e, l :: e in multiset(Candidates(db, failed, todayStart, order)) - multiset(s.logs) && l in s.logs
              ==> e.entered_at <= l.entered_at
    ensures s.stats.vip + s.stats.student == s.stats.total && s.stats.today <= s.stats.total
  {
    CountTablesIsSum(Zero, db, failed, order, todayStart);
    SumSharesBalanced(db, failed, order, todayStart);
    Publish(CountTables(Zero, db, failed, order, todayStart))
  }

  // ---------------------------------------------------------------------------------------
  // Counting lemmas.

  /** Every row is VIP or student, never both. */
  lemma {:induction false} CountSplits(data: seq<Fetched>, table: string)
    ensures Count(data, VipRows(table)) + Count(data, StudentRows(table)) == |data|
    decreases |data|
  {
    if data != [] {
      CountSplits(data[1..], table);
    }
  }

  lemma {:induction false} CountBounded(data: seq<Fetched>, c: Criterion)
    ensures Count(data, c) <= |data|
    decreases |data|
  {
    if data != [] {
      CountBounded(data[1..], c);
    }
  }

  /** The row loop adds exactly the partition's counts and log lines to what it started from. */
  lemma {:induction false} CountRowsAdds(acc: Tally, data: seq<Fetched>, table: string, todayStart: int)
    ensures CountRows(acc, data, table, todayStart) == Add(acc, Tally(
              0,
              Count(data, VipRows(table)),
              Count(data, StudentRows(table)),
              Count(data, TodayRows(todayStart)),
              Entries(data, table)))
    decreases |data|
  {
    if data != [] {
      CountRowsAdds(CountRow(acc, data[0], table, todayStart), data[1..], table, todayStart);
      var d := data[0];
      var e := if d.entered_at.Some? then [Tag(d, table)] else [];
      assert CountRow(acc, d, table, todayStart).logs == acc.logs + e;
      assert Entries(data, table) == e + Entries(data[1..], table);
      assert acc.logs + e + Entries(data[1..], table) == acc.logs + (e + Entries(data[1..], table));
    } else {
      assert acc.logs + [] == acc.logs;
    }
  }

  /** A callback adds its partition's share. */
  lemma CountTableAdds(acc: Tally, db: Db, failed: set<string>, table: string, todayStart: int)
    ensures CountTable(acc, db, failed, table, todayStart) == Add(acc, Share(db, failed, table, todayStart))
  {
    if table in failed {
      assert acc.logs + [] == acc.logs;
    } else {
      var data := Fetch(Rows(db, table));
      CountRowsAdds(acc.(total := acc.total + |data|), data, table, todayStart);
    }
  }

  lemma AddAssociates(a: Tally, b: Tally, c: Tally)
    ensures Add(Add(a, b), c) == Add(a, Add(b, c))
  {
    assert a.logs + b.logs + c.logs == a.logs + (b.logs + c.logs);
  }

  /** The callbacks, in whatever order, add up the shares of the partitions in that order. */
  lemma {:induction false} CountTablesIsSum(acc: Tally, db: Db, failed: set<string>, order: seq<string>, todayStart: int)
    ensures CountTables(acc, db, failed, order, todayStart) == Add(acc, SumShares(db, failed, order, todayStart))
    decreases |order|
  {
    if order == [] {
      assert acc.logs + [] == acc.logs;
    } else {
      var s0 := Share(db, failed, order[0], todayStart);
      var rest := SumShares(db, failed, order[1..], todayStart);
      CountTableAdds(acc, db, failed, order[0], todayStart);
      assert CountTables(acc, db, failed, order, todayStart) == CountTables(Add(acc, s0), db, failed, order[1..], todayStart);
      CountTablesIsSum(Add(acc, s0), db, failed, order[1..], todayStart);
      AddAssociates(acc, s0, rest);
      assert SumShares(db, failed, order, todayStart) == Add(s0, rest);
    }
  }

  /** Every partition's share splits its total into VIP and student, and counts no more today than in all. */
  lemma ShareBalanced(db: Db, failed: set<string>, table: string, todayStart: int)
    ensures var s := Share(db, failed, table, todayStart);
            s.vip + s.student == s.total && s.today <= s.total
  {
    if table !in failed {
      var data := Fetch(Rows(db, table));
      CountSplits(data, table);
      CountBounded(data, TodayRows(todayStart));
    }
  }

  lemma {:induction false} SumSharesBalanced(db: Db, failed: set<string>, order: seq<string>, todayStart: int)
    ensures var s := SumShares(db, failed, order, todayStart);
            s.vip + s.student == s.total && s.today <= s.total
    decreases |order|
  {
    if order != [] {
      ShareBalanced(db, failed, order[0], todayStart);
      SumSharesBalanced(db, failed, order[1..], todayStart);
    }
  }

  // ---------------------------------------------------------------------------------------
  // Completion order does not matter.

  /** Taking one partition out of the order and adding its share back gives the same tally. */
  lemma {:induction false} SumSharesRemove(db: Db, failed: set<string>, order: seq<string>, i: nat, todayStart: int)
    requires i < |order|
    ensures SameTally(
              SumShares(db, failed, order, todayStart),
              Add(Share(db, failed, order[i], todayStart), SumShares(db, failed, order[..i] + order[i + 1..], todayStart)))
    decreases i
  {
    if i == 0 {
      assert order[..0] + order[1..] == order[1..];
    } else {
      var tail := order[1..];
      SumSharesRemove(db, failed, tail, i - 1, todayStart);
      assert order[..i] + order[i + 1..] == [order[0]] + (tail[..i - 1] + tail[i..]);
      var rest := tail[..i - 1] + tail[i..];
      assert (order[..i] + order[i + 1..])[1..] == rest;
      var s0 := Share(db, failed, order[0], todayStart);
      var si := Share(db, failed, order[i], todayStart);
      var r := SumShares(db, failed, rest, todayStart);
      var t := SumShares(db, failed, tail, todayStart);
      assert SumShares(db, failed, order, todayStart) == Add(s0, t);
      assert SumShares(db, failed, order[..i] + order[i + 1..], todayStart) == Add(s0, r);
      SameTallySwap(s0, si, r, t);
    }
  }

  lemma SameTallySwap(a: Tally, b: Tally, r: Tally, t: Tally)
    requires SameTally(t, Add(b, r))
    ensures SameTally(Add(a, t), Add(b, Add(a, r)))
  {
    assert multiset(a.logs + t.logs) == multiset(a.logs) + multiset(b.logs) + multiset(r.logs);
    assert multiset(b.logs + (a.logs + r.logs)) == multiset(a.logs) + multiset(b.logs) + multiset(r.logs);
  }

  /** The head of one arrangement sits somewhere in the other, and the rests are arrangements of each other. */
  lemma RemoveFromPermutation(o1: seq<string>, o2: seq<string>) returns (i: nat)
    requires o1 != [] && multiset(o1) == multiset(o2)
    ensures i < |o2| && o2[i] == o1[0]
    ensures multiset(o1[1..]) == multiset(o2[..i] + o2[i + 1..])
  {
    assert o1[0] in multiset(o2);
    i :| 0 <= i < |o2| && o2[i] == o1[0];
    assert o2 == o2[..i] + [o1[0]] + o2[i + 1..];
    assert o1 == [o1[0]] + o1[1..];
    assert multiset(o2) == multiset(o2[..i]) + multiset{o1[0]} + multiset(o2[i + 1..]);
    assert multiset(o1) == multiset{o1[0]} + multiset(o1[1..]);
    var rest := o2[..i] + o2[i + 1..];
    assert multiset(rest) == multiset(o2[..i]) + multiset(o2[i + 1..]);
    assert multiset(o1[1..]) == multiset(o1) - multiset{o1[0]};
    assert multiset(rest) == multiset(o2) - multiset{o1[0]};
  }

  /** Any two completion orders of the same partitions give the same counters and the same log lines. */
  lemma {:induction false} SumSharesOrderFree(db: Db, failed: set<string>, o1: seq<string>, o2: seq<string>, todayStart: int)
    requires multiset(o1) == multiset(o2)
    ensures SameTally(SumShares(db, failed, o1, todayStart), SumShares(db, failed, o2, todayStart))
    decreases |o1|
  {
    if o1 == [] {
      assert |o2| == |multiset(o2)| == 0;
    } else {
      var i := RemoveFromPermutation(o1, o2);
      var rest := o2[..i] + o2[i + 1..];
      SumSharesOrderFree(db, failed, o1[1..], rest, todayStart);
      SumSharesRemove(db, failed, o2, i, todayStart);
    }
  }

  lemma AddZero(t: Tally)
    ensures Add(Zero, t) == t
  {
    assert [] + t.logs == t.logs;
  }

  /**
   The published counters are the sums of the answering partitions' shares, and the log
   candidates are their log lines.
   */
  lemma DashboardSumsShares(db: Db, failed: set<string>, todayStart: int, order: seq<string>)
    requires multiset(order) == multiset(Tables)
    ensures var s := FetchDashboardData(db, failed, todayStart, order);
            var sum := SumShares(db, failed, order, todayStart);
            && s.stats == Stats(sum.total, sum.vip, sum.student, sum.today)
            && Candidates(db, failed, todayStart, order) == sum.logs
  {
    var acc := CountTables(Zero, db, failed, order, todayStart);
    assert FetchDashboardData(db, failed, todayStart, order) == Publish(acc);
    CountTablesIsSum(Zero, db, failed, order, todayStart);
    AddZero(SumShares(db, failed, order, todayStart));
  }

  /**
   The published counters do not depend on the order the fetches complete in, and neither
   does the collection of log candidates.
   */
  lemma DashboardOrderFree(db: Db, failed: set<string>, todayStart: int, o1: seq<string>, o2: seq<string>)
    requires multiset(o1) == multiset(Tables) && multiset(o2) == multiset(Tables)
    ensures FetchDashboardData(db, failed, todayStart, o1).stats == FetchDashboardData(db, failed, todayStart, o2).stats
    ensures multiset(Candidates(db, failed, todayStart, o1)) == multiset(Candidates(db, failed, todayStart, o2))
  {
    DashboardSumsShares(db, failed, todayStart, o1);
    DashboardSumsShares(db, failed, todayStart, o2);
    SumSharesOrderFree(db, failed, o1, o2, todayStart);
  }

  // ---------------------------------------------------------------------------------------
  // What one partition's share holds.

  // Each lemma below counts from position `lo` up, one stored row or fetched row at a time.

  /** The fetch of `rows[lo..]` returns each projected value once for every attended row there that projects to it. */
  lemma {:induction false} FetchMultiplicityFrom(rows: seq<Record>, lo: nat, f: Fetched)
    requires lo <= |rows|
    ensures multiset(Fetch(rows[lo..]))[f] == |set i | lo <= i < |rows| && rows[i].attended && Project(rows[i]) == f|
    decreases |rows| - lo
  {
    var here := set i | lo <= i < |rows| && rows[i].attended && Project(rows[i]) == f;
    if lo < |rows| {
      FetchMultiplicityFrom(rows, lo + 1, f);
      assert rows[lo..][1..] == rows[lo + 1..];
      var rest := set i | lo + 1 <= i < |rows| && rows[i].attended && Project(rows[i]) == f;
      SplitOff(here, rest, lo, rows[lo].attended && Project(rows[lo]) == f);
    } else {
      assert here == {};
    }
  }

  /** The fetch of `rows[lo..]` returns one row per attended row there. */
  lemma {:induction false} FetchLengthFrom(rows: seq<Record>, lo: nat)
    requires lo <= |rows|
    ensures |Fetch(rows[lo..])| == |set i | lo <= i < |rows| && rows[i].attended|
    decreases |rows| - lo
  {
    var here := set i | lo <= i < |rows| && rows[i].attended;
    if lo < |rows| {
      FetchLengthFrom(rows, lo + 1);
      assert rows[lo..][1..] == rows[lo + 1..];
      var rest := set i | lo + 1 <= i < |rows| && rows[i].attended;
      SplitOff(here, rest, lo, rows[lo].attended);
    } else {
      assert here == {};
    }
  }

  /**
   The fetch returns exactly the attended rows, projected: each projected value as many times
   as there are attended rows projecting to it, and nothing else.
   */
  lemma {:induction false} FetchSpec(rows: seq<Record>)
    ensures |Fetch(rows)| == |set i | 0 <= i < |rows| && rows[i].attended|
    ensures forall f :: multiset(Fetch(rows))[f] == |set i | 0 <= i < |rows| && rows[i].attended && Project(rows[i]) == f|
    ensures forall f :: f in Fetch(rows) <==> exists r :: r in rows && r.attended && f == Project(r)
    decreases |rows|
  {
    assert rows[0..] == rows;
    FetchLengthFrom(rows, 0);
    forall f
      ensures multiset(Fetch(rows))[f] == |set i | 0 <= i < |rows| && rows[i].attended && Project(rows[i]) == f|
    {
      FetchMultiplicityFrom(rows, 0, f);
    }
    if rows != [] {
      FetchSpec(rows[1..]);
      assert forall r :: r in rows <==> r == rows[0] || r in rows[1..];
    }
  }

  /** A class of the rows fetched from `rows[lo..]`, counted on the stored rows: the attended ones of that class. */
  lemma {:induction false} CountFetchedFrom(rows: seq<Record>, lo: nat, c: Criterion)
    requires lo <= |rows|
    ensures Count(Fetch(rows[lo..]), c) == |set i | lo <= i < |rows| && rows[i].attended && Meets(Project(rows[i]), c)|
    decreases |rows| - lo
  {
    var here := set i | lo <= i < |rows| && rows[i].attended && Meets(Project(rows[i]), c);
    if lo < |rows| {
      CountFetchedFrom(rows, lo + 1, c);
      assert rows[lo..][1..] == rows[lo + 1..];
      var rest := set i | lo + 1 <= i < |rows| && rows[i].attended && Meets(Project(rows[i]), c);
      SplitOff(here, rest, lo, rows[lo].attended && Meets(Project(rows[lo]), c));
      var data := Fetch(rows[lo..]);
      if rows[lo].attended {
        assert data[0] == Project(rows[lo]) && data[1..] == Fetch(rows[lo + 1..]);
        assert Count(data, c) == (if Meets(data[0], c) then 1 else 0) + Count(data[1..], c);
      } else {
        assert data == Fetch(rows[lo + 1..]);
      }
    } else {
      assert here == {};
    }
  }

  /** The log lines of `rows[lo..]`: the line of `rows[lo]`, if it logs one, then those of the rest. */
  lemma LoggedRowCons(rows: seq<Record>, lo: nat, table: string)
    requires lo < |rows|
    ensures var r := rows[lo];
            Entries(Fetch(rows[lo..]), table)
            == (if r.attended && r.entered_at.Some? then [LogEntry(r.full_name, r.is_vip, r.entered_at.value, table, BlockName(table))] else [])
               + Entries(Fetch(rows[lo + 1..]), table)
  {
    assert rows[lo..][1..] == rows[lo + 1..];
    var data := Fetch(rows[lo..]);
    if rows[lo].attended {
      assert data[0] == Project(rows[lo]) && data[1..] == Fetch(rows[lo + 1..]);
    } else {
      assert data == Fetch(rows[lo + 1..]);
    }
  }

  /** The log lines of the rows fetched from `rows[lo..]`: one per attended dated row there that tags to the line. */
  lemma {:induction false} LoggedRowsFrom(rows: seq<Record>, lo: nat, table: string, e: LogEntry)
    requires lo <= |rows|
    ensures multiset(Entries(Fetch(rows[lo..]), table))[e] == |set i | lo <= i < |rows| && Logs(rows[i], table, e)|
    decreases |rows| - lo
  {
    var here := set i | lo <= i < |rows| && Logs(rows[i], table, e);
    if lo < |rows| {
      LoggedRowsFrom(rows, lo + 1, table, e);
      assert rows[lo..][1..] == rows[lo + 1..];
      var rest := set i | lo + 1 <= i < |rows| && Logs(rows[i], table, e);
      SplitOff(here, rest, lo, Logs(rows[lo], table, e));
      LoggedRowCons(rows, lo, table);
    } else {
      assert here == {};
    }
  }

  /** `data[lo..]` logs each line once for every dated row there that it tags. */
  lemma {:induction false} EntriesMultiplicityFrom(data: seq<Fetched>, lo: nat, table: string, e: LogEntry)
    requires lo <= |data|
    ensures multiset(Entries(data[lo..], table))[e] == |set i | lo <= i < |data| && data[i].entered_at.Some? && Tag(data[i], table) == e|
    decreases |data| - lo
  {
    var here := set i | lo <= i < |data| && data[i].entered_at.Some? && Tag(data[i], table) == e;
    if lo < |data| {
      EntriesMultiplicityFrom(data, lo + 1, table, e);
      assert data[lo..][1..] == data[lo + 1..];
      var rest := set i | lo + 1 <= i < |data| && data[i].entered_at.Some? && Tag(data[i], table) == e;
      SplitOff(here, rest, lo, data[lo].entered_at.Some? && Tag(data[lo], table) == e);
    } else {
      assert here == {};
    }
  }

  /**
   A partition's log lines are exactly its dated rows, tagged: one line per dated row, each
   line as many times as there are dated rows tagging to it.
   */
  lemma {:induction false} EntriesSpec(data: seq<Fetched>, table: string)
    ensures |Entries(data, table)| == Count(data, DatedRows)
    ensures forall e :: multiset(Entries(data, table))[e] == |set i | 0 <= i < |data| && data[i].entered_at.Some? && Tag(data[i], table) == e|
    ensures forall e :: e in Entries(data, table) <==> exists f :: f in data && f.entered_at.Some? && e == Tag(f, table)
    decreases |data|
  {
    assert data[0..] == data;
    forall e
      ensures multiset(Entries(data, table))[e] == |set i | 0 <= i < |data| && data[i].entered_at.Some? && Tag(data[i], table) == e|
    {
      EntriesMultiplicityFrom(data, 0, table, e);
    }
    if data != [] {
      EntriesSpec(data[1..], table);
      assert forall f :: f in data <==> f == data[0] || f in data[1..];
    }
  }

  /**
   An answering partition's counters, counted on its stored rows: `total` counts its attended
   rows, `vip` and `student` split them by the VIP rule, and `today` counts those entered
   since midnight.
   */
  lemma ShareCounters(db: Db, failed: set<string>, table: string, todayStart: int)
    requires table !in failed
    ensures var s := Share(db, failed, table, todayStart);
            var rows := Rows(db, table);
            && s.total == |set i | 0 <= i < |rows| && rows[i].attended|
            && s.vip == |set i | 0 <= i < |rows| && rows[i].attended && IsVip(rows[i].is_vip, table)|
            && s.student == |set i | 0 <= i < |rows| && rows[i].attended && !IsVip(rows[i].is_vip, table)|
            && s.today == |set i | 0 <= i < |rows| && rows[i].attended && rows[i].entered_at.Some? && rows[i].entered_at.value >= todayStart|
  {
    var rows := Rows(db, table);
    assert rows[0..] == rows;
    FetchLengthFrom(rows, 0);
    CountFetchedFrom(rows, 0, VipRows(table));
    CountFetchedFrom(rows, 0, StudentRows(table));
    CountFetchedFrom(rows, 0, TodayRows(todayStart));
    assert (set i | 0 <= i < |rows| && rows[i].attended && Meets(Project(rows[i]), VipRows(table)))
           == (set i | 0 <= i < |rows| && rows[i].attended && IsVip(rows[i].is_vip, table));
    assert (set i | 0 <= i < |rows| && rows[i].attended && Meets(Project(rows[i]), StudentRows(table)))
           == (set i | 0 <= i < |rows| && rows[i].attended && !IsVip(rows[i].is_vip, table));
    assert (set i | 0 <= i < |rows| && rows[i].attended && Meets(Project(rows[i]), TodayRows(todayStart)))
           == (set i | 0 <= i < |rows| && rows[i].attended && rows[i].entered_at.Some? && rows[i].entered_at.value >= todayStart);
  }

  /**
   An answering partition's log lines: each line appears once for every attended dated row
   it tags with the partition and its label, and no other line appears.
   */
  lemma ShareLogLines(db: Db, failed: set<string>, table: string, todayStart: int)
    requires table !in failed
    ensures var rows := Rows(db, table);
            forall e :: multiset(Share(db, failed, table, todayStart).logs)[e] == |set i | 0 <= i < |rows| && Logs(rows[i], table, e)|
  {
    var rows := Rows(db, table);
    assert rows[0..] == rows;
    forall e
      ensures multiset(Entries(Fetch(rows), table))[e] == |set i | 0 <= i < |rows| && Logs(rows[i], table, e)|
    {
      LoggedRowsFrom(rows, 0, table, e);
    }
  }

  /** A summary of `ShareCounters` and `ShareLogLines`: one answering partition, counted on its stored rows. */
  lemma ShareCounts(db: Db, failed: set<string>, table: string, todayStart: int)
    requires table !in failed
    ensures var s := Share(db, failed, table, todayStart);
            var rows := Rows(db, table);
            && s.total == |set i | 0 <= i < |rows| && rows[i].attended|
            && s.vip == |set i | 0 <= i < |rows| && rows[i].attended && IsVip(rows[i].is_vip, table)|
            && s.student == |set i | 0 <= i < |rows| && rows[i].attended && !IsVip(rows[i].is_vip, table)|
            && s.today == |set i | 0 <= i < |rows| && rows[i].attended && rows[i].entered_at.Some? && rows[i].entered_at.value >= todayStart|
            && (forall e :: multiset(s.logs)[e] == |set i | 0 <= i < |rows| && Logs(rows[i], table, e)|)
  {
    ShareCounters(db, failed, table, todayStart);
    ShareLogLines(db, failed, table, todayStart);
  }

  /** A partition whose fetch fails reads exactly as if it held no attended rows. */
  lemma FailedPartitionReadsEmpty(db: Db, failed: set<string>, table: string, todayStart: int, order: seq<string>)
    requires multiset(order) == multiset(Tables)
    ensures FetchDashboardData(db, failed + {table}, todayStart, order)
            == FetchDashboardData(db[table := []], failed - {table}, todayStart, order)
  {
    forall t | t in order
      ensures CountTableCongruence(db, failed + {table}, db[table := []], failed - {table}, t)
    {
    }
    CountTablesCongruent(Zero, db, failed + {table}, db[table := []], failed - {table}, order, todayStart);
  }

  /** Two readings of a partition the callbacks cannot tell apart. */
  predicate CountTableCongruence(db1: Db, failed1: set<string>, db2: Db, failed2: set<string>, t: string) {
    || ((t in failed1 <==> t in failed2) && (t !in failed1 ==> Fetch(Rows(db1, t)) == Fetch(Rows(db2, t))))
    || (t in failed1 && t !in failed2 && Fetch(Rows(db2, t)) == [])
    || (t in failed2 && t !in failed1 && Fetch(Rows(db1, t)) == [])
  }

  lemma {:induction false} CountTablesCongruent(acc: Tally, db1: Db, failed1: set<string>, db2: Db, failed2: set<string>, order: seq<string>, todayStart: int)
    requires forall t :: t in order ==> CountTableCongruence(db1, failed1, db2, failed2, t)
    ensures CountTables(acc, db1, failed1, order, todayStart) == CountTables(acc, db2, failed2, order, todayStart)
    decreases |order|
  {
    if order != [] {
      var t := order[0];
      assert t in order;
      assert CountTable(acc, db1, failed1, t, todayStart) == CountTable(acc, db2, failed2, t, todayStart) by {
        if t in failed1 && t !in failed2 {
          assert acc.(total := acc.total + 0) == acc;
        } else if t in failed2 && t !in failed1 {
          assert acc.(total := acc.total + 0) == acc;
        }
      }
      assert forall u :: u in order[1..] ==> u in order;
      CountTablesCongruent(CountTable(acc, db1, failed1, t, todayStart), db1, failed1, db2, failed2, order[1..], todayStart);
    }
  }

  /** A failed fetch on every partition gives an empty dashboard. */
  lemma AllFailedIsEmpty(db: Db, todayStart: int, order: seq<string>)
    requires multiset(order) == multiset(Tables)
    ensures FetchDashboardData(db, (set t | t in Tables), todayStart, order) == Snapshot(Stats(0, 0, 0, 0), [])
  {
    var failed := (set t | t in Tables);
    forall t | t in order
      ensures t in failed
    {
      assert t in multiset(order);
    }
    AllFailedZero(db, failed, order, todayStart);
  }

  lemma {:induction false} AllFailedZero(db: Db, failed: set<string>, order: seq<string>, todayStart: int)
    requires forall t :: t in order ==> t in failed
    ensures CountTables(Zero, db, failed, order, todayStart) == Zero
    decreases |order|
  {
    if order != [] {
      assert order[0] in order;
      assert forall u :: u in order[1..] ==> u in order;
      AllFailedZero(db, failed, order[1..], todayStart);
    }
  }

  // ---------------------------------------------------------------------------------------
  // Sorting and truncation lemmas.

  /** No entry of `s` is newer than `v`. */
  predicate AtMost(v: int, s: seq<LogEntry>) {
    forall j :: 0 <= j < |s| ==> s[j].entered_at <= v
  }

  lemma {:induction false} InsertAtMost(v: int, e: LogEntry, s: seq<LogEntry>)
    requires AtMost(v, s) && e.entered_at <= v
    ensures AtMost(v, Insert(e, s))
    decreases |s|
  {
    if s != [] && e.entered_at < s[0].entered_at {
      InsertAtMost(v, e, s[1..]);
    }
  }

  lemma ConsNewestFirst(h: LogEntry, s: seq<LogEntry>)
    requires AtMost(h.entered_at, s) && NewestFirst(s)
    ensures NewestFirst([h] + s)
  {
  }

  lemma {:induction false} InsertSorted(e: LogEntry, s: seq<LogEntry>)
    requires NewestFirst(s)
    ensures NewestFirst(Insert(e, s))
    decreases |s|
  {
    if s == [] || e.entered_at >= s[0].entered_at {
      ConsNewestFirst(e, s);
    } else {
      InsertSorted(e, s[1..]);
      InsertAtMost(s[0].entered_at, e, s[1..]);
      ConsNewestFirst(s[0], Insert(e, s[1..]));
    }
  }

  lemma {:induction false} InsertPermutes(e: LogEntry, s: seq<LogEntry>)
    ensures multiset(Insert(e, s)) == multiset(s) + multiset{e}
    ensures |Insert(e, s)| == |s| + 1
    decreases |s|
  {
    if s != [] && e.entered_at < s[0].entered_at {
      InsertPermutes(e, s[1..]);
      assert s == [s[0]] + s[1..];
    }
  }

  /** The log is sorted newest first and holds exactly the candidates. */
  lemma {:induction false} SortSpec(s: seq<LogEntry>)
    ensures NewestFirst(SortNewestFirst(s))
    ensures multiset(SortNewestFirst(s)) == multiset(s)
    ensures |SortNewestFirst(s)| == |s|
    decreases |s|
  {
    if s != [] {
      SortSpec(s[1..]);
      InsertSorted(s[0], SortNewestFirst(s[1..]));
      InsertPermutes(s[0], SortNewestFirst(s[1..]));
      assert s == [s[0]] + s[1..];
    }
  }

  /** In a newest-first list, everything from position `m` on is no newer than anything before it. */
  lemma TailNotNewer(s: seq<LogEntry>, m: nat, e: LogEntry, j: nat)
    requires NewestFirst(s) && j < m <= |s| && e in s[m..]
    ensures e.entered_at <= s[j].entered_at
  {
    var i :| 0 <= i < |s[m..]| && s[m..][i] == e;
    assert s[m + i] == e;
  }

  lemma PrefixNewestFirst(s: seq<LogEntry>, m: nat)
    requires NewestFirst(s) && m <= |s|
    ensures NewestFirst(s[..m])
  {
    forall i, j | 0 <= i < j < m
      ensures s[..m][i].entered_at >= s[..m][j].entered_at
    {
      assert s[..m][i] == s[i] && s[..m][j] == s[j];
    }
  }

  /** What a cut at `m` drops is exactly the tail. */
  lemma CutDropsTail(s: seq<LogEntry>, m: nat)
    requires m <= |s|
    ensures multiset(s[..m]) <= multiset(s)
    ensures multiset(s) - multiset(s[..m]) == multiset(s[m..])
  {
    assert s == s[..m] + s[m..];
    assert multiset(s) == multiset(s[..m]) + multiset(s[m..]);
  }

  /** Cutting a newest-first list keeps it sorted and drops nothing newer than what it keeps. */
  lemma TakeNewest(s: seq<LogEntry>, n: nat)
    requires NewestFirst(s)
    ensures var k := s[..Min(n, |s|)];
            && NewestFirst(k)
            && multiset(k) <= multiset(s)
            && (forall e, l :: e in multiset(s) - multiset(k) && l in k ==> e.entered_at <= l.entered_at)
  {
    var m := Min(n, |s|);
    var k := s[..m];
    PrefixNewestFirst(s, m);
    CutDropsTail(s, m);
    forall e, l | e in multiset(s) - multiset(k) && l in k
      ensures e.entered_at <= l.entered_at
    {
      assert e in s[m..];
      var j :| 0 <= j < |k| && k[j] == l;
      TailNotNewer(s, m, e, j);
    }
  }

  // ---------------------------------------------------------------------------------------
  // What the other screens' writes do to the dashboard.

  /** Two databases whose probed partitions fetch alike publish the same snapshot. */
  lemma SameFetchSameSnapshot(db1: Db, db2: Db, failed: set<string>, todayStart: int, order: seq<string>)
    requires multiset(order) == multiset(Tables)
    requires forall t :: t in Tables ==> Fetch(Rows(db1, t)) == Fetch(Rows(db2, t))
    ensures FetchDashboardData(db1, failed, todayStart, order) == FetchDashboardData(db2, failed, todayStart, order)
  {
    forall t | t in order
      ensures CountTableCongruence(db1, failed, db2, failed, t)
    {
      assert t in multiset(order);
    }
    CountTablesCongruent(Zero, db1, failed, db2, failed, order, todayStart);
  }

  lemma GateTableNotPartition()
    ensures CheckIn.RegistrationTable !in Tables
  {
  }

  /**
   The entry gate writes only `maitri_registrations`, which is not one of the dashboard's
   partitions, so no check-in ever shows on the dashboard.
   */
  lemma CheckInsInvisible(db: Db, decoded: string, reply: CheckIn.LookupReply, updateFails: bool,
                          failed: set<string>, todayStart: int, order: seq<string>)
    requires multiset(order) == multiset(Tables)
    ensures FetchDashboardData(CheckIn.OnScanSuccess(db, decoded, reply, updateFails).db, failed, todayStart, order)
            == FetchDashboardData(db, failed, todayStart, order)
  {
    var db' := CheckIn.OnScanSuccess(db, decoded, reply, updateFails).db;
    GateTableNotPartition();
    forall t | t in Tables
      ensures Fetch(Rows(db', t)) == Fetch(Rows(db, t))
    {
      CheckIn.CheckInWritesOneTable(db, decoded, reply, updateFails, t);
    }
    SameFetchSameSnapshot(db', db, failed, todayStart, order);
  }

  /** The dashboard does not read `is_suspended`: setting it leaves every partition's fetch as it was. */
  lemma {:induction false} SuspendingKeepsFetch(rows: seq<Record>, code: string)
    ensures Fetch(UpdateMatching(rows, code, SetSuspended)) == Fetch(rows)
    decreases |rows|
  {
    if rows != [] {
      assert UpdateMatching(rows, code, SetSuspended)[1..] == UpdateMatching(rows[1..], code, SetSuspended);
      SuspendingKeepsFetch(rows[1..], code);
    }
  }

  /** Setting `is_suspended` on one partition's matching rows leaves the snapshot as it was. */
  lemma SuspendingKeepsSnapshot(db: Db, t: string, code: string, failed: set<string>, todayStart: int, order: seq<string>)
    requires multiset(order) == multiset(Tables)
    ensures FetchDashboardData(db[t := UpdateMatching(Rows(db, t), code, SetSuspended)], failed, todayStart, order)
            == FetchDashboardData(db, failed, todayStart, order)
  {
    var db' := db[t := UpdateMatching(Rows(db, t), code, SetSuspended)];
    SuspendingKeepsFetch(Rows(db, t), code);
    forall x | x in Tables
      ensures Fetch(Rows(db', x)) == Fetch(Rows(db, x))
    {
    }
    SameFetchSameSnapshot(db', db, failed, todayStart, order);
  }

  /** So a suspension leaves the dashboard as it was: suspended passes stay counted. */
  lemma SuspensionsInvisible(db: Db, faults: Suspension.Faults, updateFails: bool, input: string,
                             failed: set<string>, todayStart: int, order: seq<string>)
    requires multiset(order) == multiset(Tables)
    ensures FetchDashboardData(Suspension.VerifyAndSuspend(db, faults, updateFails, input).db, failed, todayStart, order)
            == FetchDashboardData(db, failed, todayStart, order)
  {
    var s := Suspension.VerifyAndSuspend(db, faults, updateFails, input);
    if s.outcome.Suspended? {
      Suspension.SuspendWritesOneTable(db, faults, updateFails, input);
      SuspendingKeepsSnapshot(db, s.outcome.pass.m.table, Text.Trim(input), failed, todayStart, order);
    }
  }
}
