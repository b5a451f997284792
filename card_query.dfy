/**
 * The meaning of the per-card-type count query that `card_count` in
 * auto_voucher_report_generation.py sends to Oracle for every source table.
 *
 * A table is a sequence of rows. The query keeps the rows whose SERIAL_NO is
 * not NULL, groups them by CARD_TYPE, and for each group counts the rows of
 * each status, three of them only when a timestamp lies before the start of
 * the current day; TOTAL adds the six category counts and DAILY_USED counts
 * the cards used during the previous day. The groups come out in ascending
 * CARD_TYPE order.
 *
 * `today` stands for `trunc(sysdate)`, the start of the current day, and all
 * timestamps are integer seconds, so `trunc(sysdate - 1)` is
 * `today - SecondsPerDay`.
 */
module CardQuery {
  import opened Wrappers

  const SecondsPerDay: int := 86400

  /** One row of a card table, reduced to the columns the query reads. */
  datatype CardRow = CardRow(
    cardType: int,
    status: string,
    serialNo: Option<string>,
    usedTime: int,
    expiryDate: int,
    generatedTime: int)

  /** The `COUNT(case when ... end)` columns of the query, in SELECT order. */
  datatype Column = Activated | TotalUsed | Deactivated | Expired | New | BookedIn | DailyUsed

  /** The condition inside the `case when` of column `col`. */
  predicate CaseWhen(col: Column, r: CardRow, today: int) {
    match col
    case Activated => r.status == "activated"
    case TotalUsed => r.status == "used" && r.usedTime < today
    case Deactivated => r.status == "deactivated"
    case Expired => r.status == "expired" && r.expiryDate < today
    case New => r.status == "new" && r.generatedTime < today
    case BookedIn => r.status == "bookedin"
    case DailyUsed => r.status == "used" && today - SecondsPerDay <= r.usedTime && r.usedTime < today
  }

  /** A row falls in one of the six categories that TOTAL adds up. */
  predicate Categorized(r: CardRow, today: int) {
    || CaseWhen(Activated, r, today)
    || CaseWhen(TotalUsed, r, today)
    || CaseWhen(Deactivated, r, today)
    || CaseWhen(Expired, r, today)
    || CaseWhen(New, r, today)
    || CaseWhen(BookedIn, r, today)
  }

  /** The row passes `WHERE SERIAL_NO is not null` and lands in the CARD_TYPE group `t`. */
  predicate InGroup(r: CardRow, t: int) {
    r.serialNo.Some? && r.cardType == t
  }

  /** The number of rows in group `t`. */
  function GroupSize(rows: seq<CardRow>, t: int): (n: nat)
    ensures n <= |rows|
    decreases |rows|
  {
    if rows == [] then 0
    else
      var n := |rows| - 1;
      GroupSize(rows[..n], t) + (if InGroup(rows[n], t) then 1 else 0)
  }

  /** `COUNT(case when <col> THEN 1 end)` evaluated over group `t`. */
  function Count(rows: seq<CardRow>, t: int, col: Column, today: int): (c: nat)
    ensures c <= GroupSize(rows, t)
    decreases |rows|
  {
    if rows == [] then 0
    else
      var n := |rows| - 1;
      Count(rows[..n], t, col, today) + (if InGroup(rows[n], t) && CaseWhen(col, rows[n], today) then 1 else 0)
  }

  /** The number of rows of group `t` that fall in any of the six categories. */
  function CountCategorized(rows: seq<CardRow>, t: int, today: int): (c: nat)
    ensures c <= GroupSize(rows, t)
    decreases |rows|
  {
    if rows == [] then 0
    else
      var n := |rows| - 1;
      CountCategorized(rows[..n], t, today) + (if InGroup(rows[n], t) && Categorized(rows[n], today) then 1 else 0)
  }

  /** One output row of the query. */
  datatype CardTypeCounts = CardTypeCounts(
    cardType: int,
    activated: nat,
    totalUsed: nat,
    deactivated: nat,
    expired: nat,
    newCards: nat,
    bookedIn: nat,
    total: nat,
    dailyUsed: nat)

  /** The output row of group `t`; TOTAL is written in the query as the sum of the six category counts. */
  function GroupCounts(rows: seq<CardRow>, t: int, today: int): (g: CardTypeCounts)
    ensures g.cardType == t
  {
    var activated := Count(rows, t, Activated, today);
    var totalUsed := Count(rows, t, TotalUsed, today);
    var deactivated := Count(rows, t, Deactivated, today);
    var expired := Count(rows, t, Expired, today);
    var newCards := Count(rows, t, New, today);
    var bookedIn := Count(rows, t, BookedIn, today);
    CardTypeCounts(t, activated, totalUsed, deactivated, expired, newCards, bookedIn,
                   activated + totalUsed + deactivated + expired + newCards + bookedIn,
                   Count(rows, t, DailyUsed, today))
  }

  /** The CARD_TYPE values that have at least one row with a SERIAL_NO. */
  function CardTypesPresent(rows: seq<CardRow>): set<int> {
    set i | 0 <= i < |rows| && rows[i].serialNo.Some? :: rows[i].cardType
  }

  predicate StrictlyAscending(s: seq<int>) {
    forall i, j :: 0 <= i < j < |s| ==> s[i] < s[j]
  }

  /** Adds `k` to an ascending list of distinct keys, keeping it ascending and distinct. */
  function InsertKey(ks: seq<int>, k: int): (r: seq<int>)
    requires StrictlyAscending(ks)
    ensures StrictlyAscending(r)
    ensures forall x :: x in r <==> x in ks || x == k
  {
    if ks == [] then [k]
    else if k < ks[0] then [k] + ks
    else if k == ks[0] then ks
    else
      var rest := InsertKey(ks[1..], k);
      var r := [ks[0]] + rest;
      forall i, j | 0 <= i < j < |r|
        ensures r[i] < r[j]
      {
        assert r[j] == rest[j - 1] && rest[j - 1] in rest;
        if i > 0 {
          assert r[i] == rest[i - 1];
        } else if rest[j - 1] in ks[1..] {
          var m :| 0 <= m < |ks[1..]| && ks[1..][m] == rest[j - 1];
          assert ks[m + 1] == rest[j - 1];
        }
      }
      r
  }

  /** The GROUP BY keys in ORDER BY order: each present CARD_TYPE once, ascending. */
  function GroupKeys(rows: seq<CardRow>): (ks: seq<int>)
    ensures StrictlyAscending(ks)
    ensures forall t :: t in ks <==> t in CardTypesPresent(rows)
    decreases |rows|
  {
    if rows == [] then []
    else
      var n := |rows| - 1;
      var ks := GroupKeys(rows[..n]);
      assert CardTypesPresent(rows) ==
             CardTypesPresent(rows[..n]) + (if rows[n].serialNo.Some? then {rows[n].cardType} else {}) by {
        PresentAfterAppend(rows[..n], rows[n]);
        assert rows[..n] + [rows[n]] == rows;
      }
      if rows[n].serialNo.Some? then InsertKey(ks, rows[n].cardType) else ks
  }

  lemma PresentAfterAppend(rows: seq<CardRow>, r: CardRow)
    ensures CardTypesPresent(rows + [r]) ==
            CardTypesPresent(rows) + (if r.serialNo.Some? then {r.cardType} else {})
  {
    var all := rows + [r];
    forall t | t in CardTypesPresent(all)
      ensures t in CardTypesPresent(rows) || (r.serialNo.Some? && t == r.cardType)
    {
      var i :| 0 <= i < |all| && all[i].serialNo.Some? && all[i].cardType == t;
      if i < |rows| {
        assert all[i] == rows[i];
      }
    }
    forall t | t in CardTypesPresent(rows)
      ensures t in CardTypesPresent(all)
    {
      var i :| 0 <= i < |rows| && rows[i].serialNo.Some? && rows[i].cardType == t;
      assert all[i] == rows[i];
    }
    if r.serialNo.Some? {
      assert all[|rows|] == r;
    }
  }

  /**
   * The result set of the query over one table: exactly one row per CARD_TYPE
   * that has a row with a SERIAL_NO, in strictly ascending CARD_TYPE order,
   * each holding the counts of its own group.
   */
  function Query(rows: seq<CardRow>, today: int): (report: seq<CardTypeCounts>)
    ensures forall i, j :: 0 <= i < j < |report| ==> report[i].cardType < report[j].cardType
    ensures forall t :: t in CardTypesPresent(rows) <==>
                          exists i :: 0 <= i < |report| && report[i].cardType == t
    ensures forall i :: 0 <= i < |report| ==> report[i] == GroupCounts(rows, report[i].cardType, today)
  {
    var ks := GroupKeys(rows);
    var report := seq(|ks|, i requires 0 <= i < |ks| => GroupCounts(rows, ks[i], today));
    forall t | t in ks
      ensures exists i :: 0 <= i < |report| && report[i].cardType == t
    {
      var i :| 0 <= i < |ks| && ks[i] == t;
      assert report[i].cardType == t;
    }
    report
  }

  // ---------------------------------------------------------------------
  // Counting lemmas

  /** Counting a table in two stretches adds up. */
  lemma {:induction false} CountAppend(a: seq<CardRow>, b: seq<CardRow>, t: int, col: Column, today: int)
    ensures Count(a + b, t, col, today) == Count(a, t, col, today) + Count(b, t, col, today)
    decreases |b|
  {
    if b == [] {
      assert a + b == a;
    } else {
      var n := |b| - 1;
      assert (a + b)[..|a + b| - 1] == a + b[..n];
      assert (a + b)[|a + b| - 1] == b[n];
      CountAppend(a, b[..n], t, col, today);
    }
  }

  /** A column counts nothing over rows that all fail its condition. */
  lemma {:induction false} CountNone(rows: seq<CardRow>, t: int, col: Column, today: int)
    requires forall i :: 0 <= i < |rows| ==> !CaseWhen(col, rows[i], today)
    ensures Count(rows, t, col, today) == 0
    decreases |rows|
  {
    if rows != [] {
      CountNone(rows[..|rows| - 1], t, col, today);
    }
  }

  /** Two counts agree when their conditions agree on every row. */
  lemma {:induction false} CountSameCondition(rows: seq<CardRow>, t: int, c1: Column, d1: int, c2: Column, d2: int)
    requires forall i :: 0 <= i < |rows| ==> (CaseWhen(c1, rows[i], d1) <==> CaseWhen(c2, rows[i], d2))
    ensures Count(rows, t, c1, d1) == Count(rows, t, c2, d2)
    decreases |rows|
  {
    if rows != [] {
      CountSameCondition(rows[..|rows| - 1], t, c1, d1, c2, d2);
    }
  }

  /** A card used during the previous day is also used before today, so DAILY_USED never exceeds TOTAL_USED. */
  lemma {:induction false} DailyUsedWithinTotalUsed(rows: seq<CardRow>, t: int, today: int)
    ensures Count(rows, t, DailyUsed, today) <= Count(rows, t, TotalUsed, today)
    decreases |rows|
  {
    if rows != [] {
      DailyUsedWithinTotalUsed(rows[..|rows| - 1], t, today);
    }
  }

  /**
   * The six categories exclude one another (their statuses differ), so the
   * six counts add up to the number of rows that fall in some category: no
   * row is counted twice in TOTAL.
   */
  lemma {:induction false} SixCountsAddUp(rows: seq<CardRow>, t: int, today: int)
    ensures Count(rows, t, Activated, today) + Count(rows, t, TotalUsed, today)
            + Count(rows, t, Deactivated, today) + Count(rows, t, Expired, today)
            + Count(rows, t, New, today) + Count(rows, t, BookedIn, today)
            == CountCategorized(rows, t, today)
    decreases |rows|
  {
    if rows != [] {
      SixCountsAddUp(rows[..|rows| - 1], t, today);
    }
  }

  /** Strictly ascending lists with the same elements are equal. */
  lemma {:induction false} AscendingUnique(s1: seq<int>, s2: seq<int>)
    requires StrictlyAscending(s1) && StrictlyAscending(s2)
    requires forall x :: x in s1 <==> x in s2
    ensures s1 == s2
    decreases |s1|
  {
    assert s1 != [] ==> s1[0] in s1 && s1[0] in s2;
    assert s2 != [] ==> s2[0] in s2 && s2[0] in s1;
    if s1 != [] {
      assert s1[0] == s2[0];
      forall x
        ensures x in s1[1..] <==> x in s2[1..]
      {
        if x in s1[1..] {
          var j :| 1 <= j < |s1| && s1[j] == x;
          assert x in s1;
          var k :| 0 <= k < |s2| && s2[k] == x;
          assert k != 0;
          assert s2[1..][k - 1] == x;
        }
        if x in s2[1..] {
          var k :| 1 <= k < |s2| && s2[k] == x;
          assert x in s2;
          var j :| 0 <= j < |s1| && s1[j] == x;
          assert j != 0;
          assert s1[1..][j - 1] == x;
        }
      }
      AscendingUnique(s1[1..], s2[1..]);
    }
  }

  /** A CARD_TYPE is present exactly when some row of that type has a SERIAL_NO. */
  lemma PresentByRow(rows: seq<CardRow>, t: int)
    ensures t in CardTypesPresent(rows) <==> exists r :: r in rows && r.serialNo.Some? && r.cardType == t
  {
  }

  // ---------------------------------------------------------------------
  // Properties of the report

  /**
   * Every output row: TOTAL is the sum of the six category counts and equals
   * the number of rows of the group in some category (DAILY_USED is not part
   * of it), DAILY_USED is at most TOTAL_USED, and TOTAL is at most the size
   * of the group.
   */
  lemma ReportCounters(rows: seq<CardRow>, today: int)
    ensures forall g :: g in Query(rows, today) ==>
              && g.total == g.activated + g.totalUsed + g.deactivated + g.expired + g.newCards + g.bookedIn
              && g.total == CountCategorized(rows, g.cardType, today)
              && g.total <= GroupSize(rows, g.cardType)
              && g.dailyUsed <= g.totalUsed
  {
    forall g | g in Query(rows, today)
      ensures g.total == CountCategorized(rows, g.cardType, today)
      ensures g.dailyUsed <= g.totalUsed
    {
      SixCountsAddUp(rows, g.cardType, today);
      DailyUsedWithinTotalUsed(rows, g.cardType, today);
    }
  }

  /**
   * The time conditions of the query. Appending rows to a table changes
   * TOTAL_USED and DAILY_USED only through rows used before today, EXPIRED only
   * through rows that expired before today, NEW only through rows generated
   * before today, and DAILY_USED not at all through rows used before the
   * previous day.
   */
  lemma CountersIgnoreRowsOutsideTheirWindow(rows: seq<CardRow>, extra: seq<CardRow>, t: int, today: int)
    ensures var before, after := GroupCounts(rows, t, today), GroupCounts(rows + extra, t, today);
            && ((forall i :: 0 <= i < |extra| ==> extra[i].usedTime >= today) ==>
                  after.totalUsed == before.totalUsed && after.dailyUsed == before.dailyUsed)
            && ((forall i :: 0 <= i < |extra| ==> extra[i].expiryDate >= today) ==>
                  after.expired == before.expired)
            && ((forall i :: 0 <= i < |extra| ==> extra[i].generatedTime >= today) ==>
                  after.newCards == before.newCards)
            && ((forall i :: 0 <= i < |extra| ==> extra[i].usedTime < today - SecondsPerDay) ==>
                  after.dailyUsed == before.dailyUsed)
  {
    CountAppend(rows, extra, t, TotalUsed, today);
    CountAppend(rows, extra, t, DailyUsed, today);
    CountAppend(rows, extra, t, Expired, today);
    CountAppend(rows, extra, t, New, today);
    if forall i :: 0 <= i < |extra| ==> extra[i].usedTime >= today {
      CountNone(extra, t, TotalUsed, today);
      CountNone(extra, t, DailyUsed, today);
    }
    if forall i :: 0 <= i < |extra| ==> extra[i].expiryDate >= today {
      CountNone(extra, t, Expired, today);
    }
    if forall i :: 0 <= i < |extra| ==> extra[i].generatedTime >= today {
      CountNone(extra, t, New, today);
    }
    if forall i :: 0 <= i < |extra| ==> extra[i].usedTime < today - SecondsPerDay {
      CountNone(extra, t, DailyUsed, today);
    }
  }

  /** ACTIVATED, DEACTIVATED and BOOKEDIN carry no time condition: they do not depend on the day the query runs. */
  lemma UntimedCountersIgnoreToday(rows: seq<CardRow>, t: int, day1: int, day2: int)
    ensures var g1, g2 := GroupCounts(rows, t, day1), GroupCounts(rows, t, day2);
            g1.activated == g2.activated && g1.deactivated == g2.deactivated && g1.bookedIn == g2.bookedIn
  {
    CountSameCondition(rows, t, Activated, day1, Activated, day2);
    CountSameCondition(rows, t, Deactivated, day1, Deactivated, day2);
    CountSameCondition(rows, t, BookedIn, day1, BookedIn, day2);
  }

  /** `WHERE SERIAL_NO is not null`: a row without a serial number, wherever it stands, changes nothing in the report. */
  lemma NullSerialIgnored(a: seq<CardRow>, r: CardRow, b: seq<CardRow>, today: int)
    requires r.serialNo.None?
    ensures Query(a + [r] + b, today) == Query(a + b, today)
  {
    var with, without := a + [r] + b, a + b;
    forall t
      ensures t in CardTypesPresent(with) <==> t in CardTypesPresent(without)
    {
      PresentByRow(with, t);
      PresentByRow(without, t);
    }
    AscendingUnique(GroupKeys(with), GroupKeys(without));
    forall t, col
      ensures Count(with, t, col, today) == Count(without, t, col, today)
    {
      CountAppend(a + [r], b, t, col, today);
      CountAppend(a, [r], t, col, today);
      CountAppend(a, b, t, col, today);
      assert Count([r], t, col, today) == 0 by {
        assert [r][..0] == [];
      }
    }
    var q1, q2 := Query(with, today), Query(without, today);
    assert |q1| == |q2|;
    forall i | 0 <= i < |q1|
      ensures q1[i] == q2[i]
    {
      assert GroupCounts(with, q1[i].cardType, today) == GroupCounts(without, q1[i].cardType, today);
    }
  }
}
