/**
 * Turning a scraped ticket into its database record: the race key, the
 * idempotency key of the purchase line, the derived point count and the
 * defaults, and the in-batch deduplication by that idempotency key.
 */
module Keying {
  import opened Wrappers
  import opened PyText

  /** The `raw` half of a scraped ticket: its fields as they appeared on the page. */
  datatype RawTicket = RawTicket(
    raceDateStr: string,
    racePlace: string,
    raceNumberStr: string,
    receiptNo: string,
    lineNo: string)

  /** The `parsed` half; optional keys are `None` when the scraper left them out. */
  datatype ParsedTicket<C> = ParsedTicket(
    betType: string,
    buyType: string,
    content: C,
    amountPerPoint: int,
    totalPoints: Option<int>,
    totalCost: int,
    payout: int,
    status: string,
    source: Option<string>,
    mode: Option<string>)

  datatype ScrapedTicket<C> = ScrapedTicket(raw: RawTicket, parsed: ParsedTicket<C>)

  /** One row of the `tickets` table. */
  datatype DbRecord<C> = DbRecord(
    userId: string,
    raceId: string,
    betType: string,
    buyType: string,
    content: C,
    amountPerPoint: int,
    totalPoints: int,
    totalCost: int,
    payout: int,
    status: string,
    source: string,
    mode: string,
    receiptUniqueId: string)

  /**
   * What keying depends on but does not define: the race-course code table,
   * the canonical JSON serialisation of a content (`sort_keys=True`) and the
   * MD5 hex digest of a string.
   */
  datatype Keyer<!C> = Keyer(courses: map<string, string>, serialize: C -> string, digest: string -> string)

  /** `RACE_COURSE_MAP.get(place, "00")`. */
  function PlaceCode(courses: map<string, string>, place: string): string {
    if place in courses then courses[place] else "00"
  }

  /** `race_id`: date, place code and the race number zero-filled to two characters. */
  function RaceId(courses: map<string, string>, raw: RawTicket): (id: string)
    ensures raw.raceDateStr + PlaceCode(courses, raw.racePlace) <= id
    ensures |raw.raceNumberStr| <= 2 ==> |id| == |raw.raceDateStr| + |PlaceCode(courses, raw.racePlace)| + 2
  {
    raw.raceDateStr + PlaceCode(courses, raw.racePlace) + ZFill(raw.raceNumberStr, 2)
  }

  /** The three fields of a twelve-character race key. */
  datatype RaceKey = RaceKey(date: string, place: string, race: string)

  function SplitRaceId(id: string): (k: Option<RaceKey>)
    ensures k.Some? ==> |k.value.date| == 8 && |k.value.place| == 2 && |k.value.race| == 2
  {
    if |id| == 12 then Some(RaceKey(id[..8], id[8..10], id[10..])) else None
  }

  /**
   * For an eight-character date, a two-character course code and a one- or
   * two-digit race number, the race key is twelve characters that split back
   * into the date, the course code (or "00" for an unknown course) and the
   * race number, whose numeric value the zero-fill keeps.
   */
  lemma RaceIdLayout(courses: map<string, string>, raw: RawTicket)
    requires |raw.raceDateStr| == 8
    requires raw.racePlace in courses ==> |courses[raw.racePlace]| == 2
    requires IsDigitString(raw.raceNumberStr) && |raw.raceNumberStr| <= 2
    ensures SplitRaceId(RaceId(courses, raw)).Some?
    ensures SplitRaceId(RaceId(courses, raw)).value.date == raw.raceDateStr
    ensures SplitRaceId(RaceId(courses, raw)).value.place ==
              if raw.racePlace in courses then courses[raw.racePlace] else "00"
    ensures IsDigitString(SplitRaceId(RaceId(courses, raw)).value.race)
    ensures DigitsValue(SplitRaceId(RaceId(courses, raw)).value.race) == DigitsValue(raw.raceNumberStr)
  {
    var date, code, num := raw.raceDateStr, PlaceCode(courses, raw.racePlace), raw.raceNumberStr;
    var id := date + code + ZFill(num, 2);
    assert id[..8] == date;
    assert id[8..10] == code;
    assert id[10..] == ZFill(num, 2);
    if |num| < 2 {
      assert num[0] != '+' && num[0] != '-';
      assert ZFill(num, 2) == ['0'] + num;
      assert DigitsValue(['0'] + num) == DigitsValue(num) by {
        DigitsValueLeadingZero(num);
      }
    }
  }

  lemma DigitsValueLeadingZero(s: string)
    requires |s| == 1 && IsDigit(s[0])
    ensures DigitsValue(['0'] + s) == DigitsValue(s)
  {
    assert (['0'] + s)[..1] == ['0'];
    assert (['0'] + s)[1..] == s;
  }

  /** The string whose digest is the idempotency key: `date-receipt-line-content`. */
  function UniqueString(raw: RawTicket, contentStr: string): (u: string)
    ensures raw.raceDateStr + "-" <= u
    ensures |contentStr| < |u| && u[|u| - |contentStr|..] == contentStr
  {
    raw.raceDateStr + "-" + raw.receiptNo + "-" + raw.lineNo + "-" + contentStr
  }

  lemma DashSplit(a: string, x: string, b: string, y: string)
    requires '-' !in a && '-' !in b
    requires a + "-" + x == b + "-" + y
    ensures a == b && x == y
  {
    IndexOfJoined(a, x, '-');
    IndexOfJoined(b, y, '-');
    assert a == (a + "-" + x)[..|a|];
    assert b == (b + "-" + y)[..|b|];
    assert x == (a + "-" + x)[|a| + 1..];
    assert y == (b + "-" + y)[|b| + 1..];
  }

  /**
   * When date, receipt number and line number contain no '-', the hashed
   * string determines them and the serialised content: two lines share it
   * only if they agree on all four.
   */
  lemma UniqueStringInjective(r1: RawTicket, c1: string, r2: RawTicket, c2: string)
    requires '-' !in r1.raceDateStr && '-' !in r1.receiptNo && '-' !in r1.lineNo
    requires '-' !in r2.raceDateStr && '-' !in r2.receiptNo && '-' !in r2.lineNo
    requires UniqueString(r1, c1) == UniqueString(r2, c2)
    ensures r1.raceDateStr == r2.raceDateStr && r1.receiptNo == r2.receiptNo
    ensures r1.lineNo == r2.lineNo && c1 == c2
  {
    UniqueStringShape(r1, c1);
    UniqueStringShape(r2, c2);
    var tail1, tail2 := r1.lineNo + "-" + c1, r2.lineNo + "-" + c2;
    var rest1, rest2 := r1.receiptNo + "-" + tail1, r2.receiptNo + "-" + tail2;
    DashSplit(r1.raceDateStr, rest1, r2.raceDateStr, rest2);
    DashSplit(r1.receiptNo, tail1, r2.receiptNo, tail2);
    DashSplit(r1.lineNo, c1, r2.lineNo, c2);
  }

  /** The hashed string as three dash-separated heads before the content. */
  lemma UniqueStringShape(raw: RawTicket, contentStr: string)
    ensures UniqueString(raw, contentStr)
            == raw.raceDateStr + "-" + (raw.receiptNo + "-" + (raw.lineNo + "-" + contentStr))
  {
  }

  /** `total_points`: kept unless missing or 0, then `total_cost // amount_per_point` when the stake is positive. */
  function TotalPoints(given: Option<int>, amountPerPoint: int, totalCost: int): (n: int)
    ensures given.GetOr(0) != 0 ==> n == given.value
    ensures given.GetOr(0) == 0 && amountPerPoint <= 0 ==> n == 0
    ensures given.GetOr(0) == 0 && amountPerPoint > 0 && totalCost >= 0 ==> n >= 0
  {
    var n := given.GetOr(0);
    if n == 0 && amountPerPoint > 0 then totalCost / amountPerPoint else n
  }

  /**
   * A derived point count is the number of whole stakes the total cost buys:
   * exactly the quotient when the cost is a multiple of the stake. A given
   * non-zero count is kept, and without a positive stake a missing one stays 0.
   */
  lemma TotalPointsMeaning(given: Option<int>, amountPerPoint: int, totalCost: int)
    ensures given.Some? && given.value != 0 ==> TotalPoints(given, amountPerPoint, totalCost) == given.value
    ensures given.GetOr(0) == 0 && amountPerPoint <= 0 ==> TotalPoints(given, amountPerPoint, totalCost) == 0
    ensures given.GetOr(0) == 0 && amountPerPoint > 0 ==>
              var n := TotalPoints(given, amountPerPoint, totalCost);
              && n * amountPerPoint <= totalCost < (n + 1) * amountPerPoint
              && (totalCost % amountPerPoint == 0 ==> n * amountPerPoint == totalCost)
  {
    if given.GetOr(0) == 0 && amountPerPoint > 0 {
      var n := totalCost / amountPerPoint;
      assert totalCost == n * amountPerPoint + totalCost % amountPerPoint;
      assert (n + 1) * amountPerPoint == n * amountPerPoint + amountPerPoint;
    }
  }

  /** `_map_ticket_to_db_format`. */
  function MapTicketToDbFormat<C>(k: Keyer<C>, t: ScrapedTicket<C>, userId: string): (rec: DbRecord<C>)
    ensures rec.receiptUniqueId == k.digest(UniqueString(t.raw, k.serialize(t.parsed.content)))
    ensures rec.raceId == RaceId(k.courses, t.raw)
    ensures rec.totalPoints == TotalPoints(t.parsed.totalPoints, t.parsed.amountPerPoint, t.parsed.totalCost)
    ensures rec.userId == userId
    ensures rec.betType == t.parsed.betType && rec.buyType == t.parsed.buyType && rec.content == t.parsed.content
    ensures rec.amountPerPoint == t.parsed.amountPerPoint && rec.totalCost == t.parsed.totalCost
    ensures rec.payout == t.parsed.payout && rec.status == t.parsed.status
    ensures rec.source == t.parsed.source.GetOr("IPAT_SYNC") && rec.mode == t.parsed.mode.GetOr("REAL")
  {
    var p := t.parsed;
    var raceId := RaceId(k.courses, t.raw);
    var contentStr := k.serialize(p.content);
    var receiptUniqueId := k.digest(UniqueString(t.raw, contentStr));
    var totalPoints := TotalPoints(p.totalPoints, p.amountPerPoint, p.totalCost);
    DbRecord(userId, raceId, p.betType, p.buyType, p.content, p.amountPerPoint, totalPoints,
             p.totalCost, p.payout, p.status, p.source.GetOr("IPAT_SYNC"), p.mode.GetOr("REAL"),
             receiptUniqueId)
  }

  /**
   * Keying is a fixed function of what is hashed: whatever the digest, two
   * lines agreeing on date, receipt, line and serialised content get the
   * same idempotency key.
   */
  lemma SameLineSameKey<C>(k: Keyer<C>, t1: ScrapedTicket<C>, t2: ScrapedTicket<C>, u1: string, u2: string)
    requires t1.raw.raceDateStr == t2.raw.raceDateStr && t1.raw.receiptNo == t2.raw.receiptNo
    requires t1.raw.lineNo == t2.raw.lineNo
    requires k.serialize(t1.parsed.content) == k.serialize(t2.parsed.content)
    ensures MapTicketToDbFormat(k, t1, u1).receiptUniqueId == MapTicketToDbFormat(k, t2, u2).receiptUniqueId
  {
    assert UniqueString(t1.raw, k.serialize(t1.parsed.content)) == UniqueString(t2.raw, k.serialize(t2.parsed.content));
  }

  /** The sample of the keying tests: 2023-12-24, Nakayama ("06"), race 11, 1000 yen at 100 a point. */
  lemma SampleTicketRecord<C>(k: Keyer<C>, content: C)
    requires k.courses == map["中山" := "06"]
    ensures var rec := MapTicketToDbFormat(k,
              ScrapedTicket(RawTicket("20231224", "中山", "11", "12345678", "1"),
                            ParsedTicket("WIN", "NORMAL", content, 100, None, 1000, 0, "PENDING", None, None)),
              "test_user");
            && rec.userId == "test_user" && rec.raceId == "202312240611" && rec.betType == "WIN"
            && rec.totalPoints == 10 && rec.source == "IPAT_SYNC"
  {
    assert ZFill("11", 2) == "11";
    assert RaceId(k.courses, RawTicket("20231224", "中山", "11", "12345678", "1")) == "20231224" + "06" + "11";
  }

  // ---------------------------------------------------------------------------
  // In-batch deduplication: `{r["receipt_unique_id"]: r for r in records}.values()`
  // ---------------------------------------------------------------------------

  /**
   * The dict the comprehension builds, as its insertion-ordered keys and its
   * key-to-value map: later records overwrite earlier ones with the same key,
   * which keeps the position of the first.
   */
  function DedupTable<C>(records: seq<DbRecord<C>>): (table: (seq<string>, map<string, DbRecord<C>>))
    ensures forall i, j :: 0 <= i < j < |table.0| ==> table.0[i] != table.0[j]
    ensures forall id :: id in table.1 <==> id in table.0
  {
    if records == [] then ([], map[])
    else
      var (keys, m) := DedupTable(records[..|records| - 1]);
      var last := records[|records| - 1];
      var keys' := if last.receiptUniqueId in m then keys else keys + [last.receiptUniqueId];
      (keys', m[last.receiptUniqueId := last])
  }

  /** The table holds exactly the ids of the records, each under its own id and as its last record. */
  lemma DedupTableEntry<C>(records: seq<DbRecord<C>>, id: string)
    ensures id in DedupTable(records).1 <==> exists i :: 0 <= i < |records| && records[i].receiptUniqueId == id
    ensures id in DedupTable(records).1 ==>
              && DedupTable(records).1[id].receiptUniqueId == id
              && LastWithId(records, DedupTable(records).1[id])
  {
    DedupTableIds(records, id);
    if id in DedupTable(records).1 {
      DedupTableLast(records, id);
    }
  }

  lemma {:induction false} DedupTableIds<C>(records: seq<DbRecord<C>>, id: string)
    ensures id in DedupTable(records).1 <==> exists i :: 0 <= i < |records| && records[i].receiptUniqueId == id
  {
    if records != [] {
      var init := records[..|records| - 1];
      var last := records[|records| - 1];
      DedupTableIds(init, id);
      assert DedupTable(records).1 == DedupTable(init).1[last.receiptUniqueId := last];
      if id in DedupTable(init).1 {
        var i :| 0 <= i < |init| && init[i].receiptUniqueId == id;
        assert records[i] == init[i];
      }
      if exists i :: 0 <= i < |records| && records[i].receiptUniqueId == id {
        var i :| 0 <= i < |records| && records[i].receiptUniqueId == id;
        if i < |init| {
          assert init[i] == records[i];
        }
      }
    }
  }

  lemma {:induction false} DedupTableLast<C>(records: seq<DbRecord<C>>, id: string)
    requires id in DedupTable(records).1
    ensures DedupTable(records).1[id].receiptUniqueId == id
    ensures LastWithId(records, DedupTable(records).1[id])
  {
    var init := records[..|records| - 1];
    var last := records[|records| - 1];
    assert records == init + [last];
    var m := DedupTable(init).1;
    assert DedupTable(records).1 == m[last.receiptUniqueId := last];
    if id == last.receiptUniqueId {
      assert records[|records| - 1] == DedupTable(records).1[id];
    } else {
      DedupTableLast(init, id);
      LastWithIdExtend(init, last, m[id]);
    }
  }

  lemma LastWithIdExtend<C>(init: seq<DbRecord<C>>, x: DbRecord<C>, r: DbRecord<C>)
    requires LastWithId(init, r) && x.receiptUniqueId != r.receiptUniqueId
    ensures LastWithId(init + [x], r)
  {
    var i :| 0 <= i < |init| && init[i] == r
             && forall j :: i < j < |init| ==> init[j].receiptUniqueId != r.receiptUniqueId;
    assert (init + [x])[i] == r;
  }

  /** `r` is in `records` with no later record sharing its id. */
  predicate LastWithId<C(==)>(records: seq<DbRecord<C>>, r: DbRecord<C>) {
    exists i :: 0 <= i < |records| && records[i] == r
                && forall j :: i < j < |records| ==> records[j].receiptUniqueId != r.receiptUniqueId
  }

  /** `list(unique_records_map.values())`. */
  function Dedup<C>(records: seq<DbRecord<C>>): (out: seq<DbRecord<C>>)
    ensures forall j :: 0 <= j < |out| ==> out[j] in records
    ensures forall i, j :: 0 <= i < j < |out| ==> out[i].receiptUniqueId != out[j].receiptUniqueId
  {
    var (keys, m) := DedupTable(records);
    DedupTableValues(records);
    seq(|keys|, i requires 0 <= i < |keys| => m[keys[i]])
  }

  /** Each key of the table maps to an input record carrying that key. */
  lemma DedupTableValues<C>(records: seq<DbRecord<C>>)
    ensures forall k :: 0 <= k < |DedupTable(records).0| ==>
              && DedupTable(records).1[DedupTable(records).0[k]].receiptUniqueId == DedupTable(records).0[k]
              && DedupTable(records).1[DedupTable(records).0[k]] in records
  {
    var (keys, m) := DedupTable(records);
    forall k | 0 <= k < |keys|
      ensures m[keys[k]].receiptUniqueId == keys[k] && m[keys[k]] in records
    {
      DedupTableLast(records, keys[k]);
    }
  }

  /**
   * After deduplication the ids are pairwise distinct, every input id is
   * still present, and each kept record is the last input record with its
   * id; so there are never more records than before.
   */
  lemma DedupSpec<C>(records: seq<DbRecord<C>>)
    ensures var out := Dedup(records);
            && |out| <= |records|
            && (forall i, j :: 0 <= i < j < |out| ==> out[i].receiptUniqueId != out[j].receiptUniqueId)
            && (forall i :: 0 <= i < |records| ==>
                  exists j :: 0 <= j < |out| && out[j].receiptUniqueId == records[i].receiptUniqueId)
            && (forall j :: 0 <= j < |out| ==> LastWithId(records, out[j]))
  {
    var (keys, m) := DedupTable(records);
    var out := Dedup(records);
    forall j | 0 <= j < |out|
      ensures out[j].receiptUniqueId == keys[j] && LastWithId(records, out[j])
    {
      DedupTableEntry(records, keys[j]);
    }
    forall i | 0 <= i < |records|
      ensures exists j :: 0 <= j < |out| && out[j].receiptUniqueId == records[i].receiptUniqueId
    {
      var id := records[i].receiptUniqueId;
      DedupTableEntry(records, id);
      var j :| 0 <= j < |keys| && keys[j] == id;
      assert out[j].receiptUniqueId == id;
    }
    forall k | 0 <= k < |keys|
      ensures exists r :: 0 <= r < |records| && records[r].receiptUniqueId == keys[k]
    {
      DedupTableEntry(records, keys[k]);
    }
    DistinctKeysBound(keys, records);
  }

  /** `keys` lists distinct ids of `records`, so there are no more of them than records. */
  lemma DistinctKeysBound<C>(keys: seq<string>, records: seq<DbRecord<C>>)
    requires forall i, j :: 0 <= i < j < |keys| ==> keys[i] != keys[j]
    requires forall i :: 0 <= i < |keys| ==> exists r :: 0 <= r < |records| && records[r].receiptUniqueId == keys[i]
    ensures |keys| <= |records|
  {
    var ids := set r | 0 <= r < |records| :: records[r].receiptUniqueId;
    var keySet := set i | 0 <= i < |keys| :: keys[i];
    assert keySet <= ids;
    DistinctCardinality(keys);
    ImageCardinality(records);
    SubsetCardinality(keySet, ids);
  }

  lemma DistinctCardinality(keys: seq<string>)
    requires forall i, j :: 0 <= i < j < |keys| ==> keys[i] != keys[j]
    ensures |set i | 0 <= i < |keys| :: keys[i]| == |keys|
  {
    if keys != [] {
      var init := keys[..|keys| - 1];
      DistinctCardinality(init);
      var s := set i | 0 <= i < |keys| :: keys[i];
      var s0 := set i | 0 <= i < |init| :: init[i];
      assert s == s0 + {keys[|keys| - 1]};
      assert keys[|keys| - 1] !in s0;
    }
  }

  lemma ImageCardinality<C>(records: seq<DbRecord<C>>)
    ensures |set r | 0 <= r < |records| :: records[r].receiptUniqueId| <= |records|
  {
    if records != [] {
      var init := records[..|records| - 1];
      ImageCardinality(init);
      var s := set r | 0 <= r < |records| :: records[r].receiptUniqueId;
      var s0 := set r | 0 <= r < |init| :: init[r].receiptUniqueId;
      assert s == s0 + {records[|records| - 1].receiptUniqueId};
    }
  }

  lemma SubsetCardinality(a: set<string>, b: set<string>)
    requires a <= b
    ensures |a| <= |b|
  {
    assert b == a + (b - a);
  }
}
