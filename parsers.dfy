/**
 * Reading the JRA purchase-history CSV once it has been tokenised into
 * rows of cells: locating the header row, skipping summary and short rows,
 * and turning each purchase line into a ticket; and classifying a free-text
 * vote description by bet type and buy method.
 */
module Parsers {
  import opened Wrappers
  import opened PyText

  // ---------------------------------------------------------------------------
  // Bet-type table and analyze_vote_kind
  // ---------------------------------------------------------------------------

  /** The Japanese bet-type names and their codes, in table order. */
  const BetTypeMap: seq<(string, string)> := [
    ("単勝", "WIN"),
    ("複勝", "PLACE"),
    ("枠連", "BRACKET_QUINELLA"),
    ("馬連", "QUINELLA"),
    ("ワイド", "QUINELLA_PLACE"),
    ("馬単", "EXACTA"),
    ("３連複", "TRIO"),
    ("３連単", "TRIFECTA")
  ]

  function FindBetTypeFrom(text: string, i: nat): (code: string)
    requires i <= |BetTypeMap|
    ensures code == "unknown" <==> forall k :: i <= k < |BetTypeMap| ==> !Contains(text, BetTypeMap[k].0)
    ensures code != "unknown" ==>
              exists k :: i <= k < |BetTypeMap| && BetTypeMap[k].1 == code && Contains(text, BetTypeMap[k].0)
                          && forall j :: i <= j < k ==> !Contains(text, BetTypeMap[j].0)
    decreases |BetTypeMap| - i
  {
    if i == |BetTypeMap| then "unknown"
    else if Contains(text, BetTypeMap[i].0) then BetTypeMap[i].1
    else FindBetTypeFrom(text, i + 1)
  }

  /**
   * The code of the first table entry, in table order, whose name occurs in
   * `text`; "unknown" when none does.
   */
  function FindBetType(text: string): (code: string)
    ensures code == "unknown" <==> forall k :: 0 <= k < |BetTypeMap| ==> !Contains(text, BetTypeMap[k].0)
    ensures code != "unknown" ==>
              exists k :: 0 <= k < |BetTypeMap| && BetTypeMap[k].1 == code && Contains(text, BetTypeMap[k].0)
                          && forall j :: 0 <= j < k ==> !Contains(text, BetTypeMap[j].0)
  {
    FindBetTypeFrom(text, 0)
  }

  datatype VoteKind = VoteKind(betType: string, buyType: string, multi: bool)

  /**
   * `analyze_vote_kind`: ながし wins over ボックス, which wins over
   * フォーメーション; anything else is NORMAL, and only a nagashi can be multi.
   */
  function AnalyzeVoteKind(text: string): (k: VoteKind)
    ensures k.betType == FindBetType(text)
    ensures k.buyType in {"NAGASHI", "BOX", "FORMATION", "NORMAL"}
    ensures k.buyType == "NAGASHI" <==> Contains(text, "ながし")
    ensures k.buyType == "BOX" <==> !Contains(text, "ながし") && Contains(text, "ボックス")
    ensures k.buyType == "FORMATION" <==>
              !Contains(text, "ながし") && !Contains(text, "ボックス") && Contains(text, "フォーメーション")
    ensures k.multi <==> k.buyType == "NAGASHI" && Contains(text, "マルチ")
  {
    var betType := FindBetType(text);
    if Contains(text, "ながし") then VoteKind(betType, "NAGASHI", Contains(text, "マルチ"))
    else if Contains(text, "ボックス") then VoteKind(betType, "BOX", false)
    else if Contains(text, "フォーメーション") then VoteKind(betType, "FORMATION", false)
    else VoteKind(betType, "NORMAL", false)
  }

  // ---------------------------------------------------------------------------
  // Row fields of parse_jra_csv
  // ---------------------------------------------------------------------------

  /** The bet-type lookup of the CSV path: half-width '3' is made full-width first. */
  function CsvBetType(shikibetsu: string): (code: string)
    ensures '3' !in shikibetsu ==> code == FindBetType(shikibetsu)
    ensures code == "unknown" || exists k :: 0 <= k < |BetTypeMap| && BetTypeMap[k].1 == code
  {
    assert '3' !in shikibetsu ==> ReplaceChar(shikibetsu, '3', '３') == shikibetsu;
    FindBetType(ReplaceChar(shikibetsu, '3', '３'))
  }

  /** "YYYYMMDD" to "YYYY-MM-DD" by clamped slicing. */
  function FormatDate(raw: string): (d: string)
    ensures |raw| >= 6 ==> |d| == |raw| + 2 && d[4] == '-' && d[7] == '-'
    ensures |raw| >= 6 ==> d[..4] == raw[..4] && d[5..7] == raw[4..6] && d[8..] == raw[6..]
  {
    Slice(raw, 0, 4) + "-" + Slice(raw, 4, 6) + "-" + SliceFrom(raw, 6)
  }

  /**
   * An eight-character date is reformatted to ten characters, and dropping
   * the two inserted dashes gives it back when it had none of its own.
   */
  lemma FormatDateRoundTrip(raw: string)
    requires |raw| == 8
    ensures |FormatDate(raw)| == 10
    ensures FormatDate(raw) == raw[..4] + "-" + raw[4..6] + "-" + raw[6..]
    ensures '-' !in raw ==> RemoveChar(FormatDate(raw), '-') == raw
  {
    var a, b, c := raw[..4], raw[4..6], raw[6..];
    assert FormatDate(raw) == a + "-" + b + "-" + c;
    if '-' !in raw {
      assert '-' !in a && '-' !in b && '-' !in c;
      RemoveDashes(a, b, c);
      assert a + b + c == raw;
    }
  }

  lemma RemoveDashes(a: string, b: string, c: string)
    requires '-' !in a && '-' !in b && '-' !in c
    ensures RemoveChar(a + "-" + b + "-" + c, '-') == a + b + c
  {
    var dash := "-";
    assert RemoveChar(dash, '-') == [];
    RemoveCharAbsent(a, '-');
    RemoveCharAbsent(b, '-');
    RemoveCharAbsent(c, '-');
    RemoveCharAppend(a, dash, '-');
    assert RemoveChar(a + dash, '-') == a;
    RemoveCharAppend(a + dash, b, '-');
    var x := a + dash + b;
    assert RemoveChar(x, '-') == a + b;
    RemoveCharAppend(x, dash, '-');
    assert RemoveChar(x + dash, '-') == a + b;
    RemoveCharAppend(x + dash, c, '-');
  }

  /** Removal works piecewise: removing from a concatenation removes from each part. */
  lemma {:induction false} RemoveCharAppend(x: string, y: string, c: char)
    ensures RemoveChar(x + y, c) == RemoveChar(x, c) + RemoveChar(y, c)
    decreases |x|
  {
    if x == [] {
      assert x + y == y;
    } else {
      assert (x + y)[1..] == x[1..] + y;
      RemoveCharAppend(x[1..], y, c);
    }
  }

  lemma {:induction false} RemoveCharAbsent(s: string, c: char)
    requires c !in s
    ensures RemoveChar(s, c) == s
  {
    if s != [] {
      RemoveCharAbsent(s[1..], c);
    }
  }

  /** The purchase amount: the part after '／' when there is one, read with `int()`. */
  function ParseAmount(s: string): (r: Option<int>)
    ensures IsDigitString(s) ==> r == Some(DigitsValue(s))
  {
    assert IsDigitString(s) ==> forall k :: 0 <= k < |s| ==> s[k] != '／';
    if '／' in s then PyInt(Split(s, '／')[1]) else PyInt(s)
  }

  /** "a／b" with digit strings a and b is the amount b; a plain digit string is its own value. */
  lemma ParseAmountMeaning(a: string, b: string)
    requires IsDigitString(a) && IsDigitString(b)
    ensures ParseAmount(a + "／" + b) == Some(DigitsValue(b))
    ensures ParseAmount(b) == Some(DigitsValue(b))
  {
    assert forall k :: 0 <= k < |a| ==> a[k] != '／';
    assert forall k :: 0 <= k < |b| ==> b[k] != '／';
    SplitJoin([a, b], '／');
    assert Join([a, b], '／') == a + "／" + b;
    assert (a + "／" + b)[|a|] == '／';
  }

  /** The payout: thousands separators dropped, then `isdigit()` decides between its value and 0. */
  function ParsePayout(s: string): (v: int)
    ensures v >= 0
    ensures IsDigitString(RemoveChar(s, ',')) ==> v == DigitsValue(RemoveChar(s, ','))
    ensures !IsDigitString(RemoveChar(s, ',')) ==> v == 0
  {
    var t := RemoveChar(s, ',');
    if IsDigitString(t) then DigitsValue(t) else 0
  }

  /** The status column: "WIN" when it mentions 的中, else "LOSE". */
  function ParseStatus(cell: string): (status: string)
    ensures status in {"WIN", "LOSE"}
    ensures status == "WIN" <==> Contains(cell, "的中")
  {
    if Contains(cell, "的中") then "WIN" else "LOSE"
  }

  /** The `content` built from the bet-type column (式別) and the horse-number column (馬／組番). */
  datatype CsvContent = CsvContent(
    betType: string,
    buyType: string,
    multi: bool,
    axis: seq<string>,
    partners: seq<string>,
    selections: seq<seq<string>>)

  function SplitEach(parts: seq<string>, sep: char): seq<seq<string>> {
    seq(|parts|, i requires 0 <= i < |parts| => Split(parts[i], sep))
  }

  /** How the horse numbers are read for each buy method (BOX, FORMATION, NAGASHI, else NORMAL). */
  function KumibanContent(shikibetsu: string, kumiban: string): (c: CsvContent)
    ensures c.betType == CsvBetType(shikibetsu)
    ensures c.buyType in {"BOX", "FORMATION", "NAGASHI", "NORMAL"}
    ensures c.buyType == "BOX" <==> Contains(shikibetsu, "ＢＯＸ") || Contains(shikibetsu, "ボックス")
    ensures c.buyType == "FORMATION" <==>
              && !Contains(shikibetsu, "ＢＯＸ") && !Contains(shikibetsu, "ボックス")
              && Contains(shikibetsu, "フォーメーション")
    ensures c.buyType == "NAGASHI" <==>
              && !Contains(shikibetsu, "ＢＯＸ") && !Contains(shikibetsu, "ボックス")
              && !Contains(shikibetsu, "フォーメーション") && Contains(shikibetsu, "ながし")
    ensures c.multi <==> c.buyType == "NAGASHI" && Contains(shikibetsu, "マルチ")
    ensures c.buyType != "NAGASHI" ==> c.axis == [] && c.partners == []
    ensures c.buyType == "NAGASHI" ==> c.selections == []
  {
    var betType := CsvBetType(shikibetsu);
    if Contains(shikibetsu, "ＢＯＸ") || Contains(shikibetsu, "ボックス") then
      CsvContent(betType, "BOX", false, [], [], [Split(kumiban, '；')])
    else if Contains(shikibetsu, "フォーメーション") then
      CsvContent(betType, "FORMATION", false, [], [], SplitEach(Split(kumiban, '／'), '；'))
    else if Contains(shikibetsu, "ながし") then
      var multi := Contains(shikibetsu, "マルチ");
      var parts := Split(kumiban, '／');
      if |parts| >= 2 then
        CsvContent(betType, "NAGASHI", multi, Split(parts[0], '；'), Split(parts[1], '；'), [])
      else CsvContent(betType, "NAGASHI", multi, [], [], [])
    else
      CsvContent(betType, "NORMAL", false, [], [], [DigitRuns(kumiban)])
  }

  /**
   * The horse-number column is never lost: a BOX group, the FORMATION groups
   * in order, and a NAGASHI axis and partners join back into the column (or
   * its first two '／' fields), and NORMAL keeps every digit in order.
   */
  lemma KumibanRoundTrip(shikibetsu: string, kumiban: string)
    ensures var c := KumibanContent(shikibetsu, kumiban);
            && (c.buyType == "BOX" ==>
                  && |c.selections| == 1 && Join(c.selections[0], '；') == kumiban
                  && forall j :: 0 <= j < |c.selections[0]| ==> '；' !in c.selections[0][j])
            && (c.buyType == "FORMATION" ==>
                  |c.selections| == |Split(kumiban, '／')|
                  && forall i :: 0 <= i < |c.selections| ==>
                       && |c.selections[i]| >= 1 && Join(c.selections[i], '；') == Split(kumiban, '／')[i]
                       && forall j :: 0 <= j < |c.selections[i]| ==>
                            '；' !in c.selections[i][j] && '／' !in c.selections[i][j])
            && (c.buyType == "NAGASHI" && '／' in kumiban ==>
                  && |c.axis| >= 1 && |c.partners| >= 1
                  && Join(c.axis, '；') == Split(kumiban, '／')[0]
                  && Join(c.partners, '；') == Split(kumiban, '／')[1]
                  && (forall j :: 0 <= j < |c.axis| ==> '；' !in c.axis[j] && '／' !in c.axis[j])
                  && (forall j :: 0 <= j < |c.partners| ==> '；' !in c.partners[j] && '／' !in c.partners[j])
                  && Join(c.axis, '；') + "／" + Join(c.partners, '；') <= kumiban)
            && (c.buyType == "NAGASHI" && '／' !in kumiban ==> c.axis == [] && c.partners == [])
            && (c.buyType == "NORMAL" ==>
                  |c.selections| == 1 && Concat(c.selections[0]) == DigitsOf(kumiban)
                  && forall i :: 0 <= i < |c.selections[0]| ==> IsDigitString(c.selections[0][i]))
  {
    var c := KumibanContent(shikibetsu, kumiban);
    var parts := Split(kumiban, '／');
    if c.buyType == "FORMATION" {
      forall i | 0 <= i < |c.selections|
        ensures forall j :: 0 <= j < |c.selections[i]| ==> '／' !in c.selections[i][j]
      {
        assert c.selections[i] == Split(parts[i], '；');
        JoinPartsFree(c.selections[i], '；', '／');
      }
    } else if c.buyType == "NAGASHI" {
      if '／' in kumiban {
        SplitHasSeveral(kumiban, '／');
        JoinPrefix(parts, '／');
        JoinPartsFree(c.axis, '；', '／');
        JoinPartsFree(c.partners, '；', '／');
      } else {
        SplitWithoutSep(kumiban, '／');
      }
    }
  }

  /**
   * A NORMAL ticket written as two numbers joined by a dash ("03-08") has
   * exactly those two numbers as its one selection.
   */
  lemma NormalKumibanPair(shikibetsu: string, x: string, y: string)
    requires !Contains(shikibetsu, "ＢＯＸ") && !Contains(shikibetsu, "ボックス")
    requires !Contains(shikibetsu, "フォーメーション") && !Contains(shikibetsu, "ながし")
    requires IsDigitString(x) && IsDigitString(y)
    ensures KumibanContent(shikibetsu, x + "-" + y).buyType == "NORMAL"
    ensures KumibanContent(shikibetsu, x + "-" + y).selections == [[x, y]]
  {
    DigitRunsOfPair(x, y);
  }

  /** A string holding the separator splits into at least two parts. */
  lemma SplitHasSeveral(s: string, sep: char)
    requires sep in s
    ensures |Split(s, sep)| >= 2
  {
    JoinOfOne(Split(s, sep), sep);
  }

  lemma JoinOfOne(p: seq<string>, sep: char)
    requires |p| >= 1
    ensures sep in Join(p, sep) ==> |p| >= 2 || sep in p[0]
  {
  }

  lemma SplitWithoutSep(s: string, sep: char)
    requires sep !in s
    ensures |Split(s, sep)| == 1
  {
    var p := Split(s, sep);
    if |p| > 1 {
      JoinHasSep(p, sep);
      assert false;
    }
  }

  lemma JoinPrefix(parts: seq<string>, sep: char)
    requires |parts| >= 2
    ensures parts[0] + [sep] + parts[1] <= Join(parts, sep)
  {
    assert Join(parts, sep) == parts[0] + [sep] + Join(parts[1..], sep);
    assert parts[1..][0] == parts[1];
    if |parts| > 2 {
      assert Join(parts[1..], sep) == parts[1] + [sep] + Join(parts[2..], sep);
    }
  }

  /** An occurrence of `pat` in `text` puts each character of `pat` into `text`. */
  lemma OccurrenceChars(text: string, pat: string, i: int, j: int)
    requires 0 <= j < |pat|
    ensures OccursAt(text, pat, i) ==> pat[j] in text
  {
    if OccursAt(text, pat, i) {
      assert text[i + j] == text[i..i + |pat|][j];
    }
  }

  /** A pattern with a character that `text` lacks does not occur in it. */
  lemma AbsentCharExcludes(text: string, pat: string, j: int)
    requires 0 <= j < |pat| && pat[j] !in text
    ensures !Contains(text, pat)
  {
    ContainsAt(text, pat);
    forall i
      ensures !OccursAt(text, pat, i)
    {
      OccurrenceChars(text, pat, i, j);
    }
  }

  /** The half-width fix-up is what makes "3連単" a TRIFECTA; without it no table name occurs. */
  lemma HalfWidthThreeFixUp()
    ensures CsvBetType("3連単") == "TRIFECTA"
    ensures FindBetType("3連単") == "unknown"
  {
    FullWidthThreeIsTrifecta();
    HalfWidthThreeUnknown();
  }

  lemma FullWidthThreeIsTrifecta()
    ensures CsvBetType("3連単") == "TRIFECTA"
  {
    ThreeReplaced();
    FullWidthTrifectaName();
  }

  /** The fix-up turns the half-width '3' of 3連単 into the full-width '３'. */
  lemma ThreeReplaced()
    ensures ReplaceChar("3連単", '3', '３') == "３連単"
  {
  }

  /** The full-width name is found at the last table entry only. */
  lemma FullWidthTrifectaName()
    ensures FindBetType("３連単") == "TRIFECTA"
  {
    var t := "３連単";
    ContainsAt(t, "３連単");
    assert OccursAt(t, "３連単", 0);
    forall k | 0 <= k < 7
      ensures !Contains(t, BetTypeMap[k].0)
    {
      var j := if k < 2 then 1 else if k == 6 then 2 else 0;
      AbsentCharExcludes(t, BetTypeMap[k].0, j);
    }
  }

  lemma HalfWidthThreeUnknown()
    ensures FindBetType("3連単") == "unknown"
  {
    forall k | 0 <= k < |BetTypeMap|
      ensures !Contains("3連単", BetTypeMap[k].0)
    {
      var j := if k < 2 then 1 else 0;
      AbsentCharExcludes("3連単", BetTypeMap[k].0, j);
    }
  }

  /**
   * The CSV path checks BOX before NAGASHI, `analyze_vote_kind` the other
   * way round; on text naming at most one method, without "ＢＯＸ", the two
   * classifications agree.
   */
  lemma MethodRulesAgree(text: string)
    requires !Contains(text, "ＢＯＸ")
    requires !(Contains(text, "ながし") && Contains(text, "ボックス"))
    requires !(Contains(text, "ながし") && Contains(text, "フォーメーション"))
    ensures KumibanContent(text, "").buyType == AnalyzeVoteKind(text).buyType
    ensures KumibanContent(text, "").multi == AnalyzeVoteKind(text).multi
  {
  }

  // ---------------------------------------------------------------------------
  // parse_jra_csv
  // ---------------------------------------------------------------------------

  /** One purchase line of the CSV, as `parse_jra_csv` returns it. */
  datatype CsvTicket = CsvTicket(
    racePlace: string,
    raceNumber: string,
    raceDate: string,
    content: CsvContent,
    amount: int,
    payout: int,
    status: string,
    mode: string)

  /** The label of the date column, which also marks the header row. */
  const DateLabel: string := "日付"

  /** A header row: its first cell, stripped, is 日付. */
  predicate IsHeaderRow(row: seq<string>) {
    row != [] && Strip(row[0]) == DateLabel
  }

  /** `{name: i for i, name in enumerate(header)}[name]`: the last column with that name. */
  function ColumnIndex(header: seq<string>, name: string): (r: Option<nat>)
    ensures r.None? <==> name !in header
    ensures r.Some? ==> r.value < |header| && header[r.value] == name
                        && forall j :: r.value < j < |header| ==> header[j] != name
  {
    if header == [] then None
    else if header[|header| - 1] == name then Some(|header| - 1)
    else ColumnIndex(header[..|header| - 1], name)
  }

  /** Rows the loop passes over: empty, shorter than the header, or with a cell mentioning 合計. */
  function SkipRow(headerLength: nat, row: seq<string>): (skip: bool)
    ensures !skip ==> row != [] && |row| >= headerLength
    ensures !skip ==> forall i :: 0 <= i < |row| ==> !Contains(row[i], "合計")
  {
    row == [] || |row| < headerLength || exists i :: 0 <= i < |row| && Contains(row[i], "合計")
  }

  /**
   * One data row read as a ticket; `None` where the source catches KeyError
   * (a named column missing from the header) or ValueError (an amount `int()`
   * rejects). Indexing cannot fail: the row is at least as long as the header.
   */
  function ParseRow(header: seq<string>, row: seq<string>): (r: Option<CsvTicket>)
    requires |row| >= |header|
    ensures r.Some? <==>
              && (forall name :: name in RequiredColumns ==> name in header)
              && ParseAmount(row[ColumnIndex(header, "購入金額").value]).Some?
    ensures r.Some? ==> r.value.mode == "REAL" && r.value.status in {"WIN", "LOSE"} && r.value.payout >= 0
    ensures r.Some? ==> r.value.racePlace == row[ColumnIndex(header, "場名").value]
    ensures r.Some? ==> r.value.raceNumber == row[ColumnIndex(header, "レース").value] + "R"
    ensures r.Some? ==> r.value.raceDate == FormatDate(row[ColumnIndex(header, "日付").value])
    ensures r.Some? ==> r.value.amount == ParseAmount(row[ColumnIndex(header, "購入金額").value]).value
    ensures r.Some? ==> r.value.payout == ParsePayout(row[ColumnIndex(header, "払戻金額").value])
    ensures r.Some? ==> r.value.status == ParseStatus(row[ColumnIndex(header, "的中／返還").value])
    ensures r.Some? ==>
              r.value.content == KumibanContent(row[ColumnIndex(header, "式別").value], row[ColumnIndex(header, "馬／組番").value])
  {
    var iDate := ColumnIndex(header, "日付");
    var iAmount := ColumnIndex(header, "購入金額");
    var iPayout := ColumnIndex(header, "払戻金額");
    var iHit := ColumnIndex(header, "的中／返還");
    var iKind := ColumnIndex(header, "式別");
    var iKumiban := ColumnIndex(header, "馬／組番");
    var iPlace := ColumnIndex(header, "場名");
    var iRace := ColumnIndex(header, "レース");
    if iDate.None? || iAmount.None? || iPayout.None? || iHit.None?
       || iKind.None? || iKumiban.None? || iPlace.None? || iRace.None? then None
    else
      var amount := ParseAmount(row[iAmount.value]);
      if amount.None? then None
      else
        Some(CsvTicket(
          row[iPlace.value],
          row[iRace.value] + "R",
          FormatDate(row[iDate.value]),
          KumibanContent(row[iKind.value], row[iKumiban.value]),
          amount.value,
          ParsePayout(row[iPayout.value]),
          ParseStatus(row[iHit.value]),
          "REAL"))
  }

  /** The columns a data row is read from. */
  const RequiredColumns: set<string> := {"日付", "購入金額", "払戻金額", "的中／返還", "式別", "馬／組番", "場名", "レース"}

  /** The tickets of the data rows under `header`, in row order. */
  function DataRowTickets(header: seq<string>, rows: seq<seq<string>>): (ts: seq<CsvTicket>)
    ensures |ts| <= |rows|
    ensures forall k :: 0 <= k < |ts| ==> ts[k].mode == "REAL" && ts[k].status in {"WIN", "LOSE"} && ts[k].payout >= 0
  {
    if rows == [] then []
    else
      var last := rows[|rows| - 1];
      DataRowTickets(header, rows[..|rows| - 1])
      + if SkipRow(|header|, last) then []
        else match ParseRow(header, last)
          case None => []
          case Some(t) => [t]
  }

  /** `header_index` is the first header row. */
  predicate IsFirstHeader(rows: seq<seq<string>>, h: int) {
    0 <= h < |rows| && IsHeaderRow(rows[h]) && forall j :: 0 <= j < h ==> !IsHeaderRow(rows[j])
  }

  function StripAll(cells: seq<string>): seq<string> {
    seq(|cells|, i requires 0 <= i < |cells| => Strip(cells[i]))
  }

  /**
   * `parse_jra_csv` on the rows of an already-read file: nothing without a
   * header row; otherwise the tickets of the rows after the first header,
   * read against its stripped cells.
   */
  method ParseJraCsv(allRows: seq<seq<string>>) returns (results: seq<CsvTicket>)
    ensures (forall i :: 0 <= i < |allRows| ==> !IsHeaderRow(allRows[i])) ==> results == []
    ensures forall h :: IsFirstHeader(allRows, h) ==>
              results == DataRowTickets(StripAll(allRows[h]), allRows[h + 1..])
  {
    var headerIndex := FindHeader(allRows);
    if headerIndex == -1 {
      return [];
    }
    var header := StripAll(allRows[headerIndex]);
    var dataRows := allRows[headerIndex + 1..];
    results := ReadDataRows(header, dataRows);
    FirstHeaderTickets(allRows, headerIndex, results);
  }

  /** The tickets read after the first header are those of every first header, there being only one. */
  lemma FirstHeaderTickets(allRows: seq<seq<string>>, headerIndex: int, results: seq<CsvTicket>)
    requires IsFirstHeader(allRows, headerIndex)
    requires results == DataRowTickets(StripAll(allRows[headerIndex]), allRows[headerIndex + 1..])
    ensures forall h :: IsFirstHeader(allRows, h) ==> results == DataRowTickets(StripAll(allRows[h]), allRows[h + 1..])
  {
    forall h | IsFirstHeader(allRows, h)
      ensures results == DataRowTickets(StripAll(allRows[h]), allRows[h + 1..])
    {
      FirstHeaderUnique(allRows, headerIndex, h);
    }
  }

  /** The header search: the index of the first header row, or -1 when there is none. */
  method FindHeader(allRows: seq<seq<string>>) returns (headerIndex: int)
    ensures headerIndex == -1 <==> forall i :: 0 <= i < |allRows| ==> !IsHeaderRow(allRows[i])
    ensures headerIndex != -1 ==> IsFirstHeader(allRows, headerIndex)
  {
    headerIndex := -1;
    for i := 0 to |allRows|
      invariant headerIndex == -1
      invariant forall j :: 0 <= j < i ==> !IsHeaderRow(allRows[j])
    {
      if IsHeaderRow(allRows[i]) {
        headerIndex := i;
        break;
      }
    }
  }

  /** The row loop: skipped rows and rows that raise are passed over, the others appended in order. */
  method ReadDataRows(header: seq<string>, dataRows: seq<seq<string>>) returns (results: seq<CsvTicket>)
    ensures results == DataRowTickets(header, dataRows)
  {
    results := [];
    for k := 0 to |dataRows|
      invariant results == DataRowTickets(header, dataRows[..k])
    {
      var row := dataRows[k];
      DataRowTicketsStep(header, dataRows, k);
      if !SkipRow(|header|, row) {
        var ticket := ParseRow(header, row);
        if ticket.Some? {
          results := results + [ticket.value];
        }
      }
    }
    assert dataRows[..|dataRows|] == dataRows;
  }

  lemma DataRowTicketsStep(header: seq<string>, rows: seq<seq<string>>, k: int)
    requires 0 <= k < |rows|
    ensures DataRowTickets(header, rows[..k + 1]) ==
              DataRowTickets(header, rows[..k])
              + if SkipRow(|header|, rows[k]) then []
                else match ParseRow(header, rows[k])
                  case None => []
                  case Some(t) => [t]
  {
    assert rows[..k + 1][..k] == rows[..k];
    assert rows[..k + 1][k] == rows[k];
  }

  lemma FirstHeaderUnique(rows: seq<seq<string>>, h: int, h': int)
    requires IsFirstHeader(rows, h) && IsFirstHeader(rows, h')
    ensures h' == h
  {
  }

  /** Rows are read independently: the tickets of two stretches of rows are the tickets of each, in order. */
  lemma {:induction false} DataRowTicketsAppend(header: seq<string>, a: seq<seq<string>>, b: seq<seq<string>>)
    ensures DataRowTickets(header, a + b) == DataRowTickets(header, a) + DataRowTickets(header, b)
    decreases |b|
  {
    if b == [] {
      assert a + b == a;
    } else {
      var init := b[..|b| - 1];
      assert (a + b)[..|a + b| - 1] == a + init;
      assert (a + b)[|a + b| - 1] == b[|b| - 1];
      DataRowTicketsAppend(header, a, init);
    }
  }

  /**
   * Every ticket comes from a row that is not skipped, at most one per row:
   * a row that is empty, short or mentions 合計 contributes nothing.
   */
  lemma {:induction false} DataRowTicketsSources(header: seq<string>, rows: seq<seq<string>>)
    ensures |DataRowTickets(header, rows)| <= |rows|
    ensures forall t :: t in DataRowTickets(header, rows) ==>
              exists i :: 0 <= i < |rows| && !SkipRow(|header|, rows[i]) && ParseRow(header, rows[i]) == Some(t)
  {
    if rows != [] {
      var init := rows[..|rows| - 1];
      DataRowTicketsSources(header, init);
      forall t | t in DataRowTickets(header, init)
        ensures exists i :: 0 <= i < |rows| && !SkipRow(|header|, rows[i]) && ParseRow(header, rows[i]) == Some(t)
      {
        var i :| 0 <= i < |init| && !SkipRow(|header|, init[i]) && ParseRow(header, init[i]) == Some(t);
        assert rows[i] == init[i];
      }
    }
  }
}
