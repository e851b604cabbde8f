/**
 * Recording the receipt numbers already imported for the current sale
 * section: normalising each number, keeping the distinct non-empty ones in
 * sorted order, and sending them to the store in fixed-size batches.
 */
module SectionReceipts {
  import opened Wrappers
  import opened PyText

  // ---------------------------------------------------------------------------
  // normalize_receipt_no
  // ---------------------------------------------------------------------------

  predicate IsFullWidthDigit(c: char) {
    '０' <= c <= '９'
  }

  /** The translation table: a full-width digit to the ASCII digit of the same value. */
  function HalfWidth(c: char): (d: char)
    ensures IsFullWidthDigit(c) ==> '0' <= d <= '9' && DigitValue(d) == DigitValue(c)
    ensures !IsFullWidthDigit(c) ==> d == c
  {
    if IsFullWidthDigit(c) then (c as int - '０' as int + '0' as int) as char else c
  }

  function ToHalfWidth(s: string): string {
    seq(|s|, i requires 0 <= i < |s| => HalfWidth(s[i]))
  }

  /** `normalize_receipt_no`: `None` is "", a string is stripped and its full-width digits made ASCII. */
  function NormalizeReceiptNo(receiptNo: Option<string>): (r: string)
    ensures receiptNo.None? ==> r == ""
    ensures receiptNo.Some? ==> |r| <= |receiptNo.value|
  {
    match receiptNo
    case None => ""
    case Some(s) => ToHalfWidth(Strip(s))
  }

  predicate IsNormal(s: string) {
    && (s == [] || (!IsSpace(s[0]) && !IsSpace(s[|s| - 1])))
    && forall i :: 0 <= i < |s| ==> !IsFullWidthDigit(s[i])
  }

  /**
   * A missing number normalises to "". Otherwise the normalised number has
   * no whitespace at either end and no full-width digit; it is the stripped
   * text with each full-width digit replaced by the ASCII digit of the same
   * value and every other character kept.
   */
  lemma NormalizeShape(s: string)
    ensures NormalizeReceiptNo(None) == ""
    ensures IsNormal(NormalizeReceiptNo(Some(s)))
    ensures |NormalizeReceiptNo(Some(s))| == |Strip(s)|
    ensures forall i :: 0 <= i < |Strip(s)| ==>
              var c, d := Strip(s)[i], NormalizeReceiptNo(Some(s))[i];
              if IsFullWidthDigit(c) then '0' <= d <= '9' && DigitValue(d) == DigitValue(c) else d == c
  {
    StripEnds(s);
    HalfWidthShape(Strip(s));
  }

  lemma HalfWidthShape(t: string)
    requires t == [] || (!IsSpace(t[0]) && !IsSpace(t[|t| - 1]))
    ensures IsNormal(ToHalfWidth(t))
    ensures |ToHalfWidth(t)| == |t|
    ensures forall i :: 0 <= i < |t| ==>
              var c, d := t[i], ToHalfWidth(t)[i];
              if IsFullWidthDigit(c) then '0' <= d <= '9' && DigitValue(d) == DigitValue(c) else d == c
  {
    var r := ToHalfWidth(t);
    if r != [] {
      assert r[0] == HalfWidth(t[0]);
      assert r[|r| - 1] == HalfWidth(t[|t| - 1]);
    }
  }

  /** Normalising twice is normalising once. */
  lemma NormalizeIdempotent(s: string)
    ensures NormalizeReceiptNo(Some(NormalizeReceiptNo(Some(s)))) == NormalizeReceiptNo(Some(s))
  {
    var t := Strip(s);
    var r := ToHalfWidth(t);
    StripEnds(s);
    HalfWidthShape(t);
    StripOfStripped(r);
    HalfWidthFixed(r);
    assert NormalizeReceiptNo(Some(r)) == ToHalfWidth(Strip(r));
  }

  /** A string without full-width digits is left alone by the translation. */
  lemma HalfWidthFixed(r: string)
    requires forall i :: 0 <= i < |r| ==> !IsFullWidthDigit(r[i])
    ensures ToHalfWidth(r) == r
  {
  }

  // ---------------------------------------------------------------------------
  // _chunked_list
  // ---------------------------------------------------------------------------

  /** `[items[i:i + size] for i in range(0, len(items), size)]`, written by recursion on the first chunk. */
  function Chunks(items: seq<string>, size: nat): (cs: seq<seq<string>>)
    requires size > 0
    ensures items == [] ==> cs == []
    ensures items != [] ==> (|cs| - 1) * size < |items| <= |cs| * size
    decreases |items|
  {
    if items == [] then []
    else if |items| <= size then [items]
    else [items[..size]] + Chunks(items[size..], size)
  }

  /** `_chunked_list`: a non-positive size raises ValueError. */
  function ChunkedList(items: seq<string>, size: int): (r: Result<seq<seq<string>>>)
    ensures r.Err? <==> size <= 0
  {
    if size <= 0 then Err("ValueError: size must be > 0") else Ok(Chunks(items, size))
  }

  function Flatten(chunks: seq<seq<string>>): seq<string> {
    if chunks == [] then [] else Flatten(chunks[..|chunks| - 1]) + chunks[|chunks| - 1]
  }

  lemma {:induction false} FlattenCons(c: seq<string>, rest: seq<seq<string>>)
    ensures Flatten([c] + rest) == c + Flatten(rest)
    decreases |rest|
  {
    if rest == [] {
      assert [c] + rest == [c];
      assert Flatten([c]) == Flatten([]) + c;
    } else {
      var init := rest[..|rest| - 1];
      assert ([c] + rest)[..|[c] + rest| - 1] == [c] + init;
      FlattenCons(c, init);
    }
  }

  /**
   * The chunks put back together are the items; each chunk is non-empty and
   * at most `size` long, and all but the last are exactly `size` long.
   */
  lemma ChunksPartition(items: seq<string>, size: nat)
    requires size > 0
    ensures Flatten(Chunks(items, size)) == items
    ensures forall k :: 0 <= k < |Chunks(items, size)| ==> 0 < |Chunks(items, size)[k]| <= size
    ensures forall k :: 0 <= k < |Chunks(items, size)| - 1 ==> |Chunks(items, size)[k]| == size
  {
    ChunksFlatten(items, size);
    ChunkSizes(items, size);
  }

  lemma {:induction false} ChunksFlatten(items: seq<string>, size: nat)
    requires size > 0
    ensures Flatten(Chunks(items, size)) == items
    decreases |items|
  {
    if items == [] {
    } else if |items| <= size {
      assert Flatten([items]) == Flatten([]) + items;
    } else {
      ChunksFlatten(items[size..], size);
      FlattenCons(items[..size], Chunks(items[size..], size));
      assert items[..size] + items[size..] == items;
    }
  }

  lemma {:induction false} ChunkSizes(items: seq<string>, size: nat)
    requires size > 0
    ensures forall k :: 0 <= k < |Chunks(items, size)| ==> 0 < |Chunks(items, size)[k]| <= size
    ensures forall k :: 0 <= k < |Chunks(items, size)| - 1 ==> |Chunks(items, size)[k]| == size
    decreases |items|
  {
    if |items| > size {
      var rest := Chunks(items[size..], size);
      ChunkSizes(items[size..], size);
      var cs := Chunks(items, size);
      assert cs == [items[..size]] + rest;
      assert forall k :: 1 <= k < |cs| ==> cs[k] == rest[k - 1];
    }
  }

  /** Chunk `k` is the slice `items[k*size : k*size + size]`, clamped to the end, as the comprehension has it. */
  lemma {:induction false} ChunkAt(items: seq<string>, size: nat, k: nat)
    requires size > 0 && k * size < |items|
    ensures k < |Chunks(items, size)|
    ensures Chunks(items, size)[k] ==
              items[k * size .. if k * size + size <= |items| then k * size + size else |items|]
    decreases |items|
  {
    var lo := k * size;
    var hi := if lo + size <= |items| then lo + size else |items|;
    if k == 0 {
      assert lo == 0;
    } else {
      var lo' := (k - 1) * size;
      MulPred(k, size);
      var rest := items[size..];
      ChunkAt(rest, size, k - 1);
      var hi' := if lo' + size <= |rest| then lo' + size else |rest|;
      assert hi == hi' + size;
      assert Chunks(items, size) == [items[..size]] + Chunks(rest, size);
      assert rest[lo'..hi'] == items[lo..hi];
    }
  }

  /** Chunk k starts one chunk size after chunk k - 1. */
  lemma MulPred(k: nat, size: nat)
    requires k > 0
    ensures k * size == (k - 1) * size + size
  {
  }

  // ---------------------------------------------------------------------------
  // The sorted set of normalised receipt numbers
  // ---------------------------------------------------------------------------

  /** Python's `str` ordering: code point by code point, a proper prefix first. */
  predicate LexLess(a: string, b: string) {
    b != [] && (a == [] || a[0] < b[0] || (a[0] == b[0] && LexLess(a[1..], b[1..])))
  }

  lemma {:induction false} LexIrreflexive(a: string)
    ensures !LexLess(a, a)
  {
    if a != [] {
      LexIrreflexive(a[1..]);
    }
  }

  lemma {:induction false} LexTransitive(a: string, b: string, c: string)
    requires LexLess(a, b) && LexLess(b, c)
    ensures LexLess(a, c)
  {
    if a != [] && a[0] == b[0] && b[0] == c[0] {
      LexTransitive(a[1..], b[1..], c[1..]);
    }
  }

  lemma {:induction false} LexTotal(a: string, b: string)
    ensures a == b || LexLess(a, b) || LexLess(b, a)
  {
    if a != [] && b != [] && a[0] == b[0] {
      LexTotal(a[1..], b[1..]);
      if a[1..] == b[1..] {
        assert a == [a[0]] + a[1..] && b == [b[0]] + b[1..];
      }
    }
  }

  predicate StrictlySorted(xs: seq<string>) {
    forall i, j :: 0 <= i < j < |xs| ==> LexLess(xs[i], xs[j])
  }

  /** Inserts `x` into a strictly sorted list unless it is already there. */
  function Insert(x: string, xs: seq<string>): (r: seq<string>)
    requires StrictlySorted(xs)
    ensures StrictlySorted(r)
    ensures forall y :: y in r <==> y == x || y in xs
  {
    if xs == [] then [x]
    else if x == xs[0] then xs
    else if LexLess(x, xs[0]) then
      assert forall j :: 0 <= j < |xs| ==> LexLess(x, xs[j]) by {
        forall j | 0 < j < |xs| {
          LexTransitive(x, xs[0], xs[j]);
        }
      }
      [x] + xs
    else
      LexTotal(x, xs[0]);
      var tail := Insert(x, xs[1..]);
      assert forall y :: y in tail ==> LexLess(xs[0], y);
      [xs[0]] + tail
  }

  /** `normalize_receipt_no` applied to every submitted number, in order. */
  function NormalizeAll(receiptNos: seq<string>): seq<string> {
    if receiptNos == [] then []
    else NormalizeAll(receiptNos[..|receiptNos| - 1]) + [NormalizeReceiptNo(Some(receiptNos[|receiptNos| - 1]))]
  }

  lemma {:induction false} NormalizeAllFrom(receiptNos: seq<string>, x: string)
    requires x in NormalizeAll(receiptNos)
    ensures exists i :: 0 <= i < |receiptNos| && NormalizeReceiptNo(Some(receiptNos[i])) == x
  {
    var init := receiptNos[..|receiptNos| - 1];
    if x in NormalizeAll(init) {
      NormalizeAllFrom(init, x);
      var i :| 0 <= i < |init| && NormalizeReceiptNo(Some(init[i])) == x;
      assert init[i] == receiptNos[i];
    }
  }

  /** `{normalize_receipt_no(r) for r in receipt_nos if normalize_receipt_no(r)}` as a set. */
  predicate Submitted(receiptNos: seq<string>, x: string) {
    x != "" && x in NormalizeAll(receiptNos)
  }

  /**
   * `sorted({...})`: the distinct non-empty normalised receipt numbers, in
   * increasing order.
   */
  function NormalizedReceipts(receiptNos: seq<string>): (r: seq<string>)
    ensures StrictlySorted(r)
    ensures forall x :: x in r <==> Submitted(receiptNos, x)
  {
    if receiptNos == [] then []
    else
      var rest := NormalizedReceipts(receiptNos[..|receiptNos| - 1]);
      var n := NormalizeReceiptNo(Some(receiptNos[|receiptNos| - 1]));
      if n == "" then rest else Insert(n, rest)
  }

  lemma {:induction false} SortedLength(xs: seq<string>)
    requires StrictlySorted(xs)
    ensures |set x | x in xs| == |xs|
  {
    if xs != [] {
      var init := xs[..|xs| - 1];
      SortedLength(init);
      assert (set x | x in xs) == (set x | x in init) + {xs[|xs| - 1]};
      assert xs[|xs| - 1] !in init by {
        forall i | 0 <= i < |init|
          ensures init[i] != xs[|xs| - 1]
        {
          assert LexLess(xs[i], xs[|xs| - 1]);
          if init[i] == xs[|xs| - 1] {
            LexIrreflexive(init[i]);
          }
        }
      }
    }
  }

  /**
   * The list sent to the store holds each distinct non-empty normalised
   * number exactly once, never "", and only such numbers, already normal.
   */
  lemma NormalizedReceiptsSpec(receiptNos: seq<string>)
    ensures "" !in NormalizedReceipts(receiptNos)
    ensures |NormalizedReceipts(receiptNos)| == |set x | x in NormalizedReceipts(receiptNos)|
    ensures forall i, j :: 0 <= i < j < |NormalizedReceipts(receiptNos)| ==>
              NormalizedReceipts(receiptNos)[i] != NormalizedReceipts(receiptNos)[j]
    ensures forall x :: x in NormalizedReceipts(receiptNos) ==> IsNormal(x)
  {
    var r := NormalizedReceipts(receiptNos);
    SortedLength(r);
    forall i, j | 0 <= i < j < |r|
      ensures r[i] != r[j]
    {
      LexIrreflexive(r[i]);
    }
    forall x | x in r
      ensures IsNormal(x)
    {
      NormalizeAllFrom(receiptNos, x);
      var i :| 0 <= i < |receiptNos| && NormalizeReceiptNo(Some(receiptNos[i])) == x;
      NormalizeShape(receiptNos[i]);
    }
  }

  // ---------------------------------------------------------------------------
  // record_section_receipts
  // ---------------------------------------------------------------------------

  datatype ReceiptRow = ReceiptRow(userId: string, sectionId: string, receiptNo: string)

  function RowsOf(userId: string, sectionId: string, receipts: seq<string>): set<ReceiptRow> {
    set x | x in receipts :: ReceiptRow(userId, sectionId, x)
  }

  /**
   * The `ipat_section_receipts` table as a set of rows. Upserting on the
   * conflict key (user, section, receipt) adds the missing rows and leaves
   * the existing ones.
   */
  class ReceiptTable {
    var rows: set<ReceiptRow>

    constructor ()
      ensures rows == {}
    {
      rows := {};
    }

    method Upsert(payload: seq<ReceiptRow>)
      modifies this
      ensures rows == old(rows) + set r | r in payload
    {
      rows := rows + set r | r in payload;
    }
  }

  /**
   * `record_section_receipts`: returns 0 with nothing sent when no receipt
   * number survives normalisation; otherwise sends every distinct one (an
   * error for a non-positive chunk size) and returns how many it sent.
   */
  method RecordSectionReceipts(table: ReceiptTable, userId: string, sectionId: string,
                               receiptNos: seq<string>, chunkSize: int)
    returns (r: Result<int>)
    modifies table
    ensures NormalizedReceipts(receiptNos) == [] ==> r == Ok(0) && table.rows == old(table.rows)
    ensures NormalizedReceipts(receiptNos) != [] && chunkSize <= 0 ==> r.Err? && table.rows == old(table.rows)
    ensures NormalizedReceipts(receiptNos) != [] && chunkSize > 0 ==>
              && r == Ok(|NormalizedReceipts(receiptNos)|)
              && table.rows == old(table.rows) + RowsOf(userId, sectionId, NormalizedReceipts(receiptNos))
  {
    var normalized := NormalizedReceipts(receiptNos);
    if |normalized| == 0 {
      return Ok(0);
    }
    var chunked := ChunkedList(normalized, chunkSize);
    if chunked.Err? {
      return Err(chunked.message);
    }
    var chunks := chunked.value;
    ChunksPartition(normalized, chunkSize);
    var total := SendChunks(table, userId, sectionId, chunks);
    return Ok(total);
  }

  /** The loop of `record_section_receipts`: one upsert per chunk, counting what was sent. */
  method SendChunks(table: ReceiptTable, userId: string, sectionId: string, chunks: seq<seq<string>>)
    returns (total: int)
    modifies table
    ensures total == |Flatten(chunks)|
    ensures table.rows == old(table.rows) + RowsOf(userId, sectionId, Flatten(chunks))
  {
    total := 0;
    for k := 0 to |chunks|
      invariant total == |Flatten(chunks[..k])|
      invariant table.rows == old(table.rows) + RowsOf(userId, sectionId, Flatten(chunks[..k]))
    {
      var chunk := chunks[k];
      var payload := seq(|chunk|, i requires 0 <= i < |chunk| => ReceiptRow(userId, sectionId, chunk[i]));
      PayloadRows(userId, sectionId, chunk, payload);
      table.Upsert(payload);
      total := total + |chunk|;
      assert chunks[..k + 1][..k] == chunks[..k];
      RowsOfAppend(userId, sectionId, Flatten(chunks[..k]), chunk);
    }
    assert chunks[..|chunks|] == chunks;
  }

  lemma RowsOfAppend(userId: string, sectionId: string, a: seq<string>, b: seq<string>)
    ensures RowsOf(userId, sectionId, a + b) == RowsOf(userId, sectionId, a) + RowsOf(userId, sectionId, b)
  {
  }

  lemma PayloadRows(userId: string, sectionId: string, chunk: seq<string>, payload: seq<ReceiptRow>)
    requires payload == seq(|chunk|, i requires 0 <= i < |chunk| => ReceiptRow(userId, sectionId, chunk[i]))
    ensures (set r | r in payload) == RowsOf(userId, sectionId, chunk)
  {
    forall r | r in RowsOf(userId, sectionId, chunk)
      ensures r in payload
    {
      var i :| 0 <= i < |chunk| && chunk[i] == r.receiptNo;
      assert payload[i] == r;
    }
  }
}
