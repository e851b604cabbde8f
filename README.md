# Ticket settlement and IPAT synchronisation, modelled in Dafny

This project models the core of a service that records and settles JRA
horse-racing bets:

- **Judgment** (`app/services/judgment_logic.py`): a ticket has a bet type
  (WIN, PLACE, QUINELLA, EXACTA, TRIO, TRIFECTA, …), a buy type (BOX,
  NAGASHI, FORMATION or plain) and a content.
  - The ticket is expanded into the horse combinations it covers.
  - Each official payout entry is judged against those combinations. A
    fixed-position NAGASHI on an ordered bet is judged position by position
    instead.
  - The result is `HIT` with the summed payout, or `LOSE` with 0.
- **Keying** (`app/services/ipat_service.py`): a scraped IPAT ticket
  becomes a database record.
  - The race id is `YYYYMMDD` + course code + two-digit race number.
  - The receipt key is a digest of the date, receipt number, line number
    and serialised content.
  - The total point count is derived when it is missing.
  - Records with the same key are de-duplicated, and the last one wins.
- **Section receipts** (`app/services/ipat_section_receipts.py`): receipt
  numbers are normalised by stripping spaces and mapping full-width digits
  to ASCII. They are de-duplicated, sorted, cut into chunks and upserted
  into the receipts table.
- **Section start** (`app/services/ipat_section.py`): the start of the
  current sales "section" is found by walking back from today to the most
  recent sale day. From there it walks back over consecutive sale days, up
  to a maximum span.
- **Parsers** (`app/services/parsers.py`):
  - the JRA purchase-history CSV reader: finding the header, skipping
    rows, and parsing dates, amounts, payouts, status, bet type and the
    combination column;
  - the vote-kind classifier used for scraped pages.

## Modules

- **`Wrappers`**: `Option` and `Result`.
- **`PyText`**: the Python string operations the code relies on: `strip`,
  `in`, `split`/`join`, `replace`, `zfill`, slicing, `isdigit`, `int()`,
  and `re.findall(r'\d+')`.
- **`Combinatorics`**: `itertools.combinations`, `permutations` and
  `product`, with membership and counting theorems.
- **`Judgment`** and **`JudgmentProperties`**: expansion, hit tests and
  `judge_ticket`, and what they guarantee.
- **`Keying`**: `_map_ticket_to_db_format` and the de-duplication.
- **`SectionReceipts`**: normalisation, chunking, and
  `record_section_receipts` against a `ReceiptTable` class. The table's
  `rows` field is updated in place by `Upsert`.
- **`Section`**: `compute_section_start`, written as the two loops of the
  source.
- **`Parsers`**: `parse_jra_csv` and `analyze_vote_kind`.

## Model

| member | source | states |
|---|---|---|
| Judgment.BetTypeOf | app/services/judgment_logic.py:188-192 | reading a bet-type code loses nothing: printing the result gives back the code |
| Judgment.BetTypeOfCode | app/services/judgment_logic.py:188-192 | every known bet type read back from its code is itself |
| Judgment.CombinationSize | app/services/judgment_logic.py:188-192 | the combination size is always 1, 2 or 3 |
| Judgment.CombinationSizeOfCode | app/services/judgment_logic.py:188-192 | WIN/PLACE choose 1 horse; BRACKET_QUINELLA, QUINELLA, QUINELLA_PLACE and EXACTA choose 2; TRIO and TRIFECTA choose 3; any other code chooses 1 |
| Judgment.MatchesOfCode | app/services/judgment_logic.py:195-237 | WIN, PLACE, EXACTA and TRIFECTA match only the exact ordered list; every other code matches when the sets of horses are equal |
| Judgment.IsHit | app/services/judgment_logic.py:195-237 | the loop answers true exactly when some combination matches the winning horses under the bet type's rule |
| Judgment.IsHitNagashiOrdered | app/services/judgment_logic.py:70-102 | true exactly when there are positions, each axis horse finished at its stated position, and every other placed horse is a partner |
| Judgment.Expansion | app/services/judgment_logic.py:105-185 | the expansion fails exactly for BOX without selections; a plain ticket covers its selections unchanged |
| Judgment.AppendNagashiBlock | app/services/judgment_logic.py:143-167 | one pass of the NAGASHI inner loop appends exactly the block of that partner choice |
| Judgment.ExpandNagashi | app/services/judgment_logic.py:127-168 | the nested loops build exactly the NAGASHI expansion: the blocks of every choice of the remaining partners, in itertools order |
| Judgment.NagashiBlocksStep | app/services/judgment_logic.py:140-167 | handling one more partner choice appends that choice's block |
| Judgment.ExpandCombinations | app/services/judgment_logic.py:105-185 | the method returns the expansion for every buy type, including the BOX error |
| Judgment.JudgeTicket | app/services/judgment_logic.py:7-67 | the judging loop computes the settlement verdict, including the no-data and expansion-error paths |
| Judgment.IsOrderedNagashi | app/services/judgment_logic.py:29-34 | a ticket judged positionally is a NAGASHI of an order-sensitive type (or the code TAN) |
| Judgment.Judge | app/services/judgment_logic.py:7-67 | the verdict is HIT or LOSE, LOSE always pays 0, missing payout data or no entries for the bet type give LOSE with 0, and the only error is a BOX without selections |
| JudgmentProperties.JudgeVerdict | app/services/judgment_logic.py:7-67 | an error happens iff there is payout data for the type, the ticket is not positional, and it is BOX with no selections; otherwise HIT iff some payout entry is covered, HIT pays the sum over covered entries, and anything else is LOSE with 0 |
| JudgmentProperties.HitCountCounts | app/services/judgment_logic.py:40-62 | the loop's hit count is positive iff some entry is covered, and its running payout is the sum over covered entries |
| JudgmentProperties.CoveredTotalAppend | app/services/judgment_logic.py:40-62 | the payout of concatenated entry lists is the sum of their payouts |
| JudgmentProperties.CoveredTotalBounds | app/services/judgment_logic.py:58-62 | with non-negative stakes and payouts, the total lies between 0 and what all entries would pay |
| JudgmentProperties.BoxMembers | app/services/judgment_logic.py:117-125 | a BOX covers a combination iff it has the bet's size and is an ordered sub-selection (ordered types) or a subsequence (unordered types) of the pool |
| JudgmentProperties.BoxCount | app/services/judgment_logic.py:117-125 | a BOX of n horses covers n!/(n-r)! ordered or C(n, r) unordered combinations |
| JudgmentProperties.FormationMembers | app/services/judgment_logic.py:170-174 | a FORMATION covers exactly the picks of one horse per column, and their number is the product of the column sizes |
| JudgmentProperties.NagashiBlocksMembers | app/services/judgment_logic.py:142-167 | a combination is in the NAGASHI output iff it is in the block of some partner choice |
| JudgmentProperties.NagashiBlockBounds | app/services/judgment_logic.py:143-167 | every combination of one block holds all axis horses and only axis or chosen horses; it keeps the axis as prefix unless multi and ordered, and multi ordered ones have the full size |
| JudgmentProperties.NagashiAxisFits | app/services/judgment_logic.py:131-140 | a non-empty NAGASHI expansion means the axis fits in the combination size, and its members come from the partner choices of the remaining size |
| JudgmentProperties.NagashiBounds | app/services/judgment_logic.py:140-168 | every NAGASHI combination contains the whole axis and otherwise only partners; the axis is its prefix unless multi on an ordered type |
| JudgmentProperties.NagashiOneOpenSlot | app/services/judgment_logic.py:154-164 | an EXACTA with one axis horse or a TRIFECTA with two, without multi, covers the axis followed by each partner in turn |
| JudgmentProperties.NagashiTooManyAxes | app/services/judgment_logic.py:135-137 | more axis horses than the combination size yield no combinations |
| JudgmentProperties.NagashiOneAxisTrifecta | app/services/judgment_logic.py:127-168 | a non-multi TRIFECTA NAGASHI on one axis horse covers exactly the axis followed by an ordered pair of two different partners |
| JudgmentProperties.OneAxisTrifectaSound | app/services/judgment_logic.py:140-164 | every combination it covers is the axis followed by two different partners |
| JudgmentProperties.OneAxisTrifectaComplete | app/services/judgment_logic.py:140-164 | the axis followed by any two different partners, in either order, is covered |
| JudgmentProperties.TrifectaBlockMembers | app/services/judgment_logic.py:159-164 | for one pair of partners, the non-multi TRIFECTA block is the axis followed by the pair in both orders |
| JudgmentProperties.WinStraightHit | tests/test_judgment_logic.py:6-40 | a 100-yen WIN on horse 1 with a 200-yen payout for horse 1 is HIT paying 200 |
| JudgmentProperties.WinStraightLose | tests/test_judgment_logic.py:42-74 | the same WIN on horse 2 is LOSE paying 0 |
| JudgmentProperties.QuinellaBoxHit | app/services/judgment_logic.py:117-125 | a 200-yen QUINELLA BOX on 1, 3, 5 against result 5-1 paying 1230 is HIT paying 2460 |
| JudgmentProperties.QuinellaBoxCovers | app/services/judgment_logic.py:125 | the pair 1-5 is among the QUINELLA BOX combinations of 1, 3, 5 |
| JudgmentProperties.BoxOuterPair | app/services/judgment_logic.py:125 | an unordered two-horse BOX of a, b, c covers the pair a-c |
| JudgmentProperties.JudgeOneEntry | app/services/judgment_logic.py:40-67 | with a single payout entry, the verdict is HIT paying stake × money // 100 when the entry hits, and LOSE with 0 otherwise |
| JudgmentProperties.TrifectaFixedFirst | app/services/judgment_logic.py:70-102 | a TRIFECTA NAGASHI with 5 fixed first and partners 3, 8 hits 5-3-8 and loses 3-5-8 |
| JudgmentProperties.CombinationsOfOne | app/services/judgment_logic.py:140 | choosing one partner lists each partner once, in order |
| JudgmentProperties.SingletonBlocks | app/services/judgment_logic.py:155-164 | for single-partner choices, a non-multi EXACTA or TRIFECTA block is the axis followed by that partner |
| Combinatorics.CombinationsMembers | app/services/judgment_logic.py:125 | `combinations(xs, r)` yields exactly the subsequences of length r |
| Combinatorics.CombinationsSound | app/services/judgment_logic.py:125 | every generated combination is a subsequence of length r |
| Combinatorics.CombinationsComplete | app/services/judgment_logic.py:125 | every subsequence of length r is generated |
| Combinatorics.CombinationsCount | app/services/judgment_logic.py:125 | there are C(n, r) combinations |
| Combinatorics.SubsequenceMultiset | app/services/judgment_logic.py:140 | a subsequence uses each element no more often than the source |
| Combinatorics.SubsequenceOfTwo | app/services/judgment_logic.py:140 | a two-element subsequence is two elements of the source at increasing positions |
| Combinatorics.TwoIndicesSubsequence | app/services/judgment_logic.py:140 | two elements at increasing positions form a subsequence |
| Combinatorics.PermutationsMembers | app/services/judgment_logic.py:123 | `permutations(xs, r)` yields exactly the length-r sequences drawn from the multiset of xs |
| Combinatorics.PermutationsSound | app/services/judgment_logic.py:123 | every generated permutation has length r and is drawn from xs |
| Combinatorics.PermutationsComplete | app/services/judgment_logic.py:123 | every such sequence is generated |
| Combinatorics.PermutationsCount | app/services/judgment_logic.py:123 | there are n·(n-1)·…·(n-r+1) permutations |
| Combinatorics.PermutationsOfPair | app/services/judgment_logic.py:163 | the permutations of a pair are the pair and its reverse |
| Combinatorics.FallingFactorialIsQuotient | app/services/judgment_logic.py:123 | that falling factorial equals n!/(n-r)! |
| Combinatorics.ChooseTimesFactorial | app/services/judgment_logic.py:123-125 | C(n, k)·k! equals the number of ordered selections, relating BOX counts of ordered and unordered types |
| Combinatorics.ProductMembers | app/services/judgment_logic.py:174 | `product(*groups)` yields exactly the picks of one element per group |
| Combinatorics.ProductCount | app/services/judgment_logic.py:174 | their number is the product of the group sizes |
| Keying.MapTicketToDbFormat | app/services/ipat_service.py:8-47 | the record carries the digest of the unique string, the race id, the derived total points, the copied fields, and source/mode defaults IPAT_SYNC/REAL |
| Keying.RaceId | app/services/ipat_service.py:13-16 | the race id starts with the date and the course code (00 for an unknown course) and, for a race number of at most two characters, ends with exactly two more |
| Keying.UniqueString | app/services/ipat_service.py:18-21 | the hashed string starts with the date and a dash and ends with the serialised content |
| Keying.SplitRaceId | app/services/ipat_service.py:13-16 | a race id splits into an 8-character date, a 2-character course code and a 2-character race number |
| Keying.RaceIdLayout | app/services/ipat_service.py:13-16 | for an 8-character date and a race number of at most two digits, the race id reads back as the date, the course code (00 when unknown) and a two-digit race of the same value |
| Keying.DigitsValueLeadingZero | app/services/ipat_service.py:15 | a leading zero added by zfill does not change the number |
| Keying.UniqueStringInjective | app/services/ipat_service.py:18-22 | when date, receipt number and line number hold no dash, equal unique strings mean equal date, receipt, line and content |
| Keying.SameLineSameKey | app/services/ipat_service.py:18-22 | the same purchase line with the same content gets the same receipt key, whoever the user is |
| Keying.TotalPoints | app/services/ipat_service.py:24-27 | a given non-zero total is kept; with no total and a non-positive stake it is 0; with a positive stake and cost it is not negative |
| Keying.TotalPointsMeaning | app/services/ipat_service.py:24-27 | a given non-zero total is kept; otherwise it is total cost // stake, the largest count whose cost fits, or 0 when the stake is not positive |
| Keying.SampleTicketRecord | tests/test_ipat_service.py:33-43 | the sample Nakayama ticket maps to race id 202312240611, 10 points, source IPAT_SYNC |
| Keying.DedupTable | app/services/ipat_service.py:71-72 | the dictionary comprehension keeps each key once, and a key is in the table iff it is in its insertion order |
| Keying.DedupTableEntry | app/services/ipat_service.py:71-72 | an id is kept iff some record has it, and the kept record is the last one with that id |
| Keying.DedupTableIds | app/services/ipat_service.py:71 | an id is a key of the table iff some record carries it |
| Keying.DedupTableLast | app/services/ipat_service.py:71 | the record kept for an id has that id and no later record shares it |
| Keying.DedupTableValues | app/services/ipat_service.py:71 | each key of the table maps to an input record with that key |
| Keying.Dedup | app/services/ipat_service.py:71-72 | the values of the table are input records with pairwise different ids |
| Keying.DedupSpec | app/services/ipat_service.py:71-72 | the de-duplicated list has distinct ids, loses no id, keeps the last record per id and is no longer than the input |
| SectionReceipts.HalfWidth | app/services/ipat_section_receipts.py:6 | full-width digits map to the ASCII digit of the same value; all other characters are unchanged |
| SectionReceipts.NormalizeReceiptNo | app/services/ipat_section_receipts.py:9-13 | None gives the empty string; a string is never lengthened |
| SectionReceipts.NormalizeShape | app/services/ipat_section_receipts.py:9-13 | None normalises to ""; otherwise the result has no surrounding spaces or full-width digits, has the stripped length, and maps each character as above |
| SectionReceipts.HalfWidthShape | app/services/ipat_section_receipts.py:13 | translating digits keeps the length and the non-space ends |
| SectionReceipts.NormalizeIdempotent | app/services/ipat_section_receipts.py:13 | normalising twice is normalising once |
| SectionReceipts.HalfWidthFixed | app/services/ipat_section_receipts.py:13 | text without full-width digits is unchanged by the translation |
| SectionReceipts.ChunkedList | app/services/ipat_section_receipts.py:16-19 | chunking fails exactly when the size is not positive |
| SectionReceipts.Chunks | app/services/ipat_section_receipts.py:19 | no items give no chunks; otherwise the number of chunks is len(items) / size rounded up |
| SectionReceipts.ChunksPartition | app/services/ipat_section_receipts.py:19 | the chunks concatenate to the input; each is non-empty and at most size long, and all but the last are full |
| SectionReceipts.ChunkAt | app/services/ipat_section_receipts.py:19 | chunk k is the clamped slice `items[k*size : k*size+size]` |
| SectionReceipts.LexIrreflexive | app/services/ipat_section_receipts.py:55 | string order is irreflexive |
| SectionReceipts.LexTransitive | app/services/ipat_section_receipts.py:55 | string order is transitive |
| SectionReceipts.LexTotal | app/services/ipat_section_receipts.py:55 | any two different strings are ordered |
| SectionReceipts.Insert | app/services/ipat_section_receipts.py:55 | inserting into a strictly sorted list keeps it strictly sorted and adds exactly that element |
| SectionReceipts.NormalizedReceipts | app/services/ipat_section_receipts.py:55 | the list is strictly sorted and holds exactly the non-empty normalisations of the input |
| SectionReceipts.NormalizeAllFrom | app/services/ipat_section_receipts.py:55 | every normalised receipt comes from some input |
| SectionReceipts.SortedLength | app/services/ipat_section_receipts.py:55 | a strictly sorted list has as many elements as its set |
| SectionReceipts.NormalizedReceiptsSpec | app/services/ipat_section_receipts.py:55-57 | the list has no empty entry, no repeats, as many entries as distinct values, and only normalised receipt numbers |
| SectionReceipts.ReceiptTable.Upsert | app/services/ipat_section_receipts.py:62-65 | the table afterwards holds its old rows plus the payload rows; duplicates are absorbed |
| SectionReceipts.SendChunks | app/services/ipat_section_receipts.py:59-66 | sending the chunks adds one row per receipt of their concatenation and returns its length |
| SectionReceipts.RowsOfAppend | app/services/ipat_section_receipts.py:59-66 | the rows of concatenated chunks are the union of their rows |
| SectionReceipts.PayloadRows | app/services/ipat_section_receipts.py:62 | the payload built from a chunk holds exactly that chunk's rows |
| SectionReceipts.RecordSectionReceipts | app/services/ipat_section_receipts.py:42-68 | nothing to record returns 0 and leaves the table alone; a non-positive chunk size fails and leaves it alone; otherwise it returns the number of distinct normalised receipts and adds exactly their rows |
| Section.ComputeSectionStart | app/services/ipat_section.py:15-57 | fails iff a bound is not positive; None iff no sale day lies within the lookback; otherwise the start of the run of sale days ending at the most recent sale day, capped at the span |
| Section.SectionStartUnique | app/services/ipat_section.py:40-57 | the section start is uniquely determined |
| Section.AnchorUnique | app/services/ipat_section.py:40-45 | the most recent sale day in the lookback is unique |
| Section.SpanStartUnique | app/services/ipat_section.py:50-55 | the backward walk from an anchor stops at one day |
| Section.DecemberExample | tests/test_ipat_section.py:6-14 | with sale days 20-22 December, today the 27th and a 30-day lookback, some sale day is in range and the section starts on the 20th and nowhere else |
| Section.NoSaleExample | tests/test_ipat_section.py:17-22 | with no sale day in the 7-day lookback no day is a section start, so the result is None |
| Parsers.FindBetTypeFrom | app/constants.py:2-11 | scanning the map from entry i gives the code of the first contained name, or "unknown" iff none is contained |
| Parsers.FindBetType | app/services/parsers.py:228-232 | the bet type is the code of the first map entry whose name occurs in the text, and "unknown" iff none occurs |
| Parsers.AnalyzeVoteKind | app/services/parsers.py:227-246 | NAGASHI iff ながし occurs; else BOX iff ボックス; else FORMATION iff フォーメーション; else NORMAL; multi only for NAGASHI with マルチ |
| Parsers.CsvBetType | app/services/parsers.py:60-68 | without an ASCII 3 the '3' fix-up changes nothing; the code is "unknown" or the code of some map entry |
| Parsers.FormatDate | app/services/parsers.py:40-41 | a date of at least 6 characters gets dashes at positions 4 and 7 and keeps its year, month and day parts |
| Parsers.FormatDateRoundTrip | app/services/parsers.py:40-41 | an 8-character date becomes `YYYY-MM-DD`, and removing the dashes gives it back |
| Parsers.RemoveDashes | app/services/parsers.py:41 | removing dashes from dash-joined dash-free parts concatenates them |
| Parsers.RemoveCharAppend | app/services/parsers.py:50 | removing a character from a concatenation removes it from each part |
| Parsers.ParseAmount | app/services/parsers.py:44-48 | a plain digit string parses to its value |
| Parsers.ParseAmountMeaning | app/services/parsers.py:44-48 | `a／b` yields b's value, and a plain digit string yields its value |
| Parsers.ParsePayout | app/services/parsers.py:50-51 | the payout is the value of the comma-free text when it is all digits, otherwise 0 |
| Parsers.ParseStatus | app/services/parsers.py:53-55 | the status is WIN or LOSE, and WIN iff the cell contains 的中 |
| Parsers.KumibanContent | app/services/parsers.py:60-104 | the bet type is the CSV lookup; the buy type follows the precedence BOX (ＢＯＸ or ボックス), then FORMATION (フォーメーション), then NAGASHI (ながし), else NORMAL, each stated as an iff; multi iff NAGASHI with マルチ; only NAGASHI has axis or partners, and NAGASHI has no selections |
| Parsers.KumibanRoundTrip | app/services/parsers.py:77-95 | BOX selections are the ；-pieces of the text; FORMATION has one group per ／-part, each group the ；-pieces of that part; with a ／, NAGASHI axis and partners are the ；-pieces of the first and second ／-parts, without one they are empty; every piece is free of both separators; NORMAL selections are digit runs that concatenate to the text's digits |
| Parsers.SplitHasSeveral | app/services/parsers.py:88-90 | text containing the separator splits into at least two parts |
| Parsers.SplitWithoutSep | app/services/parsers.py:88-90 | text without the separator splits into one part |
| Parsers.HalfWidthThreeFixUp | app/services/parsers.py:60-68 | with the '3' fix-up, 3連単 reads as TRIFECTA, and without it no map entry would match |
| Parsers.FullWidthThreeIsTrifecta | app/services/parsers.py:61-68 | the fixed-up 3連単 reads as TRIFECTA |
| Parsers.FullWidthTrifectaName | app/services/parsers.py:64-68 | the full-width ３連単 reads as TRIFECTA |
| Parsers.HalfWidthThreeUnknown | app/services/parsers.py:64-68 | the raw 3連単 with an ASCII 3 matches no map entry |
| Parsers.MethodRulesAgree | app/services/parsers.py:77-95 | when ＢＯＸ is absent and ながし does not occur with ボックス or フォーメーション, the CSV reader and the vote-kind classifier agree on buy type and multi |
| Parsers.ColumnIndex | app/services/parsers.py:30 | a column is found iff its name is in the header, at the last position holding that name |
| Parsers.SkipRow | app/services/parsers.py:35-36 | a row that is read is non-empty, at least as long as the header, and has no cell containing 合計 |
| Parsers.ParseRow | app/services/parsers.py:38-116 | a long enough row gives a ticket iff all required columns exist and the amount parses; each field is read from its named column (場名, レース plus R, 日付 formatted, 購入金額 parsed, 払戻金額 parsed, 的中／返還 as status, 式別 and 馬／組番 as content); the ticket is REAL, WIN or LOSE, with a non-negative payout |
| Parsers.FindHeader | app/services/parsers.py:15-20 | the header index is -1 iff no row starts with 日付, and otherwise the first such row |
| Parsers.FirstHeaderUnique | app/services/parsers.py:15-20 | the first header row is unique |
| Parsers.ReadDataRows | app/services/parsers.py:33-118 | the row loop returns the tickets of the unskipped, parseable rows in order |
| Parsers.DataRowTickets | app/services/parsers.py:33-118 | at most one ticket per data row, each REAL, WIN or LOSE, with a non-negative payout |
| Parsers.DataRowTicketsAppend | app/services/parsers.py:33-118 | reading two blocks of rows gives the tickets of the first followed by those of the second |
| Parsers.DataRowTicketsSources | app/services/parsers.py:33-118 | at most one ticket per row, and each comes from an unskipped row that parses to it |
| Parsers.ParseJraCsv | app/services/parsers.py:7-123 | no header row gives no tickets; otherwise the tickets are those of the rows after the first header, read against the stripped header |
| Parsers.FirstHeaderTickets | app/services/parsers.py:15-28 | the tickets read after the header found are those read after any first header row |
| PyText.LStrip | app/services/parsers.py:18 | the result is a suffix of the input that does not start with a space |
| PyText.LStripDropsSpace | app/services/parsers.py:18 | only spaces are dropped on the left |
| PyText.RStrip | app/services/parsers.py:18 | the result is a prefix of the input that does not end with a space |
| PyText.RStripDropsSpace | app/services/parsers.py:18 | only spaces are dropped on the right |
| PyText.StripEnds | app/services/parsers.py:27 | a stripped string neither starts nor ends with a space |
| PyText.StripRemovesOnlySpace | app/services/parsers.py:27 | the stripped string is a contiguous infix, and everything removed is space |
| PyText.StripOfStripped | app/services/ipat_section_receipts.py:13 | stripping text without surrounding spaces changes nothing |
| PyText.ContainsAt | app/services/parsers.py:66 | `pat in text` holds iff the pattern occurs at some index |
| PyText.ReplaceChar | app/services/parsers.py:61 | `replace` of one character keeps the length, replaces every occurrence and touches nothing else |
| PyText.RemoveChar | app/services/parsers.py:50 | removing a character leaves no occurrence of it and never lengthens the text |
| PyText.RemoveCharMultiset | app/services/parsers.py:50 | removal deletes exactly the occurrences of that character |
| PyText.ZFill | app/services/ipat_service.py:15 | `zfill` pads with zeros to the width, after a leading sign, and leaves longer text alone |
| PyText.Slice | app/services/parsers.py:41 | Python slicing clamps its bounds and yields the empty string for empty ranges |
| PyText.SliceFrom | app/services/parsers.py:41 | an open-ended slice is the suffix, or empty past the end |
| PyText.Split | app/services/parsers.py:79 | `split` gives at least one separator-free part, and joining the parts gives back the text |
| PyText.SplitJoin | app/services/parsers.py:82-83 | splitting the join of separator-free parts gives back the parts |
| PyText.JoinPartsFree | app/services/parsers.py:82-95 | a character absent from a joined text is absent from every piece |
| PyText.JoinInjective | app/services/parsers.py:82-83 | separator-free part lists with equal joins are equal |
| PyText.IndexOfJoined | app/services/parsers.py:46 | the first separator in `a + sep + b` sits at `|a|` when a has none |
| PyText.PyInt | app/services/parsers.py:48 | `int()` of a digit string is its decimal value |
| PyText.LeadingDigits | app/services/parsers.py:95 | the leading run of digits is maximal |
| PyText.DigitsOfAppend | app/services/parsers.py:95 | the digits of a concatenation are the concatenated digits |
| PyText.DigitRuns | app/services/parsers.py:95 | `re.findall(r'\d+')` yields digit strings that together are exactly the text's digits, in order |
| PyText.LeadingDigitsStop | app/services/parsers.py:95 | a non-digit ends the leading digit run, whatever follows it |
| PyText.DigitRunsOfDigitString | app/services/parsers.py:95 | a non-empty digit string is a single run |
| PyText.DigitRunsSplit | app/services/parsers.py:95 | a non-digit separates runs: the runs of `a + c + b` are those of a followed by those of b |
| PyText.DigitRunsOfPair | app/services/parsers.py:94-95 | two numbers joined by a dash read as exactly those two numbers |
| PyText.DigitRunsExamples | app/services/parsers.py:94-95 | "03-08" reads as 03 and 08, and "8" as 8 |
| Parsers.NormalKumibanPair | app/services/parsers.py:93-95 | a NORMAL ticket written as `x-y` has the single selection [x, y] |

## Left out

- File reading, the `shift_jis` decoding and the `csv` module's quoting
  rules are not modelled. `Parsers.ParseJraCsv` takes the rows as lists of
  cells. The outer `except Exception` of `parse_jra_csv` only guards that
  I/O.
- `print` diagnostics are not modelled.
- HTML scraping with BeautifulSoup, the browser automation, and the
  `sync_and_save_*` orchestration are not modelled. The exception is the
  de-duplication step (`Keying.Dedup`).
- Database access: the Supabase client becomes the `ReceiptTable` class,
  a set of rows whose `Upsert` absorbs duplicates. Network failures and
  the tickets-table upsert are not modelled.
- The clock (`today_jst`), `compute_current_section_from_races` and the
  races query are not modelled. `Section.ComputeSectionStart` takes today
  as a day number and `is_sale_day` as a function.
- Section.ComputeSectionStart: takes no keyword defaults. The source
  defaults to `lookback_days=90` and `max_section_span_days=10`; they are
  the constants `Section.DefaultLookbackDays` and `Section.DefaultMaxSpan`,
  and the examples use the latter.
- Section.ComputeSectionStart: day numbers are unbounded integers. Python's
  `date` has a bounded range, so `today - timedelta(...)` can raise
  `OverflowError` near it; that error is not modelled.
- MD5 and `json.dumps(..., sort_keys=True)` are function parameters of a
  `Keyer`. `RACE_COURSE_MAP` is a map parameter.
- Ticket content holds horse numbers already as integers. The `int()`
  conversions in `_expand_combinations` and `_is_hit_nagashi_ordered`, and
  the `ValueError` a non-numeric token would raise there, are not
  modelled.
- Payout data is a map from bet-type code to payout entries, because
  `app/schemas.py` is not part of this model. An empty or missing
  `payout_data` is `None`.
- `result_1st`, `result_2nd` and `result_3rd` are accepted by
  `Judgment.JudgeTicket` but never read, as in the source.
- `PyText.IsDigit` and `PyText.PyInt` recognise ASCII and full-width
  digits only. Python's `isdigit`, `int()` and `\d` accept further Unicode
  digits. `int()` with underscores is not modelled.
- `str()` of non-string values is not modelled: receipt numbers are
  strings or `None`, and `line_no`, an integer in the scraped tickets, is
  taken as its already rendered text when it enters the hashed string.
- Keying.MapTicketToDbFormat: a `source` or `mode` key that is present
  with the value `None` gives `None` in the source, because `dict.get`
  only applies its default to a missing key. The model's `Option` fields
  cannot tell the two apart and yield `IPAT_SYNC` or `REAL` instead.
- `Keying.TotalPoints`: a `total_points` key that is present but `None` is
  not modelled.
- Keying.DedupSpec: does not state that the kept records follow the
  first-occurrence order of their ids. `Keying.DedupTable` builds them in
  that order, but no lemma states it.
- Judgment.CombinationSize: its contract gives only the range 1..3. The
  per-code sizes are stated by `Judgment.CombinationSizeOfCode`.
- Bet-type and buy-type codes are read into enumerations for expansion
  and matching. `Judgment.IsOrderedNagashi` keeps the source's string test,
  including the code `TAN`, which no parser produces.
- `judge_ticket` reports a win as `HIT`. `_map_ticket_to_db_format`
  hashes the content as serialised, without padding or sorting horse
  numbers.
