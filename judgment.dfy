/**
 * The settlement engine: expands a ticket's buy method into the concrete
 * horse-number combinations it covers, tests each official winning entry
 * against them (or, for fixed-position nagashi, against the positional
 * constraints directly) and adds up the payout of every entry that hits.
 */
module Judgment {
  import opened Wrappers
  import opened Combinatorics

  // ---------------------------------------------------------------------------
  // Data
  // ---------------------------------------------------------------------------

  /** One official winning entry: the horse numbers as declared and the payout per 100 yen staked. */
  datatype PayoutItem = PayoutItem(horse: seq<int>, money: int)

  /** The official payout table: bet-type code to its winning entries. */
  type PayoutData = map<string, seq<PayoutItem>>

  /**
   * A ticket's `content`, every list already converted to horse numbers; a
   * key the source leaves out is the empty list (or `false` for `multi`).
   */
  datatype Content = Content(
    selections: seq<seq<int>>,
    axis: seq<int>,
    partners: seq<int>,
    positions: seq<int>,
    multi: bool)

  /** The fields of a stored ticket that settlement reads. */
  datatype Ticket = Ticket(betType: string, buyType: string, content: Content, amountPerPoint: int)

  /** What settlement returns: "HIT" or "LOSE", and the total payout. */
  datatype Verdict = Verdict(status: string, payout: int)

  /**
   * The bet-type codes settlement tells apart. A ticket carries its code as
   * a string; `BetTypeOf` reads it, keeping any other code as `OtherBet`.
   */
  datatype BetType =
    | Win | Place | BracketQuinella | Quinella | QuinellaPlace | Exacta | Trio | Trifecta
    | OtherBet(code: string)

  /** The buy methods expansion tells apart; NORMAL and any unrecognised method expand alike. */
  datatype BuyType = Box | Nagashi | Formation | Plain

  function BetCode(b: BetType): string {
    match b
    case Win => "WIN"
    case Place => "PLACE"
    case BracketQuinella => "BRACKET_QUINELLA"
    case Quinella => "QUINELLA"
    case QuinellaPlace => "QUINELLA_PLACE"
    case Exacta => "EXACTA"
    case Trio => "TRIO"
    case Trifecta => "TRIFECTA"
    case OtherBet(code) => code
  }

  /** Reads a bet-type code; the code is recovered from the result. */
  function BetTypeOf(code: string): (b: BetType)
    ensures BetCode(b) == code
  {
    if code == "WIN" then Win
    else if code == "PLACE" then Place
    else if code == "BRACKET_QUINELLA" then BracketQuinella
    else if code == "QUINELLA" then Quinella
    else if code == "QUINELLA_PLACE" then QuinellaPlace
    else if code == "EXACTA" then Exacta
    else if code == "TRIO" then Trio
    else if code == "TRIFECTA" then Trifecta
    else OtherBet(code)
  }

  /** Every recognised bet type is read back from its own code. */
  lemma BetTypeOfCode(b: BetType)
    requires !b.OtherBet?
    ensures BetTypeOf(BetCode(b)) == b
  {
  }

  function BuyTypeOf(buyType: string): BuyType {
    if buyType == "BOX" then Box
    else if buyType == "NAGASHI" then Nagashi
    else if buyType == "FORMATION" then Formation
    else Plain
  }

  predicate IsSingle(b: BetType) {
    b == Win || b == Place
  }

  /** The bet types whose finishing order matters. */
  predicate IsOrdered(b: BetType) {
    b == Exacta || b == Trifecta
  }

  // ---------------------------------------------------------------------------
  // _get_combination_r and _is_hit
  // ---------------------------------------------------------------------------

  /** How many horses one combination of the bet type names; unknown types count as 1. */
  function CombinationSize(b: BetType): (r: nat)
    ensures 1 <= r <= 3
  {
    match b
    case Win | Place => 1
    case BracketQuinella | Quinella | QuinellaPlace | Exacta => 2
    case Trio | Trifecta => 3
    case OtherBet(_) => 1
  }

  /**
   * Read from the ticket's code: WIN and PLACE name one horse, the four pair
   * types two, TRIO and TRIFECTA three, and any other code one.
   */
  lemma CombinationSizeOfCode(code: string)
    ensures code == "WIN" || code == "PLACE" ==> CombinationSize(BetTypeOf(code)) == 1
    ensures code == "BRACKET_QUINELLA" || code == "QUINELLA" || code == "QUINELLA_PLACE" || code == "EXACTA" ==>
              CombinationSize(BetTypeOf(code)) == 2
    ensures code == "TRIO" || code == "TRIFECTA" ==> CombinationSize(BetTypeOf(code)) == 3
    ensures BetTypeOf(code).OtherBet? ==> CombinationSize(BetTypeOf(code)) == 1
  {
  }

  /**
   * Read from the ticket's code: WIN, PLACE, EXACTA and TRIFECTA match by
   * list equality, every other code by equality of the sets of horses.
   */
  lemma MatchesOfCode(code: string, winning: seq<int>, comb: seq<int>)
    ensures code == "WIN" || code == "PLACE" || code == "EXACTA" || code == "TRIFECTA" ==>
              (Matches(BetTypeOf(code), winning, comb) <==> comb == winning)
    ensures code != "WIN" && code != "PLACE" && code != "EXACTA" && code != "TRIFECTA" ==>
              (Matches(BetTypeOf(code), winning, comb) <==> SetOf(comb) == SetOf(winning))
  {
  }

  function SetOf(s: seq<int>): set<int> {
    set h | h in s
  }

  /**
   * Whether a user combination names an official winning entry: list
   * equality for WIN, PLACE, EXACTA and TRIFECTA, set equality otherwise.
   */
  predicate Matches(b: BetType, winning: seq<int>, comb: seq<int>) {
    if IsSingle(b) || IsOrdered(b) then comb == winning
    else SetOf(comb) == SetOf(winning)
  }

  predicate AnyMatch(b: BetType, winning: seq<int>, combos: seq<seq<int>>) {
    exists k :: 0 <= k < |combos| && Matches(b, winning, combos[k])
  }

  /** `_is_hit`: is the official entry `winning` among the user's combinations? */
  method IsHit(betType: BetType, winning: seq<int>, combos: seq<seq<int>>) returns (hit: bool)
    ensures hit <==> AnyMatch(betType, winning, combos)
  {
    var ordered := IsOrdered(betType);
    if IsSingle(betType) {
      for i := 0 to |combos|
        invariant forall j :: 0 <= j < i ==> combos[j] != winning
      {
        if winning == combos[i] {
          assert Matches(betType, winning, combos[i]);
          return true;
        }
      }
      return false;
    }
    for i := 0 to |combos|
      invariant forall j :: 0 <= j < i ==> !Matches(betType, winning, combos[j])
    {
      if ordered {
        if combos[i] == winning {
          assert Matches(betType, winning, combos[i]);
          return true;
        }
      } else {
        if SetOf(combos[i]) == SetOf(winning) {
          assert Matches(betType, winning, combos[i]);
          return true;
        }
      }
    }
    return false;
  }

  // ---------------------------------------------------------------------------
  // _is_hit_nagashi_ordered
  // ---------------------------------------------------------------------------

  /**
   * The fixed-position nagashi rule: as many positions as axis horses (and at
   * least one), each axis horse finished at its 1-based position, and every
   * finisher at a position no axis horse claims is one of the partners.
   */
  predicate PositionalMatch(axis: seq<int>, partners: seq<int>, positions: seq<int>, winning: seq<int>) {
    && |positions| > 0
    && |axis| == |positions|
    && (forall j :: 0 <= j < |positions| ==> 1 <= positions[j] <= |winning| && winning[positions[j] - 1] == axis[j])
    && (forall i :: 0 <= i < |winning| && (i + 1) !in positions ==> winning[i] in partners)
  }

  /** `_is_hit_nagashi_ordered`: checks the positional rule without expanding the bet. */
  method IsHitNagashiOrdered(content: Content, winning: seq<int>) returns (hit: bool)
    ensures hit <==> PositionalMatch(content.axis, content.partners, content.positions, winning)
  {
    var axis, partners, positions := content.axis, content.partners, content.positions;
    if |positions| == 0 || |axis| != |positions| {
      return false;
    }
    // Step A: every axis horse at its claimed position.
    for j := 0 to |axis|
      invariant forall t :: 0 <= t < j ==> 1 <= positions[t] <= |winning| && winning[positions[t] - 1] == axis[t]
    {
      var idx := positions[j] - 1;
      if idx < 0 || idx >= |winning| {
        return false;
      }
      if winning[idx] != axis[j] {
        return false;
      }
    }
    // Step B: every other finisher among the partners.
    var axisIndices := set p | p in positions :: p - 1;
    for i := 0 to |winning|
      invariant forall t :: 0 <= t < i && (t + 1) !in positions ==> winning[t] in partners
    {
      assert (i + 1) in positions ==> i in axisIndices;
      if i !in axisIndices && winning[i] !in partners {
        return false;
      }
    }
    return true;
  }

  // ---------------------------------------------------------------------------
  // _expand_combinations
  // ---------------------------------------------------------------------------

  /** BOX: the permutations (ordered types) or combinations (others) of size r of the pool. */
  function BoxExpansion(betType: BetType, pool: seq<int>): seq<seq<int>> {
    var r := CombinationSize(betType);
    if IsOrdered(betType) then Permutations(pool, r) else Combinations(pool, r)
  }

  /** `[prefix + t for t in ts]`. */
  function PrefixAll(prefix: seq<int>, ts: seq<seq<int>>): seq<seq<int>> {
    seq(|ts|, k requires 0 <= k < |ts| => prefix + ts[k])
  }

  /** What NAGASHI adds for one choice `chosen` of partners. */
  function NagashiBlock(betType: BetType, axis: seq<int>, chosen: seq<int>, multi: bool, r: nat): seq<seq<int>> {
    var base := axis + chosen;
    if multi then
      if IsOrdered(betType) then Permutations(base, r) else [base]
    else if betType == Exacta then
      seq(|chosen|, k requires 0 <= k < |chosen| => axis + [chosen[k]])
    else if betType == Trifecta then
      PrefixAll(axis, Permutations(chosen, |chosen|))
    else [base]
  }

  /** The blocks of all partner choices in `choices`, in order. */
  function NagashiBlocks(betType: BetType, axis: seq<int>, choices: seq<seq<int>>, multi: bool, r: nat): seq<seq<int>> {
    if choices == [] then []
    else NagashiBlocks(betType, axis, choices[..|choices| - 1], multi, r)
         + NagashiBlock(betType, axis, choices[|choices| - 1], multi, r)
  }

  /** NAGASHI: every choice of `r - |axis|` partners, expanded per bet type and `multi`. */
  function NagashiExpansion(betType: BetType, axis: seq<int>, partners: seq<int>, multi: bool): seq<seq<int>> {
    var r := CombinationSize(betType);
    if r < |axis| then []
    else NagashiBlocks(betType, axis, Combinations(partners, r - |axis|), multi, r)
  }

  /**
   * `_expand_combinations`: the combinations a bet covers. BOX with no
   * selections raises IndexError (`selections[0]`).
   */
  function Expansion(betType: BetType, buyType: BuyType, content: Content): (r: Result<seq<seq<int>>>)
    ensures r.Err? <==> buyType == Box && content.selections == []
    ensures buyType == Plain ==> r == Ok(content.selections)
  {
    if buyType == Box then
      if content.selections == [] then Err("IndexError: list index out of range")
      else Ok(BoxExpansion(betType, content.selections[0]))
    else if buyType == Nagashi then Ok(NagashiExpansion(betType, content.axis, content.partners, content.multi))
    else if buyType == Formation then Ok(Product(content.selections))
    else Ok(content.selections)
  }

  /** The body of the NAGASHI loop for one choice of partners. */
  method AppendNagashiBlock(combs: seq<seq<int>>, betType: BetType, axis: seq<int>, chosen: seq<int>, multi: bool, r: nat)
    returns (out: seq<seq<int>>)
    ensures out == combs + NagashiBlock(betType, axis, chosen, multi, r)
  {
    var baseSet := axis + chosen;
    out := combs;
    if multi {
      if IsOrdered(betType) {
        out := out + Permutations(baseSet, r);
      } else {
        out := out + [baseSet];
      }
    } else {
      if betType == Exacta {
        for j := 0 to |chosen|
          invariant out == combs + seq(j, k requires 0 <= k < j => axis + [chosen[k]])
        {
          out := out + [axis + [chosen[j]]];
        }
      } else if betType == Trifecta {
        var perms := Permutations(chosen, |chosen|);
        for j := 0 to |perms|
          invariant out == combs + PrefixAll(axis, perms[..j])
        {
          assert PrefixAll(axis, perms[..j + 1]) == PrefixAll(axis, perms[..j]) + [axis + perms[j]];
          out := out + [axis + perms[j]];
        }
        assert perms[..|perms|] == perms;
      } else {
        out := out + [baseSet];
      }
    }
  }

  /** The NAGASHI branch of `_expand_combinations`, appending to `combs` in nested loops. */
  method ExpandNagashi(betType: BetType, axis: seq<int>, partners: seq<int>, multi: bool) returns (combs: seq<seq<int>>)
    ensures combs == NagashiExpansion(betType, axis, partners, multi)
  {
    var r := CombinationSize(betType);
    combs := [];
    var needed := r - |axis|;
    if needed < 0 {
      assert NagashiExpansion(betType, axis, partners, multi) == [];
      return [];
    }
    var partnerCombs := Combinations(partners, needed);
    assert NagashiExpansion(betType, axis, partners, multi) == NagashiBlocks(betType, axis, partnerCombs, multi, r);
    for i := 0 to |partnerCombs|
      invariant combs == NagashiBlocks(betType, axis, partnerCombs[..i], multi, r)
    {
      NagashiBlocksStep(betType, axis, partnerCombs, multi, r, i);
      combs := AppendNagashiBlock(combs, betType, axis, partnerCombs[i], multi, r);
    }
    assert partnerCombs[..|partnerCombs|] == partnerCombs;
  }

  /** Extending the processed prefix of partner choices by one appends that choice's block. */
  lemma NagashiBlocksStep(betType: BetType, axis: seq<int>, choices: seq<seq<int>>, multi: bool, r: nat, i: nat)
    requires i < |choices|
    ensures NagashiBlocks(betType, axis, choices[..i + 1], multi, r)
            == NagashiBlocks(betType, axis, choices[..i], multi, r) + NagashiBlock(betType, axis, choices[i], multi, r)
  {
    assert choices[..i + 1][..i] == choices[..i];
  }

  /** `_expand_combinations`. */
  method ExpandCombinations(betType: BetType, buyType: BuyType, content: Content) returns (r: Result<seq<seq<int>>>)
    ensures r == Expansion(betType, buyType, content)
  {
    var selections := content.selections;
    if buyType == Box {
      if |selections| == 0 {
        return Err("IndexError: list index out of range");
      }
      var horses := selections[0];
      var size := CombinationSize(betType);
      if IsOrdered(betType) {
        return Ok(Permutations(horses, size));
      } else {
        return Ok(Combinations(horses, size));
      }
    } else if buyType == Nagashi {
      var combs := ExpandNagashi(betType, content.axis, content.partners, content.multi);
      return Ok(combs);
    } else if buyType == Formation {
      return Ok(Product(selections));
    } else {
      return Ok(selections);
    }
  }

  // ---------------------------------------------------------------------------
  // judge_ticket
  // ---------------------------------------------------------------------------

  /** Fixed-position, non-multi NAGASHI of an order-sensitive type: judged positionally. */
  function IsOrderedNagashi(t: Ticket): (b: bool)
    ensures b ==> BuyTypeOf(t.buyType) == Nagashi && (IsOrdered(BetTypeOf(t.betType)) || t.betType == "TAN")
  {
    && t.buyType == "NAGASHI"
    && !t.content.multi
    && t.betType in {"TRIFECTA", "EXACTA", "TAN"}
    && |t.content.positions| > 0
  }

  /** `getattr(payout_data, bet_type, [])`. */
  function ItemsFor(data: PayoutData, betType: string): seq<PayoutItem> {
    if betType in data then data[betType] else []
  }

  /** `amount_per_point * money // 100` (Python floors; for the divisor 100 so does Dafny's `/`). */
  function EntryPayout(amountPerPoint: int, money: int): int {
    amountPerPoint * money / 100
  }

  /** Whether one official entry hits the ticket. */
  predicate EntryHits(t: Ticket, combos: seq<seq<int>>, winning: seq<int>) {
    if IsOrderedNagashi(t) then PositionalMatch(t.content.axis, t.content.partners, t.content.positions, winning)
    else AnyMatch(BetTypeOf(t.betType), winning, combos)
  }

  /** Number of entries of `items` that hit. */
  function HitCount(t: Ticket, combos: seq<seq<int>>, items: seq<PayoutItem>): nat {
    if items == [] then 0
    else HitCount(t, combos, items[..|items| - 1])
         + (if EntryHits(t, combos, items[|items| - 1].horse) then 1 else 0)
  }

  /** Sum of the payouts of the entries of `items` that hit. */
  function HitTotal(t: Ticket, combos: seq<seq<int>>, items: seq<PayoutItem>): int {
    if items == [] then 0
    else HitTotal(t, combos, items[..|items| - 1])
         + (if EntryHits(t, combos, items[|items| - 1].horse)
            then EntryPayout(t.amountPerPoint, items[|items| - 1].money) else 0)
  }

  /**
   * `judge_ticket` as a function of the ticket and the payout table (`None`
   * when the race has no payout data). The finishing-order arguments of the
   * source are never read, so they do not appear here.
   */
  function Judge(t: Ticket, data: Option<PayoutData>): (r: Result<Verdict>)
    ensures r.Ok? ==> r.value.status in {"HIT", "LOSE"}
    ensures r.Ok? && r.value.status == "LOSE" ==> r.value.payout == 0
    ensures data.None? || ItemsFor(data.value, t.betType) == [] ==> r == Ok(Verdict("LOSE", 0))
    ensures r.Err? ==> BuyTypeOf(t.buyType) == Box && t.content.selections == []
  {
    if data.None? then Ok(Verdict("LOSE", 0))
    else
      var items := ItemsFor(data.value, t.betType);
      if items == [] then Ok(Verdict("LOSE", 0))
      else
        var expanded :=
          if IsOrderedNagashi(t) then Ok([]) else Expansion(BetTypeOf(t.betType), BuyTypeOf(t.buyType), t.content);
        match expanded
        case Err(e) => Err(e)
        case Ok(combos) =>
          if HitCount(t, combos, items) > 0 then Ok(Verdict("HIT", HitTotal(t, combos, items)))
          else Ok(Verdict("LOSE", 0))
  }

  /** `judge_ticket`: accumulates the payout of every hitting entry in one loop. */
  method JudgeTicket(t: Ticket, result1st: int, result2nd: int, result3rd: int, data: Option<PayoutData>)
    returns (r: Result<Verdict>)
    ensures r == Judge(t, data)
  {
    if data.None? {
      return Ok(Verdict("LOSE", 0));
    }
    var items := ItemsFor(data.value, t.betType);
    if |items| == 0 {
      return Ok(Verdict("LOSE", 0));
    }
    var orderedNagashi := IsOrderedNagashi(t);
    var betType := BetTypeOf(t.betType);
    var combos: seq<seq<int>> := [];
    if !orderedNagashi {
      var expanded := ExpandCombinations(betType, BuyTypeOf(t.buyType), t.content);
      if expanded.Err? {
        return Err(expanded.message);
      }
      combos := expanded.value;
    }
    var totalPayout := 0;
    var hitCount := 0;
    for k := 0 to |items|
      invariant totalPayout == HitTotal(t, combos, items[..k])
      invariant hitCount == HitCount(t, combos, items[..k])
    {
      var winning := items[k].horse;
      var hit: bool;
      if orderedNagashi {
        hit := IsHitNagashiOrdered(t.content, winning);
      } else {
        hit := IsHit(betType, winning, combos);
      }
      assert items[..k + 1][..k] == items[..k];
      if hit {
        totalPayout := totalPayout + EntryPayout(t.amountPerPoint, items[k].money);
        hitCount := hitCount + 1;
      }
    }
    assert items[..|items|] == items;
    if hitCount > 0 {
      return Ok(Verdict("HIT", totalPayout));
    } else {
      return Ok(Verdict("LOSE", 0));
    }
  }
}
