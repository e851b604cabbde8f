/**
 * What settlement guarantees: the verdict in terms of the entries a ticket
 * covers, the shape of every expansion, and the worked examples of the
 * settlement tests.
 */
module JudgmentProperties {
  import opened Wrappers
  import opened Combinatorics
  import opened Judgment

  // ---------------------------------------------------------------------------
  // The verdict
  // ---------------------------------------------------------------------------

  /** Whether a ticket covers the official entry `winning`, independently of any loop. */
  predicate Covers(t: Ticket, winning: seq<int>) {
    if IsOrderedNagashi(t) then PositionalMatch(t.content.axis, t.content.partners, t.content.positions, winning)
    else match Expansion(BetTypeOf(t.betType), BuyTypeOf(t.buyType), t.content)
      case Ok(combos) => AnyMatch(BetTypeOf(t.betType), winning, combos)
      case Err(_) => false
  }

  /** Total payout of the covered entries among `items`. */
  function CoveredTotal(t: Ticket, items: seq<PayoutItem>): int {
    if items == [] then 0
    else CoveredTotal(t, items[..|items| - 1])
         + (if Covers(t, items[|items| - 1].horse) then EntryPayout(t.amountPerPoint, items[|items| - 1].money) else 0)
  }

  /** Total payout of all `items`, covered or not. */
  function AllEntriesTotal(amountPerPoint: int, items: seq<PayoutItem>): int {
    if items == [] then 0
    else AllEntriesTotal(amountPerPoint, items[..|items| - 1]) + EntryPayout(amountPerPoint, items[|items| - 1].money)
  }

  /** The combinations the settlement loop tests against, whenever it gets that far. */
  predicate LoopCombos(t: Ticket, combos: seq<seq<int>>) {
    IsOrderedNagashi(t) || Expansion(BetTypeOf(t.betType), BuyTypeOf(t.buyType), t.content) == Ok(combos)
  }

  lemma {:induction false} HitCountCounts(t: Ticket, combos: seq<seq<int>>, items: seq<PayoutItem>)
    requires LoopCombos(t, combos)
    ensures HitCount(t, combos, items) > 0 <==> exists k :: 0 <= k < |items| && Covers(t, items[k].horse)
    ensures HitTotal(t, combos, items) == CoveredTotal(t, items)
  {
    if items != [] {
      var init := items[..|items| - 1];
      HitCountCounts(t, combos, init);
      assert EntryHits(t, combos, items[|items| - 1].horse) == Covers(t, items[|items| - 1].horse);
      if exists k :: 0 <= k < |init| && Covers(t, init[k].horse) {
        var k :| 0 <= k < |init| && Covers(t, init[k].horse);
        assert items[k] == init[k];
      }
      if exists k :: 0 <= k < |items| && Covers(t, items[k].horse) {
        var k :| 0 <= k < |items| && Covers(t, items[k].horse);
        if k < |init| {
          assert init[k] == items[k];
        }
      }
    }
  }

  /**
   * The verdict of `judge_ticket`: an error only for a BOX ticket without
   * selections (and only once there are entries to test); otherwise HIT
   * exactly when some official entry of the ticket's bet type is covered,
   * paying the sum over the covered entries, and ("LOSE", 0) in every other
   * case, including a race without payout data.
   */
  lemma JudgeVerdict(t: Ticket, data: Option<PayoutData>)
    ensures Judge(t, data).Err? <==>
              && data.Some? && ItemsFor(data.value, t.betType) != []
              && !IsOrderedNagashi(t) && t.buyType == "BOX" && t.content.selections == []
    ensures Judge(t, data).Ok? ==>
              var items := if data.Some? then ItemsFor(data.value, t.betType) else [];
              var v := Judge(t, data).value;
              && (v.status == "HIT" <==> exists k :: 0 <= k < |items| && Covers(t, items[k].horse))
              && (v.status == "HIT" ==> v.payout == CoveredTotal(t, items))
              && (v.status != "HIT" ==> v == Verdict("LOSE", 0))
  {
    if data.Some? && ItemsFor(data.value, t.betType) != [] {
      var items := ItemsFor(data.value, t.betType);
      var expanded :=
        if IsOrderedNagashi(t) then Ok([]) else Expansion(BetTypeOf(t.betType), BuyTypeOf(t.buyType), t.content);
      if expanded.Ok? {
        HitCountCounts(t, expanded.value, items);
      }
    }
  }

  /** Dead heats: the payout over several entries is the sum over each part. */
  lemma {:induction false} CoveredTotalAppend(t: Ticket, a: seq<PayoutItem>, b: seq<PayoutItem>)
    ensures CoveredTotal(t, a + b) == CoveredTotal(t, a) + CoveredTotal(t, b)
    decreases |b|
  {
    if b == [] {
      assert a + b == a;
    } else {
      var init := b[..|b| - 1];
      assert (a + b)[..|a + b| - 1] == a + init;
      assert (a + b)[|a + b| - 1] == b[|b| - 1];
      CoveredTotalAppend(t, a, init);
    }
  }

  /**
   * With a non-negative stake and non-negative official payouts, the ticket
   * is paid between nothing and the payout of every entry of its type.
   */
  lemma {:induction false} CoveredTotalBounds(t: Ticket, items: seq<PayoutItem>)
    requires t.amountPerPoint >= 0
    requires forall k :: 0 <= k < |items| ==> items[k].money >= 0
    ensures 0 <= CoveredTotal(t, items) <= AllEntriesTotal(t.amountPerPoint, items)
  {
    if items != [] {
      var init := items[..|items| - 1];
      assert forall k :: 0 <= k < |init| ==> init[k] == items[k];
      CoveredTotalBounds(t, init);
      var m := items[|items| - 1].money;
      assert t.amountPerPoint * m >= 0;
    }
  }

  // ---------------------------------------------------------------------------
  // BOX and FORMATION
  // ---------------------------------------------------------------------------

  /**
   * BOX covers the arrangements of r distinct picks from the pool for EXACTA
   * and TRIFECTA, and the r-element sub-selections (in pool order) otherwise.
   */
  lemma BoxMembers(betType: BetType, pool: seq<int>, c: seq<int>)
    ensures c in BoxExpansion(betType, pool) <==>
              && |c| == CombinationSize(betType)
              && (if IsOrdered(betType) then multiset(c) <= multiset(pool) else IsSubsequence(c, pool))
  {
    if IsOrdered(betType) {
      PermutationsMembers(pool, CombinationSize(betType), c);
    } else {
      CombinationsMembers(pool, CombinationSize(betType), c);
    }
  }

  /** A BOX of n horses costs n!/(n-r)! points when order matters and C(n, r) otherwise. */
  lemma BoxCount(betType: BetType, pool: seq<int>)
    ensures |BoxExpansion(betType, pool)| ==
              if IsOrdered(betType) then FallingFactorial(|pool|, CombinationSize(betType))
              else Choose(|pool|, CombinationSize(betType))
  {
    if IsOrdered(betType) {
      PermutationsCount(pool, CombinationSize(betType));
    } else {
      CombinationsCount(pool, CombinationSize(betType));
    }
  }

  /** FORMATION covers one horse per group, in group order, and as many combinations as the product of the group sizes. */
  lemma FormationMembers(betType: BetType, content: Content, c: seq<int>)
    ensures Expansion(betType, Formation, content).Ok?
    ensures c in Expansion(betType, Formation, content).value <==>
              |c| == |content.selections| && forall i :: 0 <= i < |c| ==> c[i] in content.selections[i]
    ensures |Expansion(betType, Formation, content).value| == SizeProduct(content.selections)
  {
    ProductMembers(content.selections, c);
    ProductCount(content.selections);
  }

  // ---------------------------------------------------------------------------
  // NAGASHI
  // ---------------------------------------------------------------------------

  lemma SubMultisetSameSize(a: multiset<int>, b: multiset<int>)
    requires a <= b && |a| == |b|
    ensures a == b
  {
    assert b == a + (b - a);
    assert |b - a| == 0;
  }

  lemma {:induction false} NagashiBlocksMembers(betType: BetType, axis: seq<int>, choices: seq<seq<int>>, multi: bool, r: nat, c: seq<int>)
    ensures c in NagashiBlocks(betType, axis, choices, multi, r) <==>
              exists k :: 0 <= k < |choices| && c in NagashiBlock(betType, axis, choices[k], multi, r)
  {
    if choices != [] {
      var init := choices[..|choices| - 1];
      NagashiBlocksMembers(betType, axis, init, multi, r, c);
      if c in NagashiBlocks(betType, axis, init, multi, r) {
        var k :| 0 <= k < |init| && c in NagashiBlock(betType, axis, init[k], multi, r);
        assert choices[k] == init[k];
      }
      if exists k :: 0 <= k < |choices| && c in NagashiBlock(betType, axis, choices[k], multi, r) {
        var k :| 0 <= k < |choices| && c in NagashiBlock(betType, axis, choices[k], multi, r);
        if k < |init| {
          assert init[k] == choices[k];
        }
      }
    }
  }

  lemma NagashiBlockBounds(betType: BetType, axis: seq<int>, chosen: seq<int>, multi: bool, r: nat, c: seq<int>)
    requires |axis| + |chosen| == r
    requires c in NagashiBlock(betType, axis, chosen, multi, r)
    ensures multiset(axis) <= multiset(c) <= multiset(axis + chosen)
    ensures !multi || !IsOrdered(betType) ==> axis <= c
    ensures multi && IsOrdered(betType) ==> |c| == r
  {
    var base := axis + chosen;
    if multi && IsOrdered(betType) {
      PermutationsSound(base, r, c);
      SubMultisetSameSize(multiset(c), multiset(base));
    } else if !multi && betType == Exacta {
      var k :| 0 <= k < |chosen| && c == axis + [chosen[k]];
      assert multiset(c) == multiset(axis) + multiset{chosen[k]};
      assert chosen[k] in multiset(chosen);
    } else if !multi && betType == Trifecta {
      var perms := Permutations(chosen, |chosen|);
      var k :| 0 <= k < |perms| && c == axis + perms[k];
      PermutationsSound(chosen, |chosen|, perms[k]);
    }
  }

  /**
   * A NAGASHI expansion is empty when the axis is longer than the bet's
   * combination size; otherwise its members are the blocks of the partner
   * choices that fill the remaining slots.
   */
  lemma NagashiAxisFits(betType: BetType, axis: seq<int>, partners: seq<int>, multi: bool, c: seq<int>)
    requires c in NagashiExpansion(betType, axis, partners, multi)
    ensures |axis| <= CombinationSize(betType)
    ensures c in NagashiBlocks(betType, axis, Combinations(partners, CombinationSize(betType) - |axis|), multi, CombinationSize(betType))
  {
  }

  /**
   * With `r` the combination size (which `NagashiAxisFits` links to an
   * expansion), every NAGASHI combination contains all axis horses and
   * otherwise only partners (never more copies than were named); unless the
   * bet is a multi on an order-sensitive type it starts with the axis in the
   * given order, and a multi on an order-sensitive type yields full-length
   * arrangements.
   */
  lemma NagashiBounds(betType: BetType, axis: seq<int>, partners: seq<int>, multi: bool, r: nat, c: seq<int>)
    requires |axis| <= r
    requires c in NagashiBlocks(betType, axis, Combinations(partners, r - |axis|), multi, r)
    ensures multiset(axis) <= multiset(c) <= multiset(axis + partners)
    ensures !multi || !IsOrdered(betType) ==> axis <= c
    ensures multi && IsOrdered(betType) ==> |c| == r
  {
    var choices := Combinations(partners, r - |axis|);
    NagashiBlocksMembers(betType, axis, choices, multi, r, c);
    var k :| 0 <= k < |choices| && c in NagashiBlock(betType, axis, choices[k], multi, r);
    var chosen := choices[k];
    CombinationsMembers(partners, r - |axis|, chosen);
    SubsequenceMultiset(chosen, partners);
    NagashiBlockBounds(betType, axis, chosen, multi, r, c);
    AppendSubMultiset(axis, chosen, partners);
  }

  lemma AppendSubMultiset(axis: seq<int>, chosen: seq<int>, partners: seq<int>)
    requires multiset(chosen) <= multiset(partners)
    ensures multiset(axis + chosen) <= multiset(axis + partners)
  {
    assert multiset(axis + chosen) == multiset(axis) + multiset(chosen);
    assert multiset(axis + partners) == multiset(axis) + multiset(partners);
  }

  lemma {:induction false} CombinationsOfOne(xs: seq<int>)
    ensures Combinations(xs, 1) == seq(|xs|, k requires 0 <= k < |xs| => [xs[k]])
  {
    if xs != [] {
      CombinationsOfOne(xs[1..]);
      assert Combinations(xs[1..], 0) == [[]];
      assert [xs[0]] + [] == [xs[0]];
      assert PrependAll(xs[0], [[]]) == [[xs[0]]];
    }
  }

  lemma {:induction false} SingletonBlocks(betType: BetType, axis: seq<int>, choices: seq<seq<int>>, r: nat)
    requires betType == Exacta || betType == Trifecta
    requires forall k :: 0 <= k < |choices| ==> |choices[k]| == 1
    ensures NagashiBlocks(betType, axis, choices, false, r) ==
              seq(|choices|, k requires 0 <= k < |choices| => axis + choices[k])
  {
    if choices != [] {
      var init := choices[..|choices| - 1];
      var last := choices[|choices| - 1];
      SingletonBlocks(betType, axis, init, r);
      if betType == Trifecta {
        assert last == [last[0]];
        assert RemoveAt(last, 0) == [];
        assert PermutationsFrom(last, 1, 1) == [];
        var rest: seq<int> := RemoveAt(last, 0);
        assert Permutations(rest, 0) == [[]];
        assert [last[0]] + [] == last;
        assert PrependAll(last[0], Permutations(rest, 0)) == [last];
        assert Permutations(last, 1) == [last];
      } else {
        assert last == [last[0]];
      }
    }
  }

  /**
   * With one open slot (EXACTA on one axis horse, TRIFECTA on two) a plain
   * NAGASHI yields exactly one combination per partner, axis first.
   */
  lemma NagashiOneOpenSlot(betType: BetType, axis: seq<int>, partners: seq<int>)
    requires (betType == Exacta && |axis| == 1) || (betType == Trifecta && |axis| == 2)
    ensures NagashiExpansion(betType, axis, partners, false) ==
              seq(|partners|, k requires 0 <= k < |partners| => axis + [partners[k]])
  {
    CombinationsOfOne(partners);
    var choices := Combinations(partners, 1);
    SingletonBlocks(betType, axis, choices, CombinationSize(betType));
  }

  /**
   * The usual TRIFECTA NAGASHI with one axis horse and no multi: the axis
   * first, followed by any two different partners in either order.
   */
  lemma NagashiOneAxisTrifecta(a: int, partners: seq<int>, c: seq<int>)
    ensures c in NagashiExpansion(Trifecta, [a], partners, false) <==>
              exists i, j :: 0 <= i < |partners| && 0 <= j < |partners| && i != j && c == [a, partners[i], partners[j]]
  {
    if c in NagashiExpansion(Trifecta, [a], partners, false) {
      OneAxisTrifectaSound(a, partners, c);
    }
    if exists i, j :: 0 <= i < |partners| && 0 <= j < |partners| && i != j && c == [a, partners[i], partners[j]] {
      var i, j :| 0 <= i < |partners| && 0 <= j < |partners| && i != j && c == [a, partners[i], partners[j]];
      OneAxisTrifectaComplete(a, partners, i, j);
    }
  }

  lemma OneAxisTrifectaSound(a: int, partners: seq<int>, c: seq<int>)
    requires c in NagashiExpansion(Trifecta, [a], partners, false)
    ensures exists i, j :: 0 <= i < |partners| && 0 <= j < |partners| && i != j && c == [a, partners[i], partners[j]]
  {
    var choices := Combinations(partners, 2);
    OneAxisTrifectaBlocks(a, partners);
    NagashiBlocksMembers(Trifecta, [a], choices, false, 3, c);
    var k :| 0 <= k < |choices| && c in NagashiBlock(Trifecta, [a], choices[k], false, 3);
    var chosen := choices[k];
    CombinationsMembers(partners, 2, chosen);
    SubsequenceOfTwo(chosen, partners);
    var i, j :| 0 <= i < j < |partners| && chosen == [partners[i], partners[j]];
    TrifectaBlockMembers(a, chosen, c);
    if c == [a] + chosen {
      assert c == [a, partners[i], partners[j]];
    } else {
      assert c == [a, partners[j], partners[i]];
    }
  }

  lemma OneAxisTrifectaComplete(a: int, partners: seq<int>, i: nat, j: nat)
    requires i < |partners| && j < |partners| && i != j
    ensures [a, partners[i], partners[j]] in NagashiExpansion(Trifecta, [a], partners, false)
  {
    var c := [a, partners[i], partners[j]];
    var lo, hi := if i < j then i else j, if i < j then j else i;
    var chosen := [partners[lo], partners[hi]];
    TwoIndicesSubsequence(partners, lo, hi);
    var choices := Combinations(partners, 2);
    CombinationsMembers(partners, 2, chosen);
    var k :| 0 <= k < |choices| && choices[k] == chosen;
    TrifectaBlockMembers(a, chosen, c);
    NagashiBlocksMembers(Trifecta, [a], choices, false, 3, c);
    OneAxisTrifectaBlocks(a, partners);
  }

  /** With one axis horse a TRIFECTA NAGASHI is made of the blocks of all partner pairs. */
  lemma OneAxisTrifectaBlocks(a: int, partners: seq<int>)
    ensures NagashiExpansion(Trifecta, [a], partners, false) ==
              NagashiBlocks(Trifecta, [a], Combinations(partners, 2), false, 3)
  {
  }

  /** The block of a partner pair behind one TRIFECTA axis horse: the pair in both orders. */
  lemma TrifectaBlockMembers(a: int, chosen: seq<int>, c: seq<int>)
    requires |chosen| == 2
    ensures c in NagashiBlock(Trifecta, [a], chosen, false, 3) <==> c == [a] + chosen || c == [a, chosen[1], chosen[0]]
  {
    var perms := Permutations(chosen, 2);
    assert NagashiBlock(Trifecta, [a], chosen, false, 3) == PrefixAll([a], perms);
    if c in PrefixAll([a], perms) {
      var m :| 0 <= m < |perms| && c == [a] + perms[m];
      PermutationsOfPair(chosen, perms[m]);
    }
    if c == [a] + chosen || c == [a, chosen[1], chosen[0]] {
      PermutationsOfPair(chosen, c[1..]);
      var m :| 0 <= m < |perms| && perms[m] == c[1..];
      assert c == PrefixAll([a], perms)[m];
    }
  }

  /** An axis longer than the bet leaves nothing to buy. */
  lemma NagashiTooManyAxes(betType: BetType, axis: seq<int>, partners: seq<int>, multi: bool)
    requires |axis| > CombinationSize(betType)
    ensures Expansion(betType, Nagashi, Content([], axis, partners, [], multi)) == Ok([])
  {
  }

  // ---------------------------------------------------------------------------
  // Worked examples
  // ---------------------------------------------------------------------------

  /** A WIN ticket on horse 1 at 100 yen, horse 1 won paying 200: HIT, 200. */
  lemma WinStraightHit()
    ensures Judge(Ticket("WIN", "NORMAL", Content([[1]], [], [], [], false), 100),
                  Some(map["WIN" := [PayoutItem([1], 200)]]))
            == Ok(Verdict("HIT", 200))
  {
    var t := Ticket("WIN", "NORMAL", Content([[1]], [], [], [], false), 100);
    assert [[1]][0] == [1];
    assert BetTypeOf("WIN") == Win;
    assert Matches(Win, [1], [[1]][0]);
    assert EntryHits(t, [[1]], [1]);
  }

  /** The same race, ticket on horse 2: LOSE, 0. */
  lemma WinStraightLose()
    ensures Judge(Ticket("WIN", "NORMAL", Content([[2]], [], [], [], false), 100),
                  Some(map["WIN" := [PayoutItem([1], 200)]]))
            == Ok(Verdict("LOSE", 0))
  {
    var t := Ticket("WIN", "NORMAL", Content([[2]], [], [], [], false), 100);
    assert !EntryHits(t, [[2]], [1]);
  }

  /** A QUINELLA BOX of 1, 3 and 5 covers the official pair (5, 1) in either order. */
  lemma QuinellaBoxHit()
    ensures Judge(Ticket("QUINELLA", "BOX", Content([[1, 3, 5]], [], [], [], false), 200),
                  Some(map["QUINELLA" := [PayoutItem([5, 1], 1230)]]))
            == Ok(Verdict("HIT", 2460))
  {
    var t := Ticket("QUINELLA", "BOX", Content([[1, 3, 5]], [], [], [], false), 200);
    var item := PayoutItem([5, 1], 1230);
    var data := Some(map["QUINELLA" := [item]]);
    QuinellaBoxExpansion(t);
    QuinellaBoxEntry(t);
    assert ItemsFor(data.value, t.betType) == [item];
    JudgeOneEntry(t, data, item, BoxExpansion(Quinella, [1, 3, 5]));
    assert EntryPayout(200, 1230) == 2460;
  }

  lemma QuinellaBoxExpansion(t: Ticket)
    requires t == Ticket("QUINELLA", "BOX", Content([[1, 3, 5]], [], [], [], false), 200)
    ensures Expansion(BetTypeOf(t.betType), BuyTypeOf(t.buyType), t.content) == Ok(BoxExpansion(Quinella, [1, 3, 5]))
  {
    assert BetTypeOf(t.betType) == Quinella;
    assert t.content.selections[0] == [1, 3, 5];
  }

  lemma QuinellaBoxEntry(t: Ticket)
    requires t == Ticket("QUINELLA", "BOX", Content([[1, 3, 5]], [], [], [], false), 200)
    ensures !IsOrderedNagashi(t)
    ensures EntryHits(t, BoxExpansion(Quinella, [1, 3, 5]), [5, 1])
  {
    var combos := BoxExpansion(Quinella, [1, 3, 5]);
    assert BetTypeOf(t.betType) == Quinella;
    QuinellaBoxCovers();
    var k :| 0 <= k < |combos| && combos[k] == [1, 5];
    assert SetOf([1, 5]) == SetOf([5, 1]);
    assert Matches(Quinella, [5, 1], combos[k]);
  }

  lemma QuinellaBoxCovers()
    ensures [1, 5] in BoxExpansion(Quinella, [1, 3, 5])
  {
    BoxOuterPair(Quinella, 1, 3, 5);
  }

  /** An unordered two-horse BOX of three horses covers its first and last horse. */
  lemma BoxOuterPair(betType: BetType, a: int, b: int, c: int)
    requires CombinationSize(betType) == 2 && !IsOrdered(betType)
    ensures [a, c] in BoxExpansion(betType, [a, b, c])
  {
    BoxMembers(betType, [a, b, c], [a, c]);
    var xs := [a, b, c];
    assert IsSubsequence([c], [c]);
    assert IsSubsequence([c], [b, c]) by {
      assert [b, c][1..] == [c];
    }
    assert IsSubsequence([a, c], xs) by {
      assert [a, c][1..] == [c] && xs[1..] == [b, c];
    }
  }

  /** A ticket settled against a single official entry: HIT with that entry's payout, or LOSE. */
  lemma JudgeOneEntry(t: Ticket, data: Option<PayoutData>, item: PayoutItem, combos: seq<seq<int>>)
    requires data.Some? && ItemsFor(data.value, t.betType) == [item]
    requires !IsOrderedNagashi(t) && Expansion(BetTypeOf(t.betType), BuyTypeOf(t.buyType), t.content) == Ok(combos)
    ensures EntryHits(t, combos, item.horse) ==>
              Judge(t, data) == Ok(Verdict("HIT", EntryPayout(t.amountPerPoint, item.money)))
    ensures !EntryHits(t, combos, item.horse) ==> Judge(t, data) == Ok(Verdict("LOSE", 0))
  {
    var items := [item];
    assert items[..0] == [] && items[0] == item;
    assert HitCount(t, combos, items) == if EntryHits(t, combos, item.horse) then 1 else 0;
    assert HitTotal(t, combos, items) ==
             if EntryHits(t, combos, item.horse) then EntryPayout(t.amountPerPoint, item.money) else 0;
  }

  /** A TRIFECTA with horse 5 fixed first over partners 3 and 8: 5-3-8 hits, 3-5-8 does not. */
  lemma TrifectaFixedFirst()
    ensures Judge(Ticket("TRIFECTA", "NAGASHI", Content([], [5], [3, 8], [1], false), 100),
                  Some(map["TRIFECTA" := [PayoutItem([5, 3, 8], 4500)]]))
            == Ok(Verdict("HIT", 4500))
    ensures Judge(Ticket("TRIFECTA", "NAGASHI", Content([], [5], [3, 8], [1], false), 100),
                  Some(map["TRIFECTA" := [PayoutItem([3, 5, 8], 4500)]]))
            == Ok(Verdict("LOSE", 0))
  {
    var t := Ticket("TRIFECTA", "NAGASHI", Content([], [5], [3, 8], [1], false), 100);
    assert PositionalMatch([5], [3, 8], [1], [5, 3, 8]);
    assert !PositionalMatch([5], [3, 8], [1], [3, 5, 8]) by {
      assert [3, 5, 8][[1][0] - 1] != [5][0];
    }
    assert EntryHits(t, [], [5, 3, 8]);
    assert !EntryHits(t, [], [3, 5, 8]);
  }
}
