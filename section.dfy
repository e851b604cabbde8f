/**
 * Estimating where the current IPAT sale section ("節") starts: the latest
 * sale day within the look-back window is the anchor, and the section runs
 * back from it over consecutive sale days, up to a maximum span. Dates are
 * day numbers, consecutive for consecutive calendar days.
 */
module Section {
  import opened Wrappers

  /** No day of `[today - lookbackDays, today]` is a sale day. */
  predicate NoSaleDayIn(today: int, isSaleDay: int -> bool, lookbackDays: int) {
    forall d :: today - lookbackDays <= d <= today ==> !isSaleDay(d)
  }

  /** `a` is the latest sale day in `[today - lookbackDays, today]`. */
  predicate IsAnchor(today: int, isSaleDay: int -> bool, lookbackDays: int, a: int) {
    && today - lookbackDays <= a <= today
    && isSaleDay(a)
    && forall d :: a < d <= today ==> !isSaleDay(d)
  }

  /**
   * `start` reaches back from `anchor` over sale days only, at most
   * `maxSpan` days, and stops only at a non-sale day or at the span limit.
   */
  predicate IsSpanStart(isSaleDay: int -> bool, anchor: int, maxSpan: int, start: int) {
    && start <= anchor
    && anchor - start <= maxSpan
    && (forall d :: start <= d <= anchor ==> isSaleDay(d))
    && (anchor - start == maxSpan || !isSaleDay(start - 1))
  }

  /** The keyword defaults of `compute_section_start`: a 90-day window and a 10-day span. */
  const DefaultLookbackDays: int := 90
  const DefaultMaxSpan: int := 10

  ghost predicate IsSectionStart(today: int, isSaleDay: int -> bool, lookbackDays: int, maxSpan: int, start: int) {
    exists a :: IsAnchor(today, isSaleDay, lookbackDays, a) && IsSpanStart(isSaleDay, a, maxSpan, start)
  }

  /**
   * `compute_section_start`: an error for a non-positive look-back or span;
   * `None` exactly when the window holds no sale day; otherwise the start
   * of the run of sale days ending at the anchor, cut at `maxSpan` days.
   */
  method ComputeSectionStart(today: int, isSaleDay: int -> bool, lookbackDays: int, maxSpan: int)
    returns (r: Result<Option<int>>)
    ensures r.Err? <==> lookbackDays <= 0 || maxSpan <= 0
    ensures r.Ok? ==> (r.value.None? <==> NoSaleDayIn(today, isSaleDay, lookbackDays))
    ensures r.Ok? && r.value.Some? ==> IsSectionStart(today, isSaleDay, lookbackDays, maxSpan, r.value.value)
  {
    if lookbackDays <= 0 {
      return Err("ValueError: lookback_days must be > 0");
    }
    if maxSpan <= 0 {
      return Err("ValueError: max_section_span_days must be > 0");
    }

    var anchor: Option<int> := None;
    for delta := 0 to lookbackDays + 1
      invariant anchor.None?
      invariant forall d :: today - delta < d <= today ==> !isSaleDay(d)
    {
      var d := today - delta;
      if isSaleDay(d) {
        anchor := Some(d);
        break;
      }
    }

    if anchor.None? {
      return Ok(None);
    }
    var a := anchor.value;
    assert IsAnchor(today, isSaleDay, lookbackDays, a);

    var start := a;
    for i := 0 to maxSpan
      invariant start == a - i
      invariant forall d :: start <= d <= a ==> isSaleDay(d)
    {
      var prev := start - 1;
      if !isSaleDay(prev) {
        break;
      }
      start := prev;
    }
    assert IsSpanStart(isSaleDay, a, maxSpan, start);
    return Ok(Some(start));
  }

  /** The anchor and the start are each determined by their properties, so the result is unique. */
  lemma SectionStartUnique(today: int, isSaleDay: int -> bool, lookbackDays: int, maxSpan: int, s1: int, s2: int)
    requires IsSectionStart(today, isSaleDay, lookbackDays, maxSpan, s1)
    requires IsSectionStart(today, isSaleDay, lookbackDays, maxSpan, s2)
    ensures s1 == s2
  {
    var a1 :| IsAnchor(today, isSaleDay, lookbackDays, a1) && IsSpanStart(isSaleDay, a1, maxSpan, s1);
    var a2 :| IsAnchor(today, isSaleDay, lookbackDays, a2) && IsSpanStart(isSaleDay, a2, maxSpan, s2);
    AnchorUnique(today, isSaleDay, lookbackDays, a1, a2);
    SpanStartUnique(isSaleDay, a1, maxSpan, s1, s2);
  }

  lemma AnchorUnique(today: int, isSaleDay: int -> bool, lookbackDays: int, a1: int, a2: int)
    requires IsAnchor(today, isSaleDay, lookbackDays, a1) && IsAnchor(today, isSaleDay, lookbackDays, a2)
    ensures a1 == a2
  {
    assert !(a1 < a2) by {
      assert isSaleDay(a2);
    }
    assert !(a2 < a1) by {
      assert isSaleDay(a1);
    }
  }

  lemma SpanStartUnique(isSaleDay: int -> bool, anchor: int, maxSpan: int, s1: int, s2: int)
    requires IsSpanStart(isSaleDay, anchor, maxSpan, s1) && IsSpanStart(isSaleDay, anchor, maxSpan, s2)
    ensures s1 == s2
  {
    assert s1 < s2 ==> isSaleDay(s2 - 1);
    assert s2 < s1 ==> isSaleDay(s1 - 1);
  }

  /** The sale days of the section test: 20, 21 and 22 December. */
  predicate DecemberSaleDays(d: int) {
    20 <= d <= 22
  }

  /** Today the 27th, a 30-day window and the default span 10: the section starts on the 20th, and only there. */
  lemma DecemberExample(s: int)
    ensures !NoSaleDayIn(27, DecemberSaleDays, 30)
    ensures IsSectionStart(27, DecemberSaleDays, 30, DefaultMaxSpan, s) <==> s == 20
  {
    assert IsAnchor(27, DecemberSaleDays, 30, 22);
    assert IsSpanStart(DecemberSaleDays, 22, 10, 20);
    if IsSectionStart(27, DecemberSaleDays, 30, DefaultMaxSpan, s) {
      SectionStartUnique(27, DecemberSaleDays, 30, DefaultMaxSpan, s, 20);
    }
  }

  /**
   * Nothing on sale in the week before the 27th: the window holds no sale
   * day, so there is no section start and `ComputeSectionStart` gives `None`.
   */
  lemma NoSaleExample()
    ensures NoSaleDayIn(27, NeverOnSale, 7)
    ensures forall s :: !IsSectionStart(27, NeverOnSale, 7, DefaultMaxSpan, s)
  {
  }

  /** The sale-day test of the second section test: no day is a sale day. */
  predicate NeverOnSale(d: int) {
    false
  }
}
