/**
 * Ticket prices: VAT, and the percentage increases of the service's price
 * modifiers that apply on a date. Prices are `real`s, an exact stand-in for
 * JavaScript's floating-point numbers.
 */
module Pricing {
  import opened Wrappers
  import opened Seqs
  import opened ClockStrings

  /**
   * `getPriceWithVat(price, VAT)`. `vat` is `None` when the argument is not a
   * number; a missing argument defaults to `Some(0.0)`. Without a positive
   * rate the price is returned unchanged; otherwise the result exceeds the
   * price by `vat` percent of it.
   */
  function GetPriceWithVat(price: real, vat: Option<real>): (r: real)
    ensures (vat.None? || vat.value <= 0.0) ==> r == price
    ensures vat.Some? && vat.value > 0.0 ==> r - price == price * vat.value / 100.0
    ensures vat.Some? && vat.value > 0.0 && price >= 0.0 ==> r >= price
  {
    if vat.None? || vat.value <= 0.0 then price
    else price * (1.0 + vat.value / 100.0)
  }

  /** The net price contained in a gross price at a positive VAT rate. */
  function PriceWithoutVat(gross: real, vat: real): real
    requires vat > 0.0
  {
    gross / (1.0 + vat / 100.0)
  }

  /** Adding VAT at a positive rate and taking it off again gives the price back. */
  lemma VatRoundTrip(price: real, vat: real)
    requires vat > 0.0
    ensures PriceWithoutVat(GetPriceWithVat(price, Some(vat)), vat) == price
  {
    var f := 1.0 + vat / 100.0;
    assert f > 0.0;
    assert GetPriceWithVat(price, Some(vat)) == price * f;
    assert price * f / f == price;
  }

  /** One `{ from, to }` entry of `timeRanges`, as the stored strings. */
  datatype TimeRange = TimeRange(from: string, to: string)

  /**
   * A service price modifier. Each list may be absent; `priceIncrease` is a
   * percentage of the base price.
   */
  datatype PriceModifier = PriceModifier(
    active: bool,
    months: Option<seq<int>>,
    daysOfWeek: Option<seq<int>>,
    daysOfMonth: Option<seq<int>>,
    timeRanges: Option<seq<TimeRange>>,
    priceIncrease: real)

  /**
   * What `isPriceModifierEligible` reads from the date: `getDay()` (0 is
   * Sunday), `getDate()`, `getMonth()` (0 is January) and the minute of the
   * day behind `toTimeString().slice(0, 5)`.
   */
  datatype DateParts = DateParts(dayOfWeek: int, dayOfMonth: int, month: int, minute: int)

  /** `list?.includes(x)`, an absent list being falsy. */
  predicate Includes(list: Option<seq<int>>, x: int)
  {
    list.Some? && x in list.value
  }

  /** `isTimeInRange(from, to)`: both ends compared as strings, inclusive. */
  predicate InTimeRange(range: TimeRange, time: string)
  {
    LexLe(range.from, time) && LexLe(time, range.to)
  }

  /** `timeRanges.some(...)` from position `i` on. */
  function AnyRangeMatches(ranges: seq<TimeRange>, i: nat, time: string): (b: bool)
    requires i <= |ranges|
    decreases |ranges| - i
    ensures b <==> exists j :: i <= j < |ranges| && InTimeRange(ranges[j], time)
  {
    if i == |ranges| then false
    else InTimeRange(ranges[i], time) || AnyRangeMatches(ranges, i + 1, time)
  }

  /**
   * `isPriceModifierEligible(modifier, date)`: an active modifier whose three
   * lists all contain the date's weekday, day of month and month, and one of
   * whose time ranges contains the date's "HH:mm". An inactive modifier, or
   * one missing any list, is never eligible.
   */
  function IsPriceModifierEligible(m: PriceModifier, d: DateParts): (r: bool)
    requires 0 <= d.minute < 1440
    ensures r ==> m.active
    ensures r <==>
              m.active && Includes(m.daysOfWeek, d.dayOfWeek) && Includes(m.daysOfMonth, d.dayOfMonth)
              && Includes(m.months, d.month) && m.timeRanges.Some?
              && exists j :: 0 <= j < |m.timeRanges.value| && InTimeRange(m.timeRanges.value[j], FormatHHmm(d.minute))
  {
    if !m.active then false
    else
      var time := FormatHHmm(d.minute);
      var matchTimeRange := m.timeRanges.Some? && AnyRangeMatches(m.timeRanges.value, 0, time);
      Includes(m.daysOfWeek, d.dayOfWeek) && Includes(m.daysOfMonth, d.dayOfMonth)
        && Includes(m.months, d.month) && matchTimeRange
  }

  /**
   * A range stored as "HH:mm" texts contains exactly the minutes between its
   * ends, both included; a range that wraps past midnight contains none.
   */
  lemma TimeRangeMinutes(from: int, to: int, minute: int)
    requires 0 <= from < 1440 && 0 <= to < 1440 && 0 <= minute < 1440
    ensures InTimeRange(TimeRange(FormatHHmm(from), FormatHHmm(to)), FormatHHmm(minute)) <==>
              from <= minute <= to
    ensures to < from ==> !InTimeRange(TimeRange(FormatHHmm(from), FormatHHmm(to)), FormatHHmm(minute))
  {
    FormatOrder(from, minute);
    FormatOrder(minute, to);
  }

  /**
   * Eligibility in minutes: when each time range is stored as the "HH:mm"
   * texts of two minutes of the day, a date is eligible exactly when the
   * modifier is active, its three lists contain the date's weekday, day of
   * month and month, and the date's minute lies between the two ends of some
   * range, both included.
   */
  lemma EligibleMinutes(m: PriceModifier, d: DateParts, froms: seq<int>, tos: seq<int>)
    requires 0 <= d.minute < 1440
    requires m.timeRanges.Some? && |froms| == |m.timeRanges.value| && |tos| == |m.timeRanges.value|
    requires forall j :: 0 <= j < |m.timeRanges.value| ==>
               0 <= froms[j] < 1440 && 0 <= tos[j] < 1440
               && m.timeRanges.value[j] == TimeRange(FormatHHmm(froms[j]), FormatHHmm(tos[j]))
    ensures IsPriceModifierEligible(m, d) <==>
              m.active && Includes(m.daysOfWeek, d.dayOfWeek) && Includes(m.daysOfMonth, d.dayOfMonth)
              && Includes(m.months, d.month)
              && exists j :: 0 <= j < |froms| && froms[j] <= d.minute <= tos[j]
  {
    var ranges := m.timeRanges.value;
    forall j | 0 <= j < |ranges|
      ensures InTimeRange(ranges[j], FormatHHmm(d.minute)) <==> froms[j] <= d.minute <= tos[j]
    {
      TimeRangeMinutes(froms[j], tos[j], d.minute);
    }
  }

  function EligibleFn(d: DateParts): PriceModifier -> bool
    requires 0 <= d.minute < 1440
  {
    m => IsPriceModifierEligible(m, d)
  }

  /** The sum of the modifiers' percentage increases. */
  function TotalIncrease(ms: seq<PriceModifier>): real
  {
    if ms == [] then 0.0 else TotalIncrease(ms[..|ms| - 1]) + ms[|ms| - 1].priceIncrease
  }

  /**
   * The price `calculatePriceWithModifiers` promises: the base price raised by
   * the sum of the eligible modifiers' percentages, each taken of the base
   * price (no compounding).
   */
  function PriceWithModifiers(basePrice: real, d: DateParts, modifiers: seq<PriceModifier>): real
    requires 0 <= d.minute < 1440
  {
    Raised(basePrice, TotalIncrease(Filter(modifiers, EligibleFn(d))))
  }

  /** A price raised by `percent` percent. */
  function Raised(basePrice: real, percent: real): real
  {
    basePrice * (1.0 + percent / 100.0)
  }

  /**
   * `calculatePriceWithModifiers(basePrice, date, price_modifiers)`: keeps the
   * eligible modifiers, then adds `price_increase / 100 * basePrice` for each.
   */
  method CalculatePriceWithModifiers(basePrice: real, d: DateParts, modifiers: seq<PriceModifier>)
    returns (price: real)
    requires 0 <= d.minute < 1440
    ensures price == PriceWithModifiers(basePrice, d, modifiers)
  {
    var applicable := Filter(modifiers, EligibleFn(d));
    var finalPrice := basePrice;
    for i := 0 to |applicable|
      invariant finalPrice == Raised(basePrice, TotalIncrease(applicable[..i]))
    {
      var priceIncrease := applicable[i].priceIncrease;
      RaisedStep(basePrice, TotalIncrease(applicable[..i]), priceIncrease);
      finalPrice := finalPrice + priceIncrease / 100.0 * basePrice;
      assert applicable[..i + 1][..i] == applicable[..i];
    }
    assert applicable[..|applicable|] == applicable;
    price := finalPrice;
  }

  /** Adding `increase` percent of the base to a raised price raises it by that much more. */
  lemma RaisedStep(basePrice: real, percent: real, increase: real)
    ensures Raised(basePrice, percent) + increase / 100.0 * basePrice == Raised(basePrice, percent + increase)
  {
  }

  lemma {:induction false} TotalIncreaseAppend(a: seq<PriceModifier>, b: seq<PriceModifier>)
    ensures TotalIncrease(a + b) == TotalIncrease(a) + TotalIncrease(b)
    decreases |b|
  {
    if b == [] {
      assert a + b == a;
    } else {
      assert (a + b)[..|a + b| - 1] == a + b[..|b| - 1];
      TotalIncreaseAppend(a, b[..|b| - 1]);
    }
  }

  /** The total increase does not depend on the order of the modifiers. */
  lemma {:induction false} TotalIncreasePermutation(a: seq<PriceModifier>, b: seq<PriceModifier>)
    requires multiset(a) == multiset(b)
    ensures TotalIncrease(a) == TotalIncrease(b)
    decreases |a|
  {
    if a == [] {
      assert |b| == |multiset(b)| == 0;
    } else {
      var x := a[|a| - 1];
      var init := a[..|a| - 1];
      assert TotalIncrease(a) == TotalIncrease(init) + x.priceIncrease;
      assert x in multiset(b) by {
        assert x in a;
      }
      var k :| 0 <= k < |b| && b[k] == x;
      var rest := b[..k] + b[k + 1..];
      assert multiset(init) == multiset(rest) by {
        MultisetRemove(a, |a| - 1);
        assert a[..|a| - 1] + a[|a|..] == init;
        MultisetRemove(b, k);
      }
      TotalIncreasePermutation(init, rest);
      assert TotalIncrease(b) == TotalIncrease(rest) + x.priceIncrease by {
        assert b == b[..k] + [x] + b[k + 1..];
        TotalIncreaseAppend(b[..k], b[k + 1..]);
        TotalIncreaseAppend(b[..k] + [x], b[k + 1..]);
        TotalIncreaseAppend(b[..k], [x]);
        assert TotalIncrease([x]) == x.priceIncrease by {
          assert [x][..0] == [];
        }
      }
    }
  }

  /** Listing the same modifiers in another order gives the same price. */
  lemma ModifierOrderIrrelevant(basePrice: real, d: DateParts, a: seq<PriceModifier>, b: seq<PriceModifier>)
    requires 0 <= d.minute < 1440
    requires multiset(a) == multiset(b)
    ensures PriceWithModifiers(basePrice, d, a) == PriceWithModifiers(basePrice, d, b)
  {
    FilteredTotalPermutation(a, b, EligibleFn(d));
  }

  /** Filtering two permutations of each other by any test leaves the same total increase. */
  lemma FilteredTotalPermutation(a: seq<PriceModifier>, b: seq<PriceModifier>, p: PriceModifier -> bool)
    requires multiset(a) == multiset(b)
    ensures TotalIncrease(Filter(a, p)) == TotalIncrease(Filter(b, p))
  {
    FilterPermutation(a, b, p);
    TotalIncreasePermutation(Filter(a, p), Filter(b, p));
  }

  /** A modifier that is not eligible on the date does not change the price. */
  lemma IneligibleModifierIgnored(basePrice: real, d: DateParts, a: seq<PriceModifier>, m: PriceModifier, b: seq<PriceModifier>)
    requires 0 <= d.minute < 1440
    requires !IsPriceModifierEligible(m, d)
    ensures PriceWithModifiers(basePrice, d, a + [m] + b) == PriceWithModifiers(basePrice, d, a + b)
  {
    var p := EligibleFn(d);
    assert !p(m);
    FilterSkip(a, m, b, p);
    assert TotalIncrease(Filter(a + [m] + b, p)) == TotalIncrease(Filter(a + b, p));
  }

  /** With no eligible modifier the price is the base price. */
  lemma NoEligibleModifierKeepsBase(basePrice: real, d: DateParts, modifiers: seq<PriceModifier>)
    requires 0 <= d.minute < 1440
    requires forall i :: 0 <= i < |modifiers| ==> !IsPriceModifierEligible(modifiers[i], d)
    ensures PriceWithModifiers(basePrice, d, modifiers) == basePrice
  {
    FilterNone(modifiers, EligibleFn(d));
  }
}
