/** Cart arithmetic, written twice: the server's ComputeTotals
    (backend/internal/service/order_sync_service.go) and the till's computeCartTotal and
    computeDiscountCents (frontend/src/lib/cart-math.ts). */
module CartMath {
  import opened Numbers
  import opened Rounding
  import opened Wrappers

  type ProductId = nat

  /** One sold line, as the till holds it and as it arrives at the server. */
  datatype SaleLine = SaleLine(
    productId: Option<ProductId>,
    name: string,
    quantity: real,
    unitPriceCents: int,
    taxRate: real,
    lineDiscountCents: int)
  {
    function Gross(): real { Scale(unitPriceCents as real, quantity) }
    function ExactTax(): real { Scale(Gross(), taxRate) }

    predicate NonNegative() {
      quantity >= 0.0 && unitPriceCents >= 0 && taxRate >= 0.0
    }
  }

  datatype Totals = Totals(subtotalCents: int, taxTotalCents: int, totalCents: int)

  predicate NonNegativeCart(lines: seq<SaleLine>) {
    forall line | line in lines :: line.NonNegative()
  }

  // ---- the sums both sides are built from -----------------------------------

  function SumGross(lines: seq<SaleLine>): real {
    if lines == [] then 0.0
    else SumGross(lines[..|lines| - 1]) + lines[|lines| - 1].Gross()
  }

  /** Sum of the lines' taxes, each rounded by `round`. */
  function SumTax(round: real -> int, lines: seq<SaleLine>): int {
    if lines == [] then 0
    else SumTax(round, lines[..|lines| - 1]) + round(lines[|lines| - 1].ExactTax())
  }

  function SumExactTax(lines: seq<SaleLine>): real {
    if lines == [] then 0.0
    else SumExactTax(lines[..|lines| - 1]) + lines[|lines| - 1].ExactTax()
  }

  function Clamp(discountCents: int, rawSubtotalCents: int): int {
    Min(Max(discountCents, 0), rawSubtotalCents)
  }

  /** The part of the tax that survives the basket discount. */
  function KeptRatio(discountCents: int, rawSubtotalCents: int): real {
    if rawSubtotalCents > 0
    then 1.0 - Clamp(discountCents, rawSubtotalCents) as real / rawSubtotalCents as real
    else 1.0
  }

  /** What ComputeTotals returns, see method ComputeTotals below. */
  function ServerTotals(lines: seq<SaleLine>, discountCents: int): Totals {
    var raw := RoundHalfAway(SumGross(lines));
    var subtotal := raw - Clamp(discountCents, raw);
    var tax := RoundHalfAway(Scale(SumTax(RoundHalfAway, lines) as real, KeptRatio(discountCents, raw)));
    Totals(subtotal, tax, subtotal + tax)
  }

  /** JavaScript's Array.prototype.reduce. */
  function Reduce<T, A>(f: (A, T) -> A, items: seq<T>, initial: A): A {
    if items == [] then initial else Reduce(f, items[1..], f(initial, items[0]))
  }

  function AddGross(sum: real, item: SaleLine): real {
    sum + Scale(item.unitPriceCents as real, item.quantity)
  }

  function AddRoundedTax(sum: int, item: SaleLine): int {
    sum + RoundHalfUp(Scale(Scale(item.unitPriceCents as real, item.quantity), item.taxRate))
  }

  /** computeCartTotal on the till. */
  function ComputeCartTotal(items: seq<SaleLine>, discountCents: int): Totals {
    var rawSubtotalCents := RoundHalfUp(Reduce(AddGross, items, 0.0));
    var rawTaxCents := Reduce(AddRoundedTax, items, 0);
    var discount := Min(Max(discountCents, 0), rawSubtotalCents);
    var discountRatio := if rawSubtotalCents > 0 then discount as real / rawSubtotalCents as real else 0.0;
    var subtotal := rawSubtotalCents - discount;
    var tax := RoundHalfUp(Scale(rawTaxCents as real, 1.0 - discountRatio));
    Totals(subtotal, tax, subtotal + tax)
  }

  /** The server's loop over the lines. */
  method ComputeTotals(lines: seq<SaleLine>, discountCents: int)
    returns (subtotal: int, tax: int, total: int)
    ensures Totals(subtotal, tax, total) == ServerTotals(lines, discountCents)
  {
    var rawSubtotal: real := 0.0;
    var rawTax: int := 0;
    for i := 0 to |lines|
      invariant rawSubtotal == SumGross(lines[..i])
      invariant rawTax == SumTax(RoundHalfAway, lines[..i])
    {
      assert lines[..i + 1][..i] == lines[..i];
      var lineGross := Scale(lines[i].unitPriceCents as real, lines[i].quantity);
      rawSubtotal := rawSubtotal + lineGross;
      rawTax := rawTax + RoundHalfAway(Scale(lineGross, lines[i].taxRate));
    }
    assert lines[..|lines|] == lines;
    var rawSubtotalCents := RoundHalfAway(rawSubtotal);

    var discount := discountCents;
    if discount < 0 {
      discount := 0;
    }
    if discount > rawSubtotalCents {
      discount := rawSubtotalCents;
    }
    var discountRatio: real := 0.0;
    if rawSubtotalCents > 0 {
      discountRatio := discount as real / rawSubtotalCents as real;
    }
    subtotal := rawSubtotalCents - discount;
    tax := RoundHalfAway(Scale(rawTax as real, 1.0 - discountRatio));
    total := subtotal + tax;
  }

  // ---- the two implementations agree ------------------------------------------

  /** A fold from the left takes the last item last. */
  lemma {:induction false} ReduceLast<T, A>(f: (A, T) -> A, items: seq<T>, initial: A)
    requires items != []
    ensures Reduce(f, items, initial) == f(Reduce(f, items[..|items| - 1], initial), items[|items| - 1])
    decreases |items|
  {
    if |items| > 1 {
      ReduceLast(f, items[1..], f(initial, items[0]));
      assert items[1..][..|items| - 2] == items[..|items| - 1][1..];
    }
  }

  lemma {:induction false} TillSums(items: seq<SaleLine>)
    ensures Reduce(AddGross, items, 0.0) == SumGross(items)
    ensures Reduce(AddRoundedTax, items, 0) == SumTax(RoundHalfUp, items)
  {
    if items != [] {
      TillSums(items[..|items| - 1]);
      ReduceLast(AddGross, items, 0.0);
      ReduceLast(AddRoundedTax, items, 0);
    }
  }

  /** computeCartTotal in the server's terms. */
  lemma TillTotals(items: seq<SaleLine>, discountCents: int)
    ensures var raw := RoundHalfUp(SumGross(items));
            var till := ComputeCartTotal(items, discountCents);
            && till.subtotalCents == raw - Clamp(discountCents, raw)
            && till.taxTotalCents
               == RoundHalfUp(Scale(SumTax(RoundHalfUp, items) as real, KeptRatio(discountCents, raw)))
            && till.totalCents == till.subtotalCents + till.taxTotalCents
  {
    TillSums(items);
  }

  /** No line's tax is a negative tie (only a negative quantity can make one). */
  predicate NoTaxTie(lines: seq<SaleLine>) {
    forall line | line in lines :: !NegativeTie(line.ExactTax())
  }

  lemma PrefixOfNonNegative(lines: seq<SaleLine>)
    requires lines != []
    ensures NonNegativeCart(lines) ==> NonNegativeCart(lines[..|lines| - 1])
    ensures NoTaxTie(lines) <==> NoTaxTie(lines[..|lines| - 1]) && !NegativeTie(lines[|lines| - 1].ExactTax())
  {
    var front, last := lines[..|lines| - 1], lines[|lines| - 1];
    assert lines == front + [last];
  }

  /** How many lines' taxes are negative ties. */
  function TiedLines(lines: seq<SaleLine>): nat {
    if lines == [] then 0
    else TiedLines(lines[..|lines| - 1]) + if NegativeTie(lines[|lines| - 1].ExactTax()) then 1 else 0
  }

  /** Go's rounded tax falls one cent behind the till's for every tied line, and nowhere else. */
  lemma {:induction false} SumTaxBehindByTies(lines: seq<SaleLine>)
    ensures SumTax(RoundHalfAway, lines) + TiedLines(lines) == SumTax(RoundHalfUp, lines)
    ensures TiedLines(lines) == 0 <==> NoTaxTie(lines)
  {
    if lines != [] {
      var x := lines[|lines| - 1].ExactTax();
      SumTaxBehindByTies(lines[..|lines| - 1]);
      PrefixOfNonNegative(lines);
      TieCostsOneCent(x);
    }
  }

  lemma TieCostsOneCent(x: real)
    ensures RoundHalfUp(x) - RoundHalfAway(x) == if NegativeTie(x) then 1 else 0
  {
    RoundingsAgreeIff(x);
    RoundHalfAwayCharacterised(x, RoundHalfAway(x));
    RoundHalfUpCharacterised(x, RoundHalfUp(x));
  }

  /** Go's rounded tax never exceeds the till's, and equals it exactly when no line ties. */
  lemma SumTaxAgreesIff(lines: seq<SaleLine>)
    ensures SumTax(RoundHalfAway, lines) <= SumTax(RoundHalfUp, lines)
    ensures SumTax(RoundHalfAway, lines) == SumTax(RoundHalfUp, lines) <==> NoTaxTie(lines)
  {
    SumTaxBehindByTies(lines);
  }

  /** Subtotal, clamped discount and kept ratio agree on EVERY cart: the roundings differ
      only on negative raw subtotals, where both sides clamp to a zero subtotal. */
  lemma SubtotalsAlwaysAgree(lines: seq<SaleLine>, discountCents: int)
    ensures ServerTotals(lines, discountCents).subtotalCents == ComputeCartTotal(lines, discountCents).subtotalCents
    ensures KeptRatio(discountCents, RoundHalfAway(SumGross(lines)))
         == KeptRatio(discountCents, RoundHalfUp(SumGross(lines)))
  {
    var gross := SumGross(lines);
    TillTotals(lines, discountCents);
    RoundingsAgreeIff(gross);
    RoundHalfUpCharacterised(gross, RoundHalfUp(gross));
    RoundHalfAwayCharacterised(gross, RoundHalfAway(gross));
  }

  lemma KeptRatioBounds(discountCents: int, raw: int)
    ensures 0.0 <= KeptRatio(discountCents, raw) <= 1.0
    ensures discountCents <= 0 ==> KeptRatio(discountCents, raw) == 1.0
  {
    if raw > 0 {
      var c := Clamp(discountCents, raw);
      assert 0.0 <= c as real / raw as real <= 1.0;
    }
  }

  /** The rounded tax the till scales by the discount. */
  function TillScaledTax(lines: seq<SaleLine>, discountCents: int): real {
    Scale(SumTax(RoundHalfUp, lines) as real, KeptRatio(discountCents, RoundHalfUp(SumGross(lines))))
  }

  /** How far a tax lies above the lowest number that the till rounds to the same cent. */
  function Slack(x: real): real {
    x - RoundHalfUp(x) as real + 0.5
  }

  /** The cents the server falls behind the till before its final rounding: the discounted
      share of one cent for every tied line. */
  function LostCents(lines: seq<SaleLine>, discountCents: int): real {
    Scale(TiedLines(lines) as real, KeptRatio(discountCents, RoundHalfUp(SumGross(lines))))
  }

  /** The slack of the till's discounted tax covers the cents the server loses on tied lines. */
  predicate SlackCoversLoss(lines: seq<SaleLine>, discountCents: int) {
    var x, lost := TillScaledTax(lines, discountCents), LostCents(lines, discountCents);
    Slack(x) > lost || (Slack(x) == lost && x > lost)
  }

  /** Rounding a number Go's way, some cents lower, gives the till's result exactly when the
      slack covers them. */
  lemma SlackCoversIff(x: real, lost: real)
    requires lost >= 0.0
    ensures RoundHalfAway(x - lost) == RoundHalfUp(x) <==> Slack(x) > lost || (Slack(x) == lost && x > lost)
  {
    RoundHalfUpCharacterised(x, RoundHalfUp(x));
    RoundHalfAwayCharacterised(x - lost, RoundHalfUp(x));
  }

  /** For EVERY cart and discount - returned lines, ties, discounts and all: server and till
      agree on all three figures exactly when the slack of the till's discounted tax covers the
      share of a cent lost on each tied line. */
  lemma TotalsAgreeIff(lines: seq<SaleLine>, discountCents: int)
    ensures ServerTotals(lines, discountCents) == ComputeCartTotal(lines, discountCents) <==>
            SlackCoversLoss(lines, discountCents)
  {
    var kept := KeptRatio(discountCents, RoundHalfUp(SumGross(lines)));
    var server, till := SumTax(RoundHalfAway, lines), SumTax(RoundHalfUp, lines);
    SumTaxBehindByTies(lines);
    SubtotalsAlwaysAgree(lines, discountCents);
    TillTotals(lines, discountCents);
    KeptRatioBounds(discountCents, RoundHalfUp(SumGross(lines)));
    ScaleShrinks(TiedLines(lines) as real, kept);
    ScaleSplits(server as real, TiedLines(lines) as real, kept);
    SlackCoversIff(TillScaledTax(lines, discountCents), LostCents(lines, discountCents));
  }

  /** In particular, without line ties: exactly when the discounted tax is not itself a
      negative tie. */
  lemma TotalsAgreeIffNoFinalTie(lines: seq<SaleLine>, discountCents: int)
    ensures NoTaxTie(lines) ==>
              (ServerTotals(lines, discountCents) == ComputeCartTotal(lines, discountCents) <==>
               !NegativeTie(TillScaledTax(lines, discountCents)))
  {
    var x := TillScaledTax(lines, discountCents);
    TotalsAgreeIff(lines, discountCents);
    SumTaxBehindByTies(lines);
    if NoTaxTie(lines) {
      KeptRatioBounds(discountCents, RoundHalfUp(SumGross(lines)));
      ScaleShrinks(0.0, KeptRatio(discountCents, RoundHalfUp(SumGross(lines))));
      assert LostCents(lines, discountCents) == 0.0;
      SlackCoversIff(x, 0.0);
      assert x - 0.0 == x;
      RoundingsAgreeIff(x);
    }
  }

  /** In particular, without a discount: exactly when no line ties. */
  lemma UndiscountedTotalsAgreeIff(lines: seq<SaleLine>, discountCents: int)
    ensures discountCents <= 0 ==>
              (ServerTotals(lines, discountCents) == ComputeCartTotal(lines, discountCents) <==> NoTaxTie(lines))
  {
    if discountCents <= 0 {
      var tax := SumTax(RoundHalfUp, lines);
      TotalsAgreeIff(lines, discountCents);
      SumTaxBehindByTies(lines);
      KeptRatioBounds(discountCents, RoundHalfUp(SumGross(lines)));
      RoundHalfUpCharacterised(tax as real, tax);
      assert Slack(tax as real) == 0.5;
    }
  }

  /** In particular, a discount of the whole subtotal: nothing is taxed on either side. */
  lemma FullyDiscountedTotalsAgree(lines: seq<SaleLine>, discountCents: int)
    requires RoundHalfUp(SumGross(lines)) > 0 && discountCents >= RoundHalfUp(SumGross(lines))
    ensures ServerTotals(lines, discountCents) == ComputeCartTotal(lines, discountCents) == Totals(0, 0, 0)
  {
    var raw := RoundHalfUp(SumGross(lines));
    assert raw as real / raw as real == 1.0;
    assert KeptRatio(discountCents, raw) == 0.0;
    TotalsAgreeIff(lines, discountCents);
    TillTotals(lines, discountCents);
    RoundHalfUpCharacterised(0.0, 0);
  }

  lemma LineNonNegative(line: SaleLine)
    requires line.NonNegative()
    ensures line.Gross() >= 0.0 && line.ExactTax() >= 0.0
  {
    assert line.unitPriceCents as real * line.quantity >= 0.0;
    assert line.Gross() * line.taxRate >= 0.0;
  }

  lemma {:induction false} SumsNonNegative(lines: seq<SaleLine>)
    requires NonNegativeCart(lines)
    ensures SumGross(lines) >= 0.0
    ensures SumTax(RoundHalfAway, lines) >= 0
    ensures NoTaxTie(lines)
  {
    if lines != [] {
      PrefixOfNonNegative(lines);
      SumsNonNegative(lines[..|lines| - 1]);
      LineNonNegative(lines[|lines| - 1]);
      RoundHalfAwayNear(lines[|lines| - 1].ExactTax());
    }
  }

  /** The promise of both files: for every cart the till can ring up and every discount,
      the two implementations agree to the cent on all three figures. */
  lemma ServerAgreesWithTill(lines: seq<SaleLine>, discountCents: int)
    requires NonNegativeCart(lines)
    ensures ServerTotals(lines, discountCents) == ComputeCartTotal(lines, discountCents)
  {
    SumsNonNegative(lines);
    SumTaxAgreesIff(lines);
    KeptRatioBounds(discountCents, RoundHalfUp(SumGross(lines)));
    ScaleShrinks(SumTax(RoundHalfUp, lines) as real, KeptRatio(discountCents, RoundHalfUp(SumGross(lines))));
    TotalsAgreeIffNoFinalTie(lines, discountCents);
  }

  /** The promise does not extend to negative quantities: half a unit returned at one cent
      with a tax rate of one is charged -1 cent of tax by the server and 0 by the till. */
  lemma NegativeQuantityDisagrees()
    ensures var lines := [SaleLine(None, "returned", -0.5, 1, 1.0, 0)];
            ServerTotals(lines, 0).taxTotalCents == -1 && ComputeCartTotal(lines, 0).taxTotalCents == 0
  {
    var line := SaleLine(None, "returned", -0.5, 1, 1.0, 0);
    assert [line][..0] == [];
    assert line.Gross() == -0.5 && line.ExactTax() == -0.5;
    RoundHalfAwayCharacterised(-0.5, -1);
    RoundHalfUpCharacterised(-0.5, 0);
    assert SumGross([line]) == -0.5;
    assert SumTax(RoundHalfAway, [line]) == -1 && SumTax(RoundHalfUp, [line]) == 0;
    KeptRatioBounds(0, -1);
    KeptRatioBounds(0, 0);
    RoundHalfAwayOfInt(-1);
    RoundHalfUpCharacterised(0.0, 0);
  }

  // ---- rounding error, monotonicity and sign -----------------------------------

  lemma {:induction false} SumTaxError(lines: seq<SaleLine>)
    ensures -(|lines| as real) / 2.0
            <= SumTax(RoundHalfAway, lines) as real - SumExactTax(lines)
            <= |lines| as real / 2.0
  {
    if lines != [] {
      SumTaxError(lines[..|lines| - 1]);
      RoundHalfAwayNear(lines[|lines| - 1].ExactTax());
    }
  }

  /** The exact tax after the discount, without any rounding of the tax. */
  function ExactDiscountedTax(lines: seq<SaleLine>, discountCents: int): real {
    Scale(SumExactTax(lines), KeptRatio(discountCents, RoundHalfAway(SumGross(lines))))
  }

  /** Rounding once per line and once at the end costs at most (n + 1) / 2 cents of tax. */
  lemma TaxWithinHalfCentPerLine(lines: seq<SaleLine>, discountCents: int)
    ensures var error := ServerTotals(lines, discountCents).taxTotalCents as real
                         - ExactDiscountedTax(lines, discountCents);
            -((|lines| + 1) as real) / 2.0 <= error <= (|lines| + 1) as real / 2.0
  {
    var ratio := KeptRatio(discountCents, RoundHalfAway(SumGross(lines)));
    SumTaxError(lines);
    KeptRatioBounds(discountCents, RoundHalfAway(SumGross(lines)));
    ScaleError(SumTax(RoundHalfAway, lines) as real, SumExactTax(lines), |lines| as real / 2.0, ratio);
    RoundHalfAwayNear(Scale(SumTax(RoundHalfAway, lines) as real, ratio));
  }

  lemma KeptRatioAntitone(smaller: int, larger: int, raw: int)
    requires smaller <= larger
    ensures KeptRatio(larger, raw) <= KeptRatio(smaller, raw)
  {
    if raw > 0 {
      var a, b := Clamp(smaller, raw) as real, Clamp(larger, raw) as real;
      assert a <= b;
      assert b / raw as real - a / raw as real == (b - a) / raw as real;
    }
  }

  /** A larger discount never raises the subtotal, the tax or the total, and none of the
      three is ever negative. */
  lemma LargerDiscountNeverRaisesTotals(lines: seq<SaleLine>, smaller: int, larger: int)
    requires NonNegativeCart(lines) && smaller <= larger
    ensures var a, b := ServerTotals(lines, smaller), ServerTotals(lines, larger);
            && 0 <= b.subtotalCents <= a.subtotalCents
            && 0 <= b.taxTotalCents <= a.taxTotalCents
            && 0 <= b.totalCents <= a.totalCents
  {
    SumsNonNegative(lines);
    var raw, tax := RoundHalfAway(SumGross(lines)), SumTax(RoundHalfAway, lines) as real;
    RoundHalfAwayNear(SumGross(lines));
    KeptRatioBounds(larger, raw);
    KeptRatioAntitone(smaller, larger, raw);
    ScaleShrinks(tax, KeptRatio(larger, raw));
    ScaleMonotone(tax, KeptRatio(larger, raw), KeptRatio(smaller, raw));
    RoundHalfAwayNear(Scale(tax, KeptRatio(larger, raw)));
    RoundHalfAwayMonotone(Scale(tax, KeptRatio(larger, raw)), Scale(tax, KeptRatio(smaller, raw)));
  }

  // ---- discounts ------------------------------------------------------------------

  datatype DiscountType = FixedCents | Percentage | Seasonal | Bogo | Bundle

  /** productIds restricts a campaign; an absent or empty list means every line. */
  datatype Discount = Discount(
    kind: DiscountType,
    value: real,
    productIds: seq<ProductId>,
    buyQuantity: Option<int>,
    getQuantity: Option<int>)

  function RealMin(a: real, b: real): real { if a <= b then a else b }

  function Scoped(discount: Discount, items: seq<SaleLine>): seq<SaleLine> {
    if discount.productIds == [] then items else InScope(discount.productIds, items)
  }

  function InScope(ids: seq<ProductId>, items: seq<SaleLine>): seq<SaleLine> {
    if items == [] then []
    else
      var rest := InScope(ids, items[..|items| - 1]);
      var last := items[|items| - 1];
      if last.productId.Some? && last.productId.value in ids then rest + [last] else rest
  }

  /** Every buy + get units of one line give `get` of them free, at that line's price. */
  function FreeCents(line: SaleLine, buy: int, get: int): int
    requires buy >= 1 && get >= 1
  {
    (line.quantity / (buy + get) as real).Floor * get * line.unitPriceCents
  }

  function BogoCents(buy: int, get: int, items: seq<SaleLine>): int
    requires buy >= 1 && get >= 1
  {
    if items == [] then 0
    else
      BogoCents(buy, get, items[..|items| - 1]) + FreeCents(items[|items| - 1], buy, get)
  }

  predicate BundlePresent(ids: seq<ProductId>, items: seq<SaleLine>) {
    forall id | id in ids :: exists item | item in items :: item.productId == Some(id)
  }

  /** computeDiscountCents; a fixed or bundle amount is a JavaScript number and so real. */
  function ComputeDiscountCents(discount: Option<Discount>, items: seq<SaleLine>, subtotalCents: int): real {
    match discount
    case None => 0.0
    case Some(d) =>
      match d.kind
      case FixedCents => RealMin(d.value, subtotalCents as real)
      case Percentage | Seasonal =>
        var base := if d.productIds != [] then SumGross(Scoped(d, items)) else subtotalCents as real;
        RealMin(RoundHalfUp(Scale(base, d.value) / 100.0) as real, subtotalCents as real)
      case Bogo =>
        BogoCents(Max(1, d.buyQuantity.GetOr(1)), Max(1, d.getQuantity.GetOr(1)), Scoped(d, items)) as real
      case Bundle =>
        if d.productIds == [] then 0.0
        else if BundlePresent(d.productIds, items) then RealMin(d.value, subtotalCents as real)
        else 0.0
  }

  /** Narrowing a cart to a product scope never raises its gross. */
  lemma {:induction false} ScopeNeverRaisesGross(ids: seq<ProductId>, items: seq<SaleLine>)
    requires NonNegativeCart(items)
    ensures NonNegativeCart(InScope(ids, items))
    ensures SumGross(InScope(ids, items)) <= SumGross(items)
  {
    if items != [] {
      var front, last := items[..|items| - 1], items[|items| - 1];
      PrefixOfNonNegative(items);
      ScopeNeverRaisesGross(ids, front);
      LineNonNegative(last);
      var kept := InScope(ids, front);
      assert (kept + [last])[..|kept|] == kept;
    }
  }

  lemma FreeUnitsBounded(line: SaleLine, buy: int, get: int)
    requires line.NonNegative() && buy >= 1 && get >= 1
    ensures 0 <= FreeCents(line, buy, get)
    ensures FreeCents(line, buy, get) as real <= line.Gross()
  {
    var group, q, price := (buy + get) as real, line.quantity, line.unitPriceCents;
    var groups := (q / group).Floor;
    assert q / group >= 0.0;
    assert groups as real <= q / group;
    assert groups as real * group <= q / group * group == q;
    assert groups * get <= groups * (buy + get);
    var free := groups * get;
    assert free >= 0;
    assert (groups * (buy + get)) as real == groups as real * group;
    assert free as real <= q;
    assert (free * price) as real == free as real * price as real;
    assert free as real * price as real <= q * price as real;
    assert free * price >= 0;
  }

  /** "Buy N, get M free": of every full group of N + M units exactly M are free, and the
      units left over from a group are all paid for. */
  lemma BogoFreesGetOfEveryGroup(line: SaleLine, buy: int, get: int, groups: nat, rest: real)
    requires buy >= 1 && get >= 1
    requires line.quantity == (groups * (buy + get)) as real + rest && 0.0 <= rest < (buy + get) as real
    ensures FreeCents(line, buy, get) == groups * get * line.unitPriceCents
  {
    var size := (buy + get) as real;
    assert (groups * (buy + get)) as real == groups as real * size;
    assert line.quantity / size == groups as real + rest / size;
    assert 0.0 <= rest / size < 1.0;
    assert (line.quantity / size).Floor == groups;
  }

  lemma {:induction false} BogoAtMostGross(buy: int, get: int, items: seq<SaleLine>)
    requires NonNegativeCart(items) && buy >= 1 && get >= 1
    ensures 0 <= BogoCents(buy, get, items)
    ensures BogoCents(buy, get, items) as real <= SumGross(items)
  {
    if items != [] {
      PrefixOfNonNegative(items);
      BogoAtMostGross(buy, get, items[..|items| - 1]);
      FreeUnitsBounded(items[|items| - 1], buy, get);
    }
  }

  lemma WholeCentsFitRounding(cents: int, x: real)
    requires cents as real <= x
    ensures cents <= RoundHalfUp(x)
  {
    RoundHalfUpCharacterised(x, RoundHalfUp(x));
  }

  /** The one branch of computeDiscountCents without a `min` needs none: a buy-N-get-M
      discount over any product scope is at most the rounded raw subtotal. */
  lemma BogoNeedsNoClamp(d: Discount, items: seq<SaleLine>, subtotalCents: int)
    requires NonNegativeCart(items) && d.kind == Bogo
    ensures 0.0 <= ComputeDiscountCents(Some(d), items, subtotalCents)
                <= RoundHalfUp(SumGross(items)) as real
  {
    var buy, get := Max(1, d.buyQuantity.GetOr(1)), Max(1, d.getQuantity.GetOr(1));
    ScopeNeverRaisesGross(d.productIds, items);
    BogoAtMostGross(buy, get, Scoped(d, items));
    WholeCentsFitRounding(BogoCents(buy, get, Scoped(d, items)), SumGross(items));
  }

  /** Whatever the campaign, the amount the terminal previews against its own subtotal is
      never more than that subtotal. */
  lemma DiscountNeverExceedsSubtotal(discount: Option<Discount>, items: seq<SaleLine>)
    requires NonNegativeCart(items)
    ensures var subtotal := ComputeCartTotal(items, 0).subtotalCents;
            ComputeDiscountCents(discount, items, subtotal) <= subtotal as real
  {
    SumsNonNegative(items);
    TillTotals(items, 0);
    RoundHalfUpCharacterised(SumGross(items), RoundHalfUp(SumGross(items)));
    if discount.Some? && discount.value.kind == Bogo {
      BogoNeedsNoClamp(discount.value, items, RoundHalfUp(SumGross(items)));
    }
  }

  // ---- what each campaign takes off ----------------------------------------------------

  /** The campaign is about this line. */
  predicate Covers(d: Discount, line: SaleLine) {
    d.productIds == [] || exists id | id in d.productIds :: line.productId == Some(id)
  }

  /** An amount summed over the lines a campaign is about. */
  function SumCovered(amount: SaleLine -> real, d: Discount, items: seq<SaleLine>): real {
    if items == [] then 0.0
    else SumCovered(amount, d, items[1..]) + if Covers(d, items[0]) then amount(items[0]) else 0.0
  }

  function LinePrice(): SaleLine -> real {
    (line: SaleLine) => line.quantity * line.unitPriceCents as real
  }

  /** What the full groups of a line give for free. */
  function FreeOfLine(buy: int, get: int): SaleLine -> real
    requires buy >= 1 && get >= 1
  {
    (line: SaleLine) => ((line.quantity / (buy + get) as real).Floor * get * line.unitPriceCents) as real
  }

  lemma {:induction false} SumCoveredLast(amount: SaleLine -> real, d: Discount, items: seq<SaleLine>, line: SaleLine)
    ensures SumCovered(amount, d, items + [line])
         == SumCovered(amount, d, items) + if Covers(d, line) then amount(line) else 0.0
  {
    if items == [] {
      assert items + [line] == [line] && [line][1..] == [];
    } else {
      SumCoveredLast(amount, d, items[1..], line);
      assert (items + [line])[1..] == items[1..] + [line];
    }
  }

  lemma ScopedLast(d: Discount, items: seq<SaleLine>, line: SaleLine)
    ensures Scoped(d, items + [line]) == Scoped(d, items) + if Covers(d, line) then [line] else []
  {
    assert (items + [line])[..|items|] == items;
  }

  lemma GrossLast(items: seq<SaleLine>, line: SaleLine)
    ensures SumGross(items + [line]) == SumGross(items) + LinePrice()(line)
  {
    assert (items + [line])[..|items|] == items;
    assert line.Gross() == LinePrice()(line);
  }

  lemma BogoLast(buy: int, get: int, items: seq<SaleLine>, line: SaleLine)
    requires buy >= 1 && get >= 1
    ensures BogoCents(buy, get, items + [line]) as real
         == BogoCents(buy, get, items) as real + FreeOfLine(buy, get)(line)
  {
    assert (items + [line])[..|items|] == items;
    assert FreeCents(line, buy, get) as real == FreeOfLine(buy, get)(line);
  }

  lemma {:induction false} GrossOfCovered(d: Discount, items: seq<SaleLine>)
    ensures SumGross(Scoped(d, items)) == SumCovered(LinePrice(), d, items)
  {
    if items != [] {
      var front, line := items[..|items| - 1], items[|items| - 1];
      GrossOfCovered(d, front);
      assert items == front + [line];
      ScopedLast(d, front, line);
      SumCoveredLast(LinePrice(), d, front, line);
      GrossLast(Scoped(d, front), line);
      assert Scoped(d, front) + [] == Scoped(d, front);
    }
  }

  lemma {:induction false} FreeOfCovered(d: Discount, items: seq<SaleLine>, buy: int, get: int)
    requires buy >= 1 && get >= 1
    ensures BogoCents(buy, get, Scoped(d, items)) as real == SumCovered(FreeOfLine(buy, get), d, items)
  {
    if items != [] {
      var front, line := items[..|items| - 1], items[|items| - 1];
      FreeOfCovered(d, front, buy, get);
      assert items == front + [line];
      ScopedLast(d, front, line);
      SumCoveredLast(FreeOfLine(buy, get), d, front, line);
      BogoLast(buy, get, Scoped(d, front), line);
      assert Scoped(d, front) + [] == Scoped(d, front);
    }
  }

  predicate InCart(items: seq<SaleLine>, id: ProductId) {
    exists i :: 0 <= i < |items| && items[i].productId == Some(id)
  }

  /** The smaller of two amounts. */
  predicate IsSmaller(r: real, a: real, b: real) {
    r <= a && r <= b && (r == a || r == b)
  }

  /** A share of the subtotal - of the covered lines only, if the campaign names products - rounded
      half up and capped at the subtotal. */
  lemma ShareTakenOff(d: Discount, items: seq<SaleLine>, subtotalCents: int)
    requires d.kind == Percentage || d.kind == Seasonal
    ensures var base := if d.productIds == [] then subtotalCents as real else SumCovered(LinePrice(), d, items);
            IsSmaller(ComputeDiscountCents(Some(d), items, subtotalCents),
                      RoundHalfUp(Scale(base, d.value) / 100.0) as real, subtotalCents as real)
  {
    GrossOfCovered(d, items);
  }

  /** The free units of every covered line, in groups of at least one and one. */
  lemma FreeUnitsTakenOff(d: Discount, items: seq<SaleLine>, subtotalCents: int)
    requires d.kind == Bogo
    ensures var buy := if d.buyQuantity.Some? && d.buyQuantity.value > 1 then d.buyQuantity.value else 1;
            var get := if d.getQuantity.Some? && d.getQuantity.value > 1 then d.getQuantity.value else 1;
            ComputeDiscountCents(Some(d), items, subtotalCents) == SumCovered(FreeOfLine(buy, get), d, items)
  {
    FreeOfCovered(d, items, Max(1, d.buyQuantity.GetOr(1)), Max(1, d.getQuantity.GetOr(1)));
  }

  /** Nothing without a campaign; a fixed amount capped at the subtotal; a bundle amount, capped
      too, when the bundle names products and all of them are in the cart, and else nothing. */
  lemma AmountTakenOff(d: Discount, items: seq<SaleLine>, subtotalCents: int)
    requires d.kind == FixedCents || d.kind == Bundle
    ensures ComputeDiscountCents(None, items, subtotalCents) == 0.0
    ensures var taken := ComputeDiscountCents(Some(d), items, subtotalCents);
            if d.kind == FixedCents || (d.productIds != [] && forall id | id in d.productIds :: InCart(items, id))
            then IsSmaller(taken, d.value, subtotalCents as real)
            else taken == 0.0
  {
    forall id: ProductId
      ensures (exists item | item in items :: item.productId == Some(id)) <==> InCart(items, id)
    {
      if item :| item in items && item.productId == Some(id) {
        var i :| 0 <= i < |items| && items[i] == item;
      }
    }
  }
}
