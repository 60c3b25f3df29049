/** Level-2 books and the deterministic walk that prices a whole quantity against one side. */
module OrderBook {
  import opened Numbers

  datatype BookLevel = BookLevel(price: real, quantity: real)

  datatype Book = Book(bids: seq<BookLevel>, asks: seq<BookLevel>)

  ghost predicate PositiveQuantities(levels: seq<BookLevel>) {
    forall i :: 0 <= i < |levels| ==> levels[i].quantity > 0.0
  }

  ghost predicate PositiveLevels(levels: seq<BookLevel>) {
    forall i :: 0 <= i < |levels| ==> levels[i].price > 0.0 && levels[i].quantity > 0.0
  }

  ghost predicate PricesRise(levels: seq<BookLevel>) {
    forall i, j :: 0 <= i < j < |levels| ==> levels[i].price <= levels[j].price
  }

  /** What the book record itself enforces: sorted, uncrossed, both sides present. */
  ghost predicate ValidBook(book: Book) {
    && book.bids != [] && book.asks != []
    && PositiveLevels(book.bids) && PositiveLevels(book.asks)
    && (forall i, j :: 0 <= i < j < |book.bids| ==> book.bids[i].price > book.bids[j].price)
    && (forall i, j :: 0 <= i < j < |book.asks| ==> book.asks[i].price < book.asks[j].price)
    && book.bids[0].price < book.asks[0].price
  }

  /** The first twenty levels. */
  function Top(levels: seq<BookLevel>): seq<BookLevel> {
    if |levels| <= 20 then levels else levels[..20]
  }

  function Midpoint(book: Book): real
    requires ValidBook(book)
  {
    (book.bids[0].price + book.asks[0].price) / 2.0
  }

  /** Buying at the best ask costs as much above the midpoint as selling at the best bid falls below it. */
  lemma MidpointCentred(book: Book)
    requires ValidBook(book)
    ensures 0.0 < book.asks[0].price - Midpoint(book) == Midpoint(book) - book.bids[0].price
  {
  }

  function AvailableQuantity(levels: seq<BookLevel>): real {
    if levels == [] then 0.0 else levels[0].quantity + AvailableQuantity(levels[1..])
  }

  function Notional(quantity: real, price: real): real {
    quantity * price
  }

  /** The notional of taking q from the front of the book. */
  function Cost(levels: seq<BookLevel>, q: real): real {
    if levels == [] || q <= 0.0 then 0.0
    else if q <= levels[0].quantity then Notional(q, levels[0].price)
    else Notional(levels[0].quantity, levels[0].price) + Cost(levels[1..], q - levels[0].quantity)
  }

  datatype WalkedQuote = WalkedQuote(quantity: real, notional: real, weightedAveragePrice: real)

  datatype WalkResult = Walked(quote: WalkedQuote) | InsufficientDepth | InvalidQuantity

  function Walk(levels: seq<BookLevel>, quantity: real): WalkResult {
    if quantity <= 0.0 then InvalidQuantity
    else if quantity > AvailableQuantity(levels) then InsufficientDepth
    else Walked(WalkedQuote(quantity, Cost(levels, quantity), Cost(levels, quantity) / quantity))
  }

  lemma {:induction false} DepthNonnegative(levels: seq<BookLevel>)
    requires PositiveQuantities(levels)
    ensures AvailableQuantity(levels) >= 0.0
    ensures levels != [] ==> AvailableQuantity(levels) > 0.0
  {
    if levels != [] {
      DepthNonnegative(levels[1..]);
    }
  }

  /** The walk succeeds exactly when 0 < quantity <= depth, and then prices the front of the book. */
  method WalkBook(levels: seq<BookLevel>, quantity: real) returns (r: WalkResult)
    requires PositiveLevels(levels)
    ensures r == Walk(levels, quantity)
    ensures r.Walked? <==> 0.0 < quantity <= AvailableQuantity(levels)
  {
    if quantity <= 0.0 {
      return InvalidQuantity;
    }
    var remaining, notional := quantity, 0.0;
    var k := 0;
    while k < |levels|
      invariant 0 <= k <= |levels|
      invariant remaining > 0.0
      invariant notional + Cost(levels[k..], remaining) == Cost(levels, quantity)
      invariant AvailableQuantity(levels) - quantity == AvailableQuantity(levels[k..]) - remaining
    {
      var consumed := Min(remaining, levels[k].quantity);
      assert levels[k..][1..] == levels[k + 1..];
      notional := notional + consumed * levels[k].price;
      remaining := remaining - consumed;
      if remaining == 0.0 {
        DepthNonnegative(levels[k + 1..]);
        return Walked(WalkedQuote(quantity, notional, notional / quantity));
      }
      k := k + 1;
    }
    return InsufficientDepth;
  }

  // ---------------------------------------------------------------- shape of the cost curve

  lemma NotionalAdds(a: real, b: real, p: real)
    ensures Notional(a + b, p) == Notional(a, p) + Notional(b, p)
    ensures Notional(0.0, p) == 0.0
  {
  }

  lemma NotionalGrows(q: real, p: real, p': real)
    requires q >= 0.0 && p <= p'
    ensures Notional(q, p) <= Notional(q, p')
    ensures q > 0.0 && p > 0.0 ==> Notional(q, p) > 0.0
  {
    ScaleLe(p, p', q);
    if q > 0.0 && p > 0.0 {
      ProductPositive(q, p);
    }
  }

  /** Within the first level the price is flat; beyond it the rest of the book is walked. */
  lemma CostUnfold(levels: seq<BookLevel>, q: real)
    requires levels != [] && q >= 0.0 && levels[0].quantity > 0.0
    ensures q <= levels[0].quantity ==> Cost(levels, q) == Notional(q, levels[0].price)
    ensures q >= levels[0].quantity ==>
      Cost(levels, q) == Notional(levels[0].quantity, levels[0].price) + Cost(levels[1..], q - levels[0].quantity)
  {
    assert Cost(levels[1..], 0.0) == 0.0;
    NotionalAdds(0.0, 0.0, levels[0].price);
  }

  ghost predicate PricesAtLeast(levels: seq<BookLevel>, p: real) {
    forall i :: 0 <= i < |levels| ==> levels[i].price >= p
  }

  /** If every price is at least p, each further unit costs at least p. */
  lemma {:induction false} CostSlope(levels: seq<BookLevel>, p: real, q: real, q': real)
    requires PositiveQuantities(levels) && PricesAtLeast(levels, p)
    requires 0.0 <= q <= q' <= AvailableQuantity(levels)
    ensures Cost(levels, q') - Cost(levels, q) >= Notional(q' - q, p)
  {
    NotionalAdds(0.0, 0.0, p);
    hide Notional;
    if levels != [] {
      var price, s, rest := levels[0].price, levels[0].quantity, levels[1..];
      CostUnfold(levels, q);
      CostUnfold(levels, q');
      DepthNonnegative(rest);
      assert Cost(rest, 0.0) == 0.0;
      hide Cost;
      if q' <= s {
        NotionalAdds(q, q' - q, price);
        NotionalGrows(q' - q, p, price);
      } else if q <= s {
        CostSlope(rest, p, 0.0, q' - s);
        NotionalAdds(q, s - q, price);
        NotionalGrows(s - q, p, price);
        NotionalAdds(s - q, q' - s, p);
      } else {
        CostSlope(rest, p, q - s, q' - s);
      }
    }
  }

  lemma {:induction false} CostStrictlyIncreasing(levels: seq<BookLevel>, q: real, q': real)
    requires PositiveLevels(levels) && 0.0 <= q < q' <= AvailableQuantity(levels)
    ensures Cost(levels, q) < Cost(levels, q')
  {
    hide Notional;
    var price, s, rest := levels[0].price, levels[0].quantity, levels[1..];
    CostUnfold(levels, q);
    CostUnfold(levels, q');
    if q' <= s {
      NotionalAdds(q, q' - q, price);
      NotionalGrows(q' - q, price, price);
    } else if q <= s {
      CostStrictlyIncreasing(rest, 0.0, q' - s);
      NotionalAdds(q, s - q, price);
      NotionalGrows(s - q, 0.0, price);
      NotionalAtZero(s - q);
    } else {
      CostStrictlyIncreasing(rest, q - s, q' - s);
    }
  }

  lemma NotionalAtZero(q: real)
    ensures Notional(q, 0.0) == 0.0
  {
  }

  /** The price of the last level a walk of q touches. */
  function LastPrice(levels: seq<BookLevel>, q: real): real
    requires levels != []
  {
    if q <= levels[0].quantity || |levels| == 1 then levels[0].price
    else LastPrice(levels[1..], q - levels[0].quantity)
  }

  lemma {:induction false} CostAtMostLast(levels: seq<BookLevel>, q: real)
    requires levels != [] && PositiveQuantities(levels) && PricesRise(levels)
    requires 0.0 < q <= AvailableQuantity(levels)
    ensures levels[0].price <= LastPrice(levels, q)
    ensures Cost(levels, q) <= Notional(q, LastPrice(levels, q))
  {
    hide Notional;
    var p, s, rest := levels[0].price, levels[0].quantity, levels[1..];
    CostUnfold(levels, q);
    if q > s {
      assert rest != [];
      CostAtMostLast(rest, q - s);
      var w := LastPrice(rest, q - s);
      NotionalGrows(s, p, w);
      NotionalAdds(s, q - s, w);
    }
  }

  /** Units beyond q cost at least the last price q reached. */
  lemma {:induction false} MarginalSlope(levels: seq<BookLevel>, q: real, q': real)
    requires levels != [] && PositiveQuantities(levels) && PricesRise(levels)
    requires 0.0 < q <= q' <= AvailableQuantity(levels)
    ensures Cost(levels, q') - Cost(levels, q) >= Notional(q' - q, LastPrice(levels, q))
  {
    hide Notional;
    var s, rest := levels[0].quantity, levels[1..];
    if q <= s {
      CostSlope(levels, levels[0].price, q, q');
    } else {
      assert rest != [];
      CostUnfold(levels, q);
      CostUnfold(levels, q');
      MarginalSlope(rest, q - s, q' - s);
    }
  }

  function Average(levels: seq<BookLevel>, q: real): real
    requires q > 0.0
  {
    Cost(levels, q) / q
  }

  lemma AverageStep(k: real, k': real, w: real, q: real, q': real)
    requires 0.0 < q <= q' && k <= Notional(q, w) && k' - k >= Notional(q' - q, w)
    ensures k / q <= k' / q'
  {
    ScaleLe(k, w * q, q' - q);
    ScaleLe(k + w * (q' - q), k', q);
    assert k * q' == k * q + k * (q' - q);
    assert (w * q) * (q' - q) == (w * (q' - q)) * q;
    QuotientLe(k, q, k', q');
  }

  /** On rising prices taking more never lowers the average: the ask walk is convex. */
  lemma AverageOfRising(levels: seq<BookLevel>, q: real, q': real)
    requires PositiveQuantities(levels) && PricesRise(levels)
    requires 0.0 < q <= q' <= AvailableQuantity(levels)
    ensures Average(levels, q) <= Average(levels, q')
  {
    CostAtMostLast(levels, q);
    MarginalSlope(levels, q, q');
    hide *;
    AverageStep(Cost(levels, q), Cost(levels, q'), LastPrice(levels, q), q, q');
  }

  /** The same levels with prices negated: a bid walk seen as an ask walk. */
  function Mirror(levels: seq<BookLevel>): seq<BookLevel> {
    seq(|levels|, i requires 0 <= i < |levels| => BookLevel(-levels[i].price, levels[i].quantity))
  }

  lemma {:induction false} MirrorCost(levels: seq<BookLevel>, q: real)
    ensures Cost(Mirror(levels), q) == -Cost(levels, q)
    ensures AvailableQuantity(Mirror(levels)) == AvailableQuantity(levels)
  {
    if levels != [] {
      assert Mirror(levels)[1..] == Mirror(levels[1..]);
      MirrorCost(levels[1..], q - Min(q, levels[0].quantity));
    }
  }

  lemma MirrorAverage(levels: seq<BookLevel>, q: real)
    requires q > 0.0
    ensures Average(Mirror(levels), q) == -Average(levels, q)
    ensures AvailableQuantity(Mirror(levels)) == AvailableQuantity(levels)
  {
    MirrorCost(levels, q);
    QuotientNegated(Cost(levels, q), q);
  }

  /** Taking more never improves the average: asks rise, bids fall. */
  lemma AverageMonotone(book: Book, q: real, q': real)
    requires ValidBook(book) && 0.0 < q <= q'
    ensures q' <= AvailableQuantity(Top(book.asks)) ==> Average(Top(book.asks), q) <= Average(Top(book.asks), q')
    ensures q' <= AvailableQuantity(Top(book.bids)) ==> Average(Top(book.bids), q) >= Average(Top(book.bids), q')
  {
    MirrorAverage(Top(book.bids), q);
    MirrorAverage(Top(book.bids), q');
    if q' <= AvailableQuantity(Top(book.asks)) {
      AverageOfRising(Top(book.asks), q, q');
    }
    if q' <= AvailableQuantity(Top(book.bids)) {
      AverageOfRising(Mirror(Top(book.bids)), q, q');
    }
  }

  lemma AverageOfRisingBetween(levels: seq<BookLevel>, q: real)
    requires levels != [] && PositiveQuantities(levels) && PricesRise(levels)
    requires 0.0 < q <= AvailableQuantity(levels)
    ensures levels[0].price <= Average(levels, q) <= LastPrice(levels, q)
  {
    CostSlope(levels, levels[0].price, 0.0, q);
    CostAtMostLast(levels, q);
    BetweenStep(Cost(levels, q), levels[0].price, LastPrice(levels, q), q);
  }

  lemma BetweenStep(k: real, lo: real, hi: real, q: real)
    requires q > 0.0 && Notional(q - 0.0, lo) <= k <= Notional(q, hi)
    ensures lo <= k / q <= hi
  {
    QuotientLe(lo, 1.0, k, q);
    QuotientLe(k, q, hi, 1.0);
  }

  lemma {:induction false} MirrorLast(levels: seq<BookLevel>, q: real)
    requires levels != []
    ensures LastPrice(Mirror(levels), q) == -LastPrice(levels, q)
  {
    if !(q <= levels[0].quantity || |levels| == 1) {
      assert Mirror(levels)[1..] == Mirror(levels[1..]);
      MirrorLast(levels[1..], q - levels[0].quantity);
    }
  }

  /** The average stays between the best price and the worst price the walk consumes. */
  lemma AverageBetween(book: Book, q: real)
    requires ValidBook(book) && q > 0.0
    ensures q <= AvailableQuantity(Top(book.asks)) ==>
      book.asks[0].price <= Average(Top(book.asks), q) <= LastPrice(Top(book.asks), q)
    ensures q <= AvailableQuantity(Top(book.bids)) ==>
      book.bids[0].price >= Average(Top(book.bids), q) >= LastPrice(Top(book.bids), q)
  {
    MirrorAverage(Top(book.bids), q);
    MirrorLast(Top(book.bids), q);
    if q <= AvailableQuantity(Top(book.asks)) {
      AverageOfRisingBetween(Top(book.asks), q);
    }
    if q <= AvailableQuantity(Top(book.bids)) {
      AverageOfRisingBetween(Mirror(Top(book.bids)), q);
    }
  }

  // ---------------------------------------------------------------- greedy is optimal

  /** A way to split a quantity over the levels. */
  ghost predicate ValidFills(levels: seq<BookLevel>, fills: seq<real>) {
    |fills| == |levels| && forall i :: 0 <= i < |fills| ==> 0.0 <= fills[i] <= levels[i].quantity
  }

  function FilledQuantity(fills: seq<real>): real {
    if fills == [] then 0.0 else fills[0] + FilledQuantity(fills[1..])
  }

  function FilledCost(levels: seq<BookLevel>, fills: seq<real>): real
    requires |levels| == |fills|
  {
    if fills == [] then 0.0 else Notional(fills[0], levels[0].price) + FilledCost(levels[1..], fills[1..])
  }

  /** No split of a quantity over rising levels is cheaper than the walk. */
  lemma {:induction false} WalkIsCheapest(levels: seq<BookLevel>, fills: seq<real>)
    requires PositiveQuantities(levels) && PricesRise(levels) && ValidFills(levels, fills)
    ensures 0.0 <= FilledQuantity(fills) <= AvailableQuantity(levels)
    ensures Cost(levels, FilledQuantity(fills)) <= FilledCost(levels, fills)
  {
    if levels != [] {
      var p, s, rest := levels[0].price, levels[0].quantity, levels[1..];
      var f, others := fills[0], FilledQuantity(fills[1..]);
      hide Notional;
      WalkIsCheapest(rest, fills[1..]);
      CostUnfold(levels, f + others);
      assert Cost(rest, 0.0) == 0.0;
      if f + others <= s {
        CostSlope(rest, p, 0.0, others);
        NotionalAdds(f, others, p);
      } else {
        CostSlope(rest, p, f + others - s, others);
        NotionalAdds(f, s - f, p);
      }
    }
  }

  /** The walk's own split: fill each level in turn. */
  function WalkFills(levels: seq<BookLevel>, q: real): seq<real> {
    if levels == [] then []
    else
      var consumed := Max(0.0, Min(q, levels[0].quantity));
      [consumed] + WalkFills(levels[1..], q - consumed)
  }

  lemma {:induction false} WalkIsAttained(levels: seq<BookLevel>, q: real)
    requires PositiveQuantities(levels) && 0.0 <= q <= AvailableQuantity(levels)
    ensures ValidFills(levels, WalkFills(levels, q))
    ensures FilledQuantity(WalkFills(levels, q)) == q
    ensures FilledCost(levels, WalkFills(levels, q)) == Cost(levels, q)
  {
    if levels != [] {
      NotionalAdds(0.0, 0.0, levels[0].price);
    }
    hide Notional;
    if levels != [] {
      var consumed := Max(0.0, Min(q, levels[0].quantity));
      var tail := WalkFills(levels[1..], q - consumed);
      DepthNonnegative(levels[1..]);
      WalkIsAttained(levels[1..], q - consumed);
      assert ([consumed] + tail)[1..] == tail;
    }
  }
}
