/**
  The research matcher: limit orders only, two heaps of (price, quantity) pairs, prices of bids
  negated so that the best quote is always the smallest pair.

  A heap is modelled by its pairs in ascending order: the first one is what a pop returns.
 */
module HeapMatcher {
  import opened Types

  /** A pair on a heap; `key` is the price of an ask or the negated price of a bid. */
  datatype Quote = Quote(key: int, qty: int)

  type Heap = seq<Quote>

  predicate Smaller(a: Quote, b: Quote) {
    a.key < b.key || (a.key == b.key && a.qty <= b.qty)
  }

  /** The pairs are in order and no quantity is used up. */
  predicate HeapOk(h: Heap) {
    && (forall i, j :: 0 <= i < j < |h| ==> Smaller(h[i], h[j]))
    && (forall i :: 0 <= i < |h| ==> h[i].qty > 0)
  }

  function Push(h: Heap, q: Quote): (r: Heap)
    requires HeapOk(h) && q.qty > 0
    ensures HeapOk(r)
    ensures forall i :: 0 <= i < |r| ==> r[i] == q || r[i] in h
  {
    if h == [] || Smaller(q, h[0]) then [q] + h
    else
      var r := Push(h[1..], q);
      PutBack(h, q, r);
      [h[0]] + r
  }

  lemma PutBack(h: Heap, q: Quote, r: Heap)
    requires HeapOk(h) && h != [] && HeapOk(r) && Smaller(h[0], q)
    requires forall i :: 0 <= i < |r| ==> r[i] == q || r[i] in h[1..]
    ensures HeapOk([h[0]] + r)
    ensures forall i :: 0 <= i < |[h[0]] + r| ==> ([h[0]] + r)[i] == q || ([h[0]] + r)[i] in h
  {
    hide Smaller;
    forall i | 0 <= i < |r|
      ensures Smaller(h[0], r[i]) && (r[i] == q || r[i] in h)
    {
      if r[i] != q {
        var k :| 0 <= k < |h[1..]| && h[1..][k] == r[i];
        assert h[k + 1] == r[i];
      }
    }
  }

  // ---- what the heap offers -------------------------------------------------------------------------

  /** The quantity at keys up to x. */
  function Offered(h: Heap, x: int): int {
    if h == [] then 0 else (if h[0].key <= x then h[0].qty else 0) + Offered(h[1..], x)
  }

  lemma {:induction false} OfferedPush(h: Heap, q: Quote, x: int)
    requires HeapOk(h) && q.qty > 0
    ensures Offered(Push(h, q), x) == Offered(h, x) + if q.key <= x then q.qty else 0
  {
    if h == [] || Smaller(q, h[0]) {
      assert ([q] + h)[1..] == h;
    } else {
      OfferedPush(h[1..], q, x);
      assert ([h[0]] + Push(h[1..], q))[1..] == Push(h[1..], q);
    }
  }

  lemma {:induction false} OfferedIsPositive(h: Heap, x: int)
    requires HeapOk(h)
    ensures Offered(h, x) >= 0
    ensures h != [] && h[0].key <= x ==> Offered(h, x) >= h[0].qty
    ensures h == [] || h[0].key > x ==> Offered(h, x) == 0
  {
    if h != [] {
      OfferedIsPositive(h[1..], x);
    }
  }

  // ---- matching -------------------------------------------------------------------------------------

  /** The outcome of matching a quantity: the heap, what is left, trades made and quantity traded. */
  datatype Outcome = Outcome(heap: Heap, left: int, trades: nat, traded: int)

  predicate CanHit(h: Heap, limit: int, qty: int) {
    qty > 0 && h != [] && h[0].key <= limit
  }

  /** The heap after its first pair gave u. */
  function AfterHit(h: Heap, u: int): (r: Heap)
    requires HeapOk(h) && h != [] && 0 < u <= h[0].qty
    ensures HeapOk(r)
  {
    var e := h[0];
    if e.qty - u > 0 then Push(h[1..], Quote(e.key, e.qty - u)) else h[1..]
  }

  /** Trades with the smallest pair as long as its key is within the limit. */
  function Hit(h: Heap, limit: int, qty: int): Outcome
    requires HeapOk(h)
    decreases if qty > 0 then qty else 0
  {
    if CanHit(h, limit, qty) then
      var u := Min(qty, h[0].qty);
      var rest := Hit(AfterHit(h, u), limit, qty - u);
      rest.(trades := rest.trades + 1, traded := rest.traded + u)
    else Outcome(h, qty, 0, 0)
  }

  function Positive(n: int): nat {
    if n > 0 then n else 0
  }

  lemma OfferedAfterHit(h: Heap, u: int, x: int)
    requires HeapOk(h) && h != [] && 0 < u <= h[0].qty
    ensures Offered(AfterHit(h, u), x) == Positive(Offered(h, x) - u)
  {
    OfferedIsPositive(h, x);
    OfferedIsPositive(h[1..], x);
    if h[0].qty > u {
      OfferedPush(h[1..], Quote(h[0].key, h[0].qty - u), x);
    }
  }

  /** The heap matcher trades the smaller of what is wanted and what is offered within the limit. */
  lemma {:induction false} HitTakes(h: Heap, limit: int, qty: int)
    requires HeapOk(h)
    ensures var r := Hit(h, limit, qty);
      HeapOk(r.heap) && r.traded == Min(Positive(qty), Offered(h, limit)) && r.left == qty - r.traded
    decreases Positive(qty)
  {
    hide Offered, AfterHit, HeapOk;
    OfferedIsPositive(h, limit);
    if CanHit(h, limit, qty) {
      FirstIsPositive(h);
      var u := Min(qty, h[0].qty);
      OfferedAfterHit(h, u, limit);
      HitTakes(AfterHit(h, u), limit, qty - u);
    }
  }

  lemma FirstIsPositive(h: Heap)
    requires HeapOk(h) && h != []
    ensures h[0].qty > 0
  {
  }

  /** And it takes it from the front: at every key, what is offered up to there goes down by that
      much, or to nothing. */
  lemma {:induction false} HitSweeps(h: Heap, limit: int, qty: int, x: int)
    requires HeapOk(h)
    ensures var r := Hit(h, limit, qty);
      r.traded >= 0 && Offered(r.heap, x) == Positive(Offered(h, x) - r.traded)
    decreases Positive(qty)
  {
    hide Offered, AfterHit, HeapOk;
    OfferedIsPositive(h, x);
    if CanHit(h, limit, qty) {
      FirstIsPositive(h);
      var u := Min(qty, h[0].qty);
      OfferedAfterHit(h, u, x);
      HitSweeps(AfterHit(h, u), limit, qty - u, x);
    }
  }

  /** An outcome with trades that came before. */
  function Continued(r: Outcome, trades: nat, traded: int): Outcome {
    Outcome(r.heap, r.left, r.trades + trades, r.traded + traded)
  }

  /** One round of a matching loop. */
  lemma HitOnce(h: Heap, limit: int, qty: int, trades: nat, traded: int)
    requires HeapOk(h) && CanHit(h, limit, qty)
    ensures var u := Min(qty, h[0].qty);
      && 0 < u <= h[0].qty
      && Continued(Hit(h, limit, qty), trades, traded) ==
        Continued(Hit(AfterHit(h, u), limit, qty - u), trades + 1, traded + u)
  {
  }

  // ---- rows -----------------------------------------------------------------------------------------

  datatype Row = Row(side: string, price: int, qty: int)

  datatype Books = Books(buy: Heap, sell: Heap, trades: nat, traded: int)

  const NO_BOOKS := Books([], [], 0, 0)

  ghost predicate BooksOk(m: Books) {
    HeapOk(m.buy) && HeapOk(m.sell)
  }

  function PushLeft(h: Heap, key: int, left: int): (r: Heap)
    requires HeapOk(h)
    ensures HeapOk(r)
  {
    if left > 0 then Push(h, Quote(key, left)) else h
  }

  /** One row: a bid hits the asks up to its price, an ask the bids down to its price; what is left
      goes onto the own heap.  Other sides are passed over. */
  function MatchRow(m: Books, row: Row): Books
    requires BooksOk(m)
  {
    if row.side == "BUY" then
      var r := Hit(m.sell, row.price, row.qty);
      HitTakes(m.sell, row.price, row.qty);
      Books(PushLeft(m.buy, -row.price, r.left), r.heap, m.trades + r.trades, m.traded + r.traded)
    else if row.side == "SELL" then
      var r := Hit(m.buy, -row.price, row.qty);
      HitTakes(m.buy, -row.price, row.qty);
      Books(r.heap, PushLeft(m.sell, row.price, r.left), m.trades + r.trades, m.traded + r.traded)
    else m
  }

  lemma MatchRowKeeps(m: Books, row: Row)
    requires BooksOk(m)
    ensures BooksOk(MatchRow(m, row))
  {
    HitTakes(m.sell, row.price, row.qty);
    HitTakes(m.buy, -row.price, row.qty);
  }

  /** What one row moves.  A row of a side, for a positive quantity, trades the smaller of that quantity and
      what the other side offers within its price, takes it from the front there, and leaves the rest at its
      own price; a quantity that is not positive, or another side, changes nothing. */
  lemma RowTrades(m: Books, row: Row, x: int)
    requires BooksOk(m)
    ensures var m' := MatchRow(m, row);
      if row.side == "BUY" then
        var t := Min(Positive(row.qty), Offered(m.sell, row.price));
        && m'.traded == m.traded + t && Offered(m'.sell, x) == Positive(Offered(m.sell, x) - t)
        && Offered(m'.buy, x) == Offered(m.buy, x) + if -row.price <= x then Positive(row.qty) - t else 0
      else if row.side == "SELL" then
        var t := Min(Positive(row.qty), Offered(m.buy, -row.price));
        && m'.traded == m.traded + t && Offered(m'.buy, x) == Positive(Offered(m.buy, x) - t)
        && Offered(m'.sell, x) == Offered(m.sell, x) + if row.price <= x then Positive(row.qty) - t else 0
      else m' == m
    ensures row.qty <= 0 ==> MatchRow(m, row) == m
  {
    hide Hit, Push, HeapOk, Offered;
    var (own, other, limit) := if row.side == "BUY" then (m.buy, m.sell, row.price) else (m.sell, m.buy, -row.price);
    HitTakes(other, limit, row.qty);
    HitSweeps(other, limit, row.qty, x);
    OfferedIsPositive(other, limit);
    if row.qty <= 0 {
      NoHit(other, limit, row.qty);
    } else if Hit(other, limit, row.qty).left > 0 {
      OfferedPush(own, Quote(-limit, Hit(other, limit, row.qty).left), x);
    }
  }

  /** All rows of a group, in order. */
  function MatchRows(rows: seq<Row>): (m: Books)
    ensures BooksOk(m)
  {
    if rows == [] then NO_BOOKS else
    var before := MatchRows(rows[..|rows| - 1]);
    MatchRowKeeps(before, rows[|rows| - 1]);
    MatchRow(before, rows[|rows| - 1])
  }

  /** The matcher itself: for each row, pop and push until the row is done. */
  method MatchGroup(rows: seq<Row>) returns (buyBook: Heap, sellBook: Heap, tradesExecuted: nat, tradedQty: int)
    ensures Books(buyBook, sellBook, tradesExecuted, tradedQty) == MatchRows(rows)
  {
    hide Hit, HeapOk, Push;
    buyBook, sellBook := [], [];
    tradesExecuted, tradedQty := 0, 0;
    for i := 0 to |rows|
      invariant Books(buyBook, sellBook, tradesExecuted, tradedQty) == MatchRows(rows[..i])
    {
      ghost var m := MatchRows(rows[..i]);
      var row := rows[i];
      assert rows[..i + 1][..i] == rows[..i];
      var price, qty := row.price, row.qty;
      ghost var n, t := 0, 0;
      if row.side == "BUY" {
        while qty > 0 && sellBook != [] && sellBook[0].key <= price
          invariant HeapOk(sellBook) && tradesExecuted == m.trades + n && tradedQty == m.traded + t
          invariant Continued(Hit(sellBook, price, qty), n, t) == Hit(m.sell, price, row.qty)
          decreases Positive(qty)
        {
          HitOnce(sellBook, price, qty, n, t);
          RestIsOk(sellBook);
          var best := sellBook[0];
          sellBook := sellBook[1..];
          var traded := Min(qty, best.qty);
          tradesExecuted := tradesExecuted + 1;
          tradedQty := tradedQty + traded;
          qty := qty - traded;
          var sellQty := best.qty - traded;
          if sellQty > 0 {
            sellBook := Push(sellBook, Quote(best.key, sellQty));
          }
          n, t := n + 1, t + traded;
        }
        NoHit(sellBook, price, qty);
        if qty > 0 {
          buyBook := Push(buyBook, Quote(-price, qty));
        }
      } else if row.side == "SELL" {
        while qty > 0 && buyBook != [] && -buyBook[0].key >= price
          invariant HeapOk(buyBook) && tradesExecuted == m.trades + n && tradedQty == m.traded + t
          invariant Continued(Hit(buyBook, -price, qty), n, t) == Hit(m.buy, -price, row.qty)
          decreases Positive(qty)
        {
          HitOnce(buyBook, -price, qty, n, t);
          RestIsOk(buyBook);
          var best := buyBook[0];
          buyBook := buyBook[1..];
          var buyPrice := -best.key;
          var traded := Min(qty, best.qty);
          tradesExecuted := tradesExecuted + 1;
          tradedQty := tradedQty + traded;
          qty := qty - traded;
          var buyQty := best.qty - traded;
          if buyQty > 0 {
            buyBook := Push(buyBook, Quote(-buyPrice, buyQty));
          }
          n, t := n + 1, t + traded;
        }
        NoHit(buyBook, -price, qty);
        if qty > 0 {
          sellBook := Push(sellBook, Quote(price, qty));
        }
      }
    }
    assert rows[..|rows|] == rows;
  }

  lemma RestIsOk(h: Heap)
    requires HeapOk(h) && h != []
    ensures HeapOk(h[1..])
  {
  }

  lemma NoHit(h: Heap, limit: int, qty: int)
    requires HeapOk(h) && !CanHit(h, limit, qty)
    ensures Hit(h, limit, qty) == Outcome(h, qty, 0, 0)
  {
  }
}
