/** Sliding a limit order back to just in front of a wall (gryphon/lib/order_sliding.py:34-127), with a limit on
    how far it may slide. */
module OrderSliding {
  import opened Wrappers
  import opened Books

  datatype Result<+T> = Ok(value: T) | IndexError

  /** a would stand further from the centre of the book than b. */
  predicate IsDeeper(mode: Side, a: real, b: real) { if mode == Bid then a < b else a > b }

  const LEAST_PRICE := 0.001

  function Widen(mode: Side, price: real, amount: real): real {
    if mode == Ask then price + amount
    else if price - amount >= LEAST_PRICE then price - amount
    else LEAST_PRICE
  }

  function Narrow(mode: Side, price: real, amount: real): real {
    if mode == Bid then price + amount else price - amount
  }

  predicate Wall(mode: Side, initial: real, ignore: real, o: Level) {
    IsDeeper(mode, o.price, initial) && o.volume > ignore
  }

  /** Where the first wall of a side stands. */
  function FirstWall(mode: Side, initial: real, ignore: real, side: seq<Level>): Option<Level> {
    if side == [] then None
    else if Wall(mode, initial, ignore, side[0]) then Some(side[0])
    else FirstWall(mode, initial, ignore, side[1..])
  }

  /** The price in front of a wall, unless that is no improvement, crosses the book or is too far. */
  function InFront(mode: Side, initial: real, wall: real, top: real, jump: real, widest: real): real {
    var slid := Narrow(mode, wall, jump);
    if IsDeeper(mode, initial, slid) then initial
    else if IsDeeper(mode, top, slid) then initial
    else if IsDeeper(mode, slid, widest) then widest
    else slid
  }

  function Slid(mode: Side, initial: real, book: Orderbook, ignore: real, jump: real, maxSlide: real): Result<real> {
    if book.bids == [] || book.On(mode.Opposite()) == [] then IndexError else
      var widest := Widen(mode, initial, maxSlide);
      match FirstWall(mode, initial, ignore, book.On(mode))
      case None => Ok(widest)
      case Some(wall) => Ok(InFront(mode, initial, wall.price, book.On(mode.Opposite())[0].price, jump, widest))
  }

  const DEFAULT_IGNORE := 0.00000001
  const DEFAULT_JUMP := 0.01

  method SlideOrder(mode: Side, initial: real, book: Orderbook, ignoreVolume: Option<real>, jump: Option<real>,
                    maxSlide: real) returns (r: Result<real>)
    ensures r == Slid(mode, initial, book, if ignoreVolume.Some? then ignoreVolume.value else 0.00000001,
                      if jump.Some? then jump.value else 0.01, maxSlide)
    ensures r == IndexError <==> book.bids == [] || (mode == Bid && book.asks == [])
  {
    if book.bids == [] { return IndexError; }
    var ignore := if ignoreVolume.Some? then ignoreVolume.value else DEFAULT_IGNORE;
    var step := if jump.Some? then jump.value else DEFAULT_JUMP;
    var widest := Widen(mode, initial, maxSlide);
    if book.On(mode.Opposite()) == [] { return IndexError; }
    var side, top := book.On(mode), book.On(mode.Opposite())[0];
    var newPrice: Option<real> := None;
    var i := 0;
    while i < |side|
      invariant i <= |side| && newPrice == None
      invariant FirstWall(mode, initial, ignore, side[i..]) == FirstWall(mode, initial, ignore, side)
    {
      var order := side[i];
      assert side[i..][1..] == side[i + 1..];
      if IsDeeper(mode, order.price, initial) && order.volume > ignore {
        var slid := Narrow(mode, order.price, step);
        if IsDeeper(mode, initial, slid) {
          newPrice := Some(initial);
        } else if IsDeeper(mode, top.price, slid) {
          newPrice := Some(initial);
        } else if IsDeeper(mode, slid, widest) {
          newPrice := Some(widest);
        } else {
          newPrice := Some(slid);
        }
        break;
      }
      i := i + 1;
    }
    if newPrice == None { newPrice := Some(Widen(mode, initial, maxSlide)); }
    r := Ok(newPrice.value);
  }

  // ---- where the order lands, in numbers ----

  function Max(a: real, b: real): real { if a >= b then a else b }

  /** A bid goes one jump above the first larger bid below it, but not below its limit, which is max_slide away and at
      least 0.001; if that would be above where it started or above the best ask, it stays. With nothing larger below
      it, it goes to its limit. */
  lemma BidLandsAt(initial: real, book: Orderbook, ignore: real, jump: real, maxSlide: real, i: nat)
    requires book.bids != [] && book.asks != [] && i <= |book.bids|
    requires forall k :: 0 <= k < i ==> !(book.bids[k].price < initial && book.bids[k].volume > ignore)
    requires i < |book.bids| ==> book.bids[i].price < initial && book.bids[i].volume > ignore
    ensures var limit := Max(initial - maxSlide, 0.001);
      Slid(Bid, initial, book, ignore, jump, maxSlide)
      == Ok(if i == |book.bids| then limit
            else if book.bids[i].price + jump > initial || book.bids[i].price + jump > book.asks[0].price then initial
            else Max(book.bids[i].price + jump, limit))
  {
    FirstWallIs(Bid, initial, ignore, book.bids, i);
  }

  /** An ask goes one jump below the first larger ask above it, but not further than max_slide; if that would be below
      where it started or below the best bid, it stays. With nothing larger above it, it goes all the way. */
  lemma AskLandsAt(initial: real, book: Orderbook, ignore: real, jump: real, maxSlide: real, i: nat)
    requires book.bids != [] && book.asks != [] && i <= |book.asks|
    requires forall k :: 0 <= k < i ==> !(book.asks[k].price > initial && book.asks[k].volume > ignore)
    requires i < |book.asks| ==> book.asks[i].price > initial && book.asks[i].volume > ignore
    ensures var limit := initial + maxSlide;
      Slid(Ask, initial, book, ignore, jump, maxSlide)
      == Ok(if i == |book.asks| then limit
            else if book.asks[i].price - jump < initial || book.asks[i].price - jump < book.bids[0].price then initial
            else if book.asks[i].price - jump > limit then limit
            else book.asks[i].price - jump)
  {
    FirstWallIs(Ask, initial, ignore, book.asks, i);
  }

  lemma {:induction false} FirstWallIs(mode: Side, initial: real, ignore: real, side: seq<Level>, i: nat)
    requires i <= |side| && (forall k :: 0 <= k < i ==> !Wall(mode, initial, ignore, side[k]))
    requires i < |side| ==> Wall(mode, initial, ignore, side[i])
    ensures FirstWall(mode, initial, ignore, side) == if i == |side| then None else Some(side[i])
  {
    if i > 0 { FirstWallIs(mode, initial, ignore, side[1..], i - 1); }
  }

  // ---- what sliding guarantees ----

  predicate Sorted(mode: Side, side: seq<Level>) { if mode == Bid then Descending(side) else Ascending(side) }

  /** p is at a or deeper, and at b or shallower. */
  predicate Within(mode: Side, a: real, p: real, b: real) { !IsDeeper(mode, a, p) && !IsDeeper(mode, p, b) }

  /** The result lies between the initial and the widest allowed price if and only if the price floor for bids
      does not lie above the initial price; below it, the result is the initial price or the floor. */
  lemma StaysWithin(mode: Side, initial: real, book: Orderbook, ignore: real, jump: real, maxSlide: real)
    requires maxSlide >= 0.0 && Slid(mode, initial, book, ignore, jump, maxSlide).Ok?
    ensures var p := Slid(mode, initial, book, ignore, jump, maxSlide).value;
            && (Within(mode, initial, p, Widen(mode, initial, maxSlide)) <==> mode == Ask || initial >= LEAST_PRICE)
            && (mode == Bid && initial < LEAST_PRICE ==> p == initial || p == LEAST_PRICE)
  {
  }

  /** Below the floor every book without a wall overshoots. */
  lemma FloorOvershoots(initial: real, book: Orderbook, ignore: real, jump: real, maxSlide: real)
    requires maxSlide >= 0.0 && initial < LEAST_PRICE && book.bids != [] && book.asks != []
    requires forall o :: o in book.bids ==> !Wall(Bid, initial, ignore, o)
    ensures Slid(Bid, initial, book, ignore, jump, maxSlide) == Ok(LEAST_PRICE)
  {
    FirstWallIs(Bid, initial, ignore, book.bids, |book.bids|);
  }

  /** On a sorted side, every order strictly between the result and the initial price is small enough to
      ignore. */
  lemma PassesNoWall(mode: Side, initial: real, book: Orderbook, ignore: real, jump: real, maxSlide: real, o: Level)
    requires Sorted(mode, book.On(mode)) && maxSlide >= 0.0 && jump >= 0.0
    requires Slid(mode, initial, book, ignore, jump, maxSlide).Ok? && o in book.On(mode)
    requires IsDeeper(mode, o.price, initial)
    requires IsDeeper(mode, Slid(mode, initial, book, ignore, jump, maxSlide).value, o.price)
    ensures o.volume <= ignore
  {
    if o.volume > ignore { FirstWallIsShallowest(mode, initial, ignore, book.On(mode), o); }
  }

  lemma {:induction false} FirstWallIsShallowest(mode: Side, initial: real, ignore: real, side: seq<Level>, o: Level)
    requires Sorted(mode, side) && o in side && Wall(mode, initial, ignore, o)
    ensures var w := FirstWall(mode, initial, ignore, side);
            w.Some? && w.value in side && Wall(mode, initial, ignore, w.value) && !IsDeeper(mode, w.value.price, o.price)
  {
    if !Wall(mode, initial, ignore, side[0]) {
      assert side == [side[0]] + side[1..];
      FirstWallIsShallowest(mode, initial, ignore, side[1..], o);
    } else {
      var k :| 0 <= k < |side| && side[k] == o;
    }
  }

  /** Sliding never makes an order cross the book that did not cross it before. */
  lemma NeverCrosses(mode: Side, initial: real, book: Orderbook, ignore: real, jump: real, maxSlide: real)
    requires maxSlide >= 0.0 && Slid(mode, initial, book, ignore, jump, maxSlide).Ok?
    requires mode == Ask || initial >= LEAST_PRICE
    requires !IsDeeper(mode, book.On(mode.Opposite())[0].price, initial)
    ensures !IsDeeper(mode, book.On(mode.Opposite())[0].price, Slid(mode, initial, book, ignore, jump, maxSlide).value)
  {
    StaysWithin(mode, initial, book, ignore, jump, maxSlide);
  }
}
