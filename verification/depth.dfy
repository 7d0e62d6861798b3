/** The depth-feed reducer: a partial-depth message (top levels of both
    sides) replaces the whole order book. Levels with a quantity that is not
    positive are dropped, bids are sorted best (highest) first and asks best
    (lowest) first, each side keeps its 20 best levels, and every level gets
    the running total of the quantities up to and including it.
 */
module Depth {
  import opened Js
  import opened Numbers

  /** Levels kept per side. */
  const MaxDepth: nat := 20

  /** A raw `{ price, quantity }` level, before totals are attached. */
  datatype Level = Level(price: Value, quantity: Value)

  /** A level of the published book, with its cumulative total. */
  datatype BookLevel = BookLevel(price: Value, quantity: Value, total: Number)

  /** The published book: bids best first, asks best first. */
  datatype Book = Book(bids: seq<BookLevel>, asks: seq<BookLevel>, lastUpdateId: Value)

  /** The book before the first depth message. */
  const EmptyBook := Book([], [], Num(0.0))

  datatype Side = Bids | Asks

  function Strip(b: BookLevel): Level {
    Level(b.price, b.quantity)
  }

  function Levels(bs: seq<BookLevel>): (r: seq<Level>)
    ensures |r| == |bs|
    ensures forall i :: 0 <= i < |bs| ==> r[i] == Strip(bs[i])
  {
    if bs == [] then [] else [Strip(bs[0])] + Levels(bs[1..])
  }

  // ---------------------------------------------------------------------
  // Reading the raw message

  function ItemAt(items: seq<Value>, i: nat): Value {
    if i < |items| then items[i] else Undefined
  }

  /** The destructuring `([price, quantity]) => ({ price, quantity })`.
      Arrays and strings are iterable (a string yields its characters);
      anything else makes the destructuring throw, which drops the message. */
  function Destructure(v: Value): Option<Level> {
    match v
    case Arr(items) => Some(Level(ItemAt(items, 0), ItemAt(items, 1)))
    case Str(s) =>
      Some(Level(if |s| > 0 then Str(s[..1]) else Undefined,
                 if |s| > 1 then Str(s[1..2]) else Undefined))
    case _ => None
  }

  predicate Destructurable(v: Value) {
    Destructure(v).Some?
  }

  /** `array.map(destructure)`: fails as a whole when one element fails. */
  function ToLevels(vs: seq<Value>): (r: Option<seq<Level>>)
    ensures r.Some? <==> forall i :: 0 <= i < |vs| ==> Destructurable(vs[i])
    ensures r.Some? ==> |r.value| == |vs|
    ensures r.Some? ==> forall i :: 0 <= i < |vs| ==> r.value[i] == Destructure(vs[i]).value
  {
    if vs == [] then Some([])
    else
      var head := Destructure(vs[0]);
      var rest := ToLevels(vs[1..]);
      if head.None? then None
      else if rest.None? then
        var j :| 0 <= j < |vs[1..]| && !Destructurable(vs[1..][j]);
        assert vs[1..][j] == vs[j + 1];
        None
      else Some([head.value] + rest.value)
  }

  /** `bids || b`: the verbose key wins whenever its value is truthy. */
  function BidsField(data: Value): Value {
    Or(Get(data, "bids"), Get(data, "b"))
  }

  /** `asks || a` */
  function AsksField(data: Value): Value {
    Or(Get(data, "asks"), Get(data, "a"))
  }

  /** `u || lastUpdateId || 0` */
  function UpdateIdField(data: Value): Value {
    Or(Or(Get(data, "u"), Get(data, "lastUpdateId")), Num(0.0))
  }

  // ---------------------------------------------------------------------
  // Filtering

  /** `parseFloat(level.quantity) > 0` */
  predicate Positive(l: Level) {
    IsPositive(ParseFloat(l.quantity))
  }

  /** The levels with a positive quantity, in their original order. */
  function FilterPositive(ls: seq<Level>): (r: seq<Level>)
    ensures |r| <= |ls|
    ensures forall x :: multiset(r)[x] == if Positive(x) then multiset(ls)[x] else 0
  {
    if ls == [] then []
    else
      assert ls == [ls[0]] + ls[1..];
      (if Positive(ls[0]) then [ls[0]] else []) + FilterPositive(ls[1..])
  }

  /** The filter keeps the order of its input: filtering a concatenation
      filters each part. */
  lemma {:induction false} FilterPositiveAppend(xs: seq<Level>, ys: seq<Level>)
    ensures FilterPositive(xs + ys) == FilterPositive(xs) + FilterPositive(ys)
  {
    if xs == [] {
      assert xs + ys == ys;
    } else {
      var h := if Positive(xs[0]) then [xs[0]] else [];
      assert (xs + ys)[0] == xs[0] && (xs + ys)[1..] == xs[1..] + ys;
      FilterPositiveAppend(xs[1..], ys);
      var a, b := FilterPositive(xs[1..]), FilterPositive(ys);
      calc {
        FilterPositive(xs + ys);
        h + FilterPositive(xs[1..] + ys);
        h + (a + b);
        { ConcatAssociative(h, a, b); }
        (h + a) + b;
        FilterPositive(xs) + b;
      }
    }
  }

  // ---------------------------------------------------------------------
  // Sorting

  /** The number a level is sorted by. */
  function Key(l: Level): Number {
    ParseFloat(l.price)
  }

  /** The side's comparator returns a negative number for `(x, y)`, so a
      stable sort puts `x` ahead of `y`. The bid comparator is
      `parseFloat(y.price) - parseFloat(x.price)` and the ask comparator
      `parseFloat(x.price) - parseFloat(y.price)`; a NaN difference counts as
      zero, so a level whose price is not a number is never ahead. */
  predicate Ahead(side: Side, x: Level, y: Level) {
    match (Key(x), Key(y))
    case (Finite(a), Finite(b)) => if side == Bids then a > b else a < b
    case _ => false
  }

  /** `p` may come before `q` on this side: both are numbers, and bids do not
      rise and asks do not fall from `p` to `q`. Equal prices are allowed. */
  predicate InOrder(side: Side, p: Number, q: Number) {
    p.Finite? && q.Finite? && (if side == Bids then p.r >= q.r else p.r <= q.r)
  }

  /** Every price reads as a number. */
  predicate Priced(s: seq<Level>) {
    forall i :: 0 <= i < |s| ==> Key(s[i]).Finite?
  }

  predicate Ordered(side: Side, s: seq<Level>) {
    forall i, j :: 0 <= i < j < |s| ==> InOrder(side, Key(s[i]), Key(s[j]))
  }

  /** Inserts `x` ahead of the first level that is not strictly ahead of it. */
  function Insert(side: Side, x: Level, ys: seq<Level>): (r: seq<Level>)
    ensures multiset(r) == multiset(ys) + multiset{x}
  {
    if ys == [] then [x]
    else if Ahead(side, ys[0], x) then
      var rest := Insert(side, x, ys[1..]);
      assert multiset(ys) == multiset{ys[0]} + multiset(ys[1..]) by {
        assert ys == [ys[0]] + ys[1..];
      }
      assert multiset([ys[0]] + rest) == multiset{ys[0]} + multiset(rest);
      [ys[0]] + rest
    else [x] + ys
  }

  /** `Array.prototype.sort` with the side's comparator. ECMAScript requires
      the sort to be stable, and for a consistent comparator a stable sort
      has exactly one result, which this insertion sort computes. */
  function Sort(side: Side, xs: seq<Level>): (r: seq<Level>)
    ensures multiset(r) == multiset(xs)
  {
    if xs == [] then []
    else
      assert xs == [xs[0]] + xs[1..];
      Insert(side, xs[0], Sort(side, xs[1..]))
  }

  lemma OrderedCons(side: Side, h: Level, t: seq<Level>)
    requires Ordered(side, t)
    requires forall j :: 0 <= j < |t| ==> InOrder(side, Key(h), Key(t[j]))
    ensures Ordered(side, [h] + t)
  {
    var r := [h] + t;
    forall i, j | 0 <= i < j < |r| ensures InOrder(side, Key(r[i]), Key(r[j])) {
      assert r[j] == t[j - 1];
      if i > 0 {
        assert r[i] == t[i - 1];
      }
    }
  }

  /** A bound on every element of `s` bounds every member of its multiset. */
  lemma BoundOfMember(side: Side, p: Number, s: seq<Level>, z: Level)
    requires forall j :: 0 <= j < |s| ==> InOrder(side, p, Key(s[j]))
    requires z in multiset(s)
    ensures InOrder(side, p, Key(z))
  {
    assert z in s;
    var k :| 0 <= k < |s| && s[k] == z;
  }

  lemma {:induction false} InsertOrdered(side: Side, x: Level, ys: seq<Level>)
    requires Key(x).Finite? && Priced(ys) && Ordered(side, ys)
    ensures Ordered(side, Insert(side, x, ys))
  {
    if ys == [] {
    } else if Ahead(side, ys[0], x) {
      var tail := ys[1..];
      var rest := Insert(side, x, tail);
      assert Priced(tail) && Ordered(side, tail) by {
        forall i | 0 <= i < |tail| ensures Key(tail[i]).Finite? {
          assert tail[i] == ys[i + 1];
        }
      }
      InsertOrdered(side, x, tail);
      assert forall j :: 0 <= j < |tail| ==> InOrder(side, Key(ys[0]), Key(tail[j])) by {
        forall j | 0 <= j < |tail| ensures InOrder(side, Key(ys[0]), Key(tail[j])) {
          assert tail[j] == ys[j + 1];
        }
      }
      forall j | 0 <= j < |rest| ensures InOrder(side, Key(ys[0]), Key(rest[j])) {
        var z := rest[j];
        assert z in multiset(rest);
        if z != x {
          assert z in multiset(tail);
          BoundOfMember(side, Key(ys[0]), tail, z);
        }
      }
      OrderedCons(side, ys[0], rest);
    } else {
      forall j | 0 <= j < |ys| ensures InOrder(side, Key(x), Key(ys[j])) {
        if j > 0 {
          assert InOrder(side, Key(ys[0]), Key(ys[j]));
        }
      }
      OrderedCons(side, x, ys);
    }
  }

  lemma {:induction false} SortOrdered(side: Side, xs: seq<Level>)
    requires Priced(xs)
    ensures Ordered(side, Sort(side, xs))
    ensures Priced(Sort(side, xs))
  {
    if xs != [] {
      var tail := xs[1..];
      assert Priced(tail) by {
        forall i | 0 <= i < |tail| ensures Key(tail[i]).Finite? {
          assert tail[i] == xs[i + 1];
        }
      }
      SortOrdered(side, tail);
      InsertOrdered(side, xs[0], Sort(side, tail));
      var r := Sort(side, xs);
      forall i | 0 <= i < |r| ensures Key(r[i]).Finite? {
        assert r[i] in multiset(xs);
        assert r[i] in xs;
      }
    }
  }

  /** The levels of `s` whose price reads as `k`, in their order in `s`. */
  function WithKey(s: seq<Level>, k: Number): seq<Level> {
    if s == [] then [] else (if Key(s[0]) == k then [s[0]] else []) + WithKey(s[1..], k)
  }

  lemma {:induction false} WithKeyAppend(xs: seq<Level>, ys: seq<Level>, k: Number)
    ensures WithKey(xs + ys, k) == WithKey(xs, k) + WithKey(ys, k)
  {
    if xs == [] {
      assert xs + ys == ys;
    } else {
      var h := if Key(xs[0]) == k then [xs[0]] else [];
      assert (xs + ys)[0] == xs[0] && (xs + ys)[1..] == xs[1..] + ys;
      WithKeyAppend(xs[1..], ys, k);
      assert WithKey(xs + ys, k) == h + (WithKey(xs[1..], k) + WithKey(ys, k));
      ConcatAssociative(h, WithKey(xs[1..], k), WithKey(ys, k));
    }
  }

  lemma WithKeyCons(h: Level, t: seq<Level>, k: Number)
    ensures WithKey([h] + t, k) == (if Key(h) == k then [h] else []) + WithKey(t, k)
  {
    assert ([h] + t)[0] == h && ([h] + t)[1..] == t;
  }

  lemma SwapWhenOneEmpty<T>(g: seq<T>, h: seq<T>, tail: seq<T>)
    requires g == [] || h == []
    ensures g + (h + tail) == h + (g + tail)
  {
    if g == [] {
      assert g + (h + tail) == h + tail;
    } else {
      assert h + (g + tail) == g + tail;
    }
  }

  /** The step of `InsertStable` where `x` moves past the head of `ys`: the
      head is strictly ahead of `x`, so it has a different price. */
  lemma InsertPastHeadStable(side: Side, x: Level, ys: seq<Level>, k: Number)
    requires ys != [] && Ahead(side, ys[0], x)
    requires WithKey(Insert(side, x, ys[1..]), k) == (if Key(x) == k then [x] else []) + WithKey(ys[1..], k)
    ensures WithKey(Insert(side, x, ys), k) == (if Key(x) == k then [x] else []) + WithKey(ys, k)
  {
    var h := if Key(x) == k then [x] else [];
    var g := if Key(ys[0]) == k then [ys[0]] else [];
    assert Key(ys[0]) != Key(x);
    WithKeyCons(ys[0], Insert(side, x, ys[1..]), k);
    SwapWhenOneEmpty(g, h, WithKey(ys[1..], k));
  }

  /** Inserting `x` puts it ahead of every level with the same price. */
  lemma {:induction false} InsertStable(side: Side, x: Level, ys: seq<Level>, k: Number)
    ensures WithKey(Insert(side, x, ys), k) == (if Key(x) == k then [x] else []) + WithKey(ys, k)
  {
    if ys == [] {
      WithKeyCons(x, [], k);
    } else if Ahead(side, ys[0], x) {
      InsertStable(side, x, ys[1..], k);
      InsertPastHeadStable(side, x, ys, k);
    } else {
      WithKeyCons(x, ys, k);
    }
  }

  /** The sort is stable: the levels of one price keep their input order. */
  lemma {:induction false} SortStable(side: Side, xs: seq<Level>, k: Number)
    ensures WithKey(Sort(side, xs), k) == WithKey(xs, k)
  {
    if xs != [] {
      SortStable(side, xs[1..], k);
      InsertStable(side, xs[0], Sort(side, xs[1..]), k);
    }
  }

  /** The side's levels as the reducer keeps them: positive, sorted, cut to
      the best `MaxDepth`. */
  function Top(side: Side, ls: seq<Level>): (r: seq<Level>)
    ensures |r| == Min(MaxDepth, |FilterPositive(ls)|)
  {
    var s := Sort(side, FilterPositive(ls));
    s[..Min(MaxDepth, |s|)]
  }

  // ---------------------------------------------------------------------
  // Running totals

  /** The sum of the quantities of `ls`, a reference definition for totals. */
  function Sum(ls: seq<Level>): Number {
    if ls == [] then Finite(0.0) else Add(ParseFloat(ls[0].quantity), Sum(ls[1..]))
  }

  function TotalsFrom(ls: seq<Level>, acc: Number): (r: seq<BookLevel>)
    ensures |r| == |ls|
    ensures forall i :: 0 <= i < |ls| ==> Strip(r[i]) == ls[i]
    ensures forall i :: 0 <= i < |ls| ==> r[i].total == Add(acc, Sum(ls[..i + 1]))
  {
    if ls == [] then []
    else
      var next := Add(acc, ParseFloat(ls[0].quantity));
      var rest := TotalsFrom(ls[1..], next);
      var r := [BookLevel(ls[0].price, ls[0].quantity, next)] + rest;
      assert forall i :: 0 < i < |ls| ==> r[i].total == Add(acc, Sum(ls[..i + 1])) by {
        forall i | 0 < i < |ls| ensures r[i].total == Add(acc, Sum(ls[..i + 1])) {
          assert r[i] == rest[i - 1];
          RunningSumStep(ls, acc, i);
        }
      }
      r
  }

  /** The running sum after the head's quantity, carried on through the
      rest of the side, is the running sum of the side. */
  lemma RunningSumStep(ls: seq<Level>, acc: Number, i: nat)
    requires 0 < i < |ls|
    ensures Add(Add(acc, ParseFloat(ls[0].quantity)), Sum(ls[1..][..i])) == Add(acc, Sum(ls[..i + 1]))
  {
    assert ls[..i + 1][0] == ls[0] && ls[..i + 1][1..] == ls[1..][..i];
    AddAssociative(acc, ParseFloat(ls[0].quantity), Sum(ls[1..][..i]));
  }

  /** `calculateTotals`: each level keeps its price and quantity and gets the
      sum of the quantities from the head of its side down to itself. */
  function CalculateTotals(ls: seq<Level>): (r: seq<BookLevel>)
    ensures |r| == |ls|
    ensures forall i :: 0 <= i < |ls| ==> Strip(r[i]) == ls[i]
    ensures forall i :: 0 <= i < |ls| ==> r[i].total == Sum(ls[..i + 1])
  {
    TotalsFrom(ls, Finite(0.0))
  }

  // ---------------------------------------------------------------------
  // What a published side is

  /** `out` is what the reducer may publish for the candidate levels `pos`:
      the best `MaxDepth` of them, nothing invented, levels of one price in
      the order they arrived in (so ties at the cut keep the earliest), and,
      when every price reads as a number, a prefix of an ordering of all of
      them in which no left-out level beats a kept one. */
  ghost predicate IsTopOf(side: Side, out: seq<Level>, pos: seq<Level>) {
    && |out| == Min(MaxDepth, |pos|)
    && multiset(out) <= multiset(pos)
    && (forall k :: WithKey(out, k) <= WithKey(pos, k))
    && (Priced(pos) ==>
          && Ordered(side, out)
          && (exists p :: multiset(p) == multiset(pos) && Ordered(side, p) && |out| <= |p| && out == p[..|out|])
          && (forall i, y :: 0 <= i < |out| && multiset(out)[y] < multiset(pos)[y]
                ==> InOrder(side, Key(out[i]), Key(y))))
  }

  /** A published side: at most `MaxDepth` levels, every quantity positive,
      every total the sum of the quantities from the head down to its level. */
  ghost predicate WellFormedSide(side: seq<BookLevel>) {
    && |side| <= MaxDepth
    && (forall i :: 0 <= i < |side| ==> Positive(Strip(side[i])))
    && (forall i :: 0 <= i < |side| ==> side[i].total == Sum(Levels(side)[..i + 1]))
  }

  ghost predicate WellFormedBook(book: Book) {
    WellFormedSide(book.bids) && WellFormedSide(book.asks)
  }

  lemma PrefixOfOrdered(side: Side, s: seq<Level>, k: nat)
    requires k <= |s| && Ordered(side, s)
    ensures Ordered(side, s[..k])
  {
    forall i, j | 0 <= i < j < k ensures InOrder(side, Key(s[..k][i]), Key(s[..k][j])) {
      assert s[..k][i] == s[i] && s[..k][j] == s[j];
    }
  }

  /** In an ordered sequence, whatever is cut off after the first `k` levels
      is no better than any of them. */
  lemma {:induction false} CutOffIsNoBetter(side: Side, s: seq<Level>, k: nat)
    requires k <= |s| && Ordered(side, s)
    ensures forall i, y :: 0 <= i < k && multiset(s[..k])[y] < multiset(s)[y]
              ==> InOrder(side, Key(s[..k][i]), Key(y))
  {
    assert s == s[..k] + s[k..];
    assert multiset(s) == multiset(s[..k]) + multiset(s[k..]);
    forall i, y | 0 <= i < k && multiset(s[..k])[y] < multiset(s)[y]
      ensures InOrder(side, Key(s[..k][i]), Key(y))
    {
      assert y in multiset(s[k..]);
      assert y in s[k..];
      var j :| 0 <= j < |s[k..]| && s[k..][j] == y;
      assert s[k + j] == y && s[..k][i] == s[i];
    }
  }

  lemma TopIsPositive(side: Side, ls: seq<Level>)
    ensures multiset(Top(side, ls)) <= multiset(FilterPositive(ls))
    ensures forall i :: 0 <= i < |Top(side, ls)| ==> Positive(Top(side, ls)[i])
  {
    var pos := FilterPositive(ls);
    var s := Sort(side, pos);
    var top := Top(side, ls);
    assert s == top + s[|top|..];
    assert multiset(s) == multiset(top) + multiset(s[|top|..]);
    forall i | 0 <= i < |top| ensures Positive(top[i]) {
      assert top[i] in multiset(top);
      assert multiset(pos)[top[i]] > 0;
    }
  }

  /** Among levels of one price, the kept ones are the earliest to arrive,
      in arrival order. */
  lemma TopKeepsArrivalOrder(side: Side, ls: seq<Level>, k: Number)
    ensures WithKey(Top(side, ls), k) <= WithKey(FilterPositive(ls), k)
  {
    var pos := FilterPositive(ls);
    var s := Sort(side, pos);
    var n := |Top(side, ls)|;
    assert s == s[..n] + s[n..];
    WithKeyAppend(s[..n], s[n..], k);
    SortStable(side, pos, k);
  }

  lemma TopIsBestOfPositive(side: Side, ls: seq<Level>)
    ensures IsTopOf(side, Top(side, ls), FilterPositive(ls))
    ensures forall i :: 0 <= i < |Top(side, ls)| ==> Positive(Top(side, ls)[i])
  {
    var pos := FilterPositive(ls);
    var s := Sort(side, pos);
    var top := Top(side, ls);
    TopIsPositive(side, ls);
    forall k ensures WithKey(top, k) <= WithKey(pos, k) {
      TopKeepsArrivalOrder(side, ls, k);
    }
    if Priced(pos) {
      SortOrdered(side, pos);
      PrefixOfOrdered(side, s, |top|);
      CutOffIsNoBetter(side, s, |top|);
      assert multiset(s) == multiset(pos) && Ordered(side, s) && |top| <= |s| && top == s[..|top|];
    }
  }

  /** Totals attached to positive levels make a well-formed side. */
  lemma TotalsWellFormed(ls: seq<Level>)
    requires |ls| <= MaxDepth
    requires forall i :: 0 <= i < |ls| ==> Positive(ls[i])
    ensures WellFormedSide(CalculateTotals(ls))
  {
    var r := CalculateTotals(ls);
    LevelsOfTotals(ls);
    assert Levels(r) == ls;
    forall i | 0 <= i < |r| ensures Positive(Strip(r[i])) {
      assert Strip(r[i]) == ls[i];
    }
  }

  /** The published side holds exactly the levels it was computed from. */
  lemma LevelsOfTotals(ls: seq<Level>)
    ensures Levels(CalculateTotals(ls)) == ls
  {
  }

  // ---------------------------------------------------------------------
  // The reducer

  /** Some `parseFloat` call of the filter or the sort throws. The filter
      converts every quantity. Given at least two levels, the sort calls the
      comparator on each of them (a sort that never compared some element
      could not place it), and the comparator converts both prices. */
  predicate ParseThrows(ls: seq<Level>) {
    || (exists i :: 0 <= i < |ls| && ToStringThrows(ls[i].quantity))
    || (var pos := FilterPositive(ls);
        |pos| >= 2 && exists i :: 0 <= i < |pos| && ToStringThrows(pos[i].price))
  }

  /** The levels of one side, if the side is an array all of whose elements
      destructure and whose filter and sort do not throw. */
  function SideLevels(v: Value): Option<seq<Level>> {
    if !v.Arr? then None
    else
      match ToLevels(v.items)
      case None => None
      case Some(ls) => if ParseThrows(ls) then None else Some(ls)
  }

  /** The totals of a kept side make a well-formed side. */
  lemma PublishedSideWellFormed(side: Side, ls: seq<Level>)
    ensures WellFormedSide(CalculateTotals(Top(side, ls)))
  {
    TopIsPositive(side, ls);
    TotalsWellFormed(Top(side, ls));
  }

  /** `processDepthUpdate`: the book the message yields, or None when the
      message leaves the book as it was. */
  function ProcessDepthUpdate(data: Value): (r: Option<Book>)
    ensures r.None? <==> SideLevels(BidsField(data)).None? || SideLevels(AsksField(data)).None?
    ensures r.Some? ==> WellFormedBook(r.value)
    ensures r.Some? ==> r.value.lastUpdateId == UpdateIdField(data)
  {
    var bids := SideLevels(BidsField(data));
    var asks := SideLevels(AsksField(data));
    if bids.None? || asks.None? then None
    else
      PublishedSideWellFormed(Bids, bids.value);
      PublishedSideWellFormed(Asks, asks.value);
      Some(Book(CalculateTotals(Top(Bids, bids.value)), CalculateTotals(Top(Asks, asks.value)), UpdateIdField(data)))
  }

  /** A two-element array destructures into its two elements. */
  lemma DestructurePair(price: Value, quantity: Value)
    ensures Destructure(Arr([price, quantity])) == Some(Level(price, quantity))
  {
    assert ItemAt([price, quantity], 0) == price && ItemAt([price, quantity], 1) == quantity;
  }

  /** A side holding one level of text price and quantity is accepted. */
  lemma OneLevelSide(price: string, quantity: string)
    ensures SideLevels(Arr([Arr([Str(price), Str(quantity)])])) == Some([Level(Str(price), Str(quantity))])
  {
    var ls := [Level(Str(price), Str(quantity))];
    var items := [Str(price), Str(quantity)];
    DestructurePair(Str(price), Str(quantity));
    var vs := [Arr(items)];
    assert Destructurable(vs[0]);
    var r := ToLevels(vs);
    assert r.Some? && |r.value| == 1 && r.value[0] == ls[0];
    assert r.value == ls;
    assert |FilterPositive(ls)| <= 1;
    assert !ToStringThrows(ls[0].quantity);
  }

  /** A quantity that throws on conversion to text drops the whole message. */
  lemma ThrowingQuantityDropsMessage(data: Value, i: nat)
    requires BidsField(data).Arr? && ToLevels(BidsField(data).items).Some?
    requires i < |ToLevels(BidsField(data).items).value|
    requires ToStringThrows(ToLevels(BidsField(data).items).value[i].quantity)
    ensures ProcessDepthUpdate(data).None?
  {
  }

  /** A level whose price throws on conversion to text. */
  const ThrowingPriceLevel: Value := Arr([Obj(map["toString" := Num(1.0)]), Num(1.0)])

  /** A price that throws matters only once the sort compares it, and the
      sort never compares a lone level. */
  lemma LoneThrowingPriceIsKept()
    ensures SideLevels(Arr([ThrowingPriceLevel])).Some?
  {
    var o := Obj(map["toString" := Num(1.0)]);
    var lb := Level(o, Num(1.0));
    DestructurePair(o, Num(1.0));
    var one := ToLevels([ThrowingPriceLevel]);
    assert Destructurable([ThrowingPriceLevel][0]);
    assert one.Some? && |one.value| == 1 && one.value[0] == lb;
    assert one.value == [lb];
    assert |FilterPositive([lb])| <= 1;
    assert !ToStringThrows(lb.quantity);
  }

  lemma PairOfLevels(x: Value, y: Value, lx: Level, ly: Level)
    requires Destructure(x) == Some(lx) && Destructure(y) == Some(ly)
    ensures ToLevels([x, y]) == Some([lx, ly])
  {
    var vs := [x, y];
    assert Destructurable(vs[0]) && Destructurable(vs[1]);
    var two := ToLevels(vs);
    assert two.Some? && |two.value| == 2 && two.value[0] == lx && two.value[1] == ly;
    assert two.value == [lx, ly];
  }

  lemma PairIsPositive(lx: Level, ly: Level)
    requires Positive(lx) && Positive(ly)
    ensures FilterPositive([lx, ly]) == [lx, ly]
  {
    assert [lx, ly][1..] == [ly];
    assert [ly][1..] == [];
  }

  /** Two positive levels are always compared, so a throwing price among
      them drops the message. */
  lemma ThrowingPriceInPairIsDropped()
    ensures SideLevels(Arr([ThrowingPriceLevel, Arr([Num(100.0), Num(1.0)])])).None?
  {
    var o := Obj(map["toString" := Num(1.0)]);
    var good := Arr([Num(100.0), Num(1.0)]);
    var lb := Level(o, Num(1.0));
    var lg := Level(Num(100.0), Num(1.0));
    DestructurePair(o, Num(1.0));
    DestructurePair(Num(100.0), Num(1.0));
    PairOfLevels(ThrowingPriceLevel, good, lb, lg);
    PairIsPositive(lb, lg);
    assert ToStringThrows([lb, lg][0].price);
  }

  /** The positive levels of one side of an accepted message, in arrival order. */
  function Candidates(v: Value): seq<Level>
    requires SideLevels(v).Some?
  {
    FilterPositive(SideLevels(v).value)
  }

  /** Each side of the new book is the best of the message's positive levels. */
  lemma DepthBookIsTopOfMessage(data: Value)
    requires SideLevels(BidsField(data)).Some? && SideLevels(AsksField(data)).Some?
    ensures IsTopOf(Bids, Levels(ProcessDepthUpdate(data).value.bids), Candidates(BidsField(data)))
    ensures IsTopOf(Asks, Levels(ProcessDepthUpdate(data).value.asks), Candidates(AsksField(data)))
  {
    var bids := SideLevels(BidsField(data)).value;
    var asks := SideLevels(AsksField(data)).value;
    TopIsBestOfPositive(Bids, bids);
    TopIsBestOfPositive(Asks, asks);
    LevelsOfTotals(Top(Bids, bids));
    LevelsOfTotals(Top(Asks, asks));
  }

  /** A side that is missing, falsy or not an array leaves the book as it was. */
  lemma MalformedSideIsDropped(data: Value)
    requires !BidsField(data).Arr? || !AsksField(data).Arr?
    ensures ProcessDepthUpdate(data).None?
  {
  }

  /** The reducer reads the message only through its three fields. */
  lemma SameFieldsSameBook(d1: Value, d2: Value)
    requires BidsField(d1) == BidsField(d2) && AsksField(d1) == AsksField(d2)
    requires UpdateIdField(d1) == UpdateIdField(d2)
    ensures ProcessDepthUpdate(d1) == ProcessDepthUpdate(d2)
  {
  }

  /** The verbose key wins: when `bids` is truthy, `b` is never read. */
  lemma VerboseBidsWin(fields: map<string, Value>, b: Value)
    requires "bids" in fields && Truthy(fields["bids"])
    ensures ProcessDepthUpdate(Obj(fields["b" := b])) == ProcessDepthUpdate(Obj(fields))
  {
    var d := Obj(fields["b" := b]);
    assert Get(d, "bids") == Get(Obj(fields), "bids");
    assert Get(d, "asks") == Get(Obj(fields), "asks") && Get(d, "a") == Get(Obj(fields), "a");
    assert Get(d, "u") == Get(Obj(fields), "u");
    assert Get(d, "lastUpdateId") == Get(Obj(fields), "lastUpdateId");
    SameFieldsSameBook(d, Obj(fields));
  }

  /** The verbose key wins: when `asks` is truthy, `a` is never read. */
  lemma VerboseAsksWin(fields: map<string, Value>, a: Value)
    requires "asks" in fields && Truthy(fields["asks"])
    ensures ProcessDepthUpdate(Obj(fields["a" := a])) == ProcessDepthUpdate(Obj(fields))
  {
    var d := Obj(fields["a" := a]);
    assert Get(d, "asks") == Get(Obj(fields), "asks");
    assert Get(d, "bids") == Get(Obj(fields), "bids") && Get(d, "b") == Get(Obj(fields), "b");
    assert Get(d, "u") == Get(Obj(fields), "u");
    assert Get(d, "lastUpdateId") == Get(Obj(fields), "lastUpdateId");
    SameFieldsSameBook(d, Obj(fields));
  }

  /** The update id is `u` when truthy, else `lastUpdateId` when truthy, else 0. */
  lemma UpdateIdPrecedence(data: Value)
    ensures Truthy(Get(data, "u")) ==> UpdateIdField(data) == Get(data, "u")
    ensures !Truthy(Get(data, "u")) && Truthy(Get(data, "lastUpdateId"))
            ==> UpdateIdField(data) == Get(data, "lastUpdateId")
    ensures !Truthy(Get(data, "u")) && !Truthy(Get(data, "lastUpdateId"))
            ==> UpdateIdField(data) == Num(0.0)
  {
  }

  /** The verbose and the compact spelling of one message give the same book. */
  lemma VerboseAndCompactAgree(bids: Value, asks: Value, id: Value)
    ensures ProcessDepthUpdate(Obj(map["bids" := bids, "asks" := asks, "lastUpdateId" := id]))
         == ProcessDepthUpdate(Obj(map["b" := bids, "a" := asks, "u" := id]))
  {
    var verbose := Obj(map["bids" := bids, "asks" := asks, "lastUpdateId" := id]);
    var compact := Obj(map["b" := bids, "a" := asks, "u" := id]);
    assert BidsField(verbose).Arr? <==> BidsField(compact).Arr?;
    assert BidsField(verbose).Arr? ==> BidsField(verbose) == BidsField(compact);
    assert AsksField(verbose).Arr? <==> AsksField(compact).Arr?;
    assert AsksField(verbose).Arr? ==> AsksField(verbose) == AsksField(compact);
    assert UpdateIdField(verbose) == UpdateIdField(compact);
  }

  /** The running totals of quantities 5, 3 and 2 are 5, 8 and 10. */
  lemma TotalsExample()
    ensures var r := CalculateTotals([Level(Str("100"), Num(5.0)), Level(Str("99"), Num(3.0)), Level(Str("98"), Num(2.0))]);
      [r[0].total, r[1].total, r[2].total] == [Finite(5.0), Finite(8.0), Finite(10.0)]
  {
  }
}
