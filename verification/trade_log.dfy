/** The trade feed: normalising an aggregated-trade message into a trade and
    appending it to the bounded, newest-first, de-duplicated trade log.
 */
module TradeLog {
  import opened Js

  /** Capacity of the log. */
  const MaxTrades: nat := 100

  /** A trade as the log stores it. The fields hold whatever the message
      carried: the wire format sends the id and time as numbers, the price
      and quantity as decimal text and the maker flag as a boolean. */
  datatype Trade = Trade(id: Value, price: Value, quantity: Value, time: Value, isBuyerMaker: Value)

  // ---------------------------------------------------------------------
  // Normalising a message

  /** The guard of `processAggTrade`: price, quantity and trade time are all truthy. */
  predicate HasTradeFields(data: Value) {
    Truthy(Get(data, "p")) && Truthy(Get(data, "q")) && Truthy(Get(data, "T"))
  }

  /** `a || aggregateTradeId || Date.now()`, the clock reading passed in. */
  function TradeId(data: Value, now: real): Value {
    Or(Or(Get(data, "a"), Get(data, "aggregateTradeId")), Num(now))
  }

  /** `m !== undefined ? m : false` */
  function MakerFlag(data: Value): Value {
    if Get(data, "m").Undefined? then Bool(false) else Get(data, "m")
  }

  /** `processAggTrade` up to the log update: the trade the message yields,
      or None when it leaves the log as it was. */
  function NormalizeTrade(data: Value, now: real): (r: Option<Trade>)
    ensures r.Some? <==> HasTradeFields(data)
    ensures r.Some? ==> Truthy(r.value.price) && Truthy(r.value.quantity) && Truthy(r.value.time)
    ensures r.Some? ==> r.value.price == Get(data, "p") && r.value.quantity == Get(data, "q")
                        && r.value.time == Get(data, "T")
  {
    if !HasTradeFields(data) then None
    else Some(Trade(TradeId(data, now), Get(data, "p"), Get(data, "q"), Get(data, "T"), MakerFlag(data)))
  }

  /** The id falls back from `a` to `aggregateTradeId` to the clock; the
      maker flag defaults to false only when `m` is absent. */
  lemma TradeDefaults(data: Value, now: real)
    requires HasTradeFields(data)
    ensures var t := NormalizeTrade(data, now).value;
      && (Truthy(Get(data, "a")) ==> t.id == Get(data, "a"))
      && (!Truthy(Get(data, "a")) && Truthy(Get(data, "aggregateTradeId")) ==> t.id == Get(data, "aggregateTradeId"))
      && (!Truthy(Get(data, "a")) && !Truthy(Get(data, "aggregateTradeId")) ==> t.id == Num(now))
      && (Get(data, "m").Undefined? ==> t.isBuyerMaker == Bool(false))
      && (!Get(data, "m").Undefined? ==> t.isBuyerMaker == Get(data, "m"))
  {
  }

  // ---------------------------------------------------------------------
  // The log

  /** Two trades are the same trade when their ids and times are `===`. */
  predicate SameKey(x: Trade, y: Trade) {
    StrictEquals(x.id, y.id) && StrictEquals(x.time, y.time)
  }

  /** `prev.some(trade => trade.id === t.id && trade.time === t.time)` */
  function IsDuplicate(log: seq<Trade>, t: Trade): (r: bool)
    ensures r <==> exists i :: 0 <= i < |log| && SameKey(log[i], t)
  {
    if log == [] then false
    else if SameKey(log[0], t) then true
    else
      var r := IsDuplicate(log[1..], t);
      assert r <==> exists i :: 1 <= i < |log| && SameKey(log[i], t) by {
        if r {
          var j :| 0 <= j < |log[1..]| && SameKey(log[1..][j], t);
          assert log[j + 1] == log[1..][j];
        }
        if exists i :: 1 <= i < |log| && SameKey(log[i], t) {
          var i :| 1 <= i < |log| && SameKey(log[i], t);
          assert log[1..][i - 1] == log[i];
        }
      }
      r
  }

  /** The first `n` elements of `s`, or all of it when it is shorter. */
  function Window<T>(s: seq<T>, n: nat): seq<T> {
    s[..Min(|s|, n)]
  }

  /** The state updater of `processAggTrade`. A duplicate is ignored;
      anything else goes to the head, the rest of the log is the old log
      cut to fit, and the log never exceeds its capacity. */
  function Append(log: seq<Trade>, t: Trade): (r: seq<Trade>)
    ensures IsDuplicate(log, t) ==> r == log
    ensures !IsDuplicate(log, t) ==>
      && |r| == Min(|log| + 1, MaxTrades)
      && r[0] == t
      && r[1..] == log[..|r| - 1]
  {
    if IsDuplicate(log, t) then log else Window([t] + log, MaxTrades)
  }

  /** No two entries of the log are the same trade. */
  predicate UniqueKeys(log: seq<Trade>) {
    forall i, j :: 0 <= i < j < |log| ==> !SameKey(log[i], log[j])
  }

  /** What the log always satisfies. */
  predicate ValidLog(log: seq<Trade>) {
    |log| <= MaxTrades && UniqueKeys(log)
  }

  lemma AppendPreservesValid(log: seq<Trade>, t: Trade)
    requires ValidLog(log)
    ensures ValidLog(Append(log, t))
  {
    if !IsDuplicate(log, t) {
      var r := Append(log, t);
      forall i, j | 0 <= i < j < |r| ensures !SameKey(r[i], r[j]) {
        assert r[j] == log[j - 1];
        if i > 0 {
          assert r[i] == log[i - 1];
        } else {
          assert !SameKey(log[j - 1], t);
        }
      }
    }
  }

  /** Appending the same trade twice is the same as appending it once
      (for ids and times that are not arrays or objects, which never
      compare equal under `===`). */
  lemma AppendIdempotent(log: seq<Trade>, t: Trade)
    requires StrictEquals(t.id, t.id) && StrictEquals(t.time, t.time)
    ensures Append(Append(log, t), t) == Append(log, t)
  {
    var r := Append(log, t);
    if !IsDuplicate(log, t) {
      assert r[0] == t && SameKey(r[0], t);
    }
  }

  /** Appends a sequence of trades, oldest arrival first. */
  function AppendAll(log: seq<Trade>, ts: seq<Trade>): seq<Trade>
    decreases |ts|
  {
    if ts == [] then log else AppendAll(Append(log, ts[0]), ts[1..])
  }

  function Reverse<T>(s: seq<T>): (r: seq<T>)
    ensures |r| == |s|
    ensures forall i :: 0 <= i < |s| ==> r[i] == s[|s| - 1 - i]
  {
    if s == [] then [] else Reverse(s[1..]) + [s[0]]
  }

  /** The trades of `ts` are distinct from each other and from every entry of `log`. */
  predicate Fresh(log: seq<Trade>, ts: seq<Trade>) {
    && (forall i, j :: 0 <= i < |ts| && 0 <= j < |log| ==> !SameKey(log[j], ts[i]))
    && (forall i, j :: 0 <= i < j < |ts| ==> !SameKey(ts[i], ts[j]))
  }

  lemma WindowOfWindow<T>(xs: seq<T>, ys: seq<T>, n: nat)
    ensures Window(xs + Window(ys, n), n) == Window(xs + ys, n)
  {
    var a := xs + Window(ys, n);
    var b := xs + ys;
    var k := Min(|a|, n);
    assert k == Min(|b|, n);
    forall i | 0 <= i < k ensures a[i] == b[i] {
      if i >= |xs| {
        assert a[i] == Window(ys, n)[i - |xs|];
      }
    }
  }

  /** After the first of a run of fresh trades is appended, the rest are
      still fresh with respect to the grown log. */
  lemma FreshAfterAppend(log: seq<Trade>, ts: seq<Trade>)
    requires |ts| > 0 && Fresh(log, ts)
    ensures Append(log, ts[0]) == Window([ts[0]] + log, MaxTrades)
    ensures Fresh(Append(log, ts[0]), ts[1..])
  {
    var t := ts[0];
    assert !IsDuplicate(log, t);
    var log1 := Append(log, t);
    forall i, j | 0 <= i < |ts[1..]| && 0 <= j < |log1|
      ensures !SameKey(log1[j], ts[1..][i])
    {
      assert ts[1..][i] == ts[i + 1];
      if j == 0 {
        assert !SameKey(ts[0], ts[i + 1]);
      } else {
        assert log1[j] == log[j - 1];
      }
    }
    forall i, j | 0 <= i < j < |ts[1..]| ensures !SameKey(ts[1..][i], ts[1..][j]) {
      assert ts[1..][i] == ts[i + 1] && ts[1..][j] == ts[j + 1];
    }
  }

  lemma ReverseSplit<T>(ts: seq<T>, log: seq<T>)
    requires |ts| > 0
    ensures Reverse(ts[1..]) + ([ts[0]] + log) == Reverse(ts) + log
  {
    assert Reverse(ts) == Reverse(ts[1..]) + [ts[0]];
    ConcatAssociative(Reverse(ts[1..]), [ts[0]], log);
  }

  /** Appending fresh trades keeps the most recent `MaxTrades` of them and of
      the old log, newest first: the oldest are evicted first. */
  lemma {:induction false} AppendAllFresh(log: seq<Trade>, ts: seq<Trade>)
    requires |log| <= MaxTrades && Fresh(log, ts)
    ensures AppendAll(log, ts) == Window(Reverse(ts) + log, MaxTrades)
    decreases |ts|
  {
    if ts == [] {
      assert Reverse(ts) + log == log;
    } else {
      FreshAfterAppend(log, ts);
      var log1 := Append(log, ts[0]);
      AppendAllFresh(log1, ts[1..]);
      WindowOfWindow(Reverse(ts[1..]), [ts[0]] + log, MaxTrades);
      ReverseSplit(ts, log);
    }
  }

  /** Appending more than `MaxTrades` distinct trades to an empty log keeps
      the `MaxTrades` most recently appended, newest first. */
  lemma RecentTradesKept(ts: seq<Trade>)
    requires Fresh([], ts)
    ensures var r := AppendAll([], ts);
      && |r| == Min(|ts|, MaxTrades)
      && forall i :: 0 <= i < |r| ==> r[i] == ts[|ts| - 1 - i]
  {
    AppendAllFresh([], ts);
    assert Reverse(ts) + [] == Reverse(ts);
  }

  /** The same trade (id 42, time 1000) appended twice to an empty log is stored once. */
  lemma DuplicateStoredOnce(t: Trade)
    requires t.id == Num(42.0) && t.time == Num(1000.0)
    ensures |Append(Append([], t), t)| == 1
  {
    AppendIdempotent([], t);
  }
}
