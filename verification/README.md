# Binance feed ingestion, modelled in Dafny

This project models the feed-ingestion core of a trading dashboard's market-data provider (`src/context/BinanceWebSocketContext.tsx`). The provider holds two WebSocket connections to the exchange. The depth stream pushes partial order-book snapshots. The aggregated-trade stream pushes individual trades. The provider publishes three things: an order book, a log of recent trades, and a connectivity flag.

The model keeps the provider's logic and drops the React and WebSocket plumbing:

- `js.dfy` (module `Js`): the JavaScript values a parsed message can hold. It defines truthiness, `||`, property access, `===`, and numbers with NaN.
- `numbers.dfy` (module `Numbers`): `parseFloat`, read exactly over decimal text in three phases: leading white space, an optional sign, then the digits with an optional fraction. It also has a printer for fixed-point decimal text and the round trip between the two.
- `depth.dfy` (module `Depth`): `calculateTotals` and `processDepthUpdate`. These cover key selection, element destructuring, the positive-quantity filter, the stable sort by price, the cut to 20 levels and the running totals.
- `trade_log.dfy` (module `TradeLog`): `processAggTrade`. This covers field defaults, the duplicate test on (id, time), and the newest-first log capped at 100 entries.
- `hub.dfy` (module `Hub`): the provider as an event-driven state machine. It covers the two `onmessage` gates, `onopen`, `onerror`, `onclose` with its 2000 ms reconnect timer, the reconnect itself, and the effect cleanup. It also has a variant whose handlers are detached at teardown (see Findings).

The React state setters become explicit state passed in and out. `Date.now()` becomes a parameter of the trade-frame event. Expiry of a reconnect timer is an event. A frame that `JSON.parse` rejects is the `Garbled` frame.

The model follows the code as written; in particular:

- Price ordering is non-strict. Equal prices may sit side by side.
- A level tuple of the wrong length is not rejected. A missing quantity reads as NaN, so that level is filtered out. Two things drop the whole message:
  - an element that cannot be destructured (a number, `null`, a boolean or a plain object);
  - a `parseFloat` that throws. An object with its own `toString` key throws a TypeError when converted to text, as does an array holding one. A throwing quantity always drops the message, because the filter converts every quantity. A throwing price drops it only when at least two positive levels reach the sort, because the sort compares every element only when there are at least two.
- `onerror` does not touch the connectivity flag. Only the depth feed has such a flag.
- The trade gate tests truthiness, not "non-empty". The `e === "aggTrade"` branch of the gate has no effect, because `processAggTrade` checks `p`, `q` and `T` again.
- Neither feed has explicit connection states. The model tracks what the code tracks: how many sockets each feed has created, the `close` call made on the current one, and the pending reconnect timers.

## Model

| member | source | states |
|---|---|---|
| `Numbers.ParseFloat` | src/context/BinanceWebSocketContext.tsx:62-70 | a number reads as itself. Only numbers, text and arrays can read as a number; `undefined`, `null`, booleans and objects read as NaN |
| `Numbers.ParseDecimalNeedsDigit` | src/context/BinanceWebSocketContext.tsx:62-70 | text with no decimal digit reads as NaN |
| `Numbers.DecimalTextRoundTrip` | src/context/BinanceWebSocketContext.tsx:62-63 | `parseFloat` reads the fixed-point decimal text the exchange sends for prices and quantities back as exactly the number it denotes, including the sign and the fraction digits |
| `Depth.ToLevels` | src/context/BinanceWebSocketContext.tsx:60-61 | the `[price, quantity]` destructuring succeeds exactly when every element of the side is iterable; element i then becomes level i, with missing slots as `undefined` |
| `Depth.FilterPositive` | src/context/BinanceWebSocketContext.tsx:62 | the filter keeps every level whose quantity reads as a number > 0, each as often as it occurs, and nothing else |
| `Depth.FilterPositiveAppend` | src/context/BinanceWebSocketContext.tsx:62 | the filter keeps input order: filtering a concatenation is the concatenation of the filtered parts |
| `Depth.Sort` | src/context/BinanceWebSocketContext.tsx:63 | the sort returns a permutation of its input, so no level is lost or invented |
| `Depth.SortStable` | src/context/BinanceWebSocketContext.tsx:63 | the sort is stable: for every price, the levels with that price keep their input order |
| `Depth.Top` | src/context/BinanceWebSocketContext.tsx:60-64 | a kept side has min(20, n) levels, where n is the number of levels with positive quantity |
| `Depth.TopKeepsArrivalOrder` | src/context/BinanceWebSocketContext.tsx:62-64 | among the levels of one price, the kept ones are the earliest to arrive, in arrival order, so ties at the 20-level cut keep the first arrivals |
| `Depth.SortOrdered` | src/context/BinanceWebSocketContext.tsx:63-70 | when every price reads as a number, sorted bids never rise and sorted asks never fall, from each level to every later one |
| `Depth.TopIsBestOfPositive` | src/context/BinanceWebSocketContext.tsx:60-71 | a kept side has min(20, n) of the n positive levels and invents none, and the levels of each price are the earliest of that price, in arrival order. When prices are numbers it is the head of an ordered permutation of all of them, and every left-out level is no better than every kept one |
| `Depth.CalculateTotals` | src/context/BinanceWebSocketContext.tsx:39-48 | each level keeps its price and quantity, the length is unchanged, and the total at index i is the sum of the quantities at indices 0..i (a separately defined sum) |
| `Depth.TotalsExample` | src/context/BinanceWebSocketContext.tsx:39-48 | quantities 5, 3, 2 get totals 5, 8, 10 |
| `Depth.ProcessDepthUpdate` | src/context/BinanceWebSocketContext.tsx:50-78 | the book is left unchanged exactly when the chosen bids or asks value is not an array, has an element that cannot be destructured, or makes `parseFloat` throw in the filter or the sort. Otherwise both sides have at most 20 levels, every quantity is positive, and every total is the running sum |
| `Depth.ThrowingQuantityDropsMessage` | src/context/BinanceWebSocketContext.tsx:60-62 | a bids level whose quantity throws on conversion to text leaves the book unchanged |
| `Depth.LoneThrowingPriceIsKept` | src/context/BinanceWebSocketContext.tsx:60-64 | a side whose only level has a throwing price is accepted, since the sort never calls the comparator on one element |
| `Depth.ThrowingPriceInPairIsDropped` | src/context/BinanceWebSocketContext.tsx:60-64 | a side with two positive levels, one of them with a throwing price, is rejected, since the comparator is then called on it |
| `Depth.DepthBookIsTopOfMessage` | src/context/BinanceWebSocketContext.tsx:59-77 | each side of a new book is, level for level, the best min(20, n) of the message's positive levels on that side. Levels of one price are the earliest of that price, in arrival order. The side is in side order when prices are numbers |
| `Depth.MalformedSideIsDropped` | src/context/BinanceWebSocketContext.tsx:52-57 | a bids or asks value that is missing, falsy or not an array leaves the book unchanged |
| `Depth.VerboseBidsWin` | src/context/BinanceWebSocketContext.tsx:52 | when `bids` is truthy, no value of `b` changes the result |
| `Depth.VerboseAsksWin` | src/context/BinanceWebSocketContext.tsx:53 | when `asks` is truthy, no value of `a` changes the result |
| `Depth.SameFieldsSameBook` | src/context/BinanceWebSocketContext.tsx:50-77 | two messages that agree on the chosen bids, asks and update id give the same result |
| `Depth.UpdateIdPrecedence` | src/context/BinanceWebSocketContext.tsx:76 | the update id is `u` if truthy, else `lastUpdateId` if truthy, else 0 |
| `Depth.VerboseAndCompactAgree` | src/context/BinanceWebSocketContext.tsx:50-77 | `{bids, asks, lastUpdateId}` and `{b, a, u}` with the same three values give the same book, for every value |
| `TradeLog.NormalizeTrade` | src/context/BinanceWebSocketContext.tsx:80-91 | a trade is produced exactly when `p`, `q` and `T` are all truthy. Its price, quantity and time are those fields |
| `TradeLog.TradeDefaults` | src/context/BinanceWebSocketContext.tsx:85-91 | the id falls back from `a` to `aggregateTradeId` to the clock. The maker flag is `false` only when `m` is absent; otherwise it is `m` as sent, even `null` |
| `TradeLog.IsDuplicate` | src/context/BinanceWebSocketContext.tsx:95-97 | the linear scan reports true exactly when some entry's id and time are `===` to the new trade's |
| `TradeLog.Append` | src/context/BinanceWebSocketContext.tsx:93-105 | a duplicate leaves the log unchanged. Otherwise the new trade is at index 0, the rest is a prefix of the old log, and the length is min(old + 1, 100) |
| `TradeLog.AppendPreservesValid` | src/context/BinanceWebSocketContext.tsx:93-105 | a log of at most 100 entries, no two sharing (id, time), stays so after any append |
| `TradeLog.AppendIdempotent` | src/context/BinanceWebSocketContext.tsx:95-101 | appending the same trade twice equals appending it once, for ids and times that are not arrays or objects |
| `TradeLog.DuplicateStoredOnce` | src/context/BinanceWebSocketContext.tsx:95-104 | the trade with id 42 and time 1000, appended twice to an empty log, is stored once |
| `TradeLog.AppendAllFresh` | src/context/BinanceWebSocketContext.tsx:103-104 | appending distinct new trades gives the first 100 of (those trades newest first, then the old log). The oldest entries are evicted first |
| `TradeLog.RecentTradesKept` | src/context/BinanceWebSocketContext.tsx:103-104 | after n distinct trades go into an empty log, it holds the last min(n, 100) of them, newest first |
| `Hub.MountedIsValid` | src/context/BinanceWebSocketContext.tsx:26-32 | the initial state (empty book, empty log, disconnected, no timers) satisfies the provider's invariant |
| `Hub.Step` | src/context/BinanceWebSocketContext.tsx:112-205 | only depth frames change the book and only trade frames the log. Only depth-socket open and close events change the flag. Only a feed's own close, its reconnect and the cleanup change that feed's bookkeeping |
| `Hub.OnClose` | src/context/BinanceWebSocketContext.tsx:139-149 | a close event never opens or closes a socket. Code 1000 changes nothing; any other code, with at most one reconnect pending before, leaves exactly one 2000 ms reconnect pending. The trade feed's handler at lines 177-186 is the same |
| `Hub.StepPreservesValid` | src/context/BinanceWebSocketContext.tsx:112-205 | every callback preserves the invariant: at most one 2000 ms reconnect pending per feed, a well-formed book, a valid trade log |
| `Hub.RunPreservesValid` | src/context/BinanceWebSocketContext.tsx:112-205 | the invariant holds after any sequence of callbacks |
| `Hub.NormalCloseSchedulesNothing` | src/context/BinanceWebSocketContext.tsx:141 | a close with code 1000 leaves that feed's timers and socket unchanged |
| `Hub.AbnormalCloseSchedulesOne` | src/context/BinanceWebSocketContext.tsx:141-148 | a close with any other code leaves exactly one reconnect pending, with delay 2000 ms, and opens no socket by itself |
| `Hub.ReconnectOpensOneSocket` | src/context/BinanceWebSocketContext.tsx:112-118 | a due reconnect consumes its timer and replaces the socket with exactly one new, unclosed one |
| `Hub.FeedsAreIndependent` | src/context/BinanceWebSocketContext.tsx:139-186 | a close event on one feed leaves the other feed's sockets and timers unchanged |
| `Hub.TeardownQuiesces` | src/context/BinanceWebSocketContext.tsx:192-205 | after the cleanup, neither feed has a reconnect pending and both sockets were closed with code 1000 |
| `Hub.ConnectivityEvents` | src/context/BinanceWebSocketContext.tsx:120-140 | a depth open sets the flag and a depth close clears it. An error changes nothing, and no trade-socket event touches the flag |
| `Hub.ConnectedIffLastDepthEventIsOpen` | src/context/BinanceWebSocketContext.tsx:120-149 | after any sequence of callbacks, the flag is true exactly when the latest depth open/close event was an open (the initial value if there was none) |
| `Hub.IsDepthMessage` | src/context/BinanceWebSocketContext.tsx:127 | a message passes the depth gate without the event type only if both the chosen bids and the chosen asks are truthy |
| `Hub.IsTradeMessage` | src/context/BinanceWebSocketContext.tsx:165 | every message with truthy `p`, `q` and `T` passes the trade gate |
| `Hub.GarbledFrameIsDropped` | src/context/BinanceWebSocketContext.tsx:124-133 | a frame that does not parse changes nothing, on either feed |
| `Hub.DepthFrameEffect` | src/context/BinanceWebSocketContext.tsx:124-133 | a depth frame replaces the book, and nothing else, exactly when it passes the gate and the reducer accepts it. Otherwise the state is unchanged |
| `Hub.MixedKeysAreDropped` | src/context/BinanceWebSocketContext.tsx:127 | a message with `bids` and `a` fails the gate and is dropped, although the reducer alone would accept it |
| `Hub.TradeFrameEffect` | src/context/BinanceWebSocketContext.tsx:162-171 | a trade frame appends the normalised trade exactly when `p`, `q` and `T` are truthy, and otherwise changes nothing |
| `Hub.ReconnectsAfterTeardown` | src/context/BinanceWebSocketContext.tsx:139-205 | as written, a close with code 1006 that arrives after the cleanup schedules a reconnect, and that reconnect opens a second socket nobody closes |
| `Hub.SafeRunAgreesBeforeTeardown` | src/context/BinanceWebSocketContext.tsx:112-205 | with handlers detached at teardown, the provider behaves exactly as written for any run without teardown |
| `Hub.DisposedIsFinal` | src/context/BinanceWebSocketContext.tsx:192-205 | once torn down, the provider with detached handlers ignores every further callback |
| `Hub.NoReconnectAfterTeardown` | src/context/BinanceWebSocketContext.tsx:192-205 | with handlers detached, after teardown no reconnect is ever pending, no socket is opened, and both stay closed with code 1000, whatever arrives |

## Left out

- React context, hooks and state setters: the state is an explicit `Hub` value and each callback is a pure `Step`.
- The WebSocket transport and `JSON.parse`: the model takes the parsed value (or `Garbled`). On `null` or `undefined` data, property access throws a TypeError that the handler catches. The model reads `undefined` instead, which drops the frame on every path as well.
- Floating point: numbers are exact reals, so rounding in `parseFloat`, in the running totals and in the comparator differences is not modelled. JSON numbers outside the double range are not modelled either.
- `parseFloat`: exponents (`"1e5"`), `"Infinity"` and non-ASCII white space are not read. The exchange's decimal text uses none of them.
- `parseFloat` of an array reads its first element. JavaScript reads the array's comma-joined text, and the comma ends the number, so the two agree except on the points above.
- Depth.SortOrdered: ordering is proved only when every price reads as a number. With a NaN price the comparator is inconsistent and ECMAScript leaves the order implementation-defined. The model then returns its insertion-sort order.
- Depth.SortStable: with a NaN price ECMAScript leaves even the order of equal prices implementation-defined. The stability proved here is that of the model's insertion-sort order, which is one allowed outcome.
- Depth.TopKeepsArrivalOrder: same condition as `Depth.SortStable`.
- Depth.TopIsBestOfPositive: the ordering and "no better than" parts are proved only when every candidate price reads as a number, for the reason above.
- Depth.DepthBookIsTopOfMessage: same condition as `Depth.TopIsBestOfPositive`.
- Destructuring a string element yields its first two characters. JavaScript iterates by code point. Dafny characters are Unicode scalar values, which agree with that.
- Reconnect: at reconnect, `connect` calls `close()` on the previous socket. That socket is already closed, because its close event scheduled the timer, so the call has no effect and is not modelled. The mount-time check for an existing socket is not modelled either.
- Real time: the 2000 ms delay is recorded on the pending timer, and its expiry is the `ReconnectDue` event.
- The effect re-running on changed dependencies is not modelled. Its dependencies are memoised callbacks that never change.
- `src/components/OrderBook.tsx`, `src/components/Trades.tsx`, `src/App.tsx`, `src/main.tsx`, `src/utils/suppressConsole.ts` and the build configuration: presentation, routing, bootstrapping and console patching. None of these files is part of this model.

## Findings

| source | as written | input that shows it | evidently intended | confidence | as-written member | corrected member |
|---|---|---|---|---|---|---|
| src/context/BinanceWebSocketContext.tsx:139-205 | The cleanup clears the timers and calls `close(1000)`, but leaves the `onclose` handlers attached. A close event whose code is not 1000 still schedules a reconnect after teardown. | Unmount while the depth socket is still connecting. Under the WHATWG WebSocket standard, closing a connecting socket fails the connection, so the close event carries 1006. The handler then schedules a reconnect, and 2000 ms later a new socket opens that no cleanup will close. | After teardown no reconnect is ever scheduled and no socket is ever opened. | medium, not executed | `Hub.ReconnectsAfterTeardown` | `Hub.NoReconnectAfterTeardown` |
