/** The market-data hub: two feed connections (depth and trades), the
    message handlers that route their frames to the depth reducer and the
    trade log, the reconnect-on-close logic and the teardown. Every callback
    the event loop can run is an `Event`; `Step` is its effect on the state.
 */
module Hub {
  import opened Js
  import opened Depth
  import opened TradeLog

  /** The WebSocket "normal closure" code. */
  const NormalClosure: int := 1000

  /** Delay before a reconnect attempt, in milliseconds. */
  const ReconnectDelayMs: nat := 2000

  datatype FeedKind = DepthFeed | TradeFeed

  /** The `close` call made on a feed's current socket, if any. */
  datatype CloseCall = NotClosed | ClosedWith(code: int)

  /** One feed's connection bookkeeping: how many sockets it has created
      (the current one is the last), the `close` call made on the current
      socket, and the delays of its pending reconnect timers, oldest first.
      The timer reference always holds the newest timer, so clearing it
      cancels the last pending one. */
  datatype Feed = Feed(sockets: nat, close: CloseCall, timers: seq<nat>)

  /** The state the provider owns and publishes. Only the depth feed has a
      connectivity flag. */
  datatype Hub = Hub(depth: Feed, trade: Feed, isConnected: bool, book: Book, trades: seq<Trade>)

  /** An inbound frame: text `JSON.parse` rejects, or the value it returns. */
  datatype Frame = Garbled | Parsed(data: Value)

  /** The callbacks the event loop runs: socket events, timer expiry with
      the delay elapsed, inbound frames with the clock reading `Date.now()`
      would give, and the effect cleanup. */
  datatype Event =
    | Opened(feed: FeedKind)
    | Errored(feed: FeedKind)
    | Closed(feed: FeedKind, code: int)
    | ReconnectDue(feed: FeedKind)
    | DepthFrame(frame: Frame)
    | TradeFrame(frame: Frame, now: real)
    | Teardown

  /** The state right after mounting: both feeds have opened their first
      socket, nothing is published yet. */
  const Mounted: Hub := Hub(Feed(1, NotClosed, []), Feed(1, NotClosed, []), false, EmptyBook, [])

  // ---------------------------------------------------------------------
  // Message classification and dispatch

  /** The depth handler's gate: a `bids`+`asks` pair, a `b`+`a` pair, or the
      event type "depthUpdate". */
  predicate IsDepthMessage(data: Value)
    ensures IsDepthMessage(data) && !StrictEquals(Get(data, "e"), Str("depthUpdate"))
            ==> Truthy(BidsField(data)) && Truthy(AsksField(data))
  {
    || (Truthy(Get(data, "bids")) && Truthy(Get(data, "asks")))
    || (Truthy(Get(data, "b")) && Truthy(Get(data, "a")))
    || StrictEquals(Get(data, "e"), Str("depthUpdate"))
  }

  /** The trade handler's gate: the event type "aggTrade", or `p`, `q` and `T`. */
  predicate IsTradeMessage(data: Value)
    ensures HasTradeFields(data) ==> IsTradeMessage(data)
  {
    || StrictEquals(Get(data, "e"), Str("aggTrade"))
    || (Truthy(Get(data, "p")) && Truthy(Get(data, "q")) && Truthy(Get(data, "T")))
  }

  /** The depth socket's `onmessage`. */
  function OnDepthFrame(book: Book, frame: Frame): Book {
    match frame
    case Garbled => book
    case Parsed(data) =>
      if !IsDepthMessage(data) then book
      else
        match ProcessDepthUpdate(data)
        case Some(next) => next
        case None => book
  }

  /** The trade socket's `onmessage`. */
  function OnTradeFrame(trades: seq<Trade>, frame: Frame, now: real): seq<Trade> {
    match frame
    case Garbled => trades
    case Parsed(data) =>
      if !IsTradeMessage(data) then trades
      else
        match NormalizeTrade(data, now)
        case Some(t) => Append(trades, t)
        case None => trades
  }

  // ---------------------------------------------------------------------
  // Connection lifecycle

  /** `clearTimeout(ref.current)`: cancels the newest pending timer. */
  function CancelTimer(f: Feed): Feed {
    if f.timers == [] then f else f.(timers := f.timers[..|f.timers| - 1])
  }

  /** `onclose`: unless the code is a normal closure, cancel the pending
      timer and schedule a reconnect. */
  function OnClose(f: Feed, code: int): (r: Feed)
    ensures r.sockets == f.sockets && r.close == f.close
    ensures code == NormalClosure ==> r == f
    ensures code != NormalClosure && ValidFeed(f) ==> r.timers == [ReconnectDelayMs]
    ensures ValidFeed(f) ==> ValidFeed(r)
  {
    if code == NormalClosure then f
    else
      var g := CancelTimer(f);
      g.(timers := g.timers + [ReconnectDelayMs])
  }

  /** The oldest timer fires and `connect` runs: the old socket is closed
      (it already is, since its close event scheduled the timer) and a new
      one replaces it. */
  function OnReconnectDue(f: Feed): Feed {
    if f.timers == [] then f
    else Feed(f.sockets + 1, NotClosed, f.timers[1..])
  }

  /** The cleanup's share for one feed: clear its timer, close its socket
      with the normal-closure code. */
  function Shut(f: Feed): Feed {
    CancelTimer(f).(close := ClosedWith(NormalClosure))
  }

  function FeedOf(h: Hub, k: FeedKind): Feed {
    if k == DepthFeed then h.depth else h.trade
  }

  function WithFeed(h: Hub, k: FeedKind, f: Feed): Hub {
    if k == DepthFeed then h.(depth := f) else h.(trade := f)
  }

  /** The effect of one callback. Only frames touch the published book and
      log, only depth-socket events the connectivity flag, and only a
      feed's own close, its reconnect and the cleanup its bookkeeping. */
  function Step(h: Hub, e: Event): (r: Hub)
    ensures r.book != h.book ==> e.DepthFrame?
    ensures r.trades != h.trades ==> e.TradeFrame?
    ensures r.isConnected != h.isConnected ==> e == Opened(DepthFeed) || (e.Closed? && e.feed == DepthFeed)
    ensures r.depth != h.depth ==> e.Teardown? || ((e.Closed? || e.ReconnectDue?) && e.feed == DepthFeed)
    ensures r.trade != h.trade ==> e.Teardown? || ((e.Closed? || e.ReconnectDue?) && e.feed == TradeFeed)
  {
    match e
    case Opened(k) => if k == DepthFeed then h.(isConnected := true) else h
    case Errored(_) => h
    case Closed(k, code) =>
      var h' := WithFeed(h, k, OnClose(FeedOf(h, k), code));
      if k == DepthFeed then h'.(isConnected := false) else h'
    case ReconnectDue(k) => WithFeed(h, k, OnReconnectDue(FeedOf(h, k)))
    case DepthFrame(frame) => h.(book := OnDepthFrame(h.book, frame))
    case TradeFrame(frame, now) => h.(trades := OnTradeFrame(h.trades, frame, now))
    case Teardown => h.(depth := Shut(h.depth), trade := Shut(h.trade))
  }

  /** The state after a sequence of callbacks, earliest first. */
  function Run(h: Hub, evs: seq<Event>): Hub {
    if evs == [] then h else Step(Run(h, evs[..|evs| - 1]), evs[|evs| - 1])
  }

  // ---------------------------------------------------------------------
  // Invariants

  /** At most one reconnect is pending, and it is the fixed-delay one. */
  predicate ValidFeed(f: Feed) {
    |f.timers| <= 1 && (forall i :: 0 <= i < |f.timers| ==> f.timers[i] == ReconnectDelayMs)
  }

  ghost predicate Valid(h: Hub) {
    ValidFeed(h.depth) && ValidFeed(h.trade) && WellFormedBook(h.book) && ValidLog(h.trades)
  }

  lemma MountedIsValid()
    ensures Valid(Mounted)
  {
  }

  lemma StepPreservesValid(h: Hub, e: Event)
    requires Valid(h)
    ensures Valid(Step(h, e))
  {
    match e
    case TradeFrame(Parsed(data), now) =>
      if IsTradeMessage(data) && NormalizeTrade(data, now).Some? {
        AppendPreservesValid(h.trades, NormalizeTrade(data, now).value);
      }
    case _ =>
  }

  lemma {:induction false} RunPreservesValid(h: Hub, evs: seq<Event>)
    requires Valid(h)
    ensures Valid(Run(h, evs))
  {
    if evs != [] {
      RunPreservesValid(h, evs[..|evs| - 1]);
      StepPreservesValid(Run(h, evs[..|evs| - 1]), evs[|evs| - 1]);
    }
  }

  // ---------------------------------------------------------------------
  // Reconnect logic

  /** A normal closure schedules and cancels nothing. */
  lemma NormalCloseSchedulesNothing(h: Hub, k: FeedKind)
    ensures FeedOf(Step(h, Closed(k, NormalClosure)), k) == FeedOf(h, k)
  {
  }

  /** Any other close code leaves exactly one reconnect pending, with the
      fixed delay, and does not open a socket by itself. */
  lemma AbnormalCloseSchedulesOne(h: Hub, k: FeedKind, code: int)
    requires ValidFeed(FeedOf(h, k)) && code != NormalClosure
    ensures FeedOf(Step(h, Closed(k, code)), k).timers == [ReconnectDelayMs]
    ensures FeedOf(Step(h, Closed(k, code)), k).sockets == FeedOf(h, k).sockets
  {
  }

  /** A due reconnect opens exactly one new socket and consumes its timer. */
  lemma ReconnectOpensOneSocket(h: Hub, k: FeedKind)
    requires FeedOf(h, k).timers == [ReconnectDelayMs]
    ensures FeedOf(Step(h, ReconnectDue(k)), k) == Feed(FeedOf(h, k).sockets + 1, NotClosed, [])
  {
  }

  /** A close event on one feed leaves the other feed alone. */
  lemma FeedsAreIndependent(h: Hub, k: FeedKind, code: int)
    ensures var other := if k == DepthFeed then TradeFeed else DepthFeed;
      FeedOf(Step(h, Closed(k, code)), other) == FeedOf(h, other)
  {
  }

  /** Teardown leaves no reconnect pending and both sockets closed with the
      normal-closure code. */
  lemma TeardownQuiesces(h: Hub)
    requires ValidFeed(h.depth) && ValidFeed(h.trade)
    ensures var t := Step(h, Teardown);
      && t.depth.timers == [] && t.trade.timers == []
      && t.depth.close == ClosedWith(NormalClosure) && t.trade.close == ClosedWith(NormalClosure)
  {
  }

  // ---------------------------------------------------------------------
  // Connectivity flag

  /** Open and close of the depth socket set the flag; an error does not
      touch it, and no trade-socket event does. */
  lemma ConnectivityEvents(h: Hub, code: int)
    ensures Step(h, Opened(DepthFeed)).isConnected
    ensures !Step(h, Closed(DepthFeed, code)).isConnected
    ensures Step(h, Errored(DepthFeed)) == h && Step(h, Errored(TradeFeed)) == h
    ensures Step(h, Opened(TradeFeed)) == h
    ensures Step(h, Closed(TradeFeed, code)).isConnected == h.isConnected
  {
  }

  /** The flag after a run of events, computed from the events alone: the
      most recent depth open or close decides it. */
  function DepthFlag(initial: bool, evs: seq<Event>): bool {
    if evs == [] then initial
    else
      match evs[|evs| - 1]
      case Opened(DepthFeed) => true
      case Closed(DepthFeed, _) => false
      case _ => DepthFlag(initial, evs[..|evs| - 1])
  }

  /** `isConnected` is true exactly when the last depth open/close event was
      an open. */
  lemma {:induction false} ConnectedIffLastDepthEventIsOpen(h: Hub, evs: seq<Event>)
    ensures Run(h, evs).isConnected == DepthFlag(h.isConnected, evs)
  {
    if evs != [] {
      ConnectedIffLastDepthEventIsOpen(h, evs[..|evs| - 1]);
    }
  }

  // ---------------------------------------------------------------------
  // Dispatch

  /** A frame that does not parse changes nothing. */
  lemma GarbledFrameIsDropped(h: Hub, now: real)
    ensures Step(h, DepthFrame(Garbled)) == h
    ensures Step(h, TradeFrame(Garbled, now)) == h
  {
  }

  /** A depth frame replaces the book when it passes the gate and the
      reducer accepts it, and otherwise leaves the whole state unchanged. */
  lemma DepthFrameEffect(h: Hub, data: Value)
    ensures IsDepthMessage(data) && ProcessDepthUpdate(data).Some? ==>
              Step(h, DepthFrame(Parsed(data))) == h.(book := ProcessDepthUpdate(data).value)
    ensures !(IsDepthMessage(data) && ProcessDepthUpdate(data).Some?) ==>
              Step(h, DepthFrame(Parsed(data))) == h
  {
  }

  /** The gate matters: a message with `bids` and `a` but neither pair nor
      the event type is dropped, although the reducer alone would accept it. */
  lemma MixedKeysAreDropped()
    ensures var data := Obj(map["bids" := Arr([Arr([Str("100"), Str("1")])]),
                                "a" := Arr([Arr([Str("101"), Str("1")])])]);
      && !IsDepthMessage(data)
      && ProcessDepthUpdate(data).Some?
      && Step(Mounted, DepthFrame(Parsed(data))) == Mounted
  {
    var data := Obj(map["bids" := Arr([Arr([Str("100"), Str("1")])]),
                        "a" := Arr([Arr([Str("101"), Str("1")])])]);
    assert Get(data, "asks") == Undefined && Get(data, "b") == Undefined;
    assert Get(data, "e") == Undefined;
    assert !IsDepthMessage(data);
    assert BidsField(data) == Arr([Arr([Str("100"), Str("1")])]);
    assert AsksField(data) == Arr([Arr([Str("101"), Str("1")])]);
    OneLevelSide("100", "1");
    OneLevelSide("101", "1");
    DepthFrameEffect(Mounted, data);
  }

  /** The trade gate's event-type test adds nothing: a trade frame changes
      the log exactly as `processAggTrade` alone would. */
  lemma TradeFrameEffect(h: Hub, data: Value, now: real)
    ensures HasTradeFields(data) ==>
              Step(h, TradeFrame(Parsed(data), now))
              == h.(trades := Append(h.trades, NormalizeTrade(data, now).value))
    ensures !HasTradeFields(data) ==> Step(h, TradeFrame(Parsed(data), now)) == h
  {
  }

  // ---------------------------------------------------------------------
  // Teardown and late close events

  /** As written, the close handlers stay attached after teardown. A socket
      that was still connecting when the cleanup closed it reports code 1006,
      not 1000, so its handler schedules a reconnect, and the reconnect opens
      a socket that nothing will ever close. */
  lemma ReconnectsAfterTeardown()
    ensures Run(Mounted, [Teardown, Closed(DepthFeed, 1006)]).depth.timers == [ReconnectDelayMs]
    ensures Run(Mounted, [Teardown, Closed(DepthFeed, 1006), ReconnectDue(DepthFeed)]).depth
            == Feed(2, NotClosed, [])
  {
    var evs := [Teardown, Closed(DepthFeed, 1006), ReconnectDue(DepthFeed)];
    assert evs[..2][..1] == [Teardown];
    assert evs[..2] == [Teardown, Closed(DepthFeed, 1006)];
  }

  /** The provider with its callbacks detached at teardown: once disposed,
      no callback has any effect. */
  datatype Session = Session(hub: Hub, disposed: bool)

  function SafeStep(s: Session, e: Event): Session {
    if s.disposed then s else Session(Step(s.hub, e), e.Teardown?)
  }

  function SafeRun(s: Session, evs: seq<Event>): Session {
    if evs == [] then s else SafeStep(SafeRun(s, evs[..|evs| - 1]), evs[|evs| - 1])
  }

  /** Until teardown the detached-handler provider behaves exactly as the
      original. */
  lemma {:induction false} SafeRunAgreesBeforeTeardown(h: Hub, evs: seq<Event>)
    requires forall i :: 0 <= i < |evs| ==> !evs[i].Teardown?
    ensures SafeRun(Session(h, false), evs) == Session(Run(h, evs), false)
  {
    if evs != [] {
      SafeRunAgreesBeforeTeardown(h, evs[..|evs| - 1]);
    }
  }

  lemma {:induction false} DisposedIsFinal(s: Session, evs: seq<Event>)
    requires s.disposed
    ensures SafeRun(s, evs) == s
  {
    if evs != [] {
      DisposedIsFinal(s, evs[..|evs| - 1]);
    }
  }

  /** With the handlers detached, whatever arrives after teardown, no
      reconnect is ever pending again, no socket is opened, and both sockets
      stay closed with the normal-closure code. */
  lemma NoReconnectAfterTeardown(h: Hub, evs: seq<Event>)
    requires ValidFeed(h.depth) && ValidFeed(h.trade)
    ensures var s := SafeRun(SafeStep(Session(h, false), Teardown), evs).hub;
      && s.depth.timers == [] && s.trade.timers == []
      && s.depth.sockets == h.depth.sockets && s.trade.sockets == h.trade.sockets
      && s.depth.close == ClosedWith(NormalClosure) && s.trade.close == ClosedWith(NormalClosure)
  {
    DisposedIsFinal(SafeStep(Session(h, false), Teardown), evs);
  }
}
