/**
 * The live tick analyser of the market-analysis page: the module-level
 * state of the page script as one object, with one method per transport
 * event and per control. The transport itself (socket construction,
 * `send`, `close`, `JSON.parse`), timers and rendering are outside the
 * model: a parsed message arrives as a datatype, an outgoing request and a
 * reconnect delay are returned to the caller, and what would be drawn is
 * returned as an `Analysis` value.
 */
module TickStream {
  import opened Options
  import opened Quotes
  import opened TickStats

  /** The `connectionStatus` strings the handlers assign. */
  datatype Status = Disconnected | Connecting | Connected | ReceivingData | LiveData | Error | Failed

  /** The `ticks_history` request sent once a socket opens. */
  datatype HistoryRequest = HistoryRequest(ticksHistory: string, count: nat, end: string, style: string, subscribe: nat)

  /** `data.history`: the prices as the feed wrote them, and their epochs (possibly fewer). */
  datatype HistoryBatch = HistoryBatch(prices: seq<Quote>, times: seq<int>)

  /** `data.tick`. */
  datatype LiveTick = LiveTick(quote: Quote, epoch: int)

  /** A parsed message: which of `history`, `tick` and `error` are present. */
  datatype Message = Message(history: Option<HistoryBatch>, tick: Option<LiveTick>, error: bool)

  /** The keep-alive request `{ ping: 1 }`. */
  datatype Ping = Ping(ping: nat)

  /** The outcome of the tick-count input: accepted, or rejected with the value the input is reset to. */
  datatype TickCountChange = Accepted | Rejected(restored: nat)

  /** Everything updateUI draws for a non-empty window. */
  datatype Analysis = Analysis(
    price: Quote,
    digits: DigitDisplay,
    evenOdd: Option<EvenOdd>,
    overUnder: Option<OverUnder>,
    matchesDiffers: Option<MatchesDiffers>,
    shown: nat,
    capacity: nat)

  const MaxReconnectAttempts: nat := 5
  const MaxTickCount: nat := 5000
  const MaxReconnectDelay: nat := 30000

  // ---------------------------------------------------------------------
  // Reconnect policy
  // ---------------------------------------------------------------------

  function Pow2(n: nat): (p: nat)
    ensures p >= 1
  {
    if n == 0 then 1 else 2 * Pow2(n - 1)
  }

  /** `Math.min(1000 * Math.pow(2, attempts), 30000)`. */
  function ReconnectDelay(attempts: nat): (delay: nat)
    ensures 1000 <= delay <= MaxReconnectDelay
  {
    Min(1000 * Pow2(attempts), MaxReconnectDelay)
  }

  lemma {:induction false} Pow2AtLeast(n: nat)
    requires n >= 5
    ensures Pow2(n) >= 32
  {
    if n > 5 {
      Pow2AtLeast(n - 1);
    }
  }

  /** From the fifth attempt on, the delay sits at the 30 s cap. */
  lemma ReconnectDelayCapped(attempts: nat)
    requires attempts >= 5
    ensures ReconnectDelay(attempts) == MaxReconnectDelay
  {
    Pow2AtLeast(attempts);
  }

  /** Below the cap each attempt waits twice as long as the one before. */
  lemma ReconnectDelayDoubles(attempts: nat)
    requires attempts < 4
    ensures ReconnectDelay(attempts + 1) == 2 * ReconnectDelay(attempts)
  {
    assert Pow2(1) == 2 && Pow2(2) == 4 && Pow2(3) == 8 && Pow2(4) == 16;
  }

  /** The five delays one failing run produces: the counter is bumped before the delay is computed. */
  lemma ReconnectSchedule()
    ensures ReconnectDelay(1) == 2000 && ReconnectDelay(2) == 4000 && ReconnectDelay(3) == 8000
    ensures ReconnectDelay(4) == 16000 && ReconnectDelay(5) == 30000
  {
  }

  // ---------------------------------------------------------------------
  // Window updates
  // ---------------------------------------------------------------------

  /** The window a history batch yields: one tick per price, `times[i]` or undefined as its epoch. */
  function HistoryTicks(batch: HistoryBatch): (w: seq<Tick>)
    ensures |w| == |batch.prices|
    ensures forall i :: 0 <= i < |w| ==>
      w[i].quote == ParseQuote(batch.prices[i]) &&
      w[i].time == (if i < |batch.times| then Some(batch.times[i]) else None)
  {
    seq(|batch.prices|, i requires 0 <= i < |batch.prices| =>
      Tick(if i < |batch.times| then Some(batch.times[i]) else None, ParseQuote(batch.prices[i])))
  }

  /** `push` then, when the window outgrew its capacity, `shift`. */
  function PushTick(w: seq<Tick>, t: Tick, capacity: nat): seq<Tick>
  {
    var pushed := w + [t];
    if |pushed| > capacity then pushed[1..] else pushed
  }

  /**
   * The new tick is the last one, the rest is the old window in order, and
   * the oldest tick is dropped exactly when the push took the window past
   * its capacity.
   */
  lemma PushTickShape(w: seq<Tick>, t: Tick, capacity: nat)
    requires capacity >= 1
    ensures var r := PushTick(w, t, capacity);
      |r| > 0 && r[|r| - 1] == t &&
      (|w| >= capacity ==> r[..|r| - 1] == w[1..]) &&
      (|w| < capacity ==> r[..|r| - 1] == w)
  {
    var r := PushTick(w, t, capacity);
    if |w| >= capacity {
      assert r == w[1..] + [t];
    } else if |w| < capacity {
      assert r == w + [t];
    }
  }

  /** A window within its capacity stays within it; a full one stays full. */
  lemma PushTickBounded(w: seq<Tick>, t: Tick, capacity: nat)
    requires capacity >= 1
    ensures |w| <= capacity ==> |PushTick(w, t, capacity)| <= capacity
    ensures |w| == capacity ==> |PushTick(w, t, capacity)| == capacity
    ensures |w| < capacity ==> |PushTick(w, t, capacity)| == |w| + 1
  {
  }

  /** Pushing a shortest-form quote onto a window of them keeps every quote in shortest form. */
  lemma PushTickShortest(w: seq<Tick>, t: Tick, capacity: nat)
    requires IsShortest(t.quote) && forall i :: 0 <= i < |w| ==> IsShortest(w[i].quote)
    ensures var r := PushTick(w, t, capacity); forall i :: 0 <= i < |r| ==> IsShortest(r[i].quote)
  {
  }

  /** What updateUI draws for window w at the given precision and capacity; nothing on an empty window. */
  function AnalysisOf(w: seq<Tick>, places: nat, capacity: nat): (a: Option<Analysis>)
    ensures a.None? <==> |w| == 0
  {
    if |w| == 0 then None
    else Some(Analysis(w[|w| - 1].quote, DigitDisplayOf(w, places), EvenOddOf(w, places),
                       OverUnderOf(w), MatchesDiffersOf(w, places), |w|, capacity))
  }

  /**
   * updateUI: nothing on an empty window; otherwise the price, the digit
   * display, the three analysis rows and the `shown/capacity` counter.
   */
  method UpdateUI(w: seq<Tick>, places: nat, capacity: nat) returns (a: Option<Analysis>)
    ensures a == AnalysisOf(w, places, capacity)
  {
    if |w| == 0 {
      return None;
    }
    var price := w[|w| - 1].quote;
    var digits := UpdateDigitDisplay(w, places);
    var evenOdd := UpdateEvenOddAnalysis(w, places);
    var overUnder := UpdateOverUnderAnalysis(w);
    var matchesDiffers := UpdateMatchesDiffersAnalysis(w, places);
    a := Some(Analysis(price, digits, evenOdd, overUnder, matchesDiffers, |w|, capacity));
  }

  /**
   * What a drawn analysis says about its window: the price is the newest
   * quote, every count partitions what it counts, and the pairwise rows
   * appear exactly from two ticks on.
   */
  lemma AnalysisTotals(w: seq<Tick>, places: nat, capacity: nat)
    requires |w| > 0
    ensures var a := AnalysisOf(w, places, capacity).value;
      a.price == w[|w| - 1].quote && a.shown == |w| && a.capacity == capacity &&
      |a.digits.counts| == 10 && Total(a.digits.counts) == |w| &&
      a.digits.current == LastDigit(w[|w| - 1].quote, places) &&
      a.evenOdd.Some? && a.evenOdd.value.even + a.evenOdd.value.odd == |w| &&
      (a.overUnder.Some? <==> |w| >= 2) &&
      (a.overUnder.Some? ==> a.overUnder.value.over + a.overUnder.value.under + a.overUnder.value.equal == |w| - 1) &&
      (a.matchesDiffers.Some? <==> |w| >= 2) &&
      (a.matchesDiffers.Some? ==> a.matchesDiffers.value.matches + a.matchesDiffers.value.differs == |w| - 1)
  {
    HistogramTotal(w, places);
    EvenOddMeaning(w, places);
    if |w| >= 2 {
      TrendPartition(w);
      MatchesPartition(w, places);
    }
  }

  // ---------------------------------------------------------------------
  // The analyser
  // ---------------------------------------------------------------------

  class TickAnalyser {
    var tickHistory: seq<Tick>
    var tickCount: nat
    var currentSymbol: string
    var decimalPlaces: nat
    var connectionStatus: Status
    var reconnectAttempts: nat
    /** How many sockets have been opened; each new one closes the one before. */
    var sockets: nat
    /** `derivWs.readyState === WebSocket.OPEN`: the current socket has opened and not closed. */
    var socketOpen: bool

    /**
     * The window capacity is one the tick-count control accepts, the
     * attempt counter never passes its maximum, the precision is at least
     * two places, and every stored quote is in the shortest form
     * `toString` shows.
     */
    ghost predicate Bounded()
      reads this
    {
      1 <= tickCount <= MaxTickCount &&
      reconnectAttempts <= MaxReconnectAttempts &&
      decimalPlaces >= 2 &&
      (socketOpen ==> sockets > 0) &&
      forall i :: 0 <= i < |tickHistory| ==> IsShortest(tickHistory[i].quote)
    }

    /** Between events, besides: `failed` is only reached with the attempts used up. */
    ghost predicate Valid()
      reads this
    {
      Bounded() && (connectionStatus == Failed ==> reconnectAttempts == MaxReconnectAttempts)
    }

    /** The module-level initialisers. */
    constructor ()
      ensures Valid()
      ensures tickHistory == [] && tickCount == 1000 && currentSymbol == "R_100"
      ensures decimalPlaces == 3 && connectionStatus == Disconnected
      ensures reconnectAttempts == 0 && sockets == 0 && !socketOpen
    {
      tickHistory := [];
      tickCount := 1000;
      currentSymbol := "R_100";
      decimalPlaces := 3;
      connectionStatus := Disconnected;
      reconnectAttempts := 0;
      sockets := 0;
      socketOpen := false;
    }

    /** requestTickHistory: the request for the current symbol and capacity. */
    function HistoryRequestNow(): (r: HistoryRequest)
      reads this
      ensures r.ticksHistory == currentSymbol && r.count == tickCount
      ensures r.end == "latest" && r.style == "ticks" && r.subscribe == 1
    {
      HistoryRequest(currentSymbol, tickCount, "latest", "ticks", 1)
    }

    /** startWebSocket: close the previous socket, if any, and open a new one. */
    method StartWebSocket()
      requires Bounded()
      modifies this
      ensures Valid()
      ensures connectionStatus == Connecting && sockets == old(sockets) + 1
      ensures tickHistory == old(tickHistory) && tickCount == old(tickCount)
      ensures currentSymbol == old(currentSymbol) && decimalPlaces == old(decimalPlaces)
      ensures reconnectAttempts == old(reconnectAttempts) && !socketOpen
    {
      connectionStatus := Connecting;
      sockets := sockets + 1;
      socketOpen := false;
    }

    /** onopen: connected, attempts reset, and one history request. */
    method OnOpen() returns (request: HistoryRequest)
      requires Valid() && sockets > 0
      modifies this
      ensures Valid()
      ensures connectionStatus == Connected && reconnectAttempts == 0
      ensures request == HistoryRequestNow()
      ensures tickHistory == old(tickHistory) && tickCount == old(tickCount)
      ensures currentSymbol == old(currentSymbol) && decimalPlaces == old(decimalPlaces)
      ensures sockets == old(sockets) && socketOpen
    {
      connectionStatus := Connected;
      reconnectAttempts := 0;
      socketOpen := true;
      request := HistoryRequestNow();
    }

    /** The first two steps of a history batch: the window replaced, the precision re-detected. */
    method LoadHistory(batch: HistoryBatch)
      requires Valid()
      modifies this
      ensures Valid()
      ensures tickHistory == HistoryTicks(batch)
      ensures decimalPlaces == DetectDecimalPlaces(tickHistory, old(decimalPlaces))
      ensures connectionStatus == old(connectionStatus) && tickCount == old(tickCount)
      ensures currentSymbol == old(currentSymbol)
      ensures reconnectAttempts == old(reconnectAttempts) && sockets == old(sockets) && socketOpen == old(socketOpen)
    {
      tickHistory := HistoryTicks(batch);
      decimalPlaces := DetectDecimalPlaces(tickHistory, decimalPlaces);
    }

    /**
     * onmessage with `data.history`: the window is replaced by the batch,
     * the precision re-detected, the analysis drawn and the status set.
     */
    method OnHistory(batch: HistoryBatch) returns (a: Option<Analysis>)
      requires Valid()
      modifies this
      ensures Valid()
      ensures tickHistory == HistoryTicks(batch) && |tickHistory| == |batch.prices|
      ensures decimalPlaces == DetectDecimalPlaces(tickHistory, old(decimalPlaces))
      ensures connectionStatus == ReceivingData
      ensures a == AnalysisOf(tickHistory, decimalPlaces, tickCount)
      ensures tickCount == old(tickCount) && currentSymbol == old(currentSymbol)
      ensures reconnectAttempts == old(reconnectAttempts) && sockets == old(sockets) && socketOpen == old(socketOpen)
    {
      LoadHistory(batch);
      a := UpdateUI(tickHistory, decimalPlaces, tickCount);
      connectionStatus := ReceivingData;
    }

    /** `tickHistory.push(t)`, then `tickHistory.shift()` when the window outgrew its capacity. */
    method AppendTick(t: Tick)
      requires Valid() && IsShortest(t.quote)
      modifies this
      ensures Valid()
      ensures tickHistory == PushTick(old(tickHistory), t, tickCount) && tickHistory != []
      ensures old(|tickHistory|) <= tickCount ==> |tickHistory| <= tickCount
      ensures connectionStatus == old(connectionStatus) && tickCount == old(tickCount)
      ensures currentSymbol == old(currentSymbol) && decimalPlaces == old(decimalPlaces)
      ensures reconnectAttempts == old(reconnectAttempts) && sockets == old(sockets) && socketOpen == old(socketOpen)
    {
      PushTickBounded(tickHistory, t, tickCount);
      PushTickShortest(tickHistory, t, tickCount);
      tickHistory := tickHistory + [t];
      if |tickHistory| > tickCount {
        tickHistory := tickHistory[1..];
      }
    }

    /**
     * onmessage with `data.tick`: the tick is pushed, the oldest one shifted
     * out if the window outgrew `tickCount`; the precision is not re-detected.
     */
    method OnTick(tick: LiveTick) returns (a: Option<Analysis>)
      requires Valid()
      modifies this
      ensures Valid()
      ensures tickHistory == PushTick(old(tickHistory), Tick(Some(tick.epoch), ParseQuote(tick.quote)), tickCount)
      ensures old(|tickHistory|) <= tickCount ==> |tickHistory| <= tickCount
      ensures decimalPlaces == old(decimalPlaces) && connectionStatus == LiveData
      ensures a == AnalysisOf(tickHistory, decimalPlaces, tickCount) && a.Some?
      ensures tickCount == old(tickCount) && currentSymbol == old(currentSymbol)
      ensures reconnectAttempts == old(reconnectAttempts) && sockets == old(sockets) && socketOpen == old(socketOpen)
    {
      var t := Tick(Some(tick.epoch), ParseQuote(tick.quote));
      AppendTick(t);
      a := UpdateUI(tickHistory, decimalPlaces, tickCount);
      connectionStatus := LiveData;
    }

    /** onmessage with `data.error`, and onerror: only the status changes. */
    method OnError()
      requires Valid()
      modifies this
      ensures Valid()
      ensures connectionStatus == Error
      ensures tickHistory == old(tickHistory) && tickCount == old(tickCount)
      ensures currentSymbol == old(currentSymbol) && decimalPlaces == old(decimalPlaces)
      ensures reconnectAttempts == old(reconnectAttempts) && sockets == old(sockets) && socketOpen == old(socketOpen)
    {
      connectionStatus := Error;
    }

    /**
     * onmessage: None is a message JSON.parse rejected, which the catch
     * swallows. Otherwise history wins over tick, and tick over error; a
     * message with none of them changes nothing.
     */
    method OnMessage(m: Option<Message>) returns (a: Option<Analysis>)
      requires Valid()
      modifies this
      ensures Valid()
      ensures m.None? || (m.value.history.None? && m.value.tick.None? && !m.value.error) ==>
        a.None? && tickHistory == old(tickHistory) && connectionStatus == old(connectionStatus) &&
        decimalPlaces == old(decimalPlaces)
      ensures m.Some? && m.value.history.Some? ==>
        tickHistory == HistoryTicks(m.value.history.value) && connectionStatus == ReceivingData &&
        decimalPlaces == DetectDecimalPlaces(tickHistory, old(decimalPlaces))
      ensures m.Some? && m.value.history.None? && m.value.tick.Some? ==>
        tickHistory == PushTick(old(tickHistory), Tick(Some(m.value.tick.value.epoch), ParseQuote(m.value.tick.value.quote)), tickCount) &&
        connectionStatus == LiveData && decimalPlaces == old(decimalPlaces)
      ensures m.Some? && m.value.history.None? && m.value.tick.None? && m.value.error ==>
        a.None? && connectionStatus == Error && tickHistory == old(tickHistory) &&
        decimalPlaces == old(decimalPlaces)
      ensures m.Some? && (m.value.history.Some? || m.value.tick.Some?) ==>
        a == AnalysisOf(tickHistory, decimalPlaces, tickCount)
      ensures m.Some? && m.value.history.None? && m.value.tick.Some? ==> a.Some?
      ensures tickCount == old(tickCount) && currentSymbol == old(currentSymbol)
      ensures reconnectAttempts == old(reconnectAttempts) && sockets == old(sockets) && socketOpen == old(socketOpen)
    {
      a := None;
      if m.None? {
        return;
      }
      var data := m.value;
      if data.history.Some? {
        a := OnHistory(data.history.value);
      } else if data.tick.Some? {
        a := OnTick(data.tick.value);
      } else if data.error {
        OnError();
      }
    }

    /**
     * onclose: disconnected; while attempts remain, the counter is bumped
     * and the delay before the next startWebSocket returned; otherwise failed.
     */
    method OnClose() returns (delay: Option<nat>)
      requires Valid()
      modifies this
      ensures Valid()
      ensures old(reconnectAttempts) < MaxReconnectAttempts ==>
        reconnectAttempts == old(reconnectAttempts) + 1 && connectionStatus == Disconnected &&
        delay == Some(ReconnectDelay(reconnectAttempts))
      ensures old(reconnectAttempts) >= MaxReconnectAttempts ==>
        reconnectAttempts == old(reconnectAttempts) && connectionStatus == Failed && delay.None?
      ensures tickHistory == old(tickHistory) && tickCount == old(tickCount)
      ensures currentSymbol == old(currentSymbol) && decimalPlaces == old(decimalPlaces)
      ensures sockets == old(sockets) && !socketOpen
    {
      connectionStatus := Disconnected;
      socketOpen := false;
      if reconnectAttempts < MaxReconnectAttempts {
        reconnectAttempts := reconnectAttempts + 1;
        delay := Some(ReconnectDelay(reconnectAttempts));
      } else {
        connectionStatus := Failed;
        delay := None;
      }
    }

    /** The reconnect button: attempts reset, then startWebSocket. */
    method ManualReconnect()
      requires Valid()
      modifies this
      ensures Valid()
      ensures reconnectAttempts == 0 && connectionStatus == Connecting && sockets == old(sockets) + 1 && !socketOpen
      ensures tickHistory == old(tickHistory) && tickCount == old(tickCount)
      ensures currentSymbol == old(currentSymbol) && decimalPlaces == old(decimalPlaces)
    {
      reconnectAttempts := 0;
      StartWebSocket();
    }

    /** The symbol selector: new symbol, empty window, then startWebSocket. */
    method SetSymbol(symbol: string)
      requires Valid()
      modifies this
      ensures Valid()
      ensures currentSymbol == symbol && tickHistory == []
      ensures connectionStatus == Connecting && sockets == old(sockets) + 1 && !socketOpen
      ensures tickCount == old(tickCount) && decimalPlaces == old(decimalPlaces)
      ensures reconnectAttempts == old(reconnectAttempts)
    {
      currentSymbol := symbol;
      tickHistory := [];
      StartWebSocket();
    }

    /**
     * The tick-count input, given `parseInt(value, 10)` (None for NaN):
     * a count in 1..5000 becomes the capacity, empties the window and
     * reconnects; anything else changes nothing and the input is reset
     * to the current capacity.
     */
    method SetTickCount(input: Option<int>) returns (r: TickCountChange)
      requires Valid()
      modifies this
      ensures Valid()
      ensures r.Accepted? <==> input.Some? && 0 < input.value <= MaxTickCount
      ensures r.Accepted? ==>
        tickCount == input.value && tickHistory == [] &&
        connectionStatus == Connecting && sockets == old(sockets) + 1 && !socketOpen
      ensures r.Rejected? ==>
        r.restored == tickCount && tickCount == old(tickCount) && tickHistory == old(tickHistory) &&
        connectionStatus == old(connectionStatus) && sockets == old(sockets) && socketOpen == old(socketOpen)
      ensures currentSymbol == old(currentSymbol) && decimalPlaces == old(decimalPlaces)
      ensures reconnectAttempts == old(reconnectAttempts)
    {
      if input.Some? && 0 < input.value <= MaxTickCount {
        tickCount := input.value;
        tickHistory := [];
        StartWebSocket();
        r := Accepted;
      } else {
        r := Rejected(tickCount);
      }
    }

    /** One run of the 30 s health check: `{ping: 1}` is sent exactly when the current socket is open. */
    method KeepAlive() returns (sent: Option<Ping>)
      ensures sent.Some? <==> socketOpen
      ensures sent.Some? ==> sent.value == Ping(1)
    {
      if socketOpen {
        sent := Some(Ping(1));
      } else {
        sent := None;
      }
    }
  }

  // ---------------------------------------------------------------------
  // Whole runs
  // ---------------------------------------------------------------------

  /**
   * A socket that keeps closing: five reconnects spaced 2, 4, 8, 16 and
   * 30 seconds apart, then `failed` and no further delay.
   */
  method BackoffRun() returns (delays: seq<Option<nat>>, status: Status)
    ensures delays == [Some(2000), Some(4000), Some(8000), Some(16000), Some(30000), None]
    ensures status == Failed
  {
    var analyser := new TickAnalyser();
    analyser.StartWebSocket();
    ReconnectSchedule();
    // Each returned delay is a timer that fires startWebSocket; that socket closes too.
    var d1 := analyser.OnClose();
    analyser.StartWebSocket();
    var d2 := analyser.OnClose();
    analyser.StartWebSocket();
    var d3 := analyser.OnClose();
    analyser.StartWebSocket();
    var d4 := analyser.OnClose();
    analyser.StartWebSocket();
    var d5 := analyser.OnClose();
    analyser.StartWebSocket();
    var d6 := analyser.OnClose();
    delays := [d1, d2, d3, d4, d5, d6];
    status := analyser.connectionStatus;
  }

  /**
   * The health check follows the socket's life: no ping while it connects,
   * one once it has opened, none after it closed or was replaced by a new
   * socket, and one again once the new socket opens.
   */
  method KeepAliveRun() returns (pings: seq<Option<Ping>>)
    ensures pings == [None, Some(Ping(1)), None, Some(Ping(1)), None]
  {
    var analyser := new TickAnalyser();
    analyser.StartWebSocket();
    var p1 := analyser.KeepAlive();
    var request1 := analyser.OnOpen();
    var p2 := analyser.KeepAlive();
    var delay := analyser.OnClose();
    analyser.StartWebSocket();
    var p3 := analyser.KeepAlive();
    var request2 := analyser.OnOpen();
    var p4 := analyser.KeepAlive();
    analyser.SetSymbol("R_50");
    var p5 := analyser.KeepAlive();
    pings := [p1, p2, p3, p4, p5];
  }

  /**
   * Replacing an open socket. startWebSocket closes the old socket, whose
   * onclose is still attached: its close counts as a failed attempt and
   * schedules a reconnect, even though the new socket opens. That reconnect
   * closes the new socket in turn, whose close schedules another. Here each
   * close arrives before the next socket opens. Every round ends connected
   * with the counter back at 0 and another reconnect 2 s away, so the cycle
   * does not stop by itself: one symbol change opens a new socket every 2 s.
   */
  method ReplacedSocketRun() returns (delays: seq<Option<nat>>, status: Status, attempts: nat, socketsOpened: nat)
    ensures delays == [Some(2000), Some(2000)]
    ensures status == Connected && attempts == 0 && socketsOpened == 3
  {
    var analyser := new TickAnalyser();
    analyser.StartWebSocket();
    var request1 := analyser.OnOpen();
    // The symbol change opens the second socket and closes the first.
    analyser.SetSymbol("R_50");
    var d1 := analyser.OnClose();
    var request2 := analyser.OnOpen();
    // The timer fires startWebSocket: the third socket, and the second closes.
    analyser.StartWebSocket();
    var d2 := analyser.OnClose();
    var request3 := analyser.OnOpen();
    delays := [d1, d2];
    status := analyser.connectionStatus;
    attempts := analyser.reconnectAttempts;
    socketsOpened := analyser.sockets;
  }
}
