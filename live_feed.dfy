/** The live-feed callbacks: on_open sends the auth and subscribe actions,
    on_message walks a decoded batch and publishes its trade events. */
module LiveFeed {
  import opened Json
  import opened TickStore

  /** An outbound action message {"action": action, "params": params}. */
  datatype Outbound = Outbound(action: string, params: string)

  /** on_open: one auth message with the API key, then one trade-channel
      subscription "T.<SYMBOL>" per watchlist symbol, in watchlist order. */
  method OnOpen(apiKey: string, watchlist: seq<string>) returns (sent: seq<Outbound>)
    ensures |sent| == |watchlist| + 1
    ensures sent[0] == Outbound("auth", apiKey)
    ensures forall i :: 0 <= i < |watchlist| ==> sent[i + 1] == Outbound("subscribe", "T." + watchlist[i])
  {
    sent := [Outbound("auth", apiKey)];
    for i := 0 to |watchlist|
      invariant |sent| == i + 1
      invariant sent[0] == Outbound("auth", apiKey)
      invariant forall j :: 0 <= j < i ==> sent[j + 1] == Outbound("subscribe", "T." + watchlist[j])
    {
      var sub := "T." + watchlist[i];
      sent := sent + [Outbound("subscribe", sub)];
    }
  }

  /** The three arguments on_message hands to publish_tick for a trade event. */
  datatype TradeFields = TradeFields(sym: Json, price: Json, size: Json)

  /** Lines 81-83: `sym or ticker`, `p or price`, `s or size or 1`. */
  function ExtractFields(fields: map<string, Json>): TradeFields {
    TradeFields(
      Or(Get(fields, "sym"), Get(fields, "ticker")),
      Or(Get(fields, "p"), Get(fields, "price")),
      Or(Or(Get(fields, "s"), Get(fields, "size")), JInt(1)))
  }

  /** The fallbacks follow truthiness: a falsy or missing first field gives
      way to the second; the size falls back to 1, so it is always truthy and
      a missing or zero size becomes 1. */
  lemma {:induction false} FieldFallbacks(fields: map<string, Json>)
    ensures var f := ExtractFields(fields);
      && (Truthy(Get(fields, "sym")) ==> f.sym == fields["sym"])
      && (!Truthy(Get(fields, "sym")) ==> f.sym == Get(fields, "ticker"))
      && (Truthy(Get(fields, "p")) ==> f.price == fields["p"])
      && (!Truthy(Get(fields, "p")) ==> f.price == Get(fields, "price"))
      && (Truthy(Get(fields, "s")) ==> f.size == fields["s"])
      && (!Truthy(Get(fields, "s")) && Truthy(Get(fields, "size")) ==> f.size == fields["size"])
      && (!Truthy(Get(fields, "s")) && !Truthy(Get(fields, "size")) ==> f.size == JInt(1) && ToInt(f.size) == Some(1))
      && Truthy(f.size)
  {
  }

  /** A list element the handler publishes: a dict whose "ev" is "T". */
  predicate IsTrade(msg: Json) {
    msg.JDict? && Get(msg.fields, "ev") == JStr("T")
  }

  /** An element on which the handler raises: msg.get fails on anything but a
      dict, and publish_tick raises when float(price) or int(size) does. */
  predicate Raises(msg: Json) {
    !msg.JDict? ||
    (IsTrade(msg) &&
      var f := ExtractFields(msg.fields);
      ToFloat(f.price).None? || ToInt(f.size).None?)
  }

  /** p is the payload publish_tick builds from trade event msg at time ts. */
  predicate Carries(p: Payload, msg: Json, ts: Timestamp)
    requires msg.JDict?
  {
    var f := ExtractFields(msg.fields);
    p.symbol == f.sym && ToFloat(f.price) == Some(p.price) && ToInt(f.size) == Some(p.size) &&
    p.ts == ts && p.evType == "T"
  }

  /** What handling one list element does. */
  datatype Step = Skipped | Published(payload: Payload) | Raised

  function StepOf(msg: Json, ts: Timestamp): Step {
    match msg
    case JDict(fields) =>
      if Get(fields, "ev") != JStr("T") then Skipped
      else
        var f := ExtractFields(fields);
        (match BuildPayload(f.sym, f.price, f.size, "T", ts)
         case None => Raised
         case Some(p) => Published(p))
    case _ => Raised
  }

  /** An element raises exactly when Raises says so, is published exactly
      when it is a trade that does not raise, and then carries its fields. */
  lemma {:induction false} StepOfCases(msg: Json, ts: Timestamp)
    ensures StepOf(msg, ts).Raised? <==> Raises(msg)
    ensures StepOf(msg, ts).Published? <==> IsTrade(msg) && !Raises(msg)
    ensures StepOf(msg, ts).Published? ==> Carries(StepOf(msg, ts).payload, msg, ts)
  {
  }

  /** The payloads a batch publishes, in order, up to the first element that
      raises; clock(k) is the timestamp of the k-th publication. */
  function Run(items: seq<Json>, clock: nat -> Timestamp, k: nat): seq<Payload>
    decreases |items|
  {
    if items == [] then []
    else match StepOf(items[0], clock(k))
      case Raised => []
      case Skipped => Run(items[1..], clock, k)
      case Published(p) => [p] + Run(items[1..], clock, k + 1)
  }

  /** What on_message publishes for a decoded message: a list is walked, a
      dict (or any other value) publishes nothing. */
  function Dispatch(data: Json, clock: nat -> Timestamp): seq<Payload> {
    if data.JList? then Run(data.items, clock, 0) else []
  }

  /** The trade elements of a batch, in order. */
  function Trades(items: seq<Json>): (r: seq<Json>)
    ensures forall n :: 0 <= n < |r| ==> IsTrade(r[n])
    decreases |items|
  {
    if items == [] then []
    else (if IsTrade(items[0]) then [items[0]] else []) + Trades(items[1..])
  }

  /** A batch in which no element raises publishes exactly its trade
      elements, in list order, the n-th with the n-th timestamp. */
  lemma {:induction false} CleanBatchPublishesTrades(items: seq<Json>, clock: nat -> Timestamp, k: nat)
    requires forall j :: 0 <= j < |items| ==> !Raises(items[j])
    ensures |Run(items, clock, k)| == |Trades(items)|
    ensures forall n :: 0 <= n < |Trades(items)| ==> Carries(Run(items, clock, k)[n], Trades(items)[n], clock(k + n))
  {
    CleanBatchLength(items, clock, k);
    forall n | 0 <= n < |Trades(items)|
      ensures Carries(Run(items, clock, k)[n], Trades(items)[n], clock(k + n))
    {
      CleanBatchNth(items, clock, k, n);
      StepOfCases(Trades(items)[n], clock(k + n));
    }
  }

  /** A batch in which no element raises publishes one payload per trade element. */
  lemma {:induction false} CleanBatchLength(items: seq<Json>, clock: nat -> Timestamp, k: nat)
    requires forall j :: 0 <= j < |items| ==> !Raises(items[j])
    ensures |Run(items, clock, k)| == |Trades(items)|
    decreases |items|
  {
    if items != [] {
      var msg := items[0];
      StepOfCases(msg, clock(k));
      assert !Raises(msg);
      CleanBatchLength(items[1..], clock, if IsTrade(msg) then k + 1 else k);
      assert Trades(items) == (if IsTrade(msg) then [msg] else []) + Trades(items[1..]);
    }
  }

  /** In a batch in which no element raises, the n-th payload published is
      what handling the n-th trade element by itself, at the n-th time, publishes. */
  lemma {:induction false} CleanBatchNth(items: seq<Json>, clock: nat -> Timestamp, k: nat, n: nat)
    requires forall j :: 0 <= j < |items| ==> !Raises(items[j])
    requires n < |Trades(items)|
    ensures n < |Run(items, clock, k)|
    ensures StepOf(Trades(items)[n], clock(k + n)) == Published(Run(items, clock, k)[n])
    decreases |items|, 1
  {
    CleanBatchLength(items, clock, k);
    var msg := items[0];
    if IsTrade(msg) {
      CleanBatchNthTrade(items, clock, k, n);
    } else {
      StepOfCases(msg, clock(k));
      assert Run(items, clock, k) == Run(items[1..], clock, k);
      assert Trades(items) == [] + Trades(items[1..]);
      CleanBatchNth(items[1..], clock, k, n);
    }
  }

  /** CleanBatchNth for a batch whose first element is a trade. */
  lemma {:induction false} CleanBatchNthTrade(items: seq<Json>, clock: nat -> Timestamp, k: nat, n: nat)
    requires forall j :: 0 <= j < |items| ==> !Raises(items[j])
    requires n < |Trades(items)| && IsTrade(items[0])
    ensures n < |Run(items, clock, k)|
    ensures StepOf(Trades(items)[n], clock(k + n)) == Published(Run(items, clock, k)[n])
    decreases |items|, 0
  {
    CleanBatchLength(items, clock, k);
    var msg := items[0];
    StepOfCases(msg, clock(k));
    assert !Raises(msg);
    var run := Run(items[1..], clock, k + 1);
    assert Run(items, clock, k) == [StepOf(msg, clock(k)).payload] + run;
    assert Trades(items) == [msg] + Trades(items[1..]);
    if n > 0 {
      CleanBatchNth(items[1..], clock, k + 1, n - 1);
      assert k + n == (k + 1) + (n - 1);
    }
  }

  /** The first element that raises stops the batch: the trade elements
      before it stay published and nothing from it onwards is. */
  lemma {:induction false} RaiseStopsBatch(items: seq<Json>, clock: nat -> Timestamp, k: nat, j: nat)
    requires j < |items| && Raises(items[j])
    requires forall l :: 0 <= l < j ==> !Raises(items[l])
    ensures Run(items, clock, k) == Run(items[..j], clock, k)
    ensures |Run(items, clock, k)| == |Trades(items[..j])|
    decreases j
  {
    StepOfCases(items[0], clock(k));
    if j == 0 {
      assert items[..0] == [];
    } else {
      RaiseStopsBatch(items[1..], clock, if IsTrade(items[0]) then k + 1 else k, j - 1);
      assert items[..j][1..] == items[1..][..j - 1];
      assert items[..j][0] == items[0];
    }
    CleanBatchPublishesTrades(items[..j], clock, k);
  }

  /** A well-formed trade followed by one whose price cannot be converted
      publishes exactly one tick; in the other order the batch publishes none. */
  lemma {:induction false} MalformedNeighbour(good: Json, bad: Json, clock: nat -> Timestamp)
    requires IsTrade(good) && !Raises(good)
    requires Raises(bad)
    ensures |Dispatch(JList([good, bad]), clock)| == 1
    ensures Carries(Dispatch(JList([good, bad]), clock)[0], good, clock(0))
    ensures Dispatch(JList([bad, good]), clock) == []
  {
    StepOfCases(good, clock(0));
    StepOfCases(bad, clock(0));
    StepOfCases(bad, clock(1));
    var p := StepOf(good, clock(0)).payload;
    assert [good, bad][1..] == [bad];
    assert Run([bad], clock, 1) == [];
    assert Run([good, bad], clock, 0) == [p] + Run([bad], clock, 1);
  }

  /** The two messages of the malformed-batch scenario, concretely. */
  lemma {:induction false} TextPriceRaises()
    ensures IsTrade(JDict(map["ev" := JStr("T"), "sym" := JStr("AAPL"), "p" := JInt(187)]))
    ensures !Raises(JDict(map["ev" := JStr("T"), "sym" := JStr("AAPL"), "p" := JInt(187)]))
    ensures Raises(JDict(map["ev" := JStr("T"), "sym" := JStr("AAPL"), "p" := JStr("n/a")]))
  {
    NonNumericText();
  }

  /** One element of a batch, taken from position i onwards. */
  lemma {:induction false} RunStep(items: seq<Json>, i: nat, clock: nat -> Timestamp, k: nat)
    requires i < |items|
    ensures Run(items[i..], clock, k) ==
      match StepOf(items[i], clock(k))
      case Raised => []
      case Skipped => Run(items[i + 1..], clock, k)
      case Published(p) => [p] + Run(items[i + 1..], clock, k + 1)
  {
    assert items[i..][0] == items[i] && items[i..][1..] == items[i + 1..];
  }

  /** What has been published after element i is handled, in terms of what
      had been published before it, for a batch that publishes total. */
  lemma {:induction false} RunAdvance(items: seq<Json>, i: nat, clock: nat -> Timestamp, published: seq<Payload>, step: Step, total: seq<Payload>)
    requires i < |items|
    requires step == StepOf(items[i], clock(|published|))
    requires published + Run(items[i..], clock, |published|) == total
    ensures step.Raised? ==> published == total
    ensures step.Skipped? ==> published + Run(items[i + 1..], clock, |published|) == total
    ensures step.Published? ==>
      var next := published + [step.payload];
      next + Run(items[i + 1..], clock, |next|) == total
  {
    var k := |published|;
    RunStep(items, i, clock, k);
    if step.Raised? {
      assert published + [] == published;
    } else if step.Published? {
      var rest := Run(items[i + 1..], clock, k + 1);
      assert published + ([step.payload] + rest) == (published + [step.payload]) + rest;
    }
  }

  /** Lines 79-84 for one list element: a dict with "ev" == "T" goes to
      publish_tick, any other dict is passed over, and a non-dict raises. */
  method HandleElement(store: Store, msg: Json, ts: Timestamp) returns (step: Step)
    requires store.Valid()
    modifies store
    ensures store.Valid()
    ensures step == StepOf(msg, ts)
    ensures step.Published? ==>
      store.latest == PutLatest(old(store.latest), step.payload) &&
      store.ticks == PushTick(old(store.ticks), step.payload, store.tickListLen)
    ensures !step.Published? ==> store.latest == old(store.latest) && store.ticks == old(store.ticks)
  {
    if !msg.JDict? {
      return Raised;
    }
    if Get(msg.fields, "ev") != JStr("T") {
      return Skipped;
    }
    var f := ExtractFields(msg.fields);
    var r := store.PublishTick(f.sym, f.price, f.size, "T", ts);
    step := if r.None? then Raised else Published(r.value);
  }

  /** on_message: a list is walked element by element, publishing each trade
      event as it goes; the first element that raises ends the walk, and the
      enclosing handler swallows the exception. Returns what was published. */
  method OnMessage(store: Store, data: Json, clock: nat -> Timestamp) returns (published: seq<Payload>)
    requires store.Valid()
    modifies store
    ensures store.Valid()
    ensures published == Dispatch(data, clock)
    ensures store.latest == PutAllLatest(old(store.latest), published)
    ensures store.ticks == PushAllTicks(old(store.ticks), published, store.tickListLen)
  {
    published := [];
    if data.JList? {
      var items := data.items;
      ghost var total := Run(items, clock, 0);
      ghost var latest0, ticks0 := store.latest, store.ticks;
      var i := 0;
      while i < |items|
        invariant 0 <= i <= |items|
        invariant store.Valid()
        invariant published + Run(items[i..], clock, |published|) == total
        invariant store.latest == PutAllLatest(latest0, published)
        invariant store.ticks == PushAllTicks(ticks0, published, store.tickListLen)
      {
        var step := HandleElement(store, items[i], clock(|published|));
        RunAdvance(items, i, clock, published, step, total);
        if step.Raised? {
          break;
        }
        if step.Published? {
          PublishAllSnoc(latest0, ticks0, published, step.payload, store.tickListLen);
          published := published + [step.payload];
        }
        i := i + 1;
      }
      assert items[|items|..] == [];
    }
  }
}
