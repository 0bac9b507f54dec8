/** The simulator of simulate_ticks: a random walk per watchlist symbol,
    one published tick per symbol per round. The random draws are inputs. */
module Simulator {
  import opened Json
  import opened TickStore

  /** m / p rounded to the nearest integer, ties to the even one. */
  function RoundDiv(m: int, p: nat): int
    requires p >= 1
  {
    var q := m / p;
    var rest := m % p;
    if 2 * rest > p || (2 * rest == p && q % 2 == 1) then q + 1 else q
  }

  function Abs(x: int): nat {
    if x < 0 then -x else x
  }

  /** RoundDiv(m, p) * p is within p / 2 of m, and a tie goes to the even quotient. */
  lemma {:induction false} RoundDivIsNearest(m: int, p: nat)
    requires p >= 1
    ensures 2 * Abs(RoundDiv(m, p) * p - m) <= p
    ensures 2 * Abs(RoundDiv(m, p) * p - m) == p ==> RoundDiv(m, p) % 2 == 0
    ensures m >= 0 ==> RoundDiv(m, p) >= 0
  {
    var q := m / p;
    var rest := m % p;
    assert m == q * p + rest && 0 <= rest < p;
    var r := RoundDiv(m, p);
    if r == q + 1 {
      assert r * p == q * p + p;
      assert r * p - m == p - rest;
    } else {
      assert r * p - m == -rest;
    }
  }

  /** Python's round(x, 2), rounding half to even, on an exact decimal. */
  function Round2(d: Decimal): Decimal {
    if d.scale <= 2 then d else Decimal(RoundDiv(d.mantissa, Pow10(d.scale - 2)), 2)
  }

  /** round(x, 2) has at most two decimals, lies within half a unit of the
      second decimal of x, changes nothing already at two decimals, and keeps
      the sign of a non-negative x. */
  lemma {:induction false} Round2IsNearest(d: Decimal)
    ensures Round2(d).scale == Min(d.scale, 2)
    ensures 2 * Abs(Round2(d).mantissa * Pow10(d.scale - Round2(d).scale) - d.mantissa) <= Pow10(d.scale - Round2(d).scale)
    ensures d.scale <= 2 ==> Round2(d) == d
    ensures d.mantissa >= 0 ==> Round2(d).mantissa >= 0
  {
    if d.scale > 2 {
      RoundDivIsNearest(d.mantissa, Pow10(d.scale - 2));
    } else {
      assert Pow10(0) == 1;
    }
  }

  /** 12.34567 rounds to 12.35 and 12.344 to 12.34. The ties 0.125, -0.125
      and 0.375, which are exact in binary, go to the even neighbour: 0.12,
      -0.12 and 0.38. */
  lemma {:induction false} Round2Examples()
    ensures Round2(Decimal(1234567, 5)) == Decimal(1235, 2)
    ensures Round2(Decimal(12344, 3)) == Decimal(1234, 2)
    ensures Round2(Decimal(125, 3)) == Decimal(12, 2)
    ensures Round2(Decimal(-125, 3)) == Decimal(-12, 2)
    ensures Round2(Decimal(375, 3)) == Decimal(38, 2)
  {
    assert Pow10(3) == 1000;
  }

  /** last * (1 + change), exactly. */
  function Walk(last: Decimal, change: Decimal): Decimal {
    Decimal(last.mantissa * (Pow10(change.scale) + change.mantissa), last.scale + change.scale)
  }

  /** A step of the walk keeps a positive price positive whenever the change
      is above -100%, which every draw of uniform(-0.01, 0.01) is. */
  lemma {:induction false} WalkKeepsPositive(last: Decimal, change: Decimal)
    requires last.mantissa > 0
    requires InChangeRange(change)
    ensures Walk(last, change).mantissa > 0
  {
    var p: int := Pow10(change.scale);
    assert 100 * change.mantissa >= -p && p >= 1;
    var factor := p + change.mantissa;
    assert factor > 0;
    PositiveProduct(last.mantissa, factor);
  }

  lemma {:induction false} PositiveProduct(a: int, b: int)
    requires a > 0 && b > 0
    ensures a * b > 0
  {
  }

  /** What the random module supplies for one symbol in one round: the change
      of random.uniform(-0.01, 0.01) and the size of random.randint(1, 100). */
  datatype Draw = Draw(change: Decimal, size: int)

  /** A value random.uniform(-0.01, 0.01) can return. */
  predicate InChangeRange(c: Decimal) {
    var p: int := Pow10(c.scale);
    -p <= 100 * c.mantissa <= p
  }

  /** A draw the random module can make. */
  predicate IsDraw(d: Draw) {
    InChangeRange(d.change) && 1 <= d.size <= 100
  }

  /** The running prices after the first i symbols of a round have moved. */
  function BaseAfter(watchlist: seq<string>, base: map<string, Decimal>, draws: seq<Draw>, i: nat): (r: map<string, Decimal>)
    requires i <= |watchlist| <= |draws|
    requires forall s :: s in watchlist ==> s in base
    ensures r.Keys == base.Keys
  {
    if i == 0 then base
    else
      var b := BaseAfter(watchlist, base, draws, i - 1);
      var s := watchlist[i - 1];
      b[s := Walk(b[s], draws[i - 1].change)]
  }

  /** The tick published for the j-th symbol of a round whose first tick is
      the k-th publication. */
  function TickAt(watchlist: seq<string>, base: map<string, Decimal>, draws: seq<Draw>, clock: nat -> Timestamp, k: nat, j: nat): Payload
    requires j < |watchlist| <= |draws|
    requires forall s :: s in watchlist ==> s in base
  {
    var s := watchlist[j];
    Payload(JStr(s), Round2(BaseAfter(watchlist, base, draws, j + 1)[s]), draws[j].size, clock(k + j), "T")
  }

  /** The ticks of the first i symbols of a round, in publication order. */
  function RoundTicks(watchlist: seq<string>, base: map<string, Decimal>, draws: seq<Draw>, clock: nat -> Timestamp, k: nat, i: nat): seq<Payload>
    requires i <= |watchlist| <= |draws|
    requires forall s :: s in watchlist ==> s in base
  {
    seq(i, j requires 0 <= j < i => TickAt(watchlist, base, draws, clock, k, j))
  }

  /** Step i of a round: symbol i moves by draw i, and its tick is published. */
  lemma {:induction false} RoundStep(watchlist: seq<string>, base: map<string, Decimal>, draws: seq<Draw>, clock: nat -> Timestamp, k: nat, i: nat)
    requires i < |watchlist| <= |draws|
    requires forall s :: s in watchlist ==> s in base
    ensures var b := BaseAfter(watchlist, base, draws, i);
      var s := watchlist[i];
      var moved := Walk(b[s], draws[i].change);
      BaseAfter(watchlist, base, draws, i + 1) == b[s := moved] &&
      RoundTicks(watchlist, base, draws, clock, k, i + 1) ==
        RoundTicks(watchlist, base, draws, clock, k, i) + [Payload(JStr(s), Round2(moved), draws[i].size, clock(k + i), "T")]
  {
    var prev := RoundTicks(watchlist, base, draws, clock, k, i);
    var next := RoundTicks(watchlist, base, draws, clock, k, i + 1);
    assert next == prev + [TickAt(watchlist, base, draws, clock, k, i)];
  }

  /** The j-th tick of a round carries the j-th symbol, the type "T", the
      time of its place in the publication order, a price with at most two
      decimals, and the j-th drawn size. */
  lemma {:induction false} TickAtShape(watchlist: seq<string>, base: map<string, Decimal>, draws: seq<Draw>, clock: nat -> Timestamp, k: nat, j: nat)
    requires j < |watchlist| <= |draws|
    requires forall s :: s in watchlist ==> s in base
    ensures var t := TickAt(watchlist, base, draws, clock, k, j);
      t.symbol == JStr(watchlist[j]) && t.evType == "T" && t.ts == clock(k + j) && t.price.scale <= 2 &&
      t.size == draws[j].size && (IsDraw(draws[j]) ==> 1 <= t.size <= 100)
  {
    Round2IsNearest(BaseAfter(watchlist, base, draws, j + 1)[watchlist[j]]);
  }

  /** A round publishes one tick per watchlist entry, in watchlist order: the
      j-th carries the j-th symbol, its price rounded to two decimals, the
      j-th drawn size (so a size in [1, 100]), the type "T" and the time of
      the (k + j)-th publication. */
  lemma {:induction false} RoundShape(watchlist: seq<string>, base: map<string, Decimal>, draws: seq<Draw>, clock: nat -> Timestamp, k: nat, i: nat)
    requires i <= |watchlist| <= |draws|
    requires forall s :: s in watchlist ==> s in base
    ensures |RoundTicks(watchlist, base, draws, clock, k, i)| == i
    ensures forall j :: 0 <= j < i ==>
      var t := RoundTicks(watchlist, base, draws, clock, k, i)[j];
      t.symbol == JStr(watchlist[j]) && t.evType == "T" && t.ts == clock(k + j) && t.price.scale <= 2 &&
      t.size == draws[j].size && (IsDraw(draws[j]) ==> 1 <= t.size <= 100)
  {
    forall j | 0 <= j < i
      ensures var t := RoundTicks(watchlist, base, draws, clock, k, i)[j];
        t.symbol == JStr(watchlist[j]) && t.evType == "T" && t.ts == clock(k + j) && t.price.scale <= 2 &&
        t.size == draws[j].size && (IsDraw(draws[j]) ==> 1 <= t.size <= 100)
    {
      TickAtShape(watchlist, base, draws, clock, k, j);
    }
  }

  /** A symbol the round has not reached yet keeps its running price. */
  lemma {:induction false} RoundLeavesOthers(watchlist: seq<string>, base: map<string, Decimal>, draws: seq<Draw>, i: nat, s: string)
    requires i <= |watchlist| <= |draws|
    requires forall t :: t in watchlist ==> t in base
    requires s in base && s !in watchlist[..i]
    ensures BaseAfter(watchlist, base, draws, i)[s] == base[s]
  {
    if i > 0 {
      assert watchlist[..i - 1] == watchlist[..i][..i - 1];
      assert watchlist[i - 1] in watchlist[..i];
      RoundLeavesOthers(watchlist, base, draws, i - 1, s);
    }
  }

  /** With no repeated symbol, a symbol's price moves once, by its own draw,
      and no later step of the round touches it. */
  lemma {:induction false} EachSymbolMovesOnce(watchlist: seq<string>, base: map<string, Decimal>, draws: seq<Draw>, i: nat, j: nat)
    requires j < i <= |watchlist| <= |draws|
    requires forall t :: t in watchlist ==> t in base
    requires forall a, b :: 0 <= a < b < |watchlist| ==> watchlist[a] != watchlist[b]
    ensures BaseAfter(watchlist, base, draws, i)[watchlist[j]] == Walk(base[watchlist[j]], draws[j].change)
  {
    if i == j + 1 {
      assert watchlist[j] !in watchlist[..j];
      RoundLeavesOthers(watchlist, base, draws, j, watchlist[j]);
    } else {
      EachSymbolMovesOnce(watchlist, base, draws, i - 1, j);
      assert watchlist[i - 1] != watchlist[j];
    }
  }

  /** Prices stay positive through a round of possible draws. */
  lemma {:induction false} RoundKeepsPositive(watchlist: seq<string>, base: map<string, Decimal>, draws: seq<Draw>, i: nat)
    requires i <= |watchlist| <= |draws|
    requires forall t :: t in watchlist ==> t in base
    requires forall t :: t in base ==> base[t].mantissa > 0
    requires forall j :: 0 <= j < |draws| ==> IsDraw(draws[j])
    ensures forall t :: t in BaseAfter(watchlist, base, draws, i) ==> BaseAfter(watchlist, base, draws, i)[t].mantissa > 0
  {
    if i > 0 {
      RoundKeepsPositive(watchlist, base, draws, i - 1);
      var b := BaseAfter(watchlist, base, draws, i - 1);
      WalkKeepsPositive(b[watchlist[i - 1]], draws[i - 1].change);
    }
  }

  /** A round over a watchlist without repeats leaves, for each symbol, its
      own tick as the latest value and that tick pushed onto the front of its
      previous window, cut to len entries. */
  lemma {:induction false} RoundPublishesEachSymbol(
      watchlist: seq<string>, base: map<string, Decimal>, draws: seq<Draw>, clock: nat -> Timestamp, k: nat,
      latest: map<string, Payload>, ticks: map<string, seq<Payload>>, len: int, j: nat)
    requires j < |watchlist| <= |draws|
    requires forall t :: t in watchlist ==> t in base
    requires forall a, b :: 0 <= a < b < |watchlist| ==> watchlist[a] != watchlist[b]
    requires len >= 1 && |ListAt(ticks, TicksKey(JStr(watchlist[j])))| <= len
    ensures var ps := RoundTicks(watchlist, base, draws, clock, k, |watchlist|);
      var tick := TickAt(watchlist, base, draws, clock, k, j);
      LatestKey(JStr(watchlist[j])) in PutAllLatest(latest, ps) &&
      PutAllLatest(latest, ps)[LatestKey(JStr(watchlist[j]))] == tick &&
      ListAt(PushAllTicks(ticks, ps, len), TicksKey(JStr(watchlist[j]))) ==
        Take([tick] + ListAt(ticks, TicksKey(JStr(watchlist[j]))), len)
  {
    var ps := RoundTicks(watchlist, base, draws, clock, k, |watchlist|);
    forall l | 0 <= l < |ps| && l != j
      ensures PyStr(ps[l].symbol) != PyStr(ps[j].symbol)
    {
      TickAtShape(watchlist, base, draws, clock, k, l);
      TickAtShape(watchlist, base, draws, clock, k, j);
    }
    TickAtShape(watchlist, base, draws, clock, k, j);
    AloneOnItsSymbol(latest, ticks, ps, len, j);
  }

  /** Line 55: publish_tick(s, round(new, 2), size=...) with a float price
      and an int size, which always convert, so the tick is always published. */
  method PublishSimulated(store: Store, sym: string, price: Decimal, size: int, ts: Timestamp) returns (tick: Payload)
    requires store.Valid()
    modifies store
    ensures store.Valid()
    ensures tick == Payload(JStr(sym), price, size, ts, "T")
    ensures store.latest == PutLatest(old(store.latest), tick)
    ensures store.ticks == PushTick(old(store.ticks), tick, store.tickListLen)
  {
    NumbersAlwaysConvert(JStr(sym), price, size, "T", ts);
    var r := store.PublishTick(JStr(sym), JFloat(price), JInt(size), "T", ts);
    tick := r.value;
  }

  /** Lines 50-55 for the i-th symbol of a round: move its running price by
      its draw and publish the rounded price with the drawn size. The store
      then holds what the round's first i + 1 ticks leave. */
  method MoveAndPublish(store: Store, watchlist: seq<string>, base: map<string, Decimal>, draws: seq<Draw>,
                        clock: nat -> Timestamp, k: nat, i: nat, prices: map<string, Decimal>,
                        ghost latest0: map<string, Payload>, ghost ticks0: map<string, seq<Payload>>)
    returns (next: map<string, Decimal>, tick: Payload)
    requires i < |watchlist| <= |draws|
    requires forall s :: s in watchlist ==> s in base
    requires store.Valid()
    requires prices == BaseAfter(watchlist, base, draws, i)
    requires store.latest == PutAllLatest(latest0, RoundTicks(watchlist, base, draws, clock, k, i))
    requires store.ticks == PushAllTicks(ticks0, RoundTicks(watchlist, base, draws, clock, k, i), store.tickListLen)
    modifies store
    ensures store.Valid()
    ensures next == BaseAfter(watchlist, base, draws, i + 1)
    ensures RoundTicks(watchlist, base, draws, clock, k, i) + [tick] == RoundTicks(watchlist, base, draws, clock, k, i + 1)
    ensures store.latest == PutAllLatest(latest0, RoundTicks(watchlist, base, draws, clock, k, i + 1))
    ensures store.ticks == PushAllTicks(ticks0, RoundTicks(watchlist, base, draws, clock, k, i + 1), store.tickListLen)
  {
    var s := watchlist[i];
    var last := prices[s];
    var newPrice := Walk(last, draws[i].change);
    next := prices[s := newPrice];
    tick := PublishSimulated(store, s, Round2(newPrice), draws[i].size, clock(k + i));
    RoundStep(watchlist, base, draws, clock, k, i);
    PublishAllSnoc(latest0, ticks0, RoundTicks(watchlist, base, draws, clock, k, i), tick, store.tickListLen);
  }

  /** One round of the while-True loop (lines 49-55): each symbol in turn
      moves by its draw, and the rounded price is published with its drawn
      size. The round updates the running prices it is given and returns
      them, with the ticks it published. */
  method SimulateRound(store: Store, watchlist: seq<string>, base: map<string, Decimal>, draws: seq<Draw>,
                       clock: nat -> Timestamp, k: nat)
    returns (next: map<string, Decimal>, published: seq<Payload>)
    requires store.Valid()
    requires |draws| == |watchlist|
    requires forall s :: s in watchlist ==> s in base
    modifies store
    ensures store.Valid()
    ensures next == BaseAfter(watchlist, base, draws, |watchlist|)
    ensures published == RoundTicks(watchlist, base, draws, clock, k, |watchlist|)
    ensures store.latest == PutAllLatest(old(store.latest), published)
    ensures store.ticks == PushAllTicks(old(store.ticks), published, store.tickListLen)
  {
    next := base;
    published := [];
    ghost var latest0, ticks0 := store.latest, store.ticks;
    for i := 0 to |watchlist|
      invariant store.Valid()
      invariant next == BaseAfter(watchlist, base, draws, i)
      invariant published == RoundTicks(watchlist, base, draws, clock, k, i)
      invariant store.latest == PutAllLatest(latest0, published)
      invariant store.ticks == PushAllTicks(ticks0, published, store.tickListLen)
    {
      var tick;
      next, tick := MoveAndPublish(store, watchlist, base, draws, clock, k, i, next, latest0, ticks0);
      published := published + [tick];
    }
  }

  /** 100.0 + random.random() * 100, exactly. */
  function Start(seed: Decimal): Decimal {
    Decimal(100 * Pow10(seed.scale) + 100 * seed.mantissa, seed.scale)
  }

  /** A value random.random() can return: 0 <= seed < 1. */
  predicate IsSeed(seed: Decimal) {
    0 <= seed.mantissa < Pow10(seed.scale)
  }

  /** The base dict after its first i entries are set (lines 45-47). */
  function StartBase(watchlist: seq<string>, seeds: seq<Decimal>, i: nat): map<string, Decimal>
    requires i <= |watchlist| <= |seeds|
  {
    if i == 0 then map[]
    else StartBase(watchlist, seeds, i - 1)[watchlist[i - 1] := Start(seeds[i - 1])]
  }

  /** The starting prices cover exactly the watchlist, and each lies in
      [100, 200). */
  lemma {:induction false} StartCoversWatchlist(watchlist: seq<string>, seeds: seq<Decimal>, i: nat)
    requires i <= |watchlist| <= |seeds|
    requires forall j :: 0 <= j < |seeds| ==> IsSeed(seeds[j])
    ensures forall s :: s in StartBase(watchlist, seeds, i) <==> s in watchlist[..i]
    ensures forall s :: s in StartBase(watchlist, seeds, i) ==>
      var d := StartBase(watchlist, seeds, i)[s];
      100 * Pow10(d.scale) <= d.mantissa < 200 * Pow10(d.scale)
  {
    if i > 0 {
      StartCoversWatchlist(watchlist, seeds, i - 1);
      assert watchlist[..i] == watchlist[..i - 1] + [watchlist[i - 1]];
    }
  }

  /** Lines 45-47: one starting price per watchlist symbol, from its seed. */
  method InitialBase(watchlist: seq<string>, seeds: seq<Decimal>) returns (base: map<string, Decimal>)
    requires |seeds| == |watchlist|
    ensures base == StartBase(watchlist, seeds, |watchlist|)
  {
    base := map[];
    for i := 0 to |watchlist|
      invariant base == StartBase(watchlist, seeds, i)
    {
      base := base[watchlist[i] := Start(seeds[i])];
    }
  }
}
