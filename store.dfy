/** The Redis keys the worker writes and the publication of one tick
    (publish_tick): overwrite `latest:{sym}`, push onto the front of
    `ticks:{sym}`, trim that list to TICK_LIST_LEN entries. */
module TickStore {
  import opened Json

  /** The ISO-8601 text datetime.utcnow().isoformat() + "Z"; supplied from outside. */
  type Timestamp = string

  /** The record publish_tick serialises: symbol, price, size, ts, type. */
  datatype Payload = Payload(symbol: Json, price: Decimal, size: int, ts: Timestamp, evType: string)

  /** Lines 30-36: the payload, or None when float(price) or int(size) raises. */
  function BuildPayload(sym: Json, price: Json, size: Json, evType: string, ts: Timestamp): (r: Option<Payload>)
    ensures r.Some? <==> ToFloat(price).Some? && ToInt(size).Some?
    ensures r.Some? ==> r.value.symbol == sym && r.value.ts == ts && r.value.evType == evType
    ensures r.Some? ==> Some(r.value.price) == ToFloat(price) && Some(r.value.size) == ToInt(size)
  {
    match ToFloat(price)
    case None => None
    case Some(x) =>
      match ToInt(size)
      case None => None
      case Some(n) => Some(Payload(sym, x, n, ts, evType))
  }

  /** A float price and an int size always convert, as the simulator's do. */
  lemma {:induction false} NumbersAlwaysConvert(sym: Json, price: Decimal, size: int, evType: string, ts: Timestamp)
    ensures BuildPayload(sym, JFloat(price), JInt(size), evType, ts) == Some(Payload(sym, price, size, ts, evType))
  {
  }

  function LatestKey(sym: Json): string {
    "latest:" + PyStr(sym)
  }

  function TicksKey(sym: Json): string {
    "ticks:" + PyStr(sym)
  }

  /** A latest key never coincides with a ticks key, and each kind of key
      determines the symbol text it was built from. */
  lemma {:induction false} KeysAreSeparate(a: Json, b: Json)
    ensures LatestKey(a) != TicksKey(b)
    ensures LatestKey(a) == LatestKey(b) <==> PyStr(a) == PyStr(b)
    ensures TicksKey(a) == TicksKey(b) <==> PyStr(a) == PyStr(b)
  {
    assert LatestKey(a)[0] == 'l' && TicksKey(b)[0] == 't';
    if LatestKey(a) == LatestKey(b) {
      assert PyStr(a) == LatestKey(a)[7..] && PyStr(b) == LatestKey(b)[7..];
    }
    if TicksKey(a) == TicksKey(b) {
      assert PyStr(a) == TicksKey(a)[6..] && PyStr(b) == TicksKey(b)[6..];
    }
  }

  function Min(a: int, b: int): int {
    if a <= b then a else b
  }

  /** Redis LTRIM key start stop: negative indices count from the end, an
      out-of-range stop is clamped, and an empty range empties the list. */
  function LTrimRange<T>(s: seq<T>, start: int, stop: int): (r: seq<T>)
    ensures |r| <= |s|
  {
    var n := |s|;
    var a := if start < 0 then n + start else start;
    var b := if stop < 0 then n + stop else stop;
    var a := if a < 0 then 0 else a;
    if a > b || a >= n then [] else s[a..if b >= n then n else b + 1]
  }

  /** The list at `ticks:{sym}` after LPUSH of p and LTRIM 0 (len - 1). */
  function Window(p: Payload, prior: seq<Payload>, len: int): seq<Payload> {
    LTrimRange([p] + prior, 0, len - 1)
  }

  /** With TICK_LIST_LEN >= 1 the window is the new payload followed by the
      newest len - 1 old entries, so it holds min(|prior| + 1, len) entries. */
  lemma {:induction false} WindowIsBounded(p: Payload, prior: seq<Payload>, len: int)
    requires len >= 1
    ensures Window(p, prior, len) == [p] + prior[..Min(|prior|, len - 1)]
    ensures |Window(p, prior, len)| == Min(|prior| + 1, len)
  {
    var s := [p] + prior;
    var k := Min(|prior|, len - 1);
    assert Window(p, prior, len) == s[..k + 1];
    assert s[..k + 1] == [p] + prior[..k];
  }

  /** TICK_LIST_LEN = 0 asks Redis for LTRIM 0 -1, which keeps the whole list. */
  lemma {:induction false} ZeroLengthKeepsEverything(p: Payload, prior: seq<Payload>)
    ensures Window(p, prior, 0) == [p] + prior
  {
    assert ([p] + prior)[0..|prior| + 1] == [p] + prior;
  }

  /** The list stored at key, or the empty list Redis reports for a missing key. */
  function ListAt(ticks: map<string, seq<Payload>>, key: string): seq<Payload> {
    if key in ticks then ticks[key] else []
  }

  /** The string keys after publishing p. */
  function PutLatest(latest: map<string, Payload>, p: Payload): map<string, Payload> {
    latest[LatestKey(p.symbol) := p]
  }

  /** The list keys after publishing p: Redis deletes a list that LTRIM empties. */
  function PushTick(ticks: map<string, seq<Payload>>, p: Payload, len: int): map<string, seq<Payload>> {
    var key := TicksKey(p.symbol);
    var w := Window(p, ListAt(ticks, key), len);
    if w == [] then ticks - {key} else ticks[key := w]
  }

  /** The string keys after publishing ps in order. */
  function PutAllLatest(latest: map<string, Payload>, ps: seq<Payload>): map<string, Payload>
    decreases |ps|
  {
    if ps == [] then latest else PutLatest(PutAllLatest(latest, ps[..|ps| - 1]), ps[|ps| - 1])
  }

  /** The list keys after publishing ps in order. */
  function PushAllTicks(ticks: map<string, seq<Payload>>, ps: seq<Payload>, len: int): map<string, seq<Payload>>
    decreases |ps|
  {
    if ps == [] then ticks else PushTick(PushAllTicks(ticks, ps[..|ps| - 1], len), ps[|ps| - 1], len)
  }

  /** Publishing ps and then p is publishing ps + [p]. */
  lemma {:induction false} PublishAllSnoc(latest: map<string, Payload>, ticks: map<string, seq<Payload>>, ps: seq<Payload>, p: Payload, len: int)
    ensures PutAllLatest(latest, ps + [p]) == PutLatest(PutAllLatest(latest, ps), p)
    ensures PushAllTicks(ticks, ps + [p], len) == PushTick(PushAllTicks(ticks, ps, len), p, len)
  {
    assert (ps + [p])[..|ps|] == ps;
  }

  /** The last payload in ps whose latest key is key. */
  function LastFor(ps: seq<Payload>, key: string): Option<Payload>
    decreases |ps|
  {
    if ps == [] then None
    else if LatestKey(ps[|ps| - 1].symbol) == key then Some(ps[|ps| - 1])
    else LastFor(ps[..|ps| - 1], key)
  }

  /** The payloads in ps, in order, whose ticks key is key. */
  function ForKey(ps: seq<Payload>, key: string): seq<Payload>
    decreases |ps|
  {
    if ps == [] then []
    else ForKey(ps[..|ps| - 1], key) + (if TicksKey(ps[|ps| - 1].symbol) == key then [ps[|ps| - 1]] else [])
  }

  function Reverse<T>(s: seq<T>): seq<T>
    decreases |s|
  {
    if s == [] then [] else [s[|s| - 1]] + Reverse(s[..|s| - 1])
  }

  function Take<T>(s: seq<T>, n: int): (r: seq<T>)
    ensures |r| == if n <= 0 then 0 else Min(|s|, n)
  {
    if n <= 0 then [] else if n >= |s| then s else s[..n]
  }

  /** Last write wins: each latest key ends up holding the last payload
      published for it, and a key no payload touched keeps what it had. */
  lemma {:induction false} LatestIsLastWrite(latest: map<string, Payload>, ps: seq<Payload>, key: string)
    ensures LastFor(ps, key).Some? ==> key in PutAllLatest(latest, ps) && PutAllLatest(latest, ps)[key] == LastFor(ps, key).value
    ensures LastFor(ps, key).None? ==> (key in PutAllLatest(latest, ps) <==> key in latest)
    ensures LastFor(ps, key).None? && key in latest ==> PutAllLatest(latest, ps)[key] == latest[key]
    decreases |ps|
  {
    if ps != [] {
      LatestIsLastWrite(latest, ps[..|ps| - 1], key);
    }
  }

  /** Publishing p changes only the list at p's own ticks key. */
  lemma {:induction false} PushTickAt(ticks: map<string, seq<Payload>>, p: Payload, len: int, key: string)
    ensures key == TicksKey(p.symbol) ==> ListAt(PushTick(ticks, p, len), key) == Window(p, ListAt(ticks, key), len)
    ensures key != TicksKey(p.symbol) ==> ListAt(PushTick(ticks, p, len), key) == ListAt(ticks, key)
  {
  }

  /** Pushing onto a window already cut to len and cutting again is the same
      as cutting once. */
  lemma {:induction false} WindowOfTake(p: Payload, s: seq<Payload>, len: int)
    requires len >= 1
    ensures Window(p, Take(s, len), len) == Take([p] + s, len)
  {
    var t := Take(s, len);
    WindowIsBounded(p, t, len);
    var k := Min(|t|, len - 1);
    assert t[..k] == s[..k];
    if len < |s| + 1 {
      assert ([p] + s)[..len] == [p] + s[..len - 1];
    } else {
      assert k == |s| && s[..k] == s;
    }
  }

  lemma {:induction false} ForKeySnoc(init: seq<Payload>, p: Payload, key: string)
    ensures ForKey(init + [p], key) == ForKey(init, key) + (if TicksKey(p.symbol) == key then [p] else [])
  {
    assert (init + [p])[..|init|] == init;
  }

  lemma {:induction false} ReverseSnoc<T>(s: seq<T>, x: T)
    ensures Reverse(s + [x]) == [x] + Reverse(s)
  {
    assert (s + [x])[..|s|] == s;
  }

  /** The last write for a key that only ps[j] is written to is ps[j]. */
  lemma {:induction false} OnlyWriteFor(ps: seq<Payload>, j: nat, key: string)
    requires j < |ps| && LatestKey(ps[j].symbol) == key
    requires forall l :: 0 <= l < |ps| && l != j ==> LatestKey(ps[l].symbol) != key
    ensures LastFor(ps, key) == Some(ps[j])
    decreases |ps|
  {
    if j < |ps| - 1 {
      var init := ps[..|ps| - 1];
      assert forall l :: 0 <= l < |init| && l != j ==> init[l] == ps[l];
      OnlyWriteFor(init, j, key);
    }
  }

  /** The pushes for a key that only ps[j] is pushed to are just ps[j]. */
  lemma {:induction false} OnlyPushFor(ps: seq<Payload>, j: nat, key: string)
    requires j < |ps| && TicksKey(ps[j].symbol) == key
    requires forall l :: 0 <= l < |ps| && l != j ==> TicksKey(ps[l].symbol) != key
    ensures ForKey(ps, key) == [ps[j]]
    decreases |ps|
  {
    var init, last := ps[..|ps| - 1], ps[|ps| - 1];
    assert ps == init + [last];
    ForKeySnoc(init, last, key);
    if j < |ps| - 1 {
      assert forall l :: 0 <= l < |init| && l != j ==> init[l] == ps[l];
      OnlyPushFor(init, j, key);
      assert ForKey(ps, key) == [ps[j]] + [];
    } else {
      NoPushFor(init, key);
      assert ForKey(ps, key) == [] + [ps[j]];
    }
  }

  lemma {:induction false} NoPushFor(ps: seq<Payload>, key: string)
    requires forall l :: 0 <= l < |ps| ==> TicksKey(ps[l].symbol) != key
    ensures ForKey(ps, key) == []
    decreases |ps|
  {
    if ps != [] {
      NoPushFor(ps[..|ps| - 1], key);
    }
  }

  /** A payload whose symbol no other payload of ps shares ends up as the
      latest value of its symbol, and alone at the front of its window. */
  lemma {:induction false} AloneOnItsSymbol(latest: map<string, Payload>, ticks: map<string, seq<Payload>>, ps: seq<Payload>, len: int, j: nat)
    requires j < |ps|
    requires forall l :: 0 <= l < |ps| && l != j ==> PyStr(ps[l].symbol) != PyStr(ps[j].symbol)
    requires len >= 1 && |ListAt(ticks, TicksKey(ps[j].symbol))| <= len
    ensures LatestKey(ps[j].symbol) in PutAllLatest(latest, ps)
    ensures PutAllLatest(latest, ps)[LatestKey(ps[j].symbol)] == ps[j]
    ensures ListAt(PushAllTicks(ticks, ps, len), TicksKey(ps[j].symbol)) == Take([ps[j]] + ListAt(ticks, TicksKey(ps[j].symbol)), len)
  {
    var sym := ps[j].symbol;
    forall l | 0 <= l < |ps| && l != j
      ensures LatestKey(ps[l].symbol) != LatestKey(sym) && TicksKey(ps[l].symbol) != TicksKey(sym)
    {
      KeysAreSeparate(ps[l].symbol, sym);
    }
    OnlyWriteFor(ps, j, LatestKey(sym));
    LatestIsLastWrite(latest, ps, LatestKey(sym));
    OnlyPushFor(ps, j, TicksKey(sym));
    RecentIsNewestFirst(ticks, ps, len, TicksKey(sym));
    assert Reverse([ps[j]]) == [ps[j]] by {
      assert [ps[j]][..0] == [];
    }
  }

  /** The recent-ticks window is newest first and bounded: after publishing
      ps, the list at a ticks key is the payloads published for it, newest
      first, ahead of the list it had, cut to TICK_LIST_LEN entries. */
  lemma {:induction false} RecentIsNewestFirst(ticks: map<string, seq<Payload>>, ps: seq<Payload>, len: int, key: string)
    requires len >= 1
    requires |ListAt(ticks, key)| <= len
    ensures ListAt(PushAllTicks(ticks, ps, len), key) == Take(Reverse(ForKey(ps, key)) + ListAt(ticks, key), len)
    decreases |ps|
  {
    if ps == [] {
      assert Take(ListAt(ticks, key), len) == ListAt(ticks, key);
    } else {
      var init, p := ps[..|ps| - 1], ps[|ps| - 1];
      assert ps == init + [p];
      RecentIsNewestFirst(ticks, init, len, key);
      RecentStep(ticks, init, p, len, key);
    }
  }

  /** The inductive step of RecentIsNewestFirst: one more publication. */
  lemma {:induction false} RecentStep(ticks: map<string, seq<Payload>>, init: seq<Payload>, p: Payload, len: int, key: string)
    requires len >= 1
    requires ListAt(PushAllTicks(ticks, init, len), key) == Take(Reverse(ForKey(init, key)) + ListAt(ticks, key), len)
    ensures ListAt(PushAllTicks(ticks, init + [p], len), key) == Take(Reverse(ForKey(init + [p], key)) + ListAt(ticks, key), len)
  {
    PublishAllSnoc(map[], ticks, init, p, len);
    ForKeySnoc(init, p, key);
    var rest := Reverse(ForKey(init, key)) + ListAt(ticks, key);
    if TicksKey(p.symbol) == key {
      assert ForKey(init + [p], key) == ForKey(init, key) + [p];
      RecentStepOwn(PushAllTicks(ticks, init, len), p, len, key, ForKey(init, key), ListAt(ticks, key));
    } else {
      assert ForKey(init + [p], key) == ForKey(init, key) + [] == ForKey(init, key);
      PushOntoWindow(PushAllTicks(ticks, init, len), p, len, key, rest);
    }
  }

  /** One more publication onto the list of key itself. */
  lemma {:induction false} RecentStepOwn(before: map<string, seq<Payload>>, p: Payload, len: int, key: string,
                                         pushed: seq<Payload>, prior: seq<Payload>)
    requires len >= 1 && TicksKey(p.symbol) == key
    requires ListAt(before, key) == Take(Reverse(pushed) + prior, len)
    ensures ListAt(PushTick(before, p, len), key) == Take(Reverse(pushed + [p]) + prior, len)
  {
    PushOntoWindow(before, p, len, key, Reverse(pushed) + prior);
    ReverseSnoc(pushed, p);
    assert [p] + (Reverse(pushed) + prior) == Reverse(pushed + [p]) + prior;
  }

  /** One publication seen from one list: its own list gets p in front of
      the window, and any other list is unchanged. */
  lemma {:induction false} PushOntoWindow(before: map<string, seq<Payload>>, p: Payload, len: int, key: string, rest: seq<Payload>)
    requires len >= 1
    requires ListAt(before, key) == Take(rest, len)
    ensures TicksKey(p.symbol) == key ==> ListAt(PushTick(before, p, len), key) == Take([p] + rest, len)
    ensures TicksKey(p.symbol) != key ==> ListAt(PushTick(before, p, len), key) == Take(rest, len)
  {
    PushTickAt(before, p, len, key);
    if TicksKey(p.symbol) == key {
      WindowOfTake(p, rest, len);
    }
  }

  /** N publications of one symbol from an empty store leave its window
      holding min(N, TICK_LIST_LEN) entries: the most recent ones, newest first. */
  lemma {:induction false} WindowOfAppends(ps: seq<Payload>, len: int, key: string)
    requires len >= 1
    requires forall i :: 0 <= i < |ps| ==> TicksKey(ps[i].symbol) == key
    ensures ListAt(PushAllTicks(map[], ps, len), key) == Take(Reverse(ps), len)
    ensures |ListAt(PushAllTicks(map[], ps, len), key)| == Min(|ps|, len)
  {
    RecentIsNewestFirst(map[], ps, len, key);
    ForKeyOfOneKey(ps, key);
    assert Reverse(ps) + [] == Reverse(ps);
    ReverseLength(ps);
  }

  lemma {:induction false} ForKeyOfOneKey(ps: seq<Payload>, key: string)
    requires forall i :: 0 <= i < |ps| ==> TicksKey(ps[i].symbol) == key
    ensures ForKey(ps, key) == ps
    decreases |ps|
  {
    if ps != [] {
      ForKeyOfOneKey(ps[..|ps| - 1], key);
      assert ps == ps[..|ps| - 1] + [ps[|ps| - 1]];
    }
  }

  lemma {:induction false} ReverseLength<T>(s: seq<T>)
    ensures |Reverse(s)| == |s|
    decreases |s|
  {
    if s != [] {
      ReverseLength(s[..|s| - 1]);
    }
  }

  /** A keyspace of string keys (SET) and list keys (LPUSH, LTRIM) with the
      worker as its only writer. */
  class Store {
    /** TICK_LIST_LEN. */
    const tickListLen: int
    var latest: map<string, Payload>
    var ticks: map<string, seq<Payload>>

    /** Redis never keeps an empty list, and with TICK_LIST_LEN >= 1 no list
        is longer than TICK_LIST_LEN. */
    ghost predicate Valid()
      reads this
    {
      (forall key :: key in ticks ==> ticks[key] != []) &&
      (tickListLen >= 1 ==> forall key :: key in ticks ==> |ticks[key]| <= tickListLen)
    }

    constructor (tickListLen: int)
      ensures this.tickListLen == tickListLen && latest == map[] && ticks == map[]
      ensures Valid()
    {
      this.tickListLen := tickListLen;
      latest := map[];
      ticks := map[];
    }

    /** SET key value. */
    method Set(key: string, value: Payload)
      modifies this
      ensures latest == old(latest)[key := value] && ticks == old(ticks)
    {
      latest := latest[key := value];
    }

    /** LPUSH key value: a missing key starts as the empty list. */
    method LPush(key: string, value: Payload)
      modifies this
      ensures ticks == old(ticks)[key := [value] + ListAt(old(ticks), key)] && latest == old(latest)
    {
      ticks := ticks[key := [value] + ListAt(ticks, key)];
    }

    /** LTRIM key start stop. */
    method LTrim(key: string, start: int, stop: int)
      modifies this
      ensures latest == old(latest)
      ensures key !in old(ticks) ==> ticks == old(ticks)
      ensures key in old(ticks) ==>
        var t := LTrimRange(old(ticks)[key], start, stop);
        ticks == if t == [] then old(ticks) - {key} else old(ticks)[key := t]
    {
      if key in ticks {
        var t := LTrimRange(ticks[key], start, stop);
        ticks := if t == [] then ticks - {key} else ticks[key := t];
      }
    }

    /** publish_tick(sym, price, size, ev_type) with the timestamp ts
        given as a parameter.
        When float() or int() raises, the exception leaves before any key is
        written; otherwise only the symbol's two keys change. */
    method PublishTick(sym: Json, price: Json, size: Json, evType: string, ts: Timestamp)
      returns (published: Option<Payload>)
      requires Valid()
      modifies this
      ensures Valid()
      ensures published == BuildPayload(sym, price, size, evType, ts)
      ensures published.None? ==> latest == old(latest) && ticks == old(ticks)
      ensures published.Some? ==>
        latest == PutLatest(old(latest), published.value) &&
        ticks == PushTick(old(ticks), published.value, tickListLen)
    {
      published := BuildPayload(sym, price, size, evType, ts);
      if published.Some? {
        var p := published.value;
        var key := LatestKey(sym);
        var listKey := TicksKey(sym);
        Set(key, p);
        LPush(listKey, p);
        LTrim(listKey, 0, tickListLen - 1);
        if tickListLen >= 1 {
          WindowIsBounded(p, ListAt(old(ticks), listKey), tickListLen);
        }
      }
    }
  }

  /** Publishing one payload twice leaves the same latest entry as publishing it once. */
  lemma {:induction false} RepublishKeepsLatest(latest: map<string, Payload>, p: Payload)
    ensures PutAllLatest(latest, [p, p]) == PutAllLatest(latest, [p])
    ensures PutAllLatest(latest, [p])[LatestKey(p.symbol)] == p
  {
    assert [p, p][..1] == [p];
    assert [p][..0] == [];
  }
}
