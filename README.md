# Tick ingestion worker, modelled in Dafny

This project models the worker that feeds market ticks into Redis. The
source is `app/worker/worker.py`. The worker has two feeds:

- **Live feed.** When `POLYGON_API_KEY` is set and non-empty, it connects
  to the Polygon WebSocket. It authenticates, subscribes to the trade
  channel `T.<SYMBOL>` of each watchlist symbol, and publishes the trade
  events (`"ev" == "T"`) of each message batch, in order, up to the first
  element that raises.
- **Simulator.** Without a key, or when the live client raises, it runs a
  once-per-second random walk with one tick per symbol per round.

Publishing a tick (`publish_tick`) does three things:

- overwrites `latest:{sym}` with the payload;
- pushes the payload onto the front of `ticks:{sym}`;
- trims that list to `TICK_LIST_LEN` entries.

Modules, one file each:

- `Text` (`text.dfy`): Python's `str.strip()`, `str.upper()`,
  `str.split(",")`, `",".join` and `str(int)`.
- `Json` (`json.dfy`): the value `json.loads` returns, and the built-ins the
  worker applies to it. These are truthiness, `a or b`, `dict.get`,
  `float()`, `int()` and `str()`. `None` stands for "the conversion raises".
- `TickStore` (`store.dfy`): the payload, the two Redis keys, and Redis
  `SET`/`LPUSH`/`LTRIM`, including LTRIM's negative-index rules. The Redis
  database is the class `Store`, whose two maps `PublishTick` updates in
  place. The pure functions `PutAllLatest` and `PushAllTicks` say what any
  sequence of publications leaves in the store.
- `LiveFeed` (`live_feed.dfy`): `on_open` and `on_message`. `Run` and
  `Dispatch` specify what a batch publishes. `OnMessage` walks the batch and
  is proved to publish exactly that.
- `Simulator` (`simulator.dfy`): the starting prices and one round of the
  walk. The random draws are parameters. Prices are exact decimals, and
  `round(x, 2)` rounds half to even on them.
- `Watchlist` (`watchlist.dfy`): the `WATCHLIST` comprehension.
- `Supervisor` (`supervisor.dfy`): the choice between the live client and
  the simulator.

Where the worker takes a timestamp from `datetime.utcnow()`, the model takes
it from a `clock` parameter. `clock(k)` is the time of the k-th publication
of the call.

Three behaviours of the code that are easy to misread:

- **One failing element stops its batch.** `on_message` has a single `try`
  around the whole batch. The first element that raises therefore ends the
  batch. Elements before it stay published; elements after it are dropped.
  Elements that raise are a non-dict element, or a trade whose
  `float(price)` or `int(size)` raises. `RaiseStopsBatch` and
  `MalformedNeighbour` state this. A well-formed trade followed by a
  malformed one publishes one tick; in the opposite order the batch
  publishes none.
- **The fallback needs an exception.** The worker falls back to the
  simulator only when the live client raises. If `run_forever()` returns
  normally, after a close, the process ends without running the simulator.
- **Sizes are not always positive.** `int(size)` truncates, so a size of
  `0.5` becomes 0, and a negative size is kept. A price of 0 reaches
  `float()` when `"p"` is falsy and `"price"` is 0.

## Model

| member | source | states |
|---|---|---|
| Watchlist.ParseWatchlist | app/worker/worker.py:23 | The comprehension `[s.strip().upper() for s in raw.split(",")]`: one symbol per comma-separated piece, in order. Its properties are in the lemmas below. |
| Watchlist.WatchlistShape | app/worker/worker.py:23 | WATCHLIST has one symbol per comma-separated piece, empty pieces included, so Count(',') + 1 symbols. Symbol i is piece i stripped and upper-cased, and every symbol is normalised: no comma, no lower-case ASCII letter, no whitespace at either end. |
| Watchlist.PieceIsNormalised | app/worker/worker.py:23 | `piece.strip().upper()` of a piece without commas is normalised. |
| Watchlist.NormalisedIsFixed | app/worker/worker.py:23 | A normalised symbol comes through strip() and upper() unchanged. |
| Watchlist.ParseOfJoin | app/worker/worker.py:23 | Joining normalised symbols with commas and parsing gives the same symbols back. |
| Watchlist.ParseIsStable | app/worker/worker.py:23 | Re-joining a parsed watchlist and parsing again changes nothing. |
| Watchlist.PlainSymbolIsNormalised | app/worker/worker.py:23 | A symbol spelt with capital letters and dots is normalised. |
| Watchlist.DefaultWatchlist | app/worker/worker.py:23 | The default "AAPL,MSFT,TSLA,RELIANCE.NS" gives the four symbols AAPL, MSFT, TSLA, RELIANCE.NS. The lemma writes the setting as its pieces joined by commas. |
| Text.Strip | app/worker/worker.py:23 | str.strip() with no argument: the leading, then the trailing, run of str.isspace() characters removed. |
| Text.Upper | app/worker/worker.py:23 | str.upper() restricted to ASCII letters; the result has the argument's length. |
| Text.Split | app/worker/worker.py:23 | str.split(sep) for a one-character separator, empty pieces kept; the result always has at least one piece. |
| Text.TrimLeftShape | app/worker/worker.py:23 | The left part of strip() removes a run of whitespace from the front and stops at the first non-whitespace character. |
| Text.TrimRightShape | app/worker/worker.py:23 | The right part of strip() removes a run of whitespace from the end and stops at the last non-whitespace character. |
| Text.StripIsTrimmedSlice | app/worker/worker.py:23 | strip() returns a slice of its argument. Everything cut off is whitespace, and the result neither starts nor ends with whitespace. |
| Text.StripKeepsTrimmed | app/worker/worker.py:23 | strip() leaves a string with no whitespace at either end as it is. |
| Text.StripIdempotent | app/worker/worker.py:23 | strip() applied twice equals strip() applied once. |
| Text.UpperProperties | app/worker/worker.py:23 | upper() leaves no lower-case ASCII letter, keeps every other character in place, and applied twice equals applied once. |
| Text.SplitJoin | app/worker/worker.py:23 | split(",") gives Count(',') + 1 pieces, none with a comma, and joining them with commas gives back the original string. |
| Text.JoinSplit | app/worker/worker.py:23 | Splitting a comma-join of comma-free pieces gives back the pieces. |
| Text.SplitCons | app/worker/worker.py:23 | A first character that is not a comma joins the first piece of split(","). |
| Text.SplitPrefix | app/worker/worker.py:23 | Splitting x + y, where x has no comma, glues x onto the first piece of y. |
| Text.NatToStringValue | app/worker/worker.py:33 | Reading the decimal digits of str(n) back gives n. |
| Text.IntToString | app/worker/worker.py:37-38 | str(i) of an integer: a minus sign for a negative i, then the digits of its magnitude; never empty. |
| Text.NatToString | app/worker/worker.py:37-38 | str(n) of a non-negative integer is a non-empty string of decimal digits. |
| Json.Truthy | app/worker/worker.py:81-83 | Python truthiness: None, False, 0, 0.0 and empty strings, lists and dicts are false, everything else true. |
| Json.Or | app/worker/worker.py:81-83 | `a or b`: a when it is truthy, else b. |
| Json.Get | app/worker/worker.py:79-83 | `dict.get(key)`: the value under the key, or None when the key is absent. |
| Json.ParseInteger | app/worker/worker.py:33 | int() of a stripped string: an optional sign and one or more decimal digits, anything else raises. |
| Json.ParseDecimal | app/worker/worker.py:32 | float() of a stripped string: an optional sign, digits, an optional point and digits, at least one digit in all; anything else raises. |
| Json.Truncate | app/worker/worker.py:33 | int() of a float: division by the power of ten, truncated toward zero on both signs. |
| Json.ToFloat | app/worker/worker.py:32 | float(v): None and containers raise, booleans and ints convert exactly, floats are kept, strings are stripped and parsed. |
| Json.ToInt | app/worker/worker.py:33 | int(v): None and containers raise, booleans become 0 or 1, floats truncate toward zero, strings are stripped and parsed as integers. |
| Json.PyStr | app/worker/worker.py:37-38 | str(v) as the f-strings write it: exact for None, booleans, integers and strings. |
| Json.FindIsFirst | app/worker/worker.py:32 | The position found for the decimal point is its first occurrence, or the length when there is none. |
| Json.TruncatesTowardZero | app/worker/worker.py:33 | int() of a float truncates toward zero: the result is the integer nearest zero that is within one unit of the value, on the value's side of zero. |
| Json.IntTextIsStripped | app/worker/worker.py:32-33 | str(i) has no whitespace at either end, so float() and int() parse it unstripped. |
| Json.IntToStringShape | app/worker/worker.py:32-33 | str(i) is an optional minus sign followed by digits. The digits have no decimal point and read back as abs(i). |
| Json.DecimalOfDigits | app/worker/worker.py:32 | float() of a sign followed by digits without a point is that signed integer, with no decimal places. |
| Json.IntRoundTrip | app/worker/worker.py:33 | int(str(i)) == i for every integer i. |
| Json.FloatOfIntText | app/worker/worker.py:32 | float(str(i)) == i for every integer i. |
| Json.StripExample | app/worker/worker.py:32 | float(" -12.50 ") strips its argument to "-12.50" before parsing. |
| Json.DigitsExample | app/worker/worker.py:32 | The digits "1250" read as 1250. |
| Json.ParseExample | app/worker/worker.py:32 | "-12.50" parses as -1250 / 10^2. |
| Json.FractionalText | app/worker/worker.py:32 | float(" -12.50 ") is -12.50, with the surrounding blanks ignored. |
| Json.NonNumericText | app/worker/worker.py:32-33 | float("n/a") raises, and so does int("12.5"). |
| TickStore.LatestKey | app/worker/worker.py:37 | The key `latest:{sym}`. |
| TickStore.TicksKey | app/worker/worker.py:38 | The key `ticks:{sym}`. |
| TickStore.Window | app/worker/worker.py:40-41 | LPUSH of the payload onto a list, then LTRIM 0 TICK_LIST_LEN-1, as one value. |
| TickStore.PutLatest | app/worker/worker.py:39 | SET of `latest:{sym}` to the payload, on the map of string keys. |
| TickStore.PushTick | app/worker/worker.py:40-41 | LPUSH and LTRIM on the map of list keys; a list trimmed to empty is deleted, as Redis does. |
| TickStore.PutAllLatest | app/worker/worker.py:39 | The string keys after a sequence of publications, in order. |
| TickStore.PushAllTicks | app/worker/worker.py:40-41 | The list keys after a sequence of publications, in order. |
| TickStore.BuildPayload | app/worker/worker.py:30-36 | There is a payload exactly when both float(price) and int(size) succeed. It carries sym, the converted price and size, the timestamp and the event type. |
| TickStore.NumbersAlwaysConvert | app/worker/worker.py:32-33 | A float price and an int size always convert, so the payload is built from them unchanged. |
| TickStore.KeysAreSeparate | app/worker/worker.py:37-38 | A `latest:` key never equals a `ticks:` key. Two keys of the same kind are equal exactly when the symbols' str() texts are equal. |
| TickStore.LTrimRange | app/worker/worker.py:41 | LTRIM never lengthens a list. |
| TickStore.WindowIsBounded | app/worker/worker.py:40-41 | With TICK_LIST_LEN >= 1, LPUSH then LTRIM 0..TICK_LIST_LEN-1 leaves the new payload and then the newest TICK_LIST_LEN-1 old entries, Min(old length + 1, TICK_LIST_LEN) entries in all. |
| TickStore.ZeroLengthKeepsEverything | app/worker/worker.py:41 | With TICK_LIST_LEN = 0, LTRIM 0 -1 keeps the whole list, so the list grows without bound. |
| TickStore.Take | app/worker/worker.py:41 | Taking n entries yields Min(length, n) of them, or none when n <= 0. |
| TickStore.LatestIsLastWrite | app/worker/worker.py:39 | After a sequence of publications, each `latest:` key holds the last payload published under it. A key no publication touched is present and unchanged exactly when it was before. |
| TickStore.PushTickAt | app/worker/worker.py:40-41 | A publication changes only its own symbol's list, which becomes the new window. Other lists are unchanged. |
| TickStore.WindowOfTake | app/worker/worker.py:40-41 | Pushing onto a list already cut to TICK_LIST_LEN entries and cutting again equals cutting the longer list once. |
| TickStore.PublishAllSnoc | app/worker/worker.py:39-41 | One more publication at the end of a sequence applies one more SET and one more LPUSH/LTRIM to what the sequence left. |
| TickStore.RecentIsNewestFirst | app/worker/worker.py:40-41 | After a sequence of publications, each `ticks:` list is that symbol's payloads newest first, followed by the old list, cut to TICK_LIST_LEN entries. |
| TickStore.RecentStep | app/worker/worker.py:40-41 | The inductive step of RecentIsNewestFirst: one more publication keeps the newest-first window description true. |
| TickStore.RecentStepOwn | app/worker/worker.py:40-41 | A publication onto its own list moves it to the front of that list's newest-first window. |
| TickStore.PushOntoWindow | app/worker/worker.py:40-41 | Pushing onto a list that is a window of some sequence gives the window of the payload followed by that sequence; other lists keep their windows. |
| TickStore.OnlyWriteFor | app/worker/worker.py:39 | When only one payload of a sequence is written under a key, that payload is the key's last write. |
| TickStore.OnlyPushFor | app/worker/worker.py:40 | When only one payload of a sequence is pushed onto a list, it is that list's only push. |
| TickStore.NoPushFor | app/worker/worker.py:40 | A list no payload is pushed onto gets no pushes. |
| TickStore.AloneOnItsSymbol | app/worker/worker.py:37-41 | A payload whose symbol no other publication of the sequence shares ends as its symbol's `latest:` value, and alone at the front of its `ticks:` list, ahead of the old list, cut to TICK_LIST_LEN entries. |
| TickStore.WindowOfAppends | app/worker/worker.py:40-41 | Starting from an empty store, n publications of one symbol leave its list as the newest Min(n, TICK_LIST_LEN) payloads, newest first. |
| TickStore.ForKeySnoc | app/worker/worker.py:40 | Adding a publication at the end adds it to its own list's pushes and to no other list's. |
| TickStore.ForKeyOfOneKey | app/worker/worker.py:40 | When every publication is for one symbol, all of them are pushed onto that symbol's list. |
| TickStore.ReverseSnoc | app/worker/worker.py:40 | Reversing s + [x] puts x first: LPUSH order puts the newest entry at the front. |
| TickStore.ReverseLength | app/worker/worker.py:40 | Reversal keeps the length. |
| TickStore.RepublishKeepsLatest | app/worker/worker.py:37-39 | Publishing the same payload twice leaves the same `latest:` value as publishing it once, and that value is the payload. |
| TickStore.Store.constructor | app/worker/worker.py:27 | A store that starts empty, with the given TICK_LIST_LEN. |
| TickStore.Store.Set | app/worker/worker.py:39 | `r.set(key, payload)` overwrites one string key and leaves the lists alone. |
| TickStore.Store.LPush | app/worker/worker.py:40 | `r.lpush(listkey, payload)` puts the payload in front of the list, which is empty if the key is missing. |
| TickStore.Store.LTrim | app/worker/worker.py:41 | `r.ltrim(listkey, start, stop)` keeps the LTRIM range, deletes the key when the range is empty, and does nothing to a missing key. |
| TickStore.Store.PublishTick | app/worker/worker.py:29-41 | PublishTick returns the payload publish_tick builds, or None where publish_tick raises. When a conversion raises, it changes nothing. Otherwise `latest:{sym}` holds the payload, `ticks:{sym}` is the new window, and every other key is unchanged. The store invariant holds: no list is empty, and no list is longer than TICK_LIST_LEN when TICK_LIST_LEN >= 1. |
| LiveFeed.ExtractFields | app/worker/worker.py:81-83 | The three arguments handed to publish_tick: `sym or ticker`, `p or price`, `s or size or 1`. |
| LiveFeed.StepOf | app/worker/worker.py:76-84 | One list element: a non-dict raises at `msg.get`; a dict without "ev" == "T" is passed over; a trade is published, or raises when publish_tick's conversions do. |
| LiveFeed.Run | app/worker/worker.py:76-89 | The batch walk: the payloads of the elements in order, stopping at the first element that raises, since one `try` surrounds the whole loop. |
| LiveFeed.Dispatch | app/worker/worker.py:74-89 | What on_message publishes for a decoded message: the walk of a list, nothing for a dict or any other value. |
| LiveFeed.OnOpen | app/worker/worker.py:62-70 | on_open sends one auth message with the API key. It then sends one subscribe message "T.<SYMBOL>" per watchlist symbol, in watchlist order. |
| LiveFeed.FieldFallbacks | app/worker/worker.py:81-83 | The symbol is `sym` when truthy, else `ticker`. The price is `p` when truthy, else `price`. The size is `s`, else `size`, else 1, so the size argument is always truthy and a missing or zero size becomes 1. |
| LiveFeed.StepOfCases | app/worker/worker.py:79-84 | An element raises exactly when it is not a dict, or is a trade whose price or size cannot be converted. It publishes exactly when it is a trade that does not raise, and then it publishes the payload built from its fields. |
| LiveFeed.Trades | app/worker/worker.py:79-80 | The trade elements of a batch are elements with "ev" == "T". |
| LiveFeed.RunStep | app/worker/worker.py:77-84 | A batch publishes its first element's tick, if any, and then the rest of the batch; it stops if the first element raises. |
| LiveFeed.RunAdvance | app/worker/worker.py:77-84 | What is published after element i is handled follows from what was published before it: a raise ends the batch, a skip adds nothing, a publication adds its payload. |
| LiveFeed.CleanBatchLength | app/worker/worker.py:76-84 | When no element raises, the batch publishes one payload per trade element. |
| LiveFeed.CleanBatchNth | app/worker/worker.py:76-84 | When no element raises, the n-th payload published is the one built from the n-th trade element at the n-th timestamp. |
| LiveFeed.CleanBatchNthTrade | app/worker/worker.py:76-84 | CleanBatchNth for a batch whose first element is a trade. |
| LiveFeed.CleanBatchPublishesTrades | app/worker/worker.py:76-84 | When no element raises, the batch publishes exactly its trade elements, one payload each, in list order, the n-th with the n-th timestamp. |
| LiveFeed.RaiseStopsBatch | app/worker/worker.py:73-89 | The first element that raises ends the batch. The batch publishes the trade elements before it and nothing from it onwards. |
| LiveFeed.MalformedNeighbour | app/worker/worker.py:73-89 | A well-formed trade followed by one that raises publishes exactly one tick, the good one. In the other order the batch publishes none. |
| LiveFeed.TextPriceRaises | app/worker/worker.py:81-84 | A trade with "p": 187 does not raise; a trade with "p": "n/a" does. |
| LiveFeed.HandleElement | app/worker/worker.py:79-84 | Handling one element publishes exactly what StepOf says, through publish_tick, and changes nothing otherwise. |
| LiveFeed.OnMessage | app/worker/worker.py:72-89 | on_message publishes Dispatch(data): the trade elements of a list up to the first one that raises, and nothing for a dict or any other value. The store ends as those publications, in order, leave it, and its invariant holds. |
| Simulator.Start | app/worker/worker.py:47 | The starting price `100.0 + random.random()*100` for a given draw of random.random(). |
| Simulator.StartBase | app/worker/worker.py:45-47 | The starting prices of the first i watchlist symbols, a later duplicate overwriting an earlier one. |
| Simulator.Walk | app/worker/worker.py:53 | `last * (1 + change_pct)`, exactly. |
| Simulator.Round2 | app/worker/worker.py:55 | `round(new, 2)` on an exact decimal: kept when it has at most two decimals, else rounded to two, half to even. |
| Simulator.TickAt | app/worker/worker.py:49-55 | The tick published for the j-th symbol of a round: its symbol, its moved price rounded to two decimals, the j-th size draw, its timestamp and type "T". |
| Simulator.RoundTicks | app/worker/worker.py:49-55 | The ticks of the first i symbols of a round, in publication order. |
| Simulator.RoundDivIsNearest | app/worker/worker.py:55 | Rounding a quotient lands within half a unit of the exact value, a tie goes to the even quotient, and a non-negative value rounds to a non-negative one. |
| Simulator.Round2IsNearest | app/worker/worker.py:55 | round(new, 2) has Min(decimals, 2) decimals, is within half a cent of new, leaves a value that already has at most two decimals unchanged, and keeps a non-negative value non-negative. |
| Simulator.Round2Examples | app/worker/worker.py:55 | round rounds 12.34567 to 12.35 and 12.344 to 12.34. The ties 0.125, -0.125 and 0.375 are exact in binary, and go to the even neighbour as in Python: 0.12, -0.12 and 0.38. |
| Simulator.WalkKeepsPositive | app/worker/worker.py:52-53 | last * (1 + change_pct) stays positive for a positive last and every change uniform(-0.01, 0.01) can return. |
| Simulator.BaseAfter | app/worker/worker.py:49-54 | A round moves only symbols already in `base`, so it keeps the set of keys. |
| Simulator.RoundStep | app/worker/worker.py:50-55 | Step i of a round moves symbol i by draw i and publishes its rounded price with draw i's size. |
| Simulator.TickAtShape | app/worker/worker.py:55 | The j-th tick of a round carries the j-th symbol, type "T", the time of its place in the publication order, a price with at most two decimals, and the j-th drawn size, which lies in [1, 100] for a draw randint can make. |
| Simulator.RoundShape | app/worker/worker.py:49-55 | A round publishes one tick per watchlist entry, in watchlist order. The j-th tick carries the j-th symbol and type "T", a price rounded to at most two decimals, the drawn size (in [1, 100] for a draw randint can make), and the timestamp of its place in the publication order. |
| Simulator.RoundLeavesOthers | app/worker/worker.py:49-54 | A symbol the round has not reached keeps its running price. |
| Simulator.EachSymbolMovesOnce | app/worker/worker.py:49-54 | With no repeated symbol, each symbol's running price moves once, by its own draw, with no coupling to other symbols. |
| Simulator.RoundKeepsPositive | app/worker/worker.py:49-54 | When all running prices are positive and the draws are ones the random module can make, all running prices stay positive through the round. |
| Simulator.RoundPublishesEachSymbol | app/worker/worker.py:49-55 | After a round over a watchlist with no repeats, each symbol's `latest:` key holds its own tick, and its `ticks:` list is that tick pushed onto its old list, cut to TICK_LIST_LEN entries. |
| Simulator.PublishSimulated | app/worker/worker.py:55 | Publishing a simulated tick always succeeds, since its price is a float and its size an int, and applies one SET and one LPUSH/LTRIM. |
| Simulator.MoveAndPublish | app/worker/worker.py:50-55 | One pass of the round's loop body moves the running price of symbol i and publishes its tick, keeping the loop's description of the store and the prices. |
| Simulator.SimulateRound | app/worker/worker.py:48-55 | One round returns the moved running prices and the ticks it published, both as the round's specification functions give them. The store ends as those publications leave it, and its invariant holds. |
| Simulator.StartCoversWatchlist | app/worker/worker.py:45-47 | The starting prices have exactly the watchlist's symbols as keys, and each lies in [100, 200) for seeds random.random() can return. |
| Simulator.InitialBase | app/worker/worker.py:45-47 | The loop over the watchlist builds the starting prices, a later duplicate overwriting an earlier one. |
| Supervisor.KeySet | app/worker/worker.py:59 | `if POLY_KEY:`: the key is present and non-empty. |
| Supervisor.Course | app/worker/worker.py:59-107 | The live client runs exactly when the key is set and non-empty, and it runs first. The simulator runs exactly when no key is set or the live client raised, and it runs last. No phase runs twice, so the fallback happens once and nothing retries the live client. |

## Left out

- JSON decoding (`json.loads`) and encoding (`json.dumps`): messages enter the model already decoded, and payloads are records.
- Binary floating point: floats are exact decimals. `round(x, 2)` rounds half to even on the exact value, where Python rounds the nearest double, so ties such as 2.675 can come out differently. Likewise `float()` of an int beyond the double range raises OverflowError in Python, which would end the batch; ToFloat converts every int.
- Round2IsNearest: states closeness to the exact decimal, not to the double Python computes.
- StartCoversWatchlist: the range [100, 200) holds for exact decimals. In doubles, `100.0 + random.random() * 100` rounds up to 200.0 for the largest values `random.random()` returns.
- ParseInteger, ToInt and IntToString: digit strings of any length are accepted. CPython 3.11 and later raises ValueError from `int()` of a string of more than 4300 digits and from `str()` of such an int. A trade whose size is such a string therefore ends the batch in Python but publishes in the model.
- Non-finite floats: `json.loads` turns `NaN`, `Infinity`, `-Infinity` and out-of-range literals such as `1e400` into nan or inf, which JFloat cannot hold. In Python such a price publishes, and such a size makes `int()` raise and ends the batch.
- float() and int() text forms beyond an optional sign, digits and one decimal point: exponents, `inf`, `nan`, underscores and non-ASCII digits count as failures.
- str() of a float, list or dict symbol: the model uses a fixed stand-in text, so such keys are not the ones Redis sees.
- str.upper() outside ASCII: non-ASCII letters are left as they are.
- The state of Redis before the worker starts: the model starts from an empty database, and nothing carries over between runs, so a list left longer than TICK_LIST_LEN by an earlier run with a larger setting is outside the store invariant.
- Redis networking, the non-atomicity of the three calls, concurrent writers and WRONGTYPE errors: the store is a single-writer in-memory object.
- The websocket transport (`WebSocketApp`, `run_forever`), `on_error` and `on_close`, which only print, and all `print` output.
- `datetime.utcnow()`: timestamps come from the `clock` parameter.
- The random module: every draw of `random.random()`, `random.uniform` and `random.randint` is a parameter.
- The endless `while True` loop and `time.sleep(1)`: one round is modelled, and repeated rounds are repeated calls.
- `load_dotenv`, `os.getenv` and the `int()` parse of `TICK_LIST_LEN`: these settings are inputs.
- Supervisor.Course: the outcome of the live client is an input, because it depends on the network and the installed packages.
- `app/app_docker.py`, the Streamlit dashboard: it is not part of this model, since it only reads the store and renders it.
