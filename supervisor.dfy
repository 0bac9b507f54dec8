/** The start-up decision at the bottom of worker.py: the live Polygon
    client when an API key is set, the simulator otherwise, and the
    simulator once more if the live client raises. */
module Supervisor {
  import opened Json

  /** How the live client's start and run end: with an exception (a failed
      import of websocket, or whatever the websocket library lets escape),
      or by run_forever returning. Which of the two a network failure gives
      is up to the library. */
  datatype LiveOutcome = Raised | Returned

  /** What the process runs, in order. */
  datatype Phase = LiveClient | SimulatorLoop

  /** `if POLY_KEY:` - the environment variable is set and not empty. */
  predicate KeySet(polyKey: Option<string>) {
    polyKey.Some? && polyKey.value != []
  }

  /** Lines 59-107: the phases the process goes through. The live client
      runs exactly when a key is set, and first; the simulator runs exactly
      when no key is set or the live client raised, and last, since its loop
      never returns. No phase runs twice: the fallback happens once and
      nothing retries the live client. */
  function Course(polyKey: Option<string>, live: LiveOutcome): (r: seq<Phase>)
    ensures LiveClient in r <==> KeySet(polyKey)
    ensures SimulatorLoop in r <==> (!KeySet(polyKey) || live == Raised)
    ensures 1 <= |r| <= 2
    ensures forall i, j :: 0 <= i < j < |r| ==> r[i] != r[j]
    ensures LiveClient in r ==> r[0] == LiveClient
    ensures SimulatorLoop in r ==> r[|r| - 1] == SimulatorLoop
  {
    if !KeySet(polyKey) then [SimulatorLoop]
    else if live == Raised then [LiveClient, SimulatorLoop]
    else [LiveClient]
  }
}
