/**
 * The pool factory of src/index.ts: how `validate` and `destroy` turn the
 * exceptions of the renderer into a plain answer. Launching a browser
 * (`create`) is foreign I/O and is represented by the pool's acquire choice.
 */
module PageFactory {
  import opened Wrappers

  /** What `page.metrics()` did: resolved with a truthy or falsy value, or threw. */
  datatype Probe = Metrics(truthy: bool) | MetricsThrew(error: Error)

  /** `validate`: the double negation of the metrics, or `false` when the probe throws. */
  function Validate(probe: Probe): (valid: bool)
    ensures probe.MetricsThrew? ==> !valid
    ensures valid <==> probe == Metrics(true)
  {
    match probe
    case Metrics(truthy) => truthy
    case MetricsThrew(_) => false
  }

  /** What one call of `destroy` did: whether it closed the browser, and what it rejected with. */
  datatype DestroyOutcome = DestroyOutcome(closeCalled: bool, rejection: Option<Error>)

  /**
   * `destroy`: asks `isConnected()` (which may throw) and closes the browser
   * only when it is connected; a throw from either call is caught and the
   * promise resolves normally.
   */
  function Destroy(connected: Result<bool, Error>, close: Option<Error>): (r: DestroyOutcome)
    ensures r.rejection == None
    ensures r.closeCalled <==> connected == Success(true)
  {
    match connected
    case Failure(_) => DestroyOutcome(false, None)
    case Success(isConnected) =>
      if isConnected then
        // whether `close` resolves or throws, the catch block returns normally
        DestroyOutcome(true, None)
      else
        DestroyOutcome(false, None)
  }
}
