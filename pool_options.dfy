/**
 * The options object the `PdfGenerator` constructor hands to `createPool`:
 * two defaults, then every property of the caller's object, then `autostart`.
 * An object literal with spreads is a map union in which later keys win.
 */
module PoolOptions {
  import opened Wrappers

  /** The values a pool option can hold (a property set to `undefined` is still a key). */
  datatype Value = Bool(b: bool) | Number(n: int) | Text(s: string) | Undefined

  type Options = map<string, Value>

  /** The default parameter value, used when the constructor receives no argument. */
  const CallerDefault: Options := map["min" := Number(1), "max" := Number(10)]

  /** The options object the caller's argument stands for. */
  function Given(poolConfig: Option<Options>): Options {
    poolConfig.GetOr(CallerDefault)
  }

  /** The object literal `{ testOnReturn: true, evictionRunIntervalMillis: 5000, ...poolConfig, autostart: true }`. */
  function Effective(poolConfig: Option<Options>): (r: Options)
    ensures r.Keys == Given(poolConfig).Keys + {"testOnReturn", "evictionRunIntervalMillis", "autostart"}
    ensures r["autostart"] == Bool(true)
    ensures forall k :: k in Given(poolConfig) && k != "autostart" ==> r[k] == Given(poolConfig)[k]
    ensures "testOnReturn" !in Given(poolConfig) ==> r["testOnReturn"] == Bool(true)
    ensures "evictionRunIntervalMillis" !in Given(poolConfig) ==> r["evictionRunIntervalMillis"] == Number(5000)
  {
    map["testOnReturn" := Bool(true), "evictionRunIntervalMillis" := Number(5000)]
      + Given(poolConfig)
      + map["autostart" := Bool(true)]
  }

  /** Whether the pool validates a handle when it is returned, read from the effective options. */
  predicate ValidatesOnReturn(options: Options) {
    "testOnReturn" in options && options["testOnReturn"] == Bool(true)
  }

  /** Without an argument the pool gets min 1, max 10, validation on return, a 5000 ms eviction run and autostart. */
  lemma DefaultOptions()
    ensures Effective(None) == map["min" := Number(1), "max" := Number(10), "testOnReturn" := Bool(true),
                                   "evictionRunIntervalMillis" := Number(5000), "autostart" := Bool(true)]
    ensures ValidatesOnReturn(Effective(None))
  {
  }

  /** A caller's object overrides both defaults but can never switch `autostart` off. */
  lemma CallerOverrides(poolConfig: Options)
    ensures "testOnReturn" in poolConfig ==> Effective(Some(poolConfig))["testOnReturn"] == poolConfig["testOnReturn"]
    ensures "evictionRunIntervalMillis" in poolConfig ==>
      Effective(Some(poolConfig))["evictionRunIntervalMillis"] == poolConfig["evictionRunIntervalMillis"]
    ensures ValidatesOnReturn(Effective(Some(poolConfig))) <==>
      ("testOnReturn" !in poolConfig || poolConfig["testOnReturn"] == Bool(true))
    ensures Effective(Some(poolConfig))["autostart"] == Bool(true)
  {
  }
}
