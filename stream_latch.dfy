/**
 * The stream path of `generatePDF`: once the renderer has produced a stream,
 * three one-shot listeners (`error`, `close`, `end`) share a single
 * `released` flag, and only the first terminal event disposes of the handle:
 * `error` destroys it, `close` and `end` release it. Disposal failures are
 * caught and dropped, because the caller already holds the stream.
 */
module StreamLatch {
  import opened Wrappers
  import opened PagePool

  datatype StreamEvent = ErrorEvent | CloseEvent | EndEvent

  /** The disposal a terminal event asks for. */
  function Terminal(ev: StreamEvent, h: Handle): (d: Disposal)
    ensures d.handle == h
    ensures d.DestroyCall? <==> ev == ErrorEvent
  {
    if ev == ErrorEvent then DestroyCall(h) else ReleaseCall(h)
  }

  /** The disposal calls one listener makes, given the flag it finds. */
  function Fire(released: bool, ev: StreamEvent, h: Handle): (ds: seq<Disposal>)
    ensures released ==> ds == []
    ensures !released ==> ds == [Terminal(ev, h)]
  {
    if released then [] else [Terminal(ev, h)]
  }

  /** The disposal calls made while the stream emits `events`, starting from the flag `released`. */
  function Latch(released: bool, events: seq<StreamEvent>, h: Handle): seq<Disposal>
    decreases |events|
  {
    if events == [] then [] else Fire(released, events[0], h) + Latch(true, events[1..], h)
  }

  /** Once the flag is set, no further event disposes of anything. */
  lemma {:induction false} LatchClosed(events: seq<StreamEvent>, h: Handle)
    ensures Latch(true, events, h) == []
    decreases |events|
  {
    if events != [] {
      LatchClosed(events[1..], h);
    }
  }

  /**
   * From a fresh session, any sequence of events makes at most one disposal
   * call, and it is the one the first event asks for.
   */
  lemma {:induction false} LatchDecidedByFirst(events: seq<StreamEvent>, h: Handle)
    ensures Latch(false, events, h) == if events == [] then [] else [Terminal(events[0], h)]
  {
    if events != [] {
      LatchClosed(events[1..], h);
    }
  }

  /** One more event appends to the calls already made exactly what its listener makes, given the flag it finds. */
  lemma {:induction false} LatchSnoc(released: bool, events: seq<StreamEvent>, ev: StreamEvent, h: Handle)
    ensures Latch(released, events + [ev], h) == Latch(released, events, h) + Fire(released || events != [], ev, h)
    decreases |events|
  {
    if events != [] {
      assert (events + [ev])[1..] == events[1..] + [ev];
      LatchSnoc(true, events[1..], ev, h);
    }
  }

  /** The listeners attached to one stream; the handle stays checked out until one of them disposes of it. */
  class Session {
    const pool: Pool
    const handle: Handle
    var released: bool

    constructor (pool: Pool, handle: Handle)
      ensures this.pool == pool && this.handle == handle && !released
    {
      this.pool := pool;
      this.handle := handle;
      released := false;
    }

    /** The `error` listener: destroys the handle unless a terminal event came first. */
    method OnError(ps: PoolScript)
      modifies this`released, pool
      ensures released
      ensures pool.disposals == old(pool.disposals) + Fire(old(released), ErrorEvent, handle)
      ensures pool.handles == Settle(old(pool.handles), Fire(old(released), ErrorEvent, handle),
                                     Healthy(pool.validateOnReturn, ps.probe), ps)
    {
      if !released {
        released := true;
        var _ := pool.Destroy(handle, ps);
      }
    }

    /** The `close` listener: releases the handle unless a terminal event came first. */
    method OnClose(ps: PoolScript)
      modifies this`released, pool
      ensures released
      ensures pool.disposals == old(pool.disposals) + Fire(old(released), CloseEvent, handle)
      ensures pool.handles == Settle(old(pool.handles), Fire(old(released), CloseEvent, handle),
                                     Healthy(pool.validateOnReturn, ps.probe), ps)
    {
      if !released {
        released := true;
        var _ := pool.Release(handle, ps);
      }
    }

    /** The `end` listener: releases the handle unless a terminal event came first. */
    method OnEnd(ps: PoolScript)
      modifies this`released, pool
      ensures released
      ensures pool.disposals == old(pool.disposals) + Fire(old(released), EndEvent, handle)
      ensures pool.handles == Settle(old(pool.handles), Fire(old(released), EndEvent, handle),
                                     Healthy(pool.validateOnReturn, ps.probe), ps)
    {
      if !released {
        released := true;
        var _ := pool.Release(handle, ps);
      }
    }

    /**
     * The stream emitting `events` in order, each handed to its listener:
     * whatever the sequence, the calls made are those `Latch` describes, and
     * `released` goes from false to true at the first event and stays true.
     */
    method Deliver(events: seq<StreamEvent>, ps: PoolScript)
      modifies this`released, pool
      ensures released == (old(released) || events != [])
      ensures pool.disposals == old(pool.disposals) + Latch(old(released), events, handle)
      ensures pool.handles == Settle(old(pool.handles), Latch(old(released), events, handle),
                                     Healthy(pool.validateOnReturn, ps.probe), ps)
    {
      ghost var healthy := Healthy(pool.validateOnReturn, ps.probe);
      var i := 0;
      while i < |events|
        invariant 0 <= i <= |events|
        invariant released == (old(released) || i > 0)
        invariant pool.disposals == old(pool.disposals) + Latch(old(released), events[..i], handle)
        invariant pool.handles == Settle(old(pool.handles), Latch(old(released), events[..i], handle), healthy, ps)
      {
        ghost var made := Latch(old(released), events[..i], handle);
        ghost var fired := Fire(released, events[i], handle);
        match events[i] {
          case ErrorEvent => OnError(ps);
          case CloseEvent => OnClose(ps);
          case EndEvent => OnEnd(ps);
        }
        assert events[..i + 1] == events[..i] + [events[i]];
        LatchSnoc(old(released), events[..i], events[i], handle);
        SettleAppend(old(pool.handles), made, fired, healthy, ps);
        i := i + 1;
      }
      assert events[..i] == events;
    }
  }
}
