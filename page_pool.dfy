/**
 * A stand-in for the pool library that `PdfGenerator` borrows page handles
 * from. It keeps only what `generatePDF` relies on: each handle is idle,
 * checked out or gone; acquire checks a handle out; release checks it back
 * in (validating it first when the pool validates on return); destroy
 * removes it. Every release and destroy call is logged in order, so that
 * how often a handle was disposed of can be stated. Which handle acquire
 * hands out, whether the factory manages to create one, and whether a
 * release or destroy call is rejected are inputs: they are decided inside
 * the library, which is not part of this model.
 */
module PagePool {
  import opened Wrappers
  import PageFactory

  type Handle = nat

  datatype HandleState = Idle | CheckedOut | Gone

  /** One call from the generator to the pool that ends its ownership of a handle. */
  datatype Disposal = ReleaseCall(handle: Handle) | DestroyCall(handle: Handle)

  /** What acquire does: hand out an idle handle, create a new one, or fail to create one. */
  datatype AcquireChoice = Reuse(handle: Handle) | Create(handle: Handle) | CreateFailed(error: Error)

  /** What the pool does with the disposal calls of one request: the validation probe and the rejections. */
  datatype PoolScript = PoolScript(probe: PageFactory.Probe, releaseRejection: Option<Error>, destroyRejection: Option<Error>)

  /** The pool can only reuse an idle handle and only create a handle it does not hold yet. */
  predicate Acquirable(handles: map<Handle, HandleState>, choice: AcquireChoice) {
    match choice
    case Reuse(h) => h in handles && handles[h] == Idle
    case Create(h) => h !in handles
    case CreateFailed(_) => true
  }

  function AcquireResult(choice: AcquireChoice): (r: Result<Handle, Error>)
    ensures r.Failure? <==> choice.CreateFailed?
    ensures r.Success? ==> r.value == choice.handle
  {
    match choice
    case CreateFailed(e) => Failure(e)
    case Reuse(h) => Success(h)
    case Create(h) => Success(h)
  }

  function AfterAcquire(handles: map<Handle, HandleState>, choice: AcquireChoice): (r: map<Handle, HandleState>)
    requires Acquirable(handles, choice)
    ensures choice.CreateFailed? ==> r == handles
    ensures !choice.CreateFailed? ==> r.Keys == handles.Keys + {choice.handle} && r[choice.handle] == CheckedOut
    ensures forall k :: k in handles && (choice.CreateFailed? || k != choice.handle) ==> r[k] == handles[k]
  {
    if choice.CreateFailed? then handles else handles[choice.handle := CheckedOut]
  }

  /** Whether a returned handle may go back to the idle set. */
  function Healthy(validateOnReturn: bool, probe: PageFactory.Probe): bool {
    !validateOnReturn || PageFactory.Validate(probe)
  }

  function Rejection(d: Disposal, ps: PoolScript): Option<Error> {
    if d.ReleaseCall? then ps.releaseRejection else ps.destroyRejection
  }

  /**
   * The handle map after one disposal call: a call that is not rejected moves
   * a checked-out handle to idle (a healthy release) or gone (an unhealthy
   * release or a destroy); every other handle and every other case is left alone.
   */
  function Apply(handles: map<Handle, HandleState>, d: Disposal, healthy: bool, ps: PoolScript): (r: map<Handle, HandleState>)
    ensures r.Keys == handles.Keys
    ensures forall k :: k in handles && k != d.handle ==> r[k] == handles[k]
    ensures d.handle in handles && handles[d.handle] == CheckedOut && Rejection(d, ps).None? ==>
      r[d.handle] == (if d.ReleaseCall? && healthy then Idle else Gone)
    ensures d.handle in handles && (handles[d.handle] != CheckedOut || Rejection(d, ps).Some?) ==>
      r[d.handle] == handles[d.handle]
  {
    if Rejection(d, ps).Some? || d.handle !in handles || handles[d.handle] != CheckedOut then handles
    else handles[d.handle := if d.ReleaseCall? && healthy then Idle else Gone]
  }

  /** The handle map after a sequence of disposal calls. */
  function Settle(handles: map<Handle, HandleState>, ds: seq<Disposal>, healthy: bool, ps: PoolScript): map<Handle, HandleState>
    decreases |ds|
  {
    if ds == [] then handles else Settle(Apply(handles, ds[0], healthy, ps), ds[1..], healthy, ps)
  }

  /** No disposal call adds or removes a handle. */
  lemma {:induction false} SettleKeys(handles: map<Handle, HandleState>, ds: seq<Disposal>, healthy: bool, ps: PoolScript)
    ensures Settle(handles, ds, healthy, ps).Keys == handles.Keys
    decreases |ds|
  {
    if ds != [] {
      SettleKeys(Apply(handles, ds[0], healthy, ps), ds[1..], healthy, ps);
    }
  }

  /** Settling two runs of calls one after the other is settling them together. */
  lemma {:induction false} SettleAppend(handles: map<Handle, HandleState>, a: seq<Disposal>, b: seq<Disposal>,
                                        healthy: bool, ps: PoolScript)
    ensures Settle(handles, a + b, healthy, ps) == Settle(Settle(handles, a, healthy, ps), b, healthy, ps)
    decreases |a|
  {
    if a != [] {
      assert (a + b)[1..] == a[1..] + b;
      SettleAppend(Apply(handles, a[0], healthy, ps), a[1..], b, healthy, ps);
    } else {
      assert a + b == b;
    }
  }

  /** No disposal call brings back a handle that is gone. */
  lemma {:induction false} SettleKeepsGone(handles: map<Handle, HandleState>, ds: seq<Disposal>, healthy: bool, ps: PoolScript, k: Handle)
    requires k in handles && handles[k] == Gone
    ensures k in Settle(handles, ds, healthy, ps) && Settle(handles, ds, healthy, ps)[k] == Gone
    decreases |ds|
  {
    if ds != [] {
      SettleKeepsGone(Apply(handles, ds[0], healthy, ps), ds[1..], healthy, ps, k);
    }
  }

  /** Disposal calls about other handles leave a handle's state alone. */
  lemma {:induction false} SettleOthers(handles: map<Handle, HandleState>, ds: seq<Disposal>, healthy: bool, ps: PoolScript, k: Handle)
    requires k in handles
    requires forall i :: 0 <= i < |ds| ==> ds[i].handle != k
    ensures k in Settle(handles, ds, healthy, ps) && Settle(handles, ds, healthy, ps)[k] == handles[k]
    decreases |ds|
  {
    if ds != [] {
      SettleOthers(Apply(handles, ds[0], healthy, ps), ds[1..], healthy, ps, k);
    }
  }

  class Pool {
    /** Whether release runs the factory's validation (the `testOnReturn` option). */
    const validateOnReturn: bool
    var handles: map<Handle, HandleState>
    /** Every release and destroy call made on this pool, in order. */
    var disposals: seq<Disposal>

    constructor (validateOnReturn: bool)
      ensures this.validateOnReturn == validateOnReturn
      ensures handles == map[] && disposals == []
    {
      this.validateOnReturn := validateOnReturn;
      handles := map[];
      disposals := [];
    }

    /** Checks out the handle the pool chose, or reports the factory's failure. */
    method Acquire(choice: AcquireChoice) returns (r: Result<Handle, Error>)
      requires Acquirable(handles, choice)
      modifies this
      ensures r == AcquireResult(choice)
      ensures handles == AfterAcquire(old(handles), choice)
      ensures disposals == old(disposals)
    {
      match choice
      case CreateFailed(e) =>
        r := Failure(e);
      case Reuse(h) =>
        handles := handles[h := CheckedOut];
        r := Success(h);
      case Create(h) =>
        handles := handles[h := CheckedOut];
        r := Success(h);
    }

    /** Returns a handle; a handle that fails validation is removed instead of becoming idle. */
    method Release(h: Handle, ps: PoolScript) returns (err: Option<Error>)
      modifies this
      ensures err == ps.releaseRejection
      ensures disposals == old(disposals) + [ReleaseCall(h)]
      ensures handles == Apply(old(handles), ReleaseCall(h), Healthy(validateOnReturn, ps.probe), ps)
    {
      var healthy := Healthy(validateOnReturn, ps.probe);
      disposals := disposals + [ReleaseCall(h)];
      err := ps.releaseRejection;
      if err.None? && h in handles && handles[h] == CheckedOut {
        handles := handles[h := if healthy then Idle else Gone];
      }
    }

    /** Removes a handle for good. */
    method Destroy(h: Handle, ps: PoolScript) returns (err: Option<Error>)
      modifies this
      ensures err == ps.destroyRejection
      ensures disposals == old(disposals) + [DestroyCall(h)]
      ensures handles == Apply(old(handles), DestroyCall(h), Healthy(validateOnReturn, ps.probe), ps)
    {
      disposals := disposals + [DestroyCall(h)];
      err := ps.destroyRejection;
      if err.None? && h in handles && handles[h] == CheckedOut {
        handles := handles[h := Gone];
      }
    }
  }
}
