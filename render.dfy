/**
 * What one call of `PdfGenerator.generatePDF` does, as a function of the
 * outcomes of the steps it cannot see: which handle the pool hands out,
 * whether each renderer call resolves or throws, and whether the pool
 * rejects a disposal call. The result is the list of renderer calls made,
 * the list of disposal calls made before `generatePDF` settles, and what the
 * caller receives.
 */
module Render {
  import opened Wrappers
  import opened PagePool
  import opened StreamLatch

  type Bytes = seq<bv8>

  /** Identifies the stream object `createPDFStream` resolved with. */
  type StreamId = nat

  /** The first argument: a `URL` object or anything else, which is treated as markup. */
  datatype Input = UrlInput(href: string) | Markup(html: string)

  const NetworkIdle: string := "networkidle0"
  const PrintMedia: string := "print"

  datatype Margin = Margin(top: string, right: string, bottom: string, left: string)

  /** The renderer's PDF options; `extra` stands for every other option, forwarded untouched. */
  datatype PdfOptions = PdfOptions(margin: Option<Margin>, format: Option<string>, extra: map<string, string>)

  const DefaultOptions: PdfOptions :=
    PdfOptions(Some(Margin("100px", "50px", "100px", "50px")), Some("A4"), map[])

  /** One call on the page of the acquired handle. */
  datatype PageCall =
    | Goto(url: string, waitUntil: string)
    | SetContent(html: string, waitUntil: string)
    | EmulateMediaType(mediaType: string)
    | Pdf(options: PdfOptions)
    | CreatePdfStream(options: PdfOptions)

  /** How each renderer call ends: `None` or `Success` when it resolves, the error when it throws. */
  datatype PageScript = PageScript(load: Option<Error>, emulate: Option<Error>,
                                   pdf: Result<Bytes, Error>, stream: Result<StreamId, Error>)

  /** What `generatePDF` settles with. */
  datatype Reply = Buffer(bytes: Bytes) | Opened(stream: StreamId) | Threw(error: Error)

  datatype Run = Run(pageCalls: seq<PageCall>, disposals: seq<Disposal>, reply: Reply)

  /** `pdfOptions || { margin: ..., format: 'A4' }`: an options object is always truthy. */
  function EffectiveOptions(pdfOptions: Option<PdfOptions>): (r: PdfOptions)
    ensures pdfOptions.Some? ==> r == pdfOptions.value
    ensures pdfOptions.None? ==>
      r.margin == Some(Margin("100px", "50px", "100px", "50px")) && r.format == Some("A4") && r.extra == map[]
  {
    pdfOptions.GetOr(DefaultOptions)
  }

  /** The `instanceof URL` dispatch: a URL is navigated to, anything else is set as content. */
  function LoadCall(input: Input): (c: PageCall)
    ensures c.Goto? <==> input.UrlInput?
    ensures c.Goto? || c.SetContent?
    ensures c.Goto? ==> c == Goto(input.href, NetworkIdle)
    ensures c.SetContent? ==> c == SetContent(input.html, NetworkIdle)
  {
    match input
    case UrlInput(href) => Goto(href, NetworkIdle)
    case Markup(html) => SetContent(html, NetworkIdle)
  }

  /**
   * `await pool.xxx(page); throw e;`: when the awaited disposal rejects, its
   * error leaves the method instead of `e`.
   */
  function AfterAwait(disposal: Option<Error>, original: Error): Error {
    if disposal.Some? then disposal.value else original
  }

  /** The step a render reaches only when loading and print emulation both resolved. */
  predicate Prepared(page: PageScript) {
    page.load.None? && page.emulate.None?
  }

  /** The error that aborted loading: that of `goto`/`setContent`, else that of `emulateMediaType`. */
  function LoadError(page: PageScript): Error
    requires !Prepared(page)
  {
    if page.load.Some? then page.load.value else page.emulate.value
  }

  /** The renderer calls made up to and including print emulation. */
  function LoadCalls(input: Input, page: PageScript): seq<PageCall> {
    if page.load.Some? then [LoadCall(input)] else [LoadCall(input), EmulateMediaType(PrintMedia)]
  }

  /** The one case in which `generatePDF`, as written, disposes of a handle twice. */
  predicate ReleaseRejectedAfterRender(stream: bool, page: PageScript, ps: PoolScript) {
    !stream && Prepared(page) && page.pdf.Success? && ps.releaseRejection.Some?
  }

  /**
   * `generatePDF` as written. The buffer-mode release sits inside the `try`
   * whose `catch` destroys the handle, so a rejected release is followed by
   * a destroy; the disposals awaited in the content-load and render-failure
   * `catch` blocks are not guarded, so their rejection replaces the error.
   */
  function Generate(acquired: Result<Handle, Error>, input: Input, stream: bool, pdfOptions: Option<PdfOptions>,
                    page: PageScript, ps: PoolScript): (run: Run)
    ensures acquired.Failure? ==> run == Run([], [], Threw(acquired.error))
    ensures acquired.Success? ==> forall d :: d in run.disposals ==> d.handle == acquired.value
    ensures run.reply.Opened? ==> stream && run.disposals == []
    ensures run.reply.Buffer? ==> !stream && run.disposals == [ReleaseCall(acquired.value)]
    ensures acquired.Success? && !run.reply.Opened? ==> 1 <= |run.disposals|
    ensures |run.disposals| == 2 <==> acquired.Success? && ReleaseRejectedAfterRender(stream, page, ps)
  {
    if acquired.Failure? then Run([], [], Threw(acquired.error))
    else
      var h := acquired.value;
      var loaded := LoadCalls(input, page);
      if !Prepared(page) then
        Run(loaded, [ReleaseCall(h)], Threw(AfterAwait(ps.releaseRejection, LoadError(page))))
      else
        var options := EffectiveOptions(pdfOptions);
        if !stream then
          var calls := loaded + [Pdf(options)];
          match page.pdf
          case Success(bytes) =>
            if ps.releaseRejection.None? then Run(calls, [ReleaseCall(h)], Buffer(bytes))
            else Run(calls, [ReleaseCall(h), DestroyCall(h)],
                     Threw(AfterAwait(ps.destroyRejection, ps.releaseRejection.value)))
          case Failure(e) =>
            Run(calls, [DestroyCall(h)], Threw(AfterAwait(ps.destroyRejection, e)))
        else
          var calls := loaded + [CreatePdfStream(options)];
          match page.stream
          case Success(s) => Run(calls, [], Opened(s))
          case Failure(e) => Run(calls, [DestroyCall(h)], Threw(e))
  }

  /** Every disposal call over a request's life: those before it settles, then those its stream's events make. */
  function Lifetime(acquired: Result<Handle, Error>, run: Run, events: seq<StreamEvent>): seq<Disposal>
  {
    if acquired.Success? && run.reply.Opened? then run.disposals + Latch(false, events, acquired.value)
    else run.disposals
  }

  /**
   * Over a request's whole life, release and destroy are never both called
   * and neither twice, except when a buffer-mode release is rejected; and a
   * handle is disposed of exactly once on every path except an opened stream
   * that has not emitted a terminal event yet.
   */
  lemma DisposalAtMostOnce(acquired: Result<Handle, Error>, input: Input, stream: bool, pdfOptions: Option<PdfOptions>,
                           page: PageScript, ps: PoolScript, events: seq<StreamEvent>)
    ensures var all := Lifetime(acquired, Generate(acquired, input, stream, pdfOptions, page, ps), events);
      acquired.Failure? ==> all == []
    ensures var all := Lifetime(acquired, Generate(acquired, input, stream, pdfOptions, page, ps), events);
      acquired.Success? ==> (forall d :: d in all ==> d.handle == acquired.value)
    ensures var all := Lifetime(acquired, Generate(acquired, input, stream, pdfOptions, page, ps), events);
      acquired.Success? ==> (|all| <= 1 <==> !ReleaseRejectedAfterRender(stream, page, ps))
    ensures var run := Generate(acquired, input, stream, pdfOptions, page, ps);
      var all := Lifetime(acquired, run, events);
      acquired.Success? && !ReleaseRejectedAfterRender(stream, page, ps) ==>
        (|all| == 1 <==> !(run.reply.Opened? && events == []))
  {
    var run := Generate(acquired, input, stream, pdfOptions, page, ps);
    if acquired.Success? && run.reply.Opened? {
      LatchDecidedByFirst(events, acquired.value);
    }
  }

  /**
   * A failure while loading content or emulating print releases the handle
   * once, never renders, and rethrows the failure unless the release itself
   * is rejected.
   */
  lemma ContentLoadFailure(h: Handle, input: Input, stream: bool, pdfOptions: Option<PdfOptions>,
                           page: PageScript, ps: PoolScript)
    requires !Prepared(page)
    ensures var run := Generate(Success(h), input, stream, pdfOptions, page, ps);
      run.disposals == [ReleaseCall(h)] &&
      (forall c :: c in run.pageCalls ==> !c.Pdf? && !c.CreatePdfStream?) &&
      run.reply == Threw(if ps.releaseRejection.Some? then ps.releaseRejection.value else LoadError(page))
  {
  }

  /**
   * Content is loaded first, with the URL or markup dispatch and a
   * network-idle wait; print emulation follows a successful load; a render
   * call comes last and gets the caller's options or the defaults.
   */
  lemma CallOrder(h: Handle, input: Input, stream: bool, pdfOptions: Option<PdfOptions>,
                  page: PageScript, ps: PoolScript)
    ensures var calls := Generate(Success(h), input, stream, pdfOptions, page, ps).pageCalls;
      |calls| >= 1 && calls[0] == LoadCall(input) &&
      (page.load.None? ==> |calls| >= 2 && calls[1] == EmulateMediaType(PrintMedia)) &&
      (Prepared(page) ==> calls == [LoadCall(input), EmulateMediaType(PrintMedia),
                                    if stream then CreatePdfStream(EffectiveOptions(pdfOptions))
                                    else Pdf(EffectiveOptions(pdfOptions))])
  {
  }

  /** Buffer mode: a rendered buffer is returned after one release; a failed render is destroyed once, never released. */
  lemma BufferMode(h: Handle, input: Input, pdfOptions: Option<PdfOptions>, page: PageScript, ps: PoolScript)
    requires Prepared(page)
    ensures var run := Generate(Success(h), input, false, pdfOptions, page, ps);
      page.pdf.Success? && ps.releaseRejection.None? ==>
        run.disposals == [ReleaseCall(h)] && run.reply == Buffer(page.pdf.value)
    ensures var run := Generate(Success(h), input, false, pdfOptions, page, ps);
      page.pdf.Failure? ==>
        run.disposals == [DestroyCall(h)] &&
        run.reply == Threw(if ps.destroyRejection.Some? then ps.destroyRejection.value else page.pdf.error)
  {
  }

  /**
   * Stream mode: a failed stream creation destroys the handle once and
   * rethrows the original error whatever the destroy did; an opened stream
   * is handed out with the handle still checked out.
   */
  lemma StreamMode(h: Handle, input: Input, pdfOptions: Option<PdfOptions>, page: PageScript, ps: PoolScript)
    requires Prepared(page)
    ensures var run := Generate(Success(h), input, true, pdfOptions, page, ps);
      page.stream.Failure? ==> run.disposals == [DestroyCall(h)] && run.reply == Threw(page.stream.error)
    ensures var run := Generate(Success(h), input, true, pdfOptions, page, ps);
      page.stream.Success? ==> run.disposals == [] && run.reply == Opened(page.stream.value)
  {
  }

  /**
   * The handle's state when `generatePDF` settles: still checked out while
   * its stream is open; on every other path whose first disposal call the
   * pool accepted, idle after a healthy release (ready for the next request)
   * and gone after a destroy or a release that failed validation.
   */
  lemma {:induction false} HandleStateOnSettle(handles: map<Handle, HandleState>, choice: AcquireChoice, input: Input,
                                              stream: bool, pdfOptions: Option<PdfOptions>, page: PageScript,
                                              ps: PoolScript, healthy: bool)
    requires Acquirable(handles, choice) && !choice.CreateFailed?
    ensures var run := Generate(AcquireResult(choice), input, stream, pdfOptions, page, ps);
      var after := Settle(AfterAcquire(handles, choice), run.disposals, healthy, ps);
      choice.handle in after &&
      (run.reply.Opened? ==> after[choice.handle] == CheckedOut) &&
      (!run.reply.Opened? && Rejection(run.disposals[0], ps).None? ==>
         after[choice.handle] == (if run.disposals[0].ReleaseCall? && healthy then Idle else Gone))
  {
    var h := choice.handle;
    var run := Generate(AcquireResult(choice), input, stream, pdfOptions, page, ps);
    var start := AfterAcquire(handles, choice);
    SettleKeys(start, run.disposals, healthy, ps);
    if !run.reply.Opened? {
      var first := Apply(start, run.disposals[0], healthy, ps);
      if Rejection(run.disposals[0], ps).None? {
        if first[h] == Gone {
          SettleKeepsGone(first, run.disposals[1..], healthy, ps, h);
        } else {
          // only an accepted, healthy release leaves the handle idle, and it is the only call
          assert first[h] == Idle && run.disposals == [ReleaseCall(h)];
          assert Settle(first, run.disposals[1..], healthy, ps) == first;
        }
      } else {
        // a rejected first call is a release, possibly followed by a destroy
        var rest := run.disposals[1..];
        assert rest == [] || rest == [DestroyCall(h)];
      }
    }
  }

  /** A request's disposal calls never change the state of a handle it did not acquire. */
  lemma OtherHandlesUntouched(handles: map<Handle, HandleState>, choice: AcquireChoice, input: Input, stream: bool,
                              pdfOptions: Option<PdfOptions>, page: PageScript, ps: PoolScript, healthy: bool, k: Handle)
    requires Acquirable(handles, choice) && !choice.CreateFailed?
    requires k in handles && k != choice.handle
    ensures var run := Generate(AcquireResult(choice), input, stream, pdfOptions, page, ps);
      var after := Settle(AfterAcquire(handles, choice), run.disposals, healthy, ps);
      k in after && after[k] == handles[k]
  {
    var run := Generate(AcquireResult(choice), input, stream, pdfOptions, page, ps);
    SettleOthers(AfterAcquire(handles, choice), run.disposals, healthy, ps, k);
  }

  /* -------------------------------------------------------------------------
   * The evidently intended behaviour: every disposal swallows its own failure
   * (as the stream path already does), and the buffer-mode release is outside
   * the `try` that destroys on a render failure.
   * ---------------------------------------------------------------------- */

  function GenerateIntended(acquired: Result<Handle, Error>, input: Input, stream: bool, pdfOptions: Option<PdfOptions>,
                            page: PageScript): (run: Run)
    ensures acquired.Failure? ==> run == Run([], [], Threw(acquired.error))
    ensures run.reply.Opened? ==> stream && run.disposals == []
  {
    if acquired.Failure? then Run([], [], Threw(acquired.error))
    else
      var h := acquired.value;
      var loaded := LoadCalls(input, page);
      if !Prepared(page) then Run(loaded, [ReleaseCall(h)], Threw(LoadError(page)))
      else
        var options := EffectiveOptions(pdfOptions);
        if !stream then
          var calls := loaded + [Pdf(options)];
          match page.pdf
          case Success(bytes) => Run(calls, [ReleaseCall(h)], Buffer(bytes))
          case Failure(e) => Run(calls, [DestroyCall(h)], Threw(e))
        else
          var calls := loaded + [CreatePdfStream(options)];
          match page.stream
          case Success(s) => Run(calls, [], Opened(s))
          case Failure(e) => Run(calls, [DestroyCall(h)], Threw(e))
  }

  /** The caller always gets the renderer's own outcome: its buffer, its stream, or its first error. */
  function RendererOutcome(stream: bool, page: PageScript): Reply {
    if !Prepared(page) then Threw(LoadError(page))
    else if !stream then (match page.pdf case Success(b) => Buffer(b) case Failure(e) => Threw(e))
    else (match page.stream case Success(s) => Opened(s) case Failure(e) => Threw(e))
  }

  /**
   * With the intended behaviour, whatever the pool does with the disposal
   * calls: exactly one disposal per request once any terminal event occurred
   * (none before that on an open stream), and the renderer's own outcome
   * reaches the caller.
   */
  lemma IntendedDisposesOnce(h: Handle, input: Input, stream: bool, pdfOptions: Option<PdfOptions>,
                             page: PageScript, events: seq<StreamEvent>)
    ensures var run := GenerateIntended(Success(h), input, stream, pdfOptions, page);
      run.reply == RendererOutcome(stream, page)
    ensures var run := GenerateIntended(Success(h), input, stream, pdfOptions, page);
      var all := Lifetime(Success(h), run, events);
      |all| <= 1 && (|all| == 1 <==> !(run.reply.Opened? && events == [])) &&
      (forall d :: d in all ==> d.handle == h)
  {
    var run := GenerateIntended(Success(h), input, stream, pdfOptions, page);
    if run.reply.Opened? {
      LatchDecidedByFirst(events, h);
    }
  }

  /** When the pool accepts every disposal call, the code as written behaves as intended. */
  lemma IntendedAgreesWithoutRejections(acquired: Result<Handle, Error>, input: Input, stream: bool,
                                        pdfOptions: Option<PdfOptions>, page: PageScript, ps: PoolScript)
    requires ps.releaseRejection.None? && ps.destroyRejection.None?
    ensures Generate(acquired, input, stream, pdfOptions, page, ps) == GenerateIntended(acquired, input, stream, pdfOptions, page)
  {
  }

  /**
   * As written, a rejected release after a successful buffer render is
   * followed by a destroy of the same handle, and the rendered buffer is lost.
   */
  lemma AsWrittenDoubleDisposal(h: Handle, input: Input, pdfOptions: Option<PdfOptions>, page: PageScript, ps: PoolScript)
    requires Prepared(page) && page.pdf.Success? && ps.releaseRejection.Some?
    ensures var run := Generate(Success(h), input, false, pdfOptions, page, ps);
      run.disposals == [ReleaseCall(h), DestroyCall(h)] && run.reply.Threw? &&
      run.reply != GenerateIntended(Success(h), input, false, pdfOptions, page).reply
  {
  }

  /**
   * As written, a rejected disposal on the content-load or render-failure
   * path replaces the error the caller should see, in buffer and in stream mode.
   */
  lemma AsWrittenErrorMasked(h: Handle, input: Input, stream: bool, pdfOptions: Option<PdfOptions>,
                             page: PageScript, ps: PoolScript)
    ensures !Prepared(page) && ps.releaseRejection.Some? ==>
      Generate(Success(h), input, stream, pdfOptions, page, ps).reply == Threw(ps.releaseRejection.value)
    ensures !Prepared(page) && ps.releaseRejection.Some? && ps.releaseRejection.value != LoadError(page) ==>
      Generate(Success(h), input, stream, pdfOptions, page, ps).reply
        != GenerateIntended(Success(h), input, stream, pdfOptions, page).reply
    ensures Prepared(page) && !stream && page.pdf.Failure? && ps.destroyRejection.Some? ==>
      Generate(Success(h), input, stream, pdfOptions, page, ps).reply == Threw(ps.destroyRejection.value)
    ensures Prepared(page) && !stream && page.pdf.Failure? && ps.destroyRejection.Some? &&
            ps.destroyRejection.value != page.pdf.error ==>
      Generate(Success(h), input, stream, pdfOptions, page, ps).reply
        != GenerateIntended(Success(h), input, stream, pdfOptions, page).reply
  {
  }
}
