# hpdf render pipeline — a Dafny model

hpdf turns HTML markup or a URL into a PDF with a pool of headless-browser
pages. `PdfGenerator.generatePDF` borrows a page handle from the pool,
loads the content, renders a buffer or opens a stream, and then has to end
its ownership of the handle by exactly one of two pool calls. **Release**
gives the handle back for reuse; the pool validates it first. **Destroy**
throws it away. This project models that handle-disposal logic, the
`released` latch shared by the stream's `error`/`close`/`end` listeners,
the choice of default PDF options, the URL-or-markup dispatch, the
factory's exception mapping in `validate`/`destroy`, and the pool options
the constructor builds.

Renderer calls (`goto`, `setContent`, `emulateMediaType`, `pdf`,
`createPDFStream`, `metrics`, `isConnected`, `close`) are foreign I/O. Each
one's outcome is an input: it resolves or throws. The pool library is not
modelled. Module `PagePool` is a stand-in for it and keeps only what
`generatePDF` relies on: a map from handle to idle / checked out / gone, and
a log of release and destroy calls. Three things are inputs to the stand-in,
because the library decides them: which handle acquire hands out, whether
the factory manages to create one, and whether a disposal call is rejected.

Modules:
- `Wrappers` (wrappers.dfy): Option, Result, and the error type.
- `PageFactory` (page_factory.dfy): `validate` and `destroy`.
- `PoolOptions` (pool_options.dfy): the constructor's options object.
- `PagePool` (page_pool.dfy): the stand-in pool class.
- `StreamLatch` (stream_latch.dfy): the stream listeners.
  - As functions: `Fire` and `Latch`.
  - As a class: `Session`, whose field `released` is set by `OnError`/`OnClose`/`OnEnd`.
- `Render` (render.dfy): `Generate`, what one `generatePDF` call does, as a function of the inputs.
- `Generator` (generator.dfy): the `PdfGenerator` class.
  - Its `GeneratePdf` method runs the steps against the pool object.
  - It is proved to match `Render.Generate`: the same renderer calls, disposal calls, pool state and reply.

The stream path swallows disposal failures (src/index.ts:132, 138, 144,
148). The release at line 106 and the destroy at line 121 are awaited
without a catch, so a rejection from either replaces the error the caller
sees (see "## Findings").

## Model

| member | source | states |
|---|---|---|
| PageFactory.Validate | src/index.ts:38-44 | A handle is valid exactly when `metrics()` resolves with a truthy value. A throwing probe yields `false`, never an exception. |
| PageFactory.Destroy | src/index.ts:28-36 | `destroy` never rejects. It calls `close` exactly when `isConnected()` answered true. A throw from either call is swallowed. |
| PoolOptions.Effective | src/index.ts:53-59 | The pool options are the caller's keys plus `testOnReturn`, `evictionRunIntervalMillis` and `autostart`. Every caller key except `autostart` keeps the caller's value. Missing `testOnReturn` defaults to true, and missing `evictionRunIntervalMillis` to 5000. `autostart` is always true. |
| PoolOptions.DefaultOptions | src/index.ts:53-59 | With no argument the options are exactly min 1, max 10, testOnReturn true, eviction interval 5000 and autostart true. |
| PoolOptions.CallerOverrides | src/index.ts:53-59 | A caller's `testOnReturn` and `evictionRunIntervalMillis` win over the defaults. The pool validates on return unless the caller sets `testOnReturn` to something other than true. The caller cannot switch `autostart` off. |
| PagePool.Pool.Acquire | src/index.ts:92 | Acquire either checks out the chosen idle or new handle and returns it, or returns the factory's error and leaves the pool unchanged. It never hands out a handle that is gone or checked out. |
| PagePool.Pool.Release | src/index.ts:55 | Every release is logged. An accepted release of a checked-out handle makes it idle, unless validation on return (`testOnReturn`) finds it unhealthy; then it is gone. The rejection reaches the caller. |
| PagePool.Pool.Destroy | src/index.ts:121 | Every destroy is logged. An accepted destroy of a checked-out handle makes it gone. The rejection reaches the caller. |
| PagePool.Apply | src/index.ts:54-55 | One disposal call changes only its own handle, and only from checked out. A rejected call changes nothing. |
| PagePool.SettleKeepsGone | src/index.ts:54-55 | No sequence of disposal calls brings back a destroyed handle. |
| PagePool.SettleOthers | src/index.ts:54-55 | Disposal calls about other handles never change a handle's state. |
| StreamLatch.Terminal | src/index.ts:129-146 | `error` asks for a destroy. `close` and `end` ask for a release. The call is always about the stream's own handle. |
| StreamLatch.Fire | src/index.ts:130-133 | A listener that finds the flag set makes no call. One that finds it clear makes exactly the call its event asks for. |
| StreamLatch.LatchClosed | src/index.ts:127-146 | Once `released` is set, no further event disposes of anything. |
| StreamLatch.LatchDecidedByFirst | src/index.ts:127-146 | From a fresh stream, any sequence of `error`/`close`/`end` events makes at most one disposal call. It is made exactly when some event occurs, and the first event decides which call. |
| StreamLatch.Session.constructor | src/index.ts:127-128 | A stream is handed out with `released` false. |
| StreamLatch.Session.OnError | src/index.ts:129-134 | The `error` listener sets `released`. It destroys the handle only if no terminal event came first. Its rejection is dropped. |
| StreamLatch.Session.OnClose | src/index.ts:135-140 | The `close` listener sets `released`. It releases the handle only if no terminal event came first. Its rejection is dropped. |
| StreamLatch.Session.Deliver | src/index.ts:127-146 | For any sequence of `error`/`close`/`end` events handed to the listeners in order, the disposal calls made are exactly those `Latch` describes, so at most one, decided by the first event. `released` goes from false to true at the first event and never back. |
| StreamLatch.Session.OnEnd | src/index.ts:141-146 | The `end` listener sets `released`. It releases the handle only if no terminal event came first. Its rejection is dropped. |
| Render.EffectiveOptions | src/index.ts:110-113 | The caller's PDF options are used unchanged when given. Otherwise the options are margins 100px/50px/100px/50px with format A4 and nothing else. |
| Render.LoadCall | src/index.ts:95-101 | A `URL` is navigated to with `goto` and anything else is set with `setContent`. Both wait for `networkidle0`. |
| Render.Generate | src/index.ts:87-151 | A failed acquire propagates with no other call. Every disposal is about the acquired handle. A buffer comes back after exactly one release. An opened stream comes back with no disposal yet. A handle is disposed of twice exactly when a buffer-mode release is rejected. |
| Render.DisposalAtMostOnce | src/index.ts:92-150 | Over a request's life (its own calls, then its stream's events), release and destroy are never both called and neither is called twice. The one exception is a rejected buffer-mode release. Disposal happens exactly once on every path except an open stream with no terminal event yet. |
| Render.ContentLoadFailure | src/index.ts:94-108 | A throw from loading or from `emulateMediaType` releases the handle once and makes no render call. It rethrows the original error, unless the release itself rejects. |
| Render.CallOrder | src/index.ts:95-128 | Content is loaded first. `emulateMediaType('print')` follows a successful load. The last call is `pdf` or `createPDFStream`, with the caller's options or the defaults. |
| Render.BufferMode | src/index.ts:115-124 | A rendered buffer is returned after exactly one release when the release is accepted. A failed render is destroyed once and never released, and its error is rethrown unless the destroy rejects. |
| Render.StreamMode | src/index.ts:126-150 | A failed `createPDFStream` destroys the handle once and rethrows the original error whatever the destroy did. An opened stream is returned with no disposal yet. |
| Render.HandleStateOnSettle | src/index.ts:92-150 | When `generatePDF` settles with an open stream, the handle is still checked out. On every other path whose first disposal call the pool accepted, the handle is idle after a healthy release, so the next request can reuse it. It is gone after a destroy or a release that failed validation. |
| Render.OtherHandlesUntouched | src/index.ts:92-150 | A request never changes the pool state of a handle it did not acquire. |
| Render.GenerateIntended | src/index.ts:105-150 | The corrected pipeline. Every disposal swallows its failure, and the buffer-mode release is outside the `try`. A failed acquire propagates unchanged, and an open stream has no disposal yet. |
| Render.IntendedDisposesOnce | src/index.ts:92-150 | With the corrected pipeline and any pool behaviour, there is at most one disposal per request, and exactly one unless a stream is open with no terminal event. The caller always gets the renderer's own buffer, stream or first error. |
| Render.IntendedAgreesWithoutRejections | src/index.ts:105-122 | When the pool accepts every disposal call, the code as written and the corrected pipeline behave identically. |
| Render.AsWrittenDoubleDisposal | src/index.ts:116-122 | As written, a rejected release after a successful buffer render is followed by a destroy of the same handle, and the buffer is lost. |
| Render.AsWrittenErrorMasked | src/index.ts:105-122 | As written, in either mode, a rejected release after a content-load failure replaces the load error the caller receives. In buffer mode, a rejected destroy after a render failure replaces the render error. |
| Generator.PdfGenerator.constructor | src/index.ts:53-60 | The generator builds the effective pool options and a fresh, empty pool. The pool validates on return exactly when those options say `testOnReturn: true`. |
| Generator.PdfGenerator.GeneratePdf | src/index.ts:87-151 | Run step by step against the pool, the method matches `Render.Generate`. It makes the same renderer calls, logs the same disposal calls, leaves the same pool state and settles with the same reply. It returns a fresh session with `released` false exactly when a stream was opened. |

## Findings

| source | as written | input that shows it | evidently intended | confidence | as-written member | corrected member |
|---|---|---|---|---|---|---|
| src/index.ts:116-122 | `await release` is inside the `try` whose `catch` destroys the page | `pdf` resolves, then `release` rejects: the handle gets release and then destroy, and the caller gets the release error instead of the buffer | one disposal per request; the buffer reaches the caller | low; not executed (whether the pool library ever rejects such a release is outside this model) | Render.AsWrittenDoubleDisposal | Render.IntendedDisposesOnce |
| src/index.ts:105-107 | `await release` in the content-load `catch` has no `.catch`; line 121 is the same for destroy | `setContent` throws e and `release` rejects with e', so the caller gets e'. Likewise, `pdf` throws e and `destroy` rejects with e', so the caller gets e' | the original error reaches the caller, as on the stream path at line 148 | low; not executed | Render.AsWrittenErrorMasked | Render.IntendedDisposesOnce |

`PdfGenerator.GeneratePdf` follows the code as written. `Render.IntendedAgreesWithoutRejections`
shows that as written and corrected differ only when the pool rejects a
disposal call.

## Left out

- The pool library's internals are not modelled. That covers the FIFO wait queue, the maximum and minimum counts, `testOnBorrow` retries, the eviction timer, and creating a replacement handle. The stand-in's acquire choice, validation probe and rejections are inputs instead.
- PagePool.Pool.Release: validates on return whenever the pool was built with `testOnReturn: true`. It does not model how the library reads other values of that option.
- PageFactory `create` is not modelled. It launches a browser and opens a page, which is foreign I/O; the acquire choice stands for its outcome.
- `stop` (`drain` and `clear`) and `awaitPool` (`ready`) are not modelled. They only call the pool library.
- Renderer internals and the bytes of the PDF are not modelled. This includes whether buffer and stream outputs have equal length.
- Timing is not modelled: concurrency between requests, FIFO completion order, and a buffer request waiting for a stream's terminal event. The model shows only that an open stream keeps its handle checked out.
- `.once` listener removal is not modelled separately. The `released` flag already makes every event after the first a no-op.
- Events a stream emits after its listeners ran are not modelled, for example Node's behaviour on an `error` with no listener left.
- `generatePDF(x, stream)` takes `stream` as a boolean. An omitted argument is the default `false`.
