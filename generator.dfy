/**
 * `PdfGenerator`: owns one pool of page handles and runs `generatePDF`
 * step by step against it. Each renderer call and each pool decision is an
 * input (see module Render); the method is proved to make exactly the calls,
 * leave exactly the pool state and settle with exactly the reply that
 * `Render.Generate` describes, and to hand out a fresh stream session on the
 * stream path.
 */
module Generator {
  import opened Wrappers
  import opened PagePool
  import opened StreamLatch
  import opened Render
  import PoolOptions

  class PdfGenerator {
    /** The options object handed to the pool library. */
    const poolOptions: PoolOptions.Options
    const pool: Pool

    constructor (poolConfig: Option<PoolOptions.Options>)
      ensures poolOptions == PoolOptions.Effective(poolConfig)
      ensures fresh(pool)
      ensures pool.validateOnReturn == PoolOptions.ValidatesOnReturn(poolOptions)
      ensures pool.handles == map[] && pool.disposals == []
    {
      poolOptions := PoolOptions.Effective(poolConfig);
      pool := new Pool(PoolOptions.ValidatesOnReturn(PoolOptions.Effective(poolConfig)));
    }

    method GeneratePdf(input: Input, stream: bool, pdfOptions: Option<PdfOptions>,
                       choice: AcquireChoice, page: PageScript, ps: PoolScript)
      returns (reply: Reply, pageCalls: seq<PageCall>, session: Session?)
      requires Acquirable(pool.handles, choice)
      modifies pool
      ensures var run := Generate(AcquireResult(choice), input, stream, pdfOptions, page, ps);
        reply == run.reply && pageCalls == run.pageCalls &&
        pool.disposals == old(pool.disposals) + run.disposals &&
        pool.handles == Settle(AfterAcquire(old(pool.handles), choice), run.disposals,
                               Healthy(pool.validateOnReturn, ps.probe), ps)
      ensures (session != null) <==> reply.Opened?
      ensures session != null ==>
        fresh(session) && session.pool == pool && session.handle == choice.handle && !session.released
    {
      var acquired := pool.Acquire(choice);
      if acquired.Failure? {
        return Threw(acquired.error), [], null;
      }
      var h := acquired.value;
      session := null;

      // try { goto or setContent; emulateMediaType } catch (e) { await release; throw e }
      pageCalls := [LoadCall(input)];
      var failure := page.load;
      if failure.None? {
        pageCalls := pageCalls + [EmulateMediaType(PrintMedia)];
        failure := page.emulate;
      }
      if failure.Some? {
        var err := pool.Release(h, ps);
        reply := Threw(AfterAwait(err, failure.value));
        return;
      }

      var options := EffectiveOptions(pdfOptions);
      if !stream {
        // try { pdf; await release; return } catch (e) { await destroy; throw e }
        pageCalls := pageCalls + [Pdf(options)];
        match page.pdf {
          case Success(bytes) =>
            var err := pool.Release(h, ps);
            if err.None? {
              reply := Buffer(bytes);
            } else {
              ghost var released := pool.handles;
              var err2 := pool.Destroy(h, ps);
              reply := Threw(AfterAwait(err2, err.value));
              // the rejected release followed by the destroy, one disposal call at a time
              assert pool.handles == Settle(released, [DestroyCall(h)], Healthy(pool.validateOnReturn, ps.probe), ps);
            }
          case Failure(e) =>
            var err := pool.Destroy(h, ps);
            reply := Threw(AfterAwait(err, e));
        }
        return;
      }

      // try { return (await createPDFStream).once(...) } catch (e) { await destroy.catch(); throw e }
      pageCalls := pageCalls + [CreatePdfStream(options)];
      match page.stream
      case Success(s) =>
        session := new Session(pool, h);
        reply := Opened(s);
      case Failure(e) =>
        var _ := pool.Destroy(h, ps);
        reply := Threw(e);
    }
  }
}
