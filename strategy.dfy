/**
 * The strategy object itself: the mutable cursor fields, the per-page loop
 * and the multi-base loop, written as the imperative code they are and each
 * proved against the functions of module Paging.
 *
 * The directory connection and the results handler are classes whose
 * methods stand for the calls the strategy makes on them: the connection
 * answers each search from a finite trace of replies, and the handler's
 * answers are a fixed function of how many calls it has already had.
 */
module Strategy {
  import opened Wrappers
  import opened Controls
  import opened Paging

  // ---------------------------------------------------------------------------
  // The directory connection.
  // ---------------------------------------------------------------------------

  /**
   * A directory context: the replies the server still has to give, the
   * request controls installed for the next search, the response controls of
   * the last search, the searches sent so far, and whether it is open.
   */
  class LdapContext {
    var replies: seq<Reply>
    var requestControls: Option<Request>
    var responseControls: seq<ResponseControl>
    var sent: seq<Sent>
    var open: bool

    /** An open context over a server that will give `replies`. */
    constructor (replies: seq<Reply>)
      ensures this.replies == replies && requestControls.None? && responseControls == []
      ensures sent == [] && open
    {
      this.replies := replies;
      requestControls := None;
      responseControls := [];
      sent := [];
      open := true;
    }

    /** `newInstance(null)`: a fresh open context on the same server, with no request controls. */
    method NewInstance() returns (ctx: LdapContext)
      ensures fresh(ctx)
      ensures ctx.replies == replies && ctx.requestControls.None? && ctx.responseControls == []
      ensures ctx.sent == [] && ctx.open
    {
      ctx := new LdapContext(replies);
    }

    /** `setRequestControls`: the controls sent with every following search. */
    method SetRequestControls(request: Request)
      modifies this
      ensures requestControls == Some(request)
      ensures replies == old(replies) && responseControls == old(responseControls)
      ensures sent == old(sent) && open == old(open)
    {
      requestControls := Some(request);
    }

    /**
     * `search`: sends the installed request controls with the base DN and
     * takes the server's next reply: the streamed entries, with the response
     * controls made available afterwards, or a failure.
     */
    method Search(baseDN: string) returns (results: Result<seq<Entry>, Error>)
      requires requestControls.Some?
      modifies this
      ensures sent == old(sent) + [Sent(baseDN, old(requestControls).value)]
      ensures requestControls == old(requestControls) && open == old(open)
      ensures old(replies) == [] ==>
        results == Failure(Transport) && replies == [] && responseControls == old(responseControls)
      ensures old(replies) != [] && old(replies)[0].Broken? ==>
        results == Failure(Transport) && replies == old(replies)[1..] &&
        responseControls == old(responseControls)
      ensures old(replies) != [] && old(replies)[0].Page? ==>
        results == Success(old(replies)[0].entries) && replies == old(replies)[1..] &&
        responseControls == old(replies)[0].controls
    {
      sent := sent + [Sent(baseDN, requestControls.value)];
      if replies == [] {
        results := Failure(Transport);
      } else {
        var reply := replies[0];
        replies := replies[1..];
        match reply
        case Broken =>
          results := Failure(Transport);
        case Page(entries, controls) =>
          responseControls := controls;
          results := Success(entries);
      }
    }

    /** `getResponseControls`: the response controls of the last search. */
    method GetResponseControls() returns (controls: seq<ResponseControl>)
      ensures controls == responseControls
    {
      controls := responseControls;
    }

    /** `close`. */
    method Close()
      modifies this
      ensures !open
      ensures replies == old(replies) && requestControls == old(requestControls)
      ensures responseControls == old(responseControls) && sent == old(sent)
    {
      open := false;
    }
  }

  // ---------------------------------------------------------------------------
  // The results handler.
  // ---------------------------------------------------------------------------

  /** The consumer of search results, recording every call it receives. */
  class Consumer {
    const decide: Verdict
    var received: seq<Delivery>

    constructor (decide: Verdict)
      ensures this.decide == decide && received == []
    {
      this.decide := decide;
      received := [];
    }

    /** `handle(baseDN, result)`: true to receive more results. */
    method Handle(baseDN: string, entry: Entry) returns (proceed: bool)
      modifies this
      ensures received == old(received) + [Delivery(baseDN, entry)]
      ensures proceed == decide(|old(received)|, Delivery(baseDN, entry))
    {
      proceed := decide(|received|, Delivery(baseDN, entry));
      received := received + [Delivery(baseDN, entry)];
    }
  }

  /** Handing over a run of entries one more entry at a time. */
  lemma {:induction false} DeliveriesSnoc(baseDN: string, es: seq<Entry>, e: Entry)
    ensures Deliveries(baseDN, es + [e]) == Deliveries(baseDN, es) + [Delivery(baseDN, e)]
    decreases |es|
  {
    if es != [] {
      assert (es + [e])[1..] == es[1..] + [e];
      DeliveriesSnoc(baseDN, es[1..], e);
    }
  }

  /** Handing over two runs of entries one after the other. */
  lemma {:induction false} DeliveriesAppend(baseDN: string, a: seq<Entry>, b: seq<Entry>)
    ensures Deliveries(baseDN, a + b) == Deliveries(baseDN, a) + Deliveries(baseDN, b)
    decreases |a|
  {
    if a == [] {
      assert a + b == b;
    } else {
      assert (a + b)[0] == a[0];
      assert (a + b)[1..] == a[1..] + b;
      DeliveriesAppend(baseDN, a[1..], b);
    }
  }

  /** Buffering from position i: the entry there, unless it repeats the pending name, then the rest. */
  lemma BufferedFirst(pending: Option<string>, stream: seq<Entry>, i: nat)
    requires i < |stream|
    ensures Buffered(pending, stream[i..]) ==
      (if pending.Some? && pending.value == stream[i].name then [] else [stream[i]]) + Buffered(None, stream[i + 1..])
  {
    assert stream[i..][0] == stream[i];
    assert stream[i..][1..] == stream[i + 1..];
  }

  /** One turn of the buffering loop keeps the buffer a prefix of the whole buffered page. */
  lemma BufferStep(lastResultName: Option<string>, results: seq<Entry>, i: nat, pending: Option<string>,
                   resultList: seq<Entry>)
    requires i < |results|
    requires resultList + Buffered(pending, results[i..]) == Buffered(lastResultName, results)
    ensures var kept := if pending.Some? && pending.value == results[i].name then [] else [results[i]];
      (resultList + kept) + Buffered(None, results[i + 1..]) == Buffered(lastResultName, results)
  {
    var kept := if pending.Some? && pending.value == results[i].name then [] else [results[i]];
    var rest := Buffered(None, results[i + 1..]);
    BufferedFirst(pending, results, i);
    Regroup(resultList, kept, rest, Buffered(pending, results[i..]), Buffered(lastResultName, results));
  }

  /** Moving the head of the unread part over to the part already done. */
  lemma Regroup<T>(done: seq<T>, kept: seq<T>, rest: seq<T>, unread: seq<T>, total: seq<T>)
    requires done + unread == total && unread == kept + rest
    ensures (done + kept) + rest == total
  {
    assert (done + kept) + rest == done + (kept + rest);
  }

  /** The searches and entries of the pages already done, followed by the run `r` of the rest of the pass. */
  function Joined(sentSoFar: seq<Sent>, delivered: seq<Entry>, r: BaseRun): BaseRun {
    BaseRun(sentSoFar + r.sent, delivered + r.delivered, r.outcome, r.cursor, r.rest)
  }

  /**
   * One turn of the engine's page loop for the replies still to come: the
   * page step for the next reply, or a failed search when there is none.
   */
  function Turn(cfg: Config, decide: Verdict, baseDN: string, c: Cursor, p: Option<string>,
                replies: seq<Reply>, n: nat): Step
  {
    if replies == [] then Step(c, p, [], Failed(Transport))
    else PageStep(cfg, decide, baseDN, c, p, replies[0], n)
  }

  /** The replies left after one search. */
  function Rest(replies: seq<Reply>): seq<Reply> {
    if replies == [] then [] else replies[1..]
  }

  /** `step` answers every reply the way the engine's page step does. */
  ghost predicate Agrees(step: Stepper, cfg: Config, decide: Verdict, baseDN: string) {
    forall c: Cursor, p: Option<string>, reply: Reply, n: nat
      {:trigger PageStep(cfg, decide, baseDN, c, p, reply, n)} ::
      step(c, p, reply, n) == PageStep(cfg, decide, baseDN, c, p, reply, n)
  }

  /** The engine's page step, known only through the page steps it answers. */
  lemma EngineStepper(cfg: Config, decide: Verdict, baseDN: string) returns (step: Stepper)
    ensures Agrees(step, cfg, decide, baseDN)
  {
    step := StepOf(cfg, decide, baseDN);
  }

  /** Page steps that answer alike run the same page loop. */
  lemma {:induction false} LoopCongruent(cfg: Config, baseDN: string, step: Stepper, other: Stepper, c: Cursor,
                                         p: Option<string>, replies: seq<Reply>, n: nat)
    requires forall c: Cursor, p: Option<string>, reply: Reply, n: nat :: step(c, p, reply, n) == other(c, p, reply, n)
    ensures Loop(cfg, baseDN, step, c, p, replies, n) == Loop(cfg, baseDN, other, c, p, replies, n)
    decreases |replies|
  {
    if replies != [] {
      var s := step(c, p, replies[0], n);
      if s.outcome.NextPage? {
        LoopCongruent(cfg, baseDN, step, other, s.cursor, s.pending, replies[1..], n + |s.delivered|);
      }
    }
  }

  /** A page step that agrees with the engine's runs the same page loop. */
  lemma LoopAgrees(cfg: Config, decide: Verdict, baseDN: string, step: Stepper, c: Cursor,
                   p: Option<string>, replies: seq<Reply>, n: nat)
    requires Agrees(step, cfg, decide, baseDN)
    ensures Loop(cfg, baseDN, step, c, p, replies, n) == RunFrom(cfg, decide, baseDN, c, p, replies, n)
  {
    var engine := StepOf(cfg, decide, baseDN);
    forall c: Cursor, p: Option<string>, reply: Reply, n: nat
      ensures step(c, p, reply, n) == engine(c, p, reply, n)
    {
      assert engine(c, p, reply, n) == PageStep(cfg, decide, baseDN, c, p, reply, n);
    }
    LoopCongruent(cfg, baseDN, step, engine, c, p, replies, n);
  }

  /**
   * The page loop written the way the method runs it: the searches and
   * entries of the pages already done are carried along.
   */
  ghost function PassFrom(cfg: Config, baseDN: string, step: Stepper, sentSoFar: seq<Sent>, delivered: seq<Entry>,
                          c: Cursor, p: Option<string>, replies: seq<Reply>, n: nat): BaseRun
    decreases |replies|
  {
    var sent := sentSoFar + [Sent(baseDN, RequestFor(cfg, c))];
    if replies == [] then BaseRun(sent, delivered, Aborted(Transport), c, [])
    else
      var s := step(c, p, replies[0], n);
      if s.outcome.NextPage? then
        PassFrom(cfg, baseDN, step, sent, delivered + s.delivered, s.cursor, s.pending, replies[1..], n + |s.delivered|)
      else BaseRun(sent, delivered + s.delivered, PassEnd(s.outcome), s.cursor, replies[1..])
  }

  /** Carrying the pages already done along is the page loop preceded by them. */
  lemma {:induction false} PassFromJoins(cfg: Config, baseDN: string, step: Stepper, sentSoFar: seq<Sent>,
                                         delivered: seq<Entry>, c: Cursor, p: Option<string>, replies: seq<Reply>, n: nat)
    ensures PassFrom(cfg, baseDN, step, sentSoFar, delivered, c, p, replies, n)
         == Joined(sentSoFar, delivered, Loop(cfg, baseDN, step, c, p, replies, n))
    decreases |replies|
  {
    var request := Sent(baseDN, RequestFor(cfg, c));
    if replies == [] {
      assert delivered + [] == delivered;
    } else {
      var s := step(c, p, replies[0], n);
      if s.outcome.NextPage? {
        var r := Loop(cfg, baseDN, step, s.cursor, s.pending, replies[1..], n + |s.delivered|);
        PassFromJoins(cfg, baseDN, step, sentSoFar + [request], delivered + s.delivered, s.cursor, s.pending,
                      replies[1..], n + |s.delivered|);
        Regroup(sentSoFar, [request], r.sent, [request] + r.sent, sentSoFar + ([request] + r.sent));
        Regroup(delivered, s.delivered, r.delivered, s.delivered + r.delivered, delivered + (s.delivered + r.delivered));
      }
    }
  }

  /** From the reset cursor, a stepper that agrees with the engine's runs the base DN's pass. */
  lemma PassFromStart(cfg: Config, decide: Verdict, baseDN: string, step: Stepper, replies: seq<Reply>, n: nat)
    requires Agrees(step, cfg, decide, baseDN)
    ensures PassFrom(cfg, baseDN, step, [], [], Start, None, replies, n) == SearchBase(cfg, decide, baseDN, replies, n)
  {
    var r := Loop(cfg, baseDN, step, Start, None, replies, n);
    PassFromJoins(cfg, baseDN, step, [], [], Start, None, replies, n);
    LoopAgrees(cfg, decide, baseDN, step, Start, None, replies, n);
    assert [] + r.sent == r.sent && [] + r.delivered == r.delivered;
  }

  /** `pass` answers every base DN the way the engine's pass does. */
  ghost predicate PassAgrees(pass: Pass, cfg: Config, decide: Verdict) {
    forall baseDN: string, replies: seq<Reply>, n: nat {:trigger SearchBase(cfg, decide, baseDN, replies, n)} ::
      pass(baseDN, replies, n) == SearchBase(cfg, decide, baseDN, replies, n)
  }

  /** The engine's pass, known only through the passes it answers. */
  lemma EnginePass(cfg: Config, decide: Verdict) returns (pass: Pass)
    ensures PassAgrees(pass, cfg, decide)
  {
    pass := PassOf(cfg, decide);
  }

  /** Passes that answer alike run the same multi-base loop. */
  lemma {:induction false} CoordinateCongruent(pass: Pass, other: Pass, baseDNs: seq<string>, replies: seq<Reply>,
                                               n: nat, c: Cursor)
    requires forall baseDN: string, replies: seq<Reply>, n: nat :: pass(baseDN, replies, n) == other(baseDN, replies, n)
    ensures Coordinate(pass, baseDNs, replies, n, c) == Coordinate(other, baseDNs, replies, n, c)
    decreases |baseDNs|
  {
    if baseDNs != [] {
      var b := pass(baseDNs[0], replies, n);
      if b.outcome.Finished? {
        CoordinateCongruent(pass, other, baseDNs[1..], b.rest, n + |b.delivered|, b.cursor);
      }
    }
  }

  /** A pass that agrees with the engine's runs the same multi-base loop. */
  lemma CoordinateAgrees(cfg: Config, decide: Verdict, pass: Pass, baseDNs: seq<string>,
                         replies: seq<Reply>, n: nat, c: Cursor)
    requires PassAgrees(pass, cfg, decide)
    ensures Coordinate(pass, baseDNs, replies, n, c) == RunAll(cfg, decide, baseDNs, replies, n, c)
  {
    var engine := PassOf(cfg, decide);
    forall baseDN: string, replies: seq<Reply>, n: nat
      ensures pass(baseDN, replies, n) == engine(baseDN, replies, n)
    {
      assert engine(baseDN, replies, n) == SearchBase(cfg, decide, baseDN, replies, n);
    }
    CoordinateCongruent(pass, engine, baseDNs, replies, n, c);
  }

  /** The searches, consumer calls and base DN count already done, followed by the run `r` of the rest. */
  function JoinedRun(sentSoFar: seq<Sent>, delivered: seq<Delivery>, searched: nat, r: SearchRun): SearchRun {
    SearchRun(sentSoFar + r.sent, delivered + r.delivered, r.error, searched + r.searched, r.stopped, r.cursor, r.rest)
  }

  /**
   * The multi-base loop written the way the method runs it: the searches,
   * consumer calls and base DN count already done are carried along.
   */
  ghost function SearchFrom(pass: Pass, baseDNs: seq<string>, sentSoFar: seq<Sent>, delivered: seq<Delivery>,
                            searched: nat, replies: seq<Reply>, n: nat, c: Cursor): SearchRun
    decreases |baseDNs|
  {
    if baseDNs == [] then SearchRun(sentSoFar, delivered, None, searched, false, c, replies)
    else
      var b := pass(baseDNs[0], replies, n);
      var sent := sentSoFar + b.sent;
      var calls := delivered + Deliveries(baseDNs[0], b.delivered);
      match b.outcome
      case Aborted(e) => SearchRun(sent, calls, Some(e), searched + 1, false, b.cursor, b.rest)
      case ConsumerStopped => SearchRun(sent, calls, None, searched + 1, true, b.cursor, b.rest)
      case Finished => SearchFrom(pass, baseDNs[1..], sent, calls, searched + 1, b.rest, n + |b.delivered|, b.cursor)
  }

  /** Carrying the base DNs already done along is the multi-base loop preceded by them. */
  lemma {:induction false} SearchFromJoins(pass: Pass, baseDNs: seq<string>, sentSoFar: seq<Sent>,
                                           delivered: seq<Delivery>, searched: nat, replies: seq<Reply>, n: nat,
                                           c: Cursor)
    ensures SearchFrom(pass, baseDNs, sentSoFar, delivered, searched, replies, n, c)
         == JoinedRun(sentSoFar, delivered, searched, Coordinate(pass, baseDNs, replies, n, c))
    decreases |baseDNs|
  {
    if baseDNs == [] {
      assert sentSoFar + [] == sentSoFar && delivered + [] == delivered;
    } else {
      var b := pass(baseDNs[0], replies, n);
      if b.outcome.Finished? {
        var r := Coordinate(pass, baseDNs[1..], b.rest, n + |b.delivered|, b.cursor);
        var calls := Deliveries(baseDNs[0], b.delivered);
        SearchFromJoins(pass, baseDNs[1..], sentSoFar + b.sent, delivered + calls, searched + 1, b.rest,
                        n + |b.delivered|, b.cursor);
        Regroup(sentSoFar, b.sent, r.sent, b.sent + r.sent, sentSoFar + (b.sent + r.sent));
        Regroup(delivered, calls, r.delivered, calls + r.delivered, delivered + (calls + r.delivered));
      }
    }
  }

  /** From nothing done, a pass that agrees with the engine's runs the whole search. */
  lemma SearchFromStart(cfg: Config, decide: Verdict, pass: Pass, baseDNs: seq<string>, replies: seq<Reply>,
                        n: nat, c: Cursor)
    requires PassAgrees(pass, cfg, decide)
    ensures SearchFrom(pass, baseDNs, [], [], 0, replies, n, c) == RunAll(cfg, decide, baseDNs, replies, n, c)
  {
    var r := Coordinate(pass, baseDNs, replies, n, c);
    SearchFromJoins(pass, baseDNs, [], [], 0, replies, n, c);
    CoordinateAgrees(cfg, decide, pass, baseDNs, replies, n, c);
    assert [] + r.sent == r.sent && [] + r.delivered == r.delivered;
  }

  // ---------------------------------------------------------------------------
  // The strategy.
  // ---------------------------------------------------------------------------

  /** The VLV-index search strategy: its configuration and its per-base-DN cursor. */
  class VlvIndexSearchStrategy {
    const vlvIndexAttr: string
    const blockSize: int
    var index: int
    var lastListSize: int
    var cookie: Bytes

    /** The configuration as a value. */
    function Cfg(): Config {
      Config(vlvIndexAttr, blockSize)
    }

    /** The cursor fields as a value. */
    function CursorNow(): Cursor
      reads this
    {
      Cursor(index, lastListSize, cookie)
    }

    /** The sort attribute falls back to `uid` when the configured one is blank. */
    constructor (vlvSortAttr: Option<string>, blockSize: int)
      ensures vlvIndexAttr == SortAttribute(vlvSortAttr) && this.blockSize == blockSize
      ensures index == 0 && lastListSize == 0 && cookie == []
    {
      vlvIndexAttr := if IsBlank(vlvSortAttr) then DefaultSortAttribute else vlvSortAttr.value;
      this.blockSize := blockSize;
      index := 0;
      lastListSize := 0;
      cookie := [];
    }

    /**
     * The whole search: the base DNs in order on a fresh context, each after
     * the previous one finished, until the handler asks to stop or a search
     * fails; the context is closed on every path. The ghost `ctx` is that
     * context.
     */
    method DoSearch(initCtx: LdapContext, baseDNs: seq<string>, handler: Consumer)
      returns (err: Option<Error>, ghost ctx: LdapContext)
      modifies this, handler
      ensures var run := RunAll(Cfg(), handler.decide, baseDNs, old(initCtx.replies),
                                |old(handler.received)|, old(CursorNow()));
        err == run.error && handler.received == old(handler.received) + run.delivered &&
        CursorNow() == run.cursor && ctx.sent == run.sent && ctx.replies == run.rest
      ensures fresh(ctx) && !ctx.open
    {
      ghost var pass := EnginePass(Cfg(), handler.decide);
      SearchFromStart(Cfg(), handler.decide, pass, baseDNs, initCtx.replies, |handler.received|, CursorNow());
      var c := initCtx.NewInstance();
      ctx := c;
      err := SearchBaseDNs(c, baseDNs, handler, pass);
      c.Close();
    }

    /**
     * The multi-base loop of `doSearch` on the open context: the base DNs in
     * order while the previous pass asked to go on; the failure of a pass
     * ends the loop. `pass` is the engine's pass.
     */
    method SearchBaseDNs(ctx: LdapContext, baseDNs: seq<string>, handler: Consumer, ghost pass: Pass)
      returns (err: Option<Error>)
      requires PassAgrees(pass, Cfg(), handler.decide)
      modifies this, ctx, handler
      ensures var run := SearchFrom(pass, baseDNs, [], [], 0, old(ctx.replies), |old(handler.received)|,
                                    old(CursorNow()));
        err == run.error && ctx.sent == old(ctx.sent) + run.sent &&
        handler.received == old(handler.received) + run.delivered &&
        CursorNow() == run.cursor && ctx.replies == run.rest
      ensures ctx.open == old(ctx.open)
    {
      ghost var full := SearchFrom(pass, baseDNs, [], [], 0, ctx.replies, |handler.received|, CursorNow());
      ghost var sentSoFar: seq<Sent> := [];
      ghost var delivered: seq<Delivery> := [];
      var i := 0;
      var proceed := true;
      while i < |baseDNs| && proceed
        invariant 0 <= i <= |baseDNs|
        invariant ctx.open == old(ctx.open)
        invariant ctx.sent == old(ctx.sent) + sentSoFar
        invariant handler.received == old(handler.received) + delivered
        invariant proceed ==>
          full == SearchFrom(pass, baseDNs[i..], sentSoFar, delivered, i, ctx.replies, |handler.received|, CursorNow())
        invariant !proceed ==> full == SearchRun(sentSoFar, delivered, None, i, true, CursorNow(), ctx.replies)
        decreases |baseDNs| - i
      {
        ghost var b := pass(baseDNs[i], ctx.replies, |handler.received|);
        ghost var calls := Deliveries(baseDNs[i], b.delivered);
        assert baseDNs[i..][0] == baseDNs[i] && baseDNs[i..][1..] == baseDNs[i + 1..];
        var result := SearchBaseDN(ctx, baseDNs[i], handler);
        Regroup(old(ctx.sent), sentSoFar, b.sent, sentSoFar + b.sent, old(ctx.sent) + (sentSoFar + b.sent));
        Regroup(old(handler.received), delivered, calls, delivered + calls, old(handler.received) + (delivered + calls));
        sentSoFar := sentSoFar + b.sent;
        delivered := delivered + calls;
        if result.Failure? {
          return Some(result.error);
        }
        proceed := result.value;
        i := i + 1;
      }
      err := None;
    }

    /**
     * One base DN: reset the cursor, then request pages until one ends the
     * pass. Success(false) when the handler asked to stop, the failure when a
     * search or its response controls failed.
     */
    method SearchBaseDN(ctx: LdapContext, baseDN: string, handler: Consumer) returns (res: Result<bool, Error>)
      modifies this, ctx, handler
      ensures var b := SearchBase(Cfg(), handler.decide, baseDN, old(ctx.replies), |old(handler.received)|);
        res == PassResult(b.outcome) && ctx.sent == old(ctx.sent) + b.sent &&
        handler.received == old(handler.received) + Deliveries(baseDN, b.delivered) &&
        CursorNow() == b.cursor && ctx.replies == b.rest
      ensures ctx.open == old(ctx.open)
    {
      ghost var step := EngineStepper(Cfg(), handler.decide, baseDN);
      PassFromStart(Cfg(), handler.decide, baseDN, step, ctx.replies, |handler.received|);
      index := 1;
      lastListSize := 0;
      cookie := [];
      res := PageLoop(ctx, baseDN, handler, step);
    }

    /**
     * The page loop of a base DN's pass from the current cursor: request
     * pages until one ends the pass. `step` is the engine's page step.
     */
    method PageLoop(ctx: LdapContext, baseDN: string, handler: Consumer, ghost step: Stepper)
      returns (res: Result<bool, Error>)
      requires Agrees(step, Cfg(), handler.decide, baseDN)
      modifies this, ctx, handler
      ensures var b := PassFrom(Cfg(), baseDN, step, [], [], old(CursorNow()), None, old(ctx.replies),
                                |old(handler.received)|);
        res == PassResult(b.outcome) && ctx.sent == old(ctx.sent) + b.sent &&
        handler.received == old(handler.received) + Deliveries(baseDN, b.delivered) &&
        CursorNow() == b.cursor && ctx.replies == b.rest
      ensures ctx.open == old(ctx.open)
    {
      ghost var full := PassFrom(Cfg(), baseDN, step, [], [], CursorNow(), None, ctx.replies, |handler.received|);
      var lastResultName: Option<string> := None;
      ghost var sentSoFar: seq<Sent> := [];
      ghost var delivered: seq<Entry> := [];
      var outcome := NextPage;
      while outcome.NextPage?
        invariant ctx.open == old(ctx.open)
        invariant ctx.sent == old(ctx.sent) + sentSoFar
        invariant handler.received == old(handler.received) + Deliveries(baseDN, delivered)
        invariant outcome.NextPage? ==>
          full == PassFrom(Cfg(), baseDN, step, sentSoFar, delivered, CursorNow(), lastResultName,
                           ctx.replies, |handler.received|)
        invariant !outcome.NextPage? ==>
          full == BaseRun(sentSoFar, delivered, PassEnd(outcome), CursorNow(), ctx.replies)
        decreases |ctx.replies| + if outcome.NextPage? then 1 else 0
      {
        ghost var request := Sent(baseDN, RequestFor(Cfg(), CursorNow()));
        ghost var st;
        outcome, lastResultName, st := SearchPage(ctx, baseDN, handler, lastResultName, step);
        Regroup(old(ctx.sent), sentSoFar, [request], sentSoFar + [request], old(ctx.sent) + (sentSoFar + [request]));
        DeliveriesAppend(baseDN, delivered, st.delivered);
        Regroup(old(handler.received), Deliveries(baseDN, delivered), Deliveries(baseDN, st.delivered),
                Deliveries(baseDN, delivered + st.delivered),
                old(handler.received) + Deliveries(baseDN, delivered + st.delivered));
        sentSoFar := sentSoFar + [request];
        delivered := delivered + st.delivered;
      }
      if outcome.Failed? {
        return Failure(outcome.error);
      }
      return Success(!outcome.Stopped?);
    }

    /**
     * One turn of the page loop: install the sort and list-view request
     * controls built from the cursor, search, buffer the streamed entries
     * with the overlap guard, process the response controls, hand the
     * buffered entries to the handler, and decide whether another page is
     * needed. `lastResultName` is the name of the last entry handed over on
     * the previous page, and `pending` its new value.
     */
    method SearchPage(ctx: LdapContext, baseDN: string, handler: Consumer, lastResultName: Option<string>,
                      ghost engine: Stepper)
      returns (outcome: PageOutcome, pending: Option<string>, ghost step: Step)
      requires Agrees(engine, Cfg(), handler.decide, baseDN)
      modifies this, ctx, handler
      ensures old(ctx.replies) == [] ==> step == Step(old(CursorNow()), lastResultName, [], Failed(Transport))
      ensures old(ctx.replies) != [] ==>
        step == engine(old(CursorNow()), lastResultName, old(ctx.replies)[0], |old(handler.received)|)
      ensures outcome == step.outcome && pending == step.pending && CursorNow() == step.cursor
      ensures handler.received == old(handler.received) + Deliveries(baseDN, step.delivered)
      ensures ctx.sent == old(ctx.sent) + [Sent(baseDN, RequestFor(Cfg(), old(CursorNow())))]
      ensures ctx.replies == Rest(old(ctx.replies)) && ctx.open == old(ctx.open)
    {
      step := Turn(Cfg(), handler.decide, baseDN, CursorNow(), lastResultName, ctx.replies, |handler.received|);
      var sortControl := SortKey(vlvIndexAttr, Critical);
      var afterCount := blockSize - 1;
      var vlvreq := VlvOffset(Critical, index, lastListSize, 0, afterCount, cookie);
      ctx.SetRequestControls(Request(sortControl, vlvreq));
      var results := ctx.Search(baseDN);
      if results.Failure? {
        return Failed(results.error), lastResultName, step;
      }
      outcome, pending := ReceivePage(ctx, baseDN, handler, lastResultName, results.value);
    }

    /**
     * The rest of a page turn once the search answered: buffer the streamed
     * entries with the overlap guard and process the response controls, then
     * hand over and decide.
     */
    method ReceivePage(ctx: LdapContext, baseDN: string, handler: Consumer, lastResultName: Option<string>,
                       results: seq<Entry>)
      returns (outcome: PageOutcome, pending: Option<string>)
      modifies this, handler
      ensures var s := Received(handler.decide, baseDN, old(CursorNow()), lastResultName, results,
                                ctx.responseControls, |old(handler.received)|);
        outcome == s.outcome && pending == s.pending && CursorNow() == s.cursor &&
        handler.received == old(handler.received) + Deliveries(baseDN, s.delivered)
    {
      var resultList;
      resultList, pending := BufferPage(lastResultName, results);
      var controls := ctx.GetResponseControls();
      var err := ProcessResponseControls(controls);
      if err.Some? {
        return Failed(err.value), pending;
      }
      outcome, pending := HandPage(baseDN, handler, pending, resultList);
    }

    /**
     * Hand the buffered entries to the handler, remember the last one's name,
     * and decide: stop when the handler did, end the pass once `index` passed
     * `lastListSize` or when the page was empty, and otherwise go on.
     */
    method HandPage(baseDN: string, handler: Consumer, lastResultName: Option<string>, resultList: seq<Entry>)
      returns (outcome: PageOutcome, pending: Option<string>)
      modifies this, handler
      ensures var s := Handed(handler.decide, baseDN, old(CursorNow()), lastResultName, resultList,
                              |old(handler.received)|);
        outcome == s.outcome && pending == s.pending && CursorNow() == s.cursor &&
        handler.received == old(handler.received) + Deliveries(baseDN, s.delivered)
    {
      pending := lastResultName;
      var proceed, result := DispatchPage(handler, baseDN, resultList);
      if !proceed {
        return Stopped, pending;
      }
      if result.Some? {
        pending := Some(result.value.name);
      }
      if index > lastListSize {
        return Exhausted, pending;
      }
      if resultList == [] {
        return EmptyPage, pending;
      }
      return NextPage, pending;
    }

    /**
     * Reading the streamed entries into the page buffer: only the first entry
     * is compared with the name of the last entry of the previous page, and
     * skipped when it repeats it; that name is forgotten after the comparison.
     */
    static method BufferPage(lastResultName: Option<string>, results: seq<Entry>)
      returns (resultList: seq<Entry>, pending: Option<string>)
      ensures resultList == Buffered(lastResultName, results)
      ensures pending == PendingAfter(lastResultName, results)
    {
      resultList := [];
      pending := lastResultName;
      var i := 0;
      while i < |results|
        invariant 0 <= i <= |results|
        invariant pending == (if i == 0 then lastResultName else None)
        invariant resultList + Buffered(pending, results[i..]) == Buffered(lastResultName, results)
      {
        var result := results[i];
        var overlap := false;
        BufferStep(lastResultName, results, i, pending, resultList);
        if pending.Some? {
          if pending.value == result.name {
            overlap := true;
          }
          pending := None;
        }
        if !overlap {
          resultList := resultList + [result];
        }
        i := i + 1;
      }
      assert results[i..] == [];
    }

    /**
     * Response-control processing: a sort response that is not sorted or has
     * a non-zero result code throws; a list-view response sets
     * `lastListSize`, then `cookie` when one was sent, and throws when its
     * result code is non-zero; a value that cannot be decoded further is
     * skipped. The fields keep every update made before a throw.
     */
    method ProcessResponseControls(controls: seq<ResponseControl>) returns (err: Option<Error>)
      modifies this
      ensures Decoded(lastListSize, cookie, err) == Process(old(lastListSize), old(cookie), controls)
      ensures index == old(index)
    {
      for i := 0 to |controls|
        invariant index == old(index)
        invariant Process(old(lastListSize), old(cookie), controls) ==
          Process(lastListSize, cookie, controls[i..])
      {
        assert controls[i..][1..] == controls[i + 1..];
        var control := controls[i];
        if control.SortResult? {
          if !control.sorted || control.code != 0 {
            return Some(SortFailed(control.code));
          }
        }
        if control.VlvResult? {
          match control.value
          case NoValue =>
          case TruncatedBeforeCount =>
          case TruncatedAfterCount(count) =>
            lastListSize := ToInt32(count);
          case TruncatedAfterCode(count) =>
            lastListSize := ToInt32(count);
          case Complete(_, count, code, received) =>
            lastListSize := ToInt32(count);
            if received.Some? {
              cookie := received.value;
            }
            if code != 0 {
              return Some(ViewFailed);
            }
        }
      }
      return None;
    }

    /**
     * Handing the buffered entries to the handler in order, counting each in
     * `index`, and stopping as soon as the handler answers false. `result` is
     * the last entry handed over when the handler never refused.
     */
    method DispatchPage(handler: Consumer, baseDN: string, resultList: seq<Entry>)
      returns (proceed: bool, result: Option<Entry>)
      modifies this, handler
      ensures var r := Dispatch(handler.decide, baseDN, resultList, |old(handler.received)|);
        proceed == !r.stopped && index == old(index) + r.count &&
        handler.received == old(handler.received) + Deliveries(baseDN, resultList[..r.count])
      ensures lastListSize == old(lastListSize) && cookie == old(cookie)
      ensures proceed ==> result == (if resultList == [] then None else Some(resultList[|resultList| - 1]))
    {
      ghost var n := |handler.received|;
      result := None;
      var i := 0;
      while i < |resultList|
        invariant 0 <= i <= |resultList|
        invariant index == old(index) + i
        invariant lastListSize == old(lastListSize) && cookie == old(cookie)
        invariant handler.received == old(handler.received) + Deliveries(baseDN, resultList[..i])
        invariant Dispatch(handler.decide, baseDN, resultList, n) ==
          var r := Dispatch(handler.decide, baseDN, resultList[i..], n + i);
          Dispatched(i + r.count, r.stopped)
        invariant result == (if i == 0 then None else Some(resultList[i - 1]))
      {
        result := Some(resultList[i]);
        index := index + 1;
        assert resultList[i..][1..] == resultList[i + 1..];
        assert resultList[..i + 1] == resultList[..i] + [resultList[i]];
        DeliveriesSnoc(baseDN, resultList[..i], resultList[i]);
        var go := handler.Handle(baseDN, resultList[i]);
        i := i + 1;
        if !go {
          return false, result;
        }
      }
      assert resultList[i..] == [];
      return true, result;
    }
  }
}
