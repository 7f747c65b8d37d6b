/**
 * The paging engine as a specification: what one page request does to the
 * cursor, what one base DN's pass sends and delivers, and what the whole
 * multi-base search does, each as a function of a finite trace of server
 * replies and of the consumer's answers.
 *
 * The server is a sequence of replies consumed one per search, across all
 * base DNs; a reply is a page (the streamed entries and the decoded response
 * controls) or a broken search. An exhausted trace is a failed search too.
 * The consumer is a function from (number of earlier calls, delivery) to
 * "continue". Neither depends on the request sent; since any single run of
 * the real system fixes both, every run is described by some choice of them.
 */
module Paging {
  import opened Wrappers
  import opened Controls

  /** The strategy's configuration: sort attribute and block size. */
  datatype Config = Config(sortAttribute: string, blockSize: int)

  /** The per-base-DN cursor: the fields `index`, `lastListSize` and `cookie`. */
  datatype Cursor = Cursor(index: int, lastListSize: int, cookie: Bytes)

  /** The cursor every base DN starts from. */
  const Start: Cursor := Cursor(1, 0, [])

  /** What the server answers to one search. */
  datatype Reply = Page(entries: seq<Entry>, controls: seq<ResponseControl>) | Broken

  /** One search sent to the server: its base DN and its request controls. */
  datatype Sent = Sent(baseDN: string, request: Request)

  /** One call of the consumer. */
  datatype Delivery = Delivery(baseDN: string, entry: Entry)

  /** The consumer's answer to its n-th call (counting from 0): true to go on. */
  type Verdict = (nat, Delivery) -> bool

  /** The request controls built from the cursor. */
  function RequestFor(cfg: Config, c: Cursor): Request {
    Request(SortKey(cfg.sortAttribute, Critical),
            VlvOffset(Critical, c.index, c.lastListSize, 0, cfg.blockSize - 1, c.cookie))
  }

  // ---------------------------------------------------------------------------
  // Overlap guard.
  // ---------------------------------------------------------------------------

  /** The first streamed entry repeats the last entry delivered on the previous page. */
  predicate IsOverlap(pending: Option<string>, stream: seq<Entry>) {
    pending.Some? && |stream| > 0 && stream[0].name == pending.value
  }

  /**
   * The buffered page: the stream, entry by entry, where only the first entry
   * is compared with the pending name, which is forgotten after that comparison.
   */
  function Buffered(pending: Option<string>, stream: seq<Entry>): (kept: seq<Entry>)
    ensures IsOverlap(pending, stream) ==> kept == stream[1..]
    ensures !IsOverlap(pending, stream) ==> kept == stream
    decreases |stream|
  {
    if stream == [] then []
    else
      var overlap := pending.Some? && pending.value == stream[0].name;
      (if overlap then [] else [stream[0]]) + Buffered(None, stream[1..])
  }

  /** The pending name once the stream has been read: cleared by the first entry. */
  function PendingAfter(pending: Option<string>, stream: seq<Entry>): Option<string> {
    if stream == [] then pending else None
  }

  // ---------------------------------------------------------------------------
  // Dispatch.
  // ---------------------------------------------------------------------------

  /** How many entries of a page reached the consumer, and whether it asked to stop. */
  datatype Dispatched = Dispatched(count: nat, stopped: bool)

  /**
   * Hand the buffered entries to the consumer in order, stopping right after
   * the first one it refuses; `n` is the number of earlier calls.
   */
  function Dispatch(decide: Verdict, baseDN: string, kept: seq<Entry>, n: nat): (r: Dispatched)
    ensures r.count <= |kept|
    ensures !r.stopped ==> r.count == |kept|
    ensures r.stopped ==> 0 < r.count
    decreases |kept|
  {
    if kept == [] then Dispatched(0, false)
    else if !decide(n, Delivery(baseDN, kept[0])) then Dispatched(1, true)
    else
      var r := Dispatch(decide, baseDN, kept[1..], n + 1);
      Dispatched(r.count + 1, r.stopped)
  }

  /** The consumer calls made for a run of entries of one base DN. */
  function Deliveries(baseDN: string, es: seq<Entry>): (ds: seq<Delivery>)
    ensures |ds| == |es|
  {
    if es == [] then [] else [Delivery(baseDN, es[0])] + Deliveries(baseDN, es[1..])
  }

  // ---------------------------------------------------------------------------
  // One page.
  // ---------------------------------------------------------------------------

  /**
   * How a page ends: another page is needed; the cursor passed the content
   * count; the buffered page was empty (the defensive stop); the consumer
   * stopped; or the search or its response controls failed.
   */
  datatype PageOutcome = NextPage | Exhausted | EmptyPage | Stopped | Failed(error: Error)

  /** The cursor, the pending name and the entries handed to the consumer after one page, and how it ended. */
  datatype Step = Step(cursor: Cursor, pending: Option<string>, delivered: seq<Entry>, outcome: PageOutcome)

  /**
   * One turn of the page loop, after the request for cursor `c` was sent and
   * `reply` came back.
   */
  function PageStep(cfg: Config, decide: Verdict, baseDN: string, c: Cursor, pending: Option<string>,
                    reply: Reply, n: nat): Step
  {
    match reply
    case Broken => Step(c, pending, [], Failed(Transport))
    case Page(stream, controls) => Received(decide, baseDN, c, pending, stream, controls, n)
  }

  /**
   * A page that came back: buffer with the overlap guard, process the
   * response controls, then hand over and decide.
   */
  function Received(decide: Verdict, baseDN: string, c: Cursor, pending: Option<string>,
                    stream: seq<Entry>, controls: seq<ResponseControl>, n: nat): Step
  {
    var kept := Buffered(pending, stream);
    var pending1 := PendingAfter(pending, stream);
    var d := Process(c.lastListSize, c.cookie, controls);
    var c1 := Cursor(c.index, d.lastListSize, d.cookie);
    if d.error.Some? then Step(c1, pending1, [], Failed(d.error.value))
    else Handed(decide, baseDN, c1, pending1, kept, n)
  }

  /**
   * The buffered page handed to the consumer from cursor `c`, then the
   * decision: stop if the consumer did, end the pass once `index` passed the
   * content count or when the page was empty, and otherwise ask for the next
   * page, remembering the last entry's name.
   */
  function Handed(decide: Verdict, baseDN: string, c: Cursor, pending: Option<string>, kept: seq<Entry>,
                  n: nat): Step
  {
    var r := Dispatch(decide, baseDN, kept, n);
    var c1 := Cursor(c.index + r.count, c.lastListSize, c.cookie);
    var delivered := kept[..r.count];
    if r.stopped then Step(c1, pending, delivered, Stopped)
    else
      var pending2 := if kept == [] then pending else Some(kept[|kept| - 1].name);
      if c1.index > c1.lastListSize then Step(c1, pending2, delivered, Exhausted)
      else if kept == [] then Step(c1, pending2, delivered, EmptyPage)
      else Step(c1, pending2, delivered, NextPage)
  }

  // ---------------------------------------------------------------------------
  // One base DN.
  // ---------------------------------------------------------------------------

  datatype BaseOutcome = Finished | ConsumerStopped | Aborted(error: Error)

  /** A base DN's pass: searches sent, entries handed to the consumer, how it ended, the final cursor, the unread replies. */
  datatype BaseRun = BaseRun(sent: seq<Sent>, delivered: seq<Entry>, outcome: BaseOutcome,
                             cursor: Cursor, rest: seq<Reply>)

  /** A page step: cursor, pending name, reply and number of earlier consumer calls to the step's result. */
  type Stepper = (Cursor, Option<string>, Reply, nat) -> Step

  /**
   * The page loop from cursor `c` for a given page step: send the request
   * built from the cursor, take the next reply, step, and go on while the
   * step asks for another page.
   */
  function Loop(cfg: Config, baseDN: string, step: Stepper, c: Cursor, pending: Option<string>,
                replies: seq<Reply>, n: nat): BaseRun
    decreases |replies|
  {
    var sent := Sent(baseDN, RequestFor(cfg, c));
    if replies == [] then BaseRun([sent], [], Aborted(Transport), c, [])
    else
      var s := step(c, pending, replies[0], n);
      if s.outcome.NextPage? then
        var r := Loop(cfg, baseDN, step, s.cursor, s.pending, replies[1..], n + |s.delivered|);
        BaseRun([sent] + r.sent, s.delivered + r.delivered, r.outcome, r.cursor, r.rest)
      else BaseRun([sent], s.delivered, PassEnd(s.outcome), s.cursor, replies[1..])
  }

  /** How the pass ends after a page that does not ask for another one. */
  function PassEnd(o: PageOutcome): BaseOutcome {
    match o
    case Stopped => ConsumerStopped
    case Failed(e) => Aborted(e)
    case _ => Finished
  }

  /** The engine's page step for one base DN. */
  function StepOf(cfg: Config, decide: Verdict, baseDN: string): Stepper {
    (c: Cursor, pending: Option<string>, reply: Reply, n: nat) => PageStep(cfg, decide, baseDN, c, pending, reply, n)
  }

  /** The engine's page loop from cursor `c`, with `n` earlier consumer calls. */
  function RunFrom(cfg: Config, decide: Verdict, baseDN: string, c: Cursor, pending: Option<string>,
                   replies: seq<Reply>, n: nat): BaseRun
  {
    Loop(cfg, baseDN, StepOf(cfg, decide, baseDN), c, pending, replies, n)
  }

  /** A base DN's pass: the cursor is reset and there is no previous entry name. */
  function SearchBase(cfg: Config, decide: Verdict, baseDN: string, replies: seq<Reply>, n: nat): BaseRun {
    RunFrom(cfg, decide, baseDN, Start, None, replies, n)
  }

  /** What a base DN's pass returns to the multi-base loop: go on, stop, or the exception. */
  function PassResult(outcome: BaseOutcome): Result<bool, Error> {
    match outcome
    case Finished => Success(true)
    case ConsumerStopped => Success(false)
    case Aborted(e) => Failure(e)
  }

  // ---------------------------------------------------------------------------
  // The multi-base search.
  // ---------------------------------------------------------------------------

  /**
   * The whole search: searches sent, consumer calls, the exception if any,
   * how many base DNs were entered, whether the consumer stopped, the final
   * cursor and the unread replies.
   */
  datatype SearchRun = SearchRun(sent: seq<Sent>, delivered: seq<Delivery>, error: Option<Error>,
                                 searched: nat, stopped: bool, cursor: Cursor, rest: seq<Reply>)

  /** A base DN's pass: base DN, replies, number of earlier consumer calls to the pass's run. */
  type Pass = (string, seq<Reply>, nat) -> BaseRun

  /**
   * The multi-base loop for a given pass: the base DNs in order, from cursor
   * `c` (the fields before the search), entering the next one only after the
   * previous pass finished.
   */
  function Coordinate(pass: Pass, baseDNs: seq<string>, replies: seq<Reply>, n: nat, c: Cursor): SearchRun
    decreases |baseDNs|
  {
    if baseDNs == [] then SearchRun([], [], None, 0, false, c, replies)
    else
      var b := pass(baseDNs[0], replies, n);
      match b.outcome
      case Aborted(e) => SearchRun(b.sent, Deliveries(baseDNs[0], b.delivered), Some(e), 1, false, b.cursor, b.rest)
      case ConsumerStopped => SearchRun(b.sent, Deliveries(baseDNs[0], b.delivered), None, 1, true, b.cursor, b.rest)
      case Finished =>
        var r := Coordinate(pass, baseDNs[1..], b.rest, n + |b.delivered|, b.cursor);
        SearchRun(b.sent + r.sent, Deliveries(baseDNs[0], b.delivered) + r.delivered, r.error,
                  1 + r.searched, r.stopped, r.cursor, r.rest)
  }

  /** The engine's pass. */
  function PassOf(cfg: Config, decide: Verdict): Pass {
    (baseDN: string, replies: seq<Reply>, n: nat) => SearchBase(cfg, decide, baseDN, replies, n)
  }

  /** The whole search over `baseDNs`. */
  function RunAll(cfg: Config, decide: Verdict, baseDNs: seq<string>, replies: seq<Reply>, n: nat,
                  c: Cursor): SearchRun
  {
    Coordinate(PassOf(cfg, decide), baseDNs, replies, n, c)
  }
}
