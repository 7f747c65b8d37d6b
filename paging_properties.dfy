/**
 * What the paging engine guarantees, stated over the specification in
 * module Paging for every server trace and every consumer.
 */
module PagingProperties {
  import opened Wrappers
  import opened Controls
  import opened Paging
  import opened StepLaws
  import opened LoopLaws

  // ---------------------------------------------------------------------------
  // One base DN.
  // ---------------------------------------------------------------------------

  /** `index` ends at the starting `c.index` plus the number of consumer calls made during the loop. */
  lemma IndexCountsDeliveries(cfg: Config, decide: Verdict, baseDN: string, c: Cursor,
                              pending: Option<string>, replies: seq<Reply>, n: nat)
    ensures var r := RunFrom(cfg, decide, baseDN, c, pending, replies, n);
      r.cursor.index == c.index + |r.delivered|
  {
    EngineStepLaws(cfg, decide, baseDN);
    LoopCountsIndex(cfg, baseDN, StepOf(cfg, decide, baseDN), c, pending, replies, n);
  }

  /**
   * Every search of a pass carries the sort control on the configured
   * attribute and an offset-form list-view control with before-count 0 and
   * after-count `blockSize - 1`, both critical; the first one is built from
   * the starting cursor; the targets strictly increase and never pass the
   * final `index`.
   */
  lemma RequestsShape(cfg: Config, decide: Verdict, baseDN: string, c: Cursor,
                      pending: Option<string>, replies: seq<Reply>, n: nat)
    ensures var r := RunFrom(cfg, decide, baseDN, c, pending, replies, n);
      0 < |r.sent| && r.sent[0] == Sent(baseDN, RequestFor(cfg, c))
    ensures var r := RunFrom(cfg, decide, baseDN, c, pending, replies, n);
      forall k :: 0 <= k < |r.sent| ==>
        r.sent[k].baseDN == baseDN &&
        r.sent[k].request.sort == SortKey(cfg.sortAttribute, Critical) &&
        r.sent[k].request.vlv.critical == Critical &&
        r.sent[k].request.vlv.beforeCount == 0 &&
        r.sent[k].request.vlv.afterCount == cfg.blockSize - 1 &&
        c.index <= r.sent[k].request.vlv.target <= r.cursor.index
    ensures var r := RunFrom(cfg, decide, baseDN, c, pending, replies, n);
      forall k :: 0 < k < |r.sent| ==> r.sent[k - 1].request.vlv.target < r.sent[k].request.vlv.target
  {
    EngineStepLaws(cfg, decide, baseDN);
    LoopRequests(cfg, baseDN, StepOf(cfg, decide, baseDN), c, pending, replies, n);
  }

  /**
   * The consumer is asked once per delivered entry; every answer was "go on"
   * except, when the pass ended because the consumer stopped, the last one.
   */
  lemma ConsumerStopHonoured(cfg: Config, decide: Verdict, baseDN: string, c: Cursor,
                             pending: Option<string>, replies: seq<Reply>, n: nat)
    ensures var r := RunFrom(cfg, decide, baseDN, c, pending, replies, n);
      r.outcome.ConsumerStopped? ==> 0 < |r.delivered|
    ensures var r := RunFrom(cfg, decide, baseDN, c, pending, replies, n);
      forall k :: 0 <= k < |r.delivered| ==>
        (decide(n + k, Delivery(baseDN, r.delivered[k])) <==> !(r.outcome.ConsumerStopped? && k == |r.delivered| - 1))
  {
    EngineStepLaws(cfg, decide, baseDN);
    LoopHonoursStop(cfg, baseDN, StepOf(cfg, decide, baseDN), decide, c, pending, replies, n);
  }

  /**
   * A handler's "stop" ends the pass: no search follows the one whose page
   * it stopped, whose reply is the last one read; the same pass cut off just
   * before that reply runs out of replies having handed over a strict prefix.
   */
  lemma StopEndsPass(cfg: Config, decide: Verdict, baseDN: string, c: Cursor,
                     pending: Option<string>, replies: seq<Reply>, n: nat)
    ensures var r := RunFrom(cfg, decide, baseDN, c, pending, replies, n);
      r.outcome.ConsumerStopped? ==>
        0 < |r.sent| <= |replies| && r.rest == replies[|r.sent|..] &&
        var q := RunFrom(cfg, decide, baseDN, c, pending, replies[..|r.sent| - 1], n);
        q.outcome == Aborted(Transport) && |q.delivered| < |r.delivered| &&
        q.delivered == r.delivered[..|q.delivered|]
  {
    EngineStepLaws(cfg, decide, baseDN);
    LoopEndsAtStop(cfg, baseDN, StepOf(cfg, decide, baseDN), c, pending, replies, n);
  }

  /**
   * With a server that reports the same content count N on every page, a
   * pass continued at `index` sends at most max(N - index + 1, 1) searches.
   */
  lemma ConstantCountBoundsPages(cfg: Config, decide: Verdict, baseDN: string, c: Cursor,
                                 pending: Option<string>, replies: seq<Reply>, n: nat, N: int)
    requires forall k :: 0 <= k < |replies| && replies[k].Page? ==>
      LastReportedCount(replies[k].controls) == Some(N)
    ensures |RunFrom(cfg, decide, baseDN, c, pending, replies, n).sent| <= Max(N - c.index + 1, 1)
  {
    EngineStepLaws(cfg, decide, baseDN);
    LoopBoundedByCount(cfg, baseDN, StepOf(cfg, decide, baseDN), c, pending, replies, n, N);
  }

  /** From the reset cursor: at most max(N, 1) searches per base DN under a constant count N. */
  lemma SearchBaseBoundedByCount(cfg: Config, decide: Verdict, baseDN: string, replies: seq<Reply>, n: nat, N: int)
    requires forall k :: 0 <= k < |replies| && replies[k].Page? ==>
      LastReportedCount(replies[k].controls) == Some(N)
    ensures |SearchBase(cfg, decide, baseDN, replies, n).sent| <= Max(N, 1)
  {
    ConstantCountBoundsPages(cfg, decide, baseDN, Start, None, replies, n, N);
  }

  /**
   * A first page whose response reports no content count of at least 1 (in
   * particular, no list-view response at all) ends the pass after one search.
   */
  lemma NoCountSinglePage(cfg: Config, decide: Verdict, baseDN: string, replies: seq<Reply>, n: nat)
    requires replies != [] && replies[0].Page? ==> LastReportedCount(replies[0].controls).GetOr(0) < 1
    ensures |SearchBase(cfg, decide, baseDN, replies, n).sent| == 1
  {
    if replies != [] {
      PageStepNextPage(cfg, decide, baseDN, Start, None, replies[0], n);
    }
  }

  /**
   * A page with a rejecting response control ends the pass with that
   * failure after one search, and none of its entries reaches the consumer.
   */
  lemma RejectedPageAborts(cfg: Config, decide: Verdict, baseDN: string, c: Cursor, pending: Option<string>,
                           stream: seq<Entry>, controls: seq<ResponseControl>, rest: seq<Reply>, n: nat)
    requires exists i :: 0 <= i < |controls| && Rejects(controls[i])
    ensures var r := RunFrom(cfg, decide, baseDN, c, pending, [Page(stream, controls)] + rest, n);
      r.outcome.Aborted? && r.delivered == [] && |r.sent| == 1 && r.rest == rest
  {
    var replies := [Page(stream, controls)] + rest;
    PageStepFailsSilently(cfg, decide, baseDN, c, pending, replies[0], n);
    assert replies[1..] == rest;
  }

  /**
   * Every pass starts from the reset cursor: its first search targets
   * position 1 with content count 0 and an empty cookie.
   */
  lemma PassStartsReset(cfg: Config, decide: Verdict, baseDN: string, replies: seq<Reply>, n: nat)
    ensures var r := SearchBase(cfg, decide, baseDN, replies, n);
      0 < |r.sent| &&
      r.sent[0].request.vlv == VlvOffset(Critical, 1, 0, 0, cfg.blockSize - 1, [])
  {
    RequestsShape(cfg, decide, baseDN, Start, None, replies, n);
  }

  // ---------------------------------------------------------------------------
  // The multi-base search.
  // ---------------------------------------------------------------------------

  /** Every search of the engine's pass names that pass's base DN. */
  lemma EngineNamesBase(cfg: Config, decide: Verdict)
    ensures NamesBase(PassOf(cfg, decide))
  {
    forall b: string, replies: seq<Reply>, n: nat {
      RequestsShape(cfg, decide, b, Start, None, replies, n);
    }
  }

  /** The engine's pass ends as stopped only after the consumer refused its last entry. */
  lemma EngineStopsOnRefusal(cfg: Config, decide: Verdict)
    ensures StopsOnRefusal(PassOf(cfg, decide), decide)
  {
    forall b: string, replies: seq<Reply>, n: nat {
      ConsumerStopHonoured(cfg, decide, b, Start, None, replies, n);
    }
  }

  /**
   * Base DNs are entered in list order and only while the previous one
   * finished: the search ends after the base DN whose pass failed or was
   * stopped by the consumer (the run is the run over the base DNs up to that
   * one, and all before it finished cleanly), and otherwise enters every
   * base DN.
   */
  lemma BaseDNsInOrder(cfg: Config, decide: Verdict, baseDNs: seq<string>, replies: seq<Reply>, n: nat, c: Cursor)
    ensures var r := RunAll(cfg, decide, baseDNs, replies, n, c);
      r.searched <= |baseDNs| &&
      (r.error.None? && !r.stopped ==> r.searched == |baseDNs|) &&
      (r.stopped ==> r.error.None?)
    ensures var r := RunAll(cfg, decide, baseDNs, replies, n, c);
      (r.stopped || r.error.Some?) ==>
        0 < r.searched &&
        r == RunAll(cfg, decide, baseDNs[..r.searched], replies, n, c) &&
        var q := RunAll(cfg, decide, baseDNs[..r.searched - 1], replies, n, c);
        q.error.None? && !q.stopped
  {
    CoordinateEntersInOrder(PassOf(cfg, decide), baseDNs, replies, n, c);
    CoordinateEndsAtBreak(PassOf(cfg, decide), baseDNs, replies, n, c);
  }

  /** A whole run the consumer stopped ends on the entry whose handler call answered "stop". */
  lemma RunStopsOnRefusal(cfg: Config, decide: Verdict, baseDNs: seq<string>, replies: seq<Reply>, n: nat, c: Cursor)
    ensures var r := RunAll(cfg, decide, baseDNs, replies, n, c);
      r.stopped ==> 0 < |r.delivered| && !decide(n + |r.delivered| - 1, r.delivered[|r.delivered| - 1])
  {
    EngineStopsOnRefusal(cfg, decide);
    CoordinateStops(PassOf(cfg, decide), decide, baseDNs, replies, n, c);
  }

  /** No search of the whole run names a base DN beyond the last one entered. */
  lemma SearchesStayInEnteredBases(cfg: Config, decide: Verdict, baseDNs: seq<string>, replies: seq<Reply>,
                                   n: nat, c: Cursor)
    ensures var r := RunAll(cfg, decide, baseDNs, replies, n, c);
      r.searched <= |baseDNs| &&
      forall k :: 0 <= k < |r.sent| ==> r.sent[k].baseDN in baseDNs[..r.searched]
  {
    EngineNamesBase(cfg, decide);
    CoordinateNamesEntered(PassOf(cfg, decide), baseDNs, replies, n, c);
  }

  // ---------------------------------------------------------------------------
  // A conformant server.
  // ---------------------------------------------------------------------------

  /** The page a conformant server returns for target position i + 1 over the sorted entries `all`. */
  function ConformantPage(all: seq<Entry>, blockSize: nat, i: nat): Reply
    requires i <= |all|
  {
    var end := if i + blockSize < |all| then i + blockSize else |all|;
    Page(all[i..end], [SortResult(true, 0), VlvResult(Complete(i + 1, |all|, 0, None))])
  }

  /** The replies of a conformant server from position i + 1 to the end, one page per block. */
  function ConformantReplies(all: seq<Entry>, blockSize: nat, i: nat): seq<Reply>
    requires 0 < blockSize && i <= |all|
    decreases |all| - i
  {
    if |all| <= i + blockSize then [ConformantPage(all, blockSize, i)]
    else [ConformantPage(all, blockSize, i)] + ConformantReplies(all, blockSize, i + blockSize)
  }

  /** No two neighbouring entries share a name, so the overlap guard never fires. */
  predicate NeighboursDistinct(all: seq<Entry>) {
    forall j :: 0 < j < |all| ==> all[j - 1].name != all[j].name
  }

  /** The cursor a pass has when it asks a conformant server for position i + 1. */
  function ConformantCursor(all: seq<Entry>, i: nat): Cursor {
    Cursor(i + 1, if i == 0 then 0 else |all|, [])
  }

  /** The pending name when a pass asks a conformant server for position i + 1. */
  function ConformantPending(all: seq<Entry>, i: nat): Option<string>
    requires i <= |all|
  {
    if i == 0 then None else Some(all[i - 1].name)
  }

  /** The end of the block a conformant server returns for position i + 1. */
  function BlockEnd(all: seq<Entry>, blockSize: nat, i: nat): nat {
    if i + blockSize < |all| then i + blockSize else |all|
  }

  /**
   * A page step that, from the cursor and pending name of position i + 1 and
   * the block there with response controls that report the number of
   * entries and no error, delivers the block, moves past it, and asks
   * for the next page exactly when entries are left.
   */
  ghost predicate StepsThroughBlocks(step: Stepper, baseDN: string, all: seq<Entry>, blockSize: nat)
    requires 0 < blockSize
  {
    forall i: nat, n: nat, cs: seq<ResponseControl> ::
      i <= |all| && (i == 0 || i < |all|) &&
      Process(ConformantCursor(all, i).lastListSize, [], cs) == Decoded(|all|, [], None) ==>
      var end := BlockEnd(all, blockSize, i);
      var s := step(ConformantCursor(all, i), ConformantPending(all, i), Page(all[i..end], cs), n);
      s.delivered == all[i..end] &&
      s.cursor == Cursor(end + 1, |all|, []) &&
      (if end == |all| then s.outcome == Exhausted
       else s.outcome == NextPage && s.pending == Some(all[end - 1].name))
  }

  /** A conformant page's response controls set `lastListSize` to the number of entries and keep the cookie. */
  lemma ConformantControls(all: seq<Entry>, blockSize: nat, i: nat, lastListSize: int)
    requires i <= |all| < 0x8000_0000
    ensures Process(lastListSize, [], ConformantPage(all, blockSize, i).controls) == Decoded(|all|, [], None)
  {
    var controls := ConformantPage(all, blockSize, i).controls;
    var rest := controls[1..];
    assert ProcessOne(lastListSize, [], controls[0]) == Decoded(lastListSize, [], None);
    assert rest[0] == controls[1] && rest[1..] == [];
    assert ProcessOne(lastListSize, [], rest[0]) == Decoded(|all|, [], None);
    assert Process(|all|, [], rest[1..]) == Decoded(|all|, [], None);
  }

  /** On a conformant page, the overlap guard keeps the whole block. */
  lemma ConformantBuffer(all: seq<Entry>, blockSize: nat, i: nat)
    requires NeighboursDistinct(all)
    requires i == 0 || i < |all|
    ensures Buffered(ConformantPending(all, i), all[i..BlockEnd(all, blockSize, i)]) ==
      all[i..BlockEnd(all, blockSize, i)]
  {
    var stream := all[i..BlockEnd(all, blockSize, i)];
    if i > 0 && |stream| > 0 {
      assert stream[0] == all[i];
    }
  }

  /** A consumer that accepts everything is never reported as having stopped. */
  lemma AcceptAllNeverStops(decide: Verdict, baseDN: string, kept: seq<Entry>, n: nat)
    requires forall k: nat, d: Delivery :: decide(k, d)
    ensures !Dispatch(decide, baseDN, kept, n).stopped
  {
    DispatchAsksInOrder(decide, baseDN, kept, n);
  }

  /** The last entry of a non-empty block is the entry just before its end. */
  lemma BlockLast(all: seq<Entry>, i: nat, end: nat)
    requires i < end <= |all|
    ensures all[i..end][end - i - 1] == all[end - 1]
  {
  }

  /**
   * One page of a conformant server, to a consumer that never stops, as the
   * law of accepted pages states it: the whole block is delivered and the
   * index moves past it.
   */
  lemma ConformantAccepted(step: Stepper, decide: Verdict, baseDN: string, all: seq<Entry>,
                           blockSize: nat, i: nat, n: nat, cs: seq<ResponseControl>)
    requires AcceptedLaw(step, decide, baseDN)
    requires NeighboursDistinct(all)
    requires forall k: nat, d: Delivery :: decide(k, d)
    requires i == 0 || i < |all|
    requires Process(ConformantCursor(all, i).lastListSize, [], cs) == Decoded(|all|, [], None)
    ensures var end := BlockEnd(all, blockSize, i);
      var kept := all[i..end];
      var s := step(ConformantCursor(all, i), ConformantPending(all, i), Page(kept, cs), n);
      s.delivered == kept && s.cursor == Cursor(i + 1 + |kept|, |all|, []) &&
      (kept != [] ==> s.pending == Some(kept[|kept| - 1].name)) &&
      s.outcome == (if i + 1 + |kept| > |all| then Exhausted else if kept == [] then EmptyPage else NextPage)
  {
    var c := ConformantCursor(all, i);
    var pending := ConformantPending(all, i);
    var kept := all[i..BlockEnd(all, blockSize, i)];
    ConformantBuffer(all, blockSize, i);
    AcceptAllNeverStops(decide, baseDN, kept, n);
    assert AcceptedAt(step, decide, baseDN, c, pending, kept, cs, n);
  }

  /**
   * One page of a conformant server, to a consumer that never stops: every
   * entry of the block is delivered and the cursor moves past it.
   */
  lemma ConformantStep(step: Stepper, decide: Verdict, baseDN: string, all: seq<Entry>,
                       blockSize: nat, i: nat, n: nat, cs: seq<ResponseControl>)
    requires AcceptedLaw(step, decide, baseDN)
    requires 0 < blockSize
    requires NeighboursDistinct(all)
    requires forall k: nat, d: Delivery :: decide(k, d)
    requires i == 0 || i < |all|
    requires Process(ConformantCursor(all, i).lastListSize, [], cs) == Decoded(|all|, [], None)
    ensures var end := BlockEnd(all, blockSize, i);
      var s := step(ConformantCursor(all, i), ConformantPending(all, i), Page(all[i..end], cs), n);
      s.delivered == all[i..end] &&
      s.cursor == Cursor(end + 1, |all|, []) &&
      (if end == |all| then s.outcome == Exhausted
       else s.outcome == NextPage && s.pending == Some(all[end - 1].name))
  {
    var end := BlockEnd(all, blockSize, i);
    ConformantAccepted(step, decide, baseDN, all, blockSize, i, n, cs);
    if end < |all| {
      BlockLast(all, i, end);
    }
  }

  /** The number of blocks of `blockSize` needed to cover `m` entries; at least one. */
  function Blocks(m: int, blockSize: nat): (b: nat)
    requires 0 < blockSize
    decreases m
  {
    if m <= blockSize then 1 else 1 + Blocks(m - blockSize, blockSize)
  }

  lemma MulSucc(a: int, b: int)
    ensures (a + 1) * b == a * b + b
  {
  }

  /** `Blocks` is the ceiling of m / blockSize, and 1 when nothing is left. */
  lemma {:induction false} BlocksIsCeiling(m: nat, blockSize: nat)
    requires 0 < blockSize
    ensures m <= Blocks(m, blockSize) * blockSize
    ensures Blocks(m, blockSize) == 1 || (Blocks(m, blockSize) - 1) * blockSize < m
    decreases m
  {
    if m > blockSize {
      var b := Blocks(m - blockSize, blockSize);
      BlocksIsCeiling(m - blockSize, blockSize);
      MulSucc(b, blockSize);
    }
  }

  /** The loop from position i + 1 of a conformant server, for a given page step. */
  function BlocksLoop(cfg: Config, baseDN: string, step: Stepper, all: seq<Entry>, i: nat, n: nat): BaseRun
    requires 0 < cfg.blockSize && i <= |all|
  {
    Loop(cfg, baseDN, step, ConformantCursor(all, i), ConformantPending(all, i),
         ConformantReplies(all, cfg.blockSize, i), n)
  }

  /** The last block: one search, the rest of the entries, and the pass finishes. */
  lemma LastBlock(cfg: Config, baseDN: string, step: Stepper, all: seq<Entry>, i: nat, n: nat)
    requires |all| < 0x8000_0000
    requires 0 < cfg.blockSize && (i == 0 || i < |all|) && |all| <= i + cfg.blockSize
    requires StepsThroughBlocks(step, baseDN, all, cfg.blockSize)
    ensures BlocksLoop(cfg, baseDN, step, all, i, n) ==
      BaseRun([Sent(baseDN, RequestFor(cfg, ConformantCursor(all, i)))], all[i..], Finished,
              Cursor(|all| + 1, |all|, []), [])
  {
    var replies := ConformantReplies(all, cfg.blockSize, i);
    var page := ConformantPage(all, cfg.blockSize, i);
    ConformantControls(all, cfg.blockSize, i, ConformantCursor(all, i).lastListSize);
    assert replies[0] == Page(all[i..BlockEnd(all, cfg.blockSize, i)], page.controls) && replies[1..] == [];
    assert all[i..] == all[i..|all|];
  }

  /** A block before the last: one search, the block, then the loop from the next block. */
  lemma NextBlock(cfg: Config, baseDN: string, step: Stepper, all: seq<Entry>, i: nat, n: nat)
    requires |all| < 0x8000_0000
    requires 0 < cfg.blockSize && (i == 0 || i < |all|) && i + cfg.blockSize < |all|
    requires StepsThroughBlocks(step, baseDN, all, cfg.blockSize)
    ensures var r' := BlocksLoop(cfg, baseDN, step, all, i + cfg.blockSize, n + cfg.blockSize);
      BlocksLoop(cfg, baseDN, step, all, i, n) ==
        BaseRun([Sent(baseDN, RequestFor(cfg, ConformantCursor(all, i)))] + r'.sent,
                all[i..i + cfg.blockSize] + r'.delivered, r'.outcome, r'.cursor, r'.rest)
  {
    var B := cfg.blockSize;
    var replies := ConformantReplies(all, B, i);
    var page := ConformantPage(all, B, i);
    ConformantControls(all, B, i, ConformantCursor(all, i).lastListSize);
    assert replies[0] == Page(all[i..BlockEnd(all, B, i)], page.controls);
    assert replies[1..] == ConformantReplies(all, B, i + B);
  }

  /**
   * For any page step that steps through the blocks of a conformant server,
   * the loop from position i + 1 delivers exactly the entries from i on, in
   * order, and finishes having read every reply.
   */
  lemma {:induction false} LoopThroughBlocksDelivers(cfg: Config, baseDN: string, step: Stepper, all: seq<Entry>,
                                                     i: nat, n: nat)
    requires |all| < 0x8000_0000
    requires 0 < cfg.blockSize && (i == 0 || i < |all|)
    requires StepsThroughBlocks(step, baseDN, all, cfg.blockSize)
    ensures var r := BlocksLoop(cfg, baseDN, step, all, i, n);
      r.outcome == Finished && r.rest == [] && r.delivered == all[i..]
    decreases |all| - i
  {
    var B := cfg.blockSize;
    if |all| <= i + B {
      LastBlock(cfg, baseDN, step, all, i, n);
    } else {
      NextBlock(cfg, baseDN, step, all, i, n);
      LoopThroughBlocksDelivers(cfg, baseDN, step, all, i + B, n + B);
      assert all[i..] == all[i..i + B] + all[i + B..];
    }
  }

  /**
   * For any page step that steps through the blocks of a conformant server,
   * the loop from position i + 1 sends one search per block of what is left,
   * the k-th at target i + 1 + k * blockSize.
   */
  lemma {:induction false} LoopThroughBlocksSends(cfg: Config, baseDN: string, step: Stepper, all: seq<Entry>,
                                                  i: nat, n: nat)
    requires |all| < 0x8000_0000
    requires 0 < cfg.blockSize && (i == 0 || i < |all|)
    requires StepsThroughBlocks(step, baseDN, all, cfg.blockSize)
    ensures var r := BlocksLoop(cfg, baseDN, step, all, i, n);
      |r.sent| == Blocks(|all| - i, cfg.blockSize) &&
      forall k :: 0 <= k < |r.sent| ==> r.sent[k].request.vlv.target == i + 1 + k * cfg.blockSize
    decreases |all| - i
  {
    var B := cfg.blockSize;
    var r := BlocksLoop(cfg, baseDN, step, all, i, n);
    if |all| <= i + B {
      LastBlock(cfg, baseDN, step, all, i, n);
    } else {
      var r' := BlocksLoop(cfg, baseDN, step, all, i + B, n + B);
      NextBlock(cfg, baseDN, step, all, i, n);
      LoopThroughBlocksSends(cfg, baseDN, step, all, i + B, n + B);
      assert r.sent[1..] == r'.sent;
      forall k | 0 < k < |r.sent| ensures r.sent[k].request.vlv.target == i + 1 + k * B {
        assert r.sent[k] == r'.sent[k - 1];
        MulSucc(k - 1, B);
      }
    }
  }

  /**
   * A page step obeying the accepted-page law steps through the blocks of a
   * conformant server, for a consumer that never stops.
   */
  lemma AcceptedStepsThroughBlocks(step: Stepper, decide: Verdict, baseDN: string, all: seq<Entry>, blockSize: nat)
    requires AcceptedLaw(step, decide, baseDN)
    requires 0 < blockSize
    requires NeighboursDistinct(all)
    requires forall k: nat, d: Delivery :: decide(k, d)
    ensures StepsThroughBlocks(step, baseDN, all, blockSize)
  {
    forall j: nat, m: nat, cs: seq<ResponseControl> |
      j <= |all| && (j == 0 || j < |all|) &&
      Process(ConformantCursor(all, j).lastListSize, [], cs) == Decoded(|all|, [], None)
    {
      ConformantStep(step, decide, baseDN, all, blockSize, j, m, cs);
    }
  }

  /** The engine's page step steps through the blocks of a conformant server, for a consumer that never stops. */
  lemma EngineStepsThroughBlocks(cfg: Config, decide: Verdict, baseDN: string, all: seq<Entry>)
    requires 0 < cfg.blockSize
    requires NeighboursDistinct(all)
    requires forall k: nat, d: Delivery :: decide(k, d)
    ensures StepsThroughBlocks(StepOf(cfg, decide, baseDN), baseDN, all, cfg.blockSize)
  {
    EngineAcceptedLaw(cfg, decide, baseDN);
    AcceptedStepsThroughBlocks(StepOf(cfg, decide, baseDN), decide, baseDN, all, cfg.blockSize);
  }

  /**
   * Against a conformant server and a consumer that never stops, a pass from
   * position i + 1 delivers exactly the entries from i on, in order, and
   * finishes without error having read every reply.
   */
  lemma ConformantRunDelivers(cfg: Config, decide: Verdict, baseDN: string, all: seq<Entry>, i: nat, n: nat)
    requires 0 < cfg.blockSize && |all| < 0x8000_0000
    requires NeighboursDistinct(all)
    requires forall k: nat, d: Delivery :: decide(k, d)
    requires i == 0 || i < |all|
    ensures var r := RunFrom(cfg, decide, baseDN, ConformantCursor(all, i), ConformantPending(all, i),
                             ConformantReplies(all, cfg.blockSize, i), n);
      r.outcome == Finished && r.rest == [] && r.delivered == all[i..]
  {
    EngineStepsThroughBlocks(cfg, decide, baseDN, all);
    LoopThroughBlocksDelivers(cfg, baseDN, StepOf(cfg, decide, baseDN), all, i, n);
  }

  /**
   * Against a conformant server and a consumer that never stops, a pass from
   * position i + 1 sends ceil((|all| - i) / blockSize) searches (one when
   * nothing is left), the k-th at target i + 1 + k * blockSize.
   */
  lemma ConformantRunSends(cfg: Config, decide: Verdict, baseDN: string, all: seq<Entry>, i: nat, n: nat)
    requires 0 < cfg.blockSize && |all| < 0x8000_0000
    requires NeighboursDistinct(all)
    requires forall k: nat, d: Delivery :: decide(k, d)
    requires i == 0 || i < |all|
    ensures var r := RunFrom(cfg, decide, baseDN, ConformantCursor(all, i), ConformantPending(all, i),
                             ConformantReplies(all, cfg.blockSize, i), n);
      0 < |r.sent| &&
      (|r.sent| == 1 || (|r.sent| - 1) * cfg.blockSize < |all| - i) &&
      |all| - i <= |r.sent| * cfg.blockSize &&
      (forall k :: 0 <= k < |r.sent| ==> r.sent[k].request.vlv.target == i + 1 + k * cfg.blockSize)
  {
    EngineStepsThroughBlocks(cfg, decide, baseDN, all);
    LoopThroughBlocksSends(cfg, baseDN, StepOf(cfg, decide, baseDN), all, i, n);
    BlocksIsCeiling(|all| - i, cfg.blockSize);
  }

  /**
   * The worked example: 25 entries in blocks of 10 are fetched by three
   * searches at positions 1, 11 and 21, and the consumer sees all 25 in order.
   */
  lemma TwentyFiveInBlocksOfTen(attr: string, decide: Verdict, baseDN: string, all: seq<Entry>, n: nat)
    requires |all| == 25 && NeighboursDistinct(all)
    requires forall k: nat, d: Delivery :: decide(k, d)
    ensures var r := SearchBase(Config(attr, 10), decide, baseDN, ConformantReplies(all, 10, 0), n);
      r.outcome == Finished && r.delivered == all &&
      |r.sent| == 3 &&
      r.sent[0].request.vlv.target == 1 && r.sent[1].request.vlv.target == 11 &&
      r.sent[2].request.vlv.target == 21
  {
    ConformantRunDelivers(Config(attr, 10), decide, baseDN, all, 0, n);
    ConformantRunSends(Config(attr, 10), decide, baseDN, all, 0, n);
    assert all[0..] == all;
  }
}
