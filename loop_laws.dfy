/**
 * Properties of the page loop and of the multi-base loop that hold for any
 * page step obeying the laws of module StepLaws, and for any pass obeying
 * the laws stated here.
 */
module LoopLaws {
  import opened Wrappers
  import opened Controls
  import opened Paging
  import opened StepLaws

  function Max(a: int, b: int): int { if a < b then b else a }

  // ---------------------------------------------------------------------------
  // The page loop.
  // ---------------------------------------------------------------------------

  /** `index` ends at the starting `c.index` plus the number of consumer calls made during the loop. */
  lemma {:induction false} LoopCountsIndex(cfg: Config, baseDN: string, step: Stepper, c: Cursor,
                                           pending: Option<string>, replies: seq<Reply>, n: nat)
    requires CountsIndex(step)
    ensures var r := Loop(cfg, baseDN, step, c, pending, replies, n);
      r.cursor.index == c.index + |r.delivered|
    decreases |replies|
  {
    if replies != [] {
      var s := step(c, pending, replies[0], n);
      if s.outcome.NextPage? {
        LoopCountsIndex(cfg, baseDN, step, s.cursor, s.pending, replies[1..], n + |s.delivered|);
      }
    }
  }

  /**
   * Every search of the loop carries the sort control on the configured
   * attribute and an offset-form list-view control with before-count 0 and
   * after-count `blockSize - 1`, both critical; the first one is built from
   * the starting cursor; the targets strictly increase and never pass the
   * final `index`.
   */
  lemma {:induction false} LoopRequests(cfg: Config, baseDN: string, step: Stepper, c: Cursor,
                                        pending: Option<string>, replies: seq<Reply>, n: nat)
    requires CountsIndex(step) && NextPageLaw(step)
    ensures var r := Loop(cfg, baseDN, step, c, pending, replies, n);
      0 < |r.sent| && r.sent[0] == Sent(baseDN, RequestFor(cfg, c))
    ensures var r := Loop(cfg, baseDN, step, c, pending, replies, n);
      forall k :: 0 <= k < |r.sent| ==>
        r.sent[k].baseDN == baseDN &&
        r.sent[k].request.sort == SortKey(cfg.sortAttribute, Critical) &&
        r.sent[k].request.vlv.critical == Critical &&
        r.sent[k].request.vlv.beforeCount == 0 &&
        r.sent[k].request.vlv.afterCount == cfg.blockSize - 1 &&
        c.index <= r.sent[k].request.vlv.target <= r.cursor.index
    ensures var r := Loop(cfg, baseDN, step, c, pending, replies, n);
      forall k :: 0 < k < |r.sent| ==> r.sent[k - 1].request.vlv.target < r.sent[k].request.vlv.target
    decreases |replies|
  {
    var r := Loop(cfg, baseDN, step, c, pending, replies, n);
    var first := Sent(baseDN, RequestFor(cfg, c));
    if replies == [] {
      assert r.sent == [first];
    } else {
      var s := step(c, pending, replies[0], n);
      if s.outcome.NextPage? {
        var m := n + |s.delivered|;
        var r' := Loop(cfg, baseDN, step, s.cursor, s.pending, replies[1..], m);
        LoopRequests(cfg, baseDN, step, s.cursor, s.pending, replies[1..], m);
        assert r.sent == [first] + r'.sent && r.cursor == r'.cursor;
        assert c.index < s.cursor.index;
        forall k | 0 < k < |r.sent| ensures r.sent[k] == r'.sent[k - 1] { }
      } else {
        assert r.sent == [first] && r.cursor == s.cursor;
      }
    }
  }

  /**
   * The consumer is asked once per delivered entry; every answer was "go on"
   * except, when the pass ended because the consumer stopped, the last one.
   */
  lemma {:induction false} LoopHonoursStop(cfg: Config, baseDN: string, step: Stepper, decide: Verdict, c: Cursor,
                                           pending: Option<string>, replies: seq<Reply>, n: nat)
    requires StopsAfterEntry(step) && AsksInOrder(step, decide, baseDN)
    ensures var r := Loop(cfg, baseDN, step, c, pending, replies, n);
      r.outcome.ConsumerStopped? ==> 0 < |r.delivered|
    ensures var r := Loop(cfg, baseDN, step, c, pending, replies, n);
      forall k :: 0 <= k < |r.delivered| ==>
        (decide(n + k, Delivery(baseDN, r.delivered[k])) <==> !(r.outcome.ConsumerStopped? && k == |r.delivered| - 1))
    decreases |replies|
  {
    if replies != [] {
      var s := step(c, pending, replies[0], n);
      var r := Loop(cfg, baseDN, step, c, pending, replies, n);
      if s.outcome.NextPage? {
        var m := n + |s.delivered|;
        var r' := Loop(cfg, baseDN, step, s.cursor, s.pending, replies[1..], m);
        LoopHonoursStop(cfg, baseDN, step, decide, s.cursor, s.pending, replies[1..], m);
        assert r.delivered == s.delivered + r'.delivered && r.outcome == r'.outcome;
        forall k | 0 <= k < |r.delivered|
          ensures decide(n + k, Delivery(baseDN, r.delivered[k])) <==>
            !(r.outcome.ConsumerStopped? && k == |r.delivered| - 1)
        {
          if k < |s.delivered| {
            assert r.delivered[k] == s.delivered[k];
          } else {
            assert r.delivered[k] == r'.delivered[k - |s.delivered|];
            assert n + k == m + (k - |s.delivered|);
          }
        }
      } else {
        assert r.delivered == s.delivered;
        assert r.outcome.ConsumerStopped? <==> s.outcome.Stopped?;
      }
    }
  }

  /**
   * A stop ends the pass: the search whose page the consumer stopped is the
   * last one sent and its reply the last one read. Cut off just before that
   * reply, the same loop runs out of replies having delivered a strict
   * prefix of what the stopped pass delivered.
   */
  lemma {:induction false} LoopEndsAtStop(cfg: Config, baseDN: string, step: Stepper, c: Cursor,
                                          pending: Option<string>, replies: seq<Reply>, n: nat)
    requires StopsAfterEntry(step)
    ensures var r := Loop(cfg, baseDN, step, c, pending, replies, n);
      r.outcome.ConsumerStopped? ==>
        0 < |r.sent| <= |replies| && r.rest == replies[|r.sent|..] &&
        var q := Loop(cfg, baseDN, step, c, pending, replies[..|r.sent| - 1], n);
        q.outcome == Aborted(Transport) && |q.delivered| < |r.delivered| &&
        q.delivered == r.delivered[..|q.delivered|]
    decreases |replies|
  {
    var r := Loop(cfg, baseDN, step, c, pending, replies, n);
    if replies != [] && r.outcome.ConsumerStopped? {
      var s := step(c, pending, replies[0], n);
      if s.outcome.NextPage? {
        LoopEndsAtStop(cfg, baseDN, step, s.cursor, s.pending, replies[1..], n + |s.delivered|);
        NextPageExtendsStop(cfg, baseDN, step, c, pending, replies, n);
      } else {
        assert s.outcome.Stopped? && r.delivered == s.delivered;
      }
    }
  }

  /** After a first page that asks for another, the stop of the rest of the loop is the stop of the whole. */
  lemma NextPageExtendsStop(cfg: Config, baseDN: string, step: Stepper, c: Cursor,
                            pending: Option<string>, replies: seq<Reply>, n: nat)
    requires replies != [] && step(c, pending, replies[0], n).outcome.NextPage?
    requires var s := step(c, pending, replies[0], n);
      var r' := Loop(cfg, baseDN, step, s.cursor, s.pending, replies[1..], n + |s.delivered|);
      r'.outcome.ConsumerStopped? &&
      0 < |r'.sent| <= |replies| - 1 && r'.rest == replies[1..][|r'.sent|..] &&
      var q' := Loop(cfg, baseDN, step, s.cursor, s.pending, replies[1..][..|r'.sent| - 1], n + |s.delivered|);
      q'.outcome == Aborted(Transport) && |q'.delivered| < |r'.delivered| &&
      q'.delivered == r'.delivered[..|q'.delivered|]
    ensures var r := Loop(cfg, baseDN, step, c, pending, replies, n);
      0 < |r.sent| <= |replies| && r.rest == replies[|r.sent|..] &&
      var q := Loop(cfg, baseDN, step, c, pending, replies[..|r.sent| - 1], n);
      q.outcome == Aborted(Transport) && |q.delivered| < |r.delivered| &&
      q.delivered == r.delivered[..|q.delivered|]
  {
    var s := step(c, pending, replies[0], n);
    var m := n + |s.delivered|;
    var r' := Loop(cfg, baseDN, step, s.cursor, s.pending, replies[1..], m);
    var r := Loop(cfg, baseDN, step, c, pending, replies, n);
    assert |r.sent| == 1 + |r'.sent|;
    assert r.delivered == s.delivered + r'.delivered && r.rest == r'.rest;
    var cut := replies[..|r'.sent|];
    assert cut[0] == replies[0] && cut[1..] == replies[1..][..|r'.sent| - 1];
    var q' := Loop(cfg, baseDN, step, s.cursor, s.pending, cut[1..], m);
    var q := Loop(cfg, baseDN, step, c, pending, cut, n);
    assert q.delivered == s.delivered + q'.delivered && q.outcome == q'.outcome;
    assert r.delivered[..|q.delivered|] == s.delivered + r'.delivered[..|q'.delivered|];
  }

  /**
   * With a server that reports the same content count N on every page, a
   * loop started at `index` sends at most max(N - index + 1, 1) searches.
   */
  lemma {:induction false} LoopBoundedByCount(cfg: Config, baseDN: string, step: Stepper, c: Cursor,
                                              pending: Option<string>, replies: seq<Reply>, n: nat, N: int)
    requires CountsIndex(step) && NextPageLaw(step)
    requires forall k :: 0 <= k < |replies| && replies[k].Page? ==>
      LastReportedCount(replies[k].controls) == Some(N)
    ensures |Loop(cfg, baseDN, step, c, pending, replies, n).sent| <= Max(N - c.index + 1, 1)
    decreases |replies|
  {
    if replies != [] {
      var s := step(c, pending, replies[0], n);
      if s.outcome.NextPage? {
        assert replies[0].Page?;
        assert s.cursor.lastListSize == N;
        forall k | 0 <= k < |replies[1..]| && replies[1..][k].Page?
          ensures LastReportedCount(replies[1..][k].controls) == Some(N)
        {
          assert replies[1..][k] == replies[k + 1];
        }
        LoopBoundedByCount(cfg, baseDN, step, s.cursor, s.pending, replies[1..], n + |s.delivered|, N);
      }
    }
  }

  // ---------------------------------------------------------------------------
  // The multi-base loop.
  // ---------------------------------------------------------------------------

  /** Every search of a pass names that pass's base DN. */
  ghost predicate NamesBase(pass: Pass) {
    forall b: string, replies: seq<Reply>, n: nat ::
      forall k :: 0 <= k < |pass(b, replies, n).sent| ==> pass(b, replies, n).sent[k].baseDN == b
  }

  /** A pass ends as stopped only after a consumer call answered "stop", its last one. */
  ghost predicate StopsOnRefusal(pass: Pass, decide: Verdict) {
    forall b: string, replies: seq<Reply>, n: nat ::
      pass(b, replies, n).outcome.ConsumerStopped? ==>
        0 < |pass(b, replies, n).delivered| &&
        !decide(n + |pass(b, replies, n).delivered| - 1,
                Delivery(b, pass(b, replies, n).delivered[|pass(b, replies, n).delivered| - 1]))
  }

  /**
   * Base DNs are entered in list order and only while the previous one
   * finished: the search ends after the base DN whose pass failed or was
   * stopped by the consumer, and otherwise enters every base DN.
   */
  lemma {:induction false} CoordinateEntersInOrder(pass: Pass, baseDNs: seq<string>,
                                                   replies: seq<Reply>, n: nat, c: Cursor)
    ensures var r := Coordinate(pass, baseDNs, replies, n, c);
      r.searched <= |baseDNs| &&
      (r.error.None? && !r.stopped ==> r.searched == |baseDNs|) &&
      (r.stopped ==> r.error.None?)
    decreases |baseDNs|
  {
    if baseDNs != [] {
      var b := pass(baseDNs[0], replies, n);
      if b.outcome.Finished? {
        CoordinateEntersInOrder(pass, baseDNs[1..], b.rest, n + |b.delivered|, b.cursor);
      }
    }
  }

  /**
   * A failed or stopped pass ends the search: the run is the run over the
   * base DNs up to and including the last one entered, and every base DN
   * before that one finished cleanly.
   */
  lemma {:induction false} CoordinateEndsAtBreak(pass: Pass, baseDNs: seq<string>,
                                                 replies: seq<Reply>, n: nat, c: Cursor)
    ensures var r := Coordinate(pass, baseDNs, replies, n, c);
      (r.stopped || r.error.Some?) ==>
        0 < r.searched <= |baseDNs| &&
        r == Coordinate(pass, baseDNs[..r.searched], replies, n, c) &&
        var q := Coordinate(pass, baseDNs[..r.searched - 1], replies, n, c);
        q.error.None? && !q.stopped
    decreases |baseDNs|
  {
    var r := Coordinate(pass, baseDNs, replies, n, c);
    if baseDNs != [] && (r.stopped || r.error.Some?) {
      var b := pass(baseDNs[0], replies, n);
      if b.outcome.Finished? {
        var m := n + |b.delivered|;
        CoordinateEndsAtBreak(pass, baseDNs[1..], b.rest, m, b.cursor);
        FinishedHeadExtends(pass, baseDNs, replies, n, c);
      } else {
        assert r.searched == 1 && baseDNs[..0] == [];
        assert baseDNs[..1][0] == baseDNs[0];
      }
    }
  }

  /** After a first pass that finished, cutting the list keeps the run and the clean prefix of the rest. */
  lemma FinishedHeadExtends(pass: Pass, baseDNs: seq<string>, replies: seq<Reply>, n: nat, c: Cursor)
    requires baseDNs != [] && pass(baseDNs[0], replies, n).outcome.Finished?
    requires var b := pass(baseDNs[0], replies, n);
      var r' := Coordinate(pass, baseDNs[1..], b.rest, n + |b.delivered|, b.cursor);
      0 < r'.searched <= |baseDNs| - 1 &&
      r' == Coordinate(pass, baseDNs[1..][..r'.searched], b.rest, n + |b.delivered|, b.cursor) &&
      var q' := Coordinate(pass, baseDNs[1..][..r'.searched - 1], b.rest, n + |b.delivered|, b.cursor);
      q'.error.None? && !q'.stopped
    ensures var r := Coordinate(pass, baseDNs, replies, n, c);
      0 < r.searched <= |baseDNs| &&
      r == Coordinate(pass, baseDNs[..r.searched], replies, n, c) &&
      var q := Coordinate(pass, baseDNs[..r.searched - 1], replies, n, c);
      q.error.None? && !q.stopped
  {
    var b := pass(baseDNs[0], replies, n);
    var m := n + |b.delivered|;
    var r' := Coordinate(pass, baseDNs[1..], b.rest, m, b.cursor);
    var k := 1 + r'.searched;
    var head := baseDNs[..k];
    assert head[0] == baseDNs[0] && head[1..] == baseDNs[1..][..r'.searched];
    var shorter := baseDNs[..k - 1];
    assert shorter[0] == baseDNs[0] && shorter[1..] == baseDNs[1..][..r'.searched - 1];
  }

  /** A run the consumer stopped ends on an entry the consumer refused. */
  lemma {:induction false} CoordinateStops(pass: Pass, decide: Verdict, baseDNs: seq<string>,
                                           replies: seq<Reply>, n: nat, c: Cursor)
    requires StopsOnRefusal(pass, decide)
    ensures var r := Coordinate(pass, baseDNs, replies, n, c);
      r.stopped ==> 0 < |r.delivered| && !decide(n + |r.delivered| - 1, r.delivered[|r.delivered| - 1])
    decreases |baseDNs|
  {
    if baseDNs != [] {
      var b := pass(baseDNs[0], replies, n);
      if b.outcome.Finished? {
        CoordinateStops(pass, decide, baseDNs[1..], b.rest, n + |b.delivered|, b.cursor);
        FinishedHeadKeepsStop(pass, decide, baseDNs, replies, n, c);
      } else if b.outcome.ConsumerStopped? {
        StoppedHeadRefuses(pass, decide, baseDNs, replies, n, c);
      }
    }
  }

  /** A run whose first pass the consumer stopped ends on the entry that pass refused. */
  lemma StoppedHeadRefuses(pass: Pass, decide: Verdict, baseDNs: seq<string>, replies: seq<Reply>, n: nat, c: Cursor)
    requires StopsOnRefusal(pass, decide)
    requires baseDNs != [] && pass(baseDNs[0], replies, n).outcome.ConsumerStopped?
    ensures var r := Coordinate(pass, baseDNs, replies, n, c);
      r.stopped && 0 < |r.delivered| && !decide(n + |r.delivered| - 1, r.delivered[|r.delivered| - 1])
  {
    var b := pass(baseDNs[0], replies, n);
    var r := Coordinate(pass, baseDNs, replies, n, c);
    assert 0 < |b.delivered| && !decide(n + |b.delivered| - 1, Delivery(baseDNs[0], b.delivered[|b.delivered| - 1]));
    assert r.delivered == Deliveries(baseDNs[0], b.delivered) && r.stopped;
    DeliveriesAt(baseDNs[0], b.delivered, |b.delivered| - 1);
  }

  /** After a first pass that finished, a stop of the rest of the run is a stop of the whole run. */
  lemma FinishedHeadKeepsStop(pass: Pass, decide: Verdict, baseDNs: seq<string>, replies: seq<Reply>, n: nat, c: Cursor)
    requires baseDNs != [] && pass(baseDNs[0], replies, n).outcome.Finished?
    requires var b := pass(baseDNs[0], replies, n);
      var m := n + |b.delivered|;
      var r' := Coordinate(pass, baseDNs[1..], b.rest, m, b.cursor);
      r'.stopped ==> 0 < |r'.delivered| && !decide(m + |r'.delivered| - 1, r'.delivered[|r'.delivered| - 1])
    ensures var r := Coordinate(pass, baseDNs, replies, n, c);
      r.stopped ==> 0 < |r.delivered| && !decide(n + |r.delivered| - 1, r.delivered[|r.delivered| - 1])
  {
    var b := pass(baseDNs[0], replies, n);
    var m := n + |b.delivered|;
    var r' := Coordinate(pass, baseDNs[1..], b.rest, m, b.cursor);
    var r := Coordinate(pass, baseDNs, replies, n, c);
    assert r.delivered == Deliveries(baseDNs[0], b.delivered) + r'.delivered;
    assert r.stopped == r'.stopped;
    if r.stopped {
      assert |r.delivered| == |b.delivered| + |r'.delivered|;
      assert r.delivered[|r.delivered| - 1] == r'.delivered[|r'.delivered| - 1];
      assert n + |r.delivered| - 1 == m + |r'.delivered| - 1;
    }
  }

  /** No search names a base DN beyond the last one entered. */
  lemma {:induction false} CoordinateNamesEntered(pass: Pass, baseDNs: seq<string>,
                                                  replies: seq<Reply>, n: nat, c: Cursor)
    requires NamesBase(pass)
    ensures var r := Coordinate(pass, baseDNs, replies, n, c);
      r.searched <= |baseDNs| &&
      forall k :: 0 <= k < |r.sent| ==> r.sent[k].baseDN in baseDNs[..r.searched]
    decreases |baseDNs|
  {
    if baseDNs != [] {
      var b := pass(baseDNs[0], replies, n);
      var r := Coordinate(pass, baseDNs, replies, n, c);
      if b.outcome.Finished? {
        var m := n + |b.delivered|;
        var r' := Coordinate(pass, baseDNs[1..], b.rest, m, b.cursor);
        CoordinateNamesEntered(pass, baseDNs[1..], b.rest, m, b.cursor);
        assert r.sent == b.sent + r'.sent && r.searched == 1 + r'.searched;
        forall k | 0 <= k < |r.sent| ensures r.sent[k].baseDN in baseDNs[..r.searched] {
          if k < |b.sent| {
            assert r.sent[k] == b.sent[k];
            assert baseDNs[0] == baseDNs[..r.searched][0];
          } else {
            assert r.sent[k] == r'.sent[k - |b.sent|];
            assert baseDNs[1..][..r'.searched] == baseDNs[1..r.searched];
            assert r.sent[k].baseDN in baseDNs[1..r.searched];
          }
        }
      } else {
        assert r.sent == b.sent && r.searched == 1;
        assert baseDNs[..r.searched] == [baseDNs[0]];
      }
    }
  }
}
