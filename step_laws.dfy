/**
 * What one page step does, stated as laws that the page loop's properties
 * rely on, and the proof that the engine's page step obeys them.
 */
module StepLaws {
  import opened Wrappers
  import opened Controls
  import opened Paging

  // ---------------------------------------------------------------------------
  // Dispatch and deliveries.
  // ---------------------------------------------------------------------------

  /**
   * Dispatch asks the consumer about the buffered entries in order, one call
   * each; every answer but the last was "go on", and the last was "stop"
   * exactly when dispatch reports that the consumer stopped.
   */
  lemma {:induction false} DispatchAsksInOrder(decide: Verdict, baseDN: string, kept: seq<Entry>, n: nat)
    ensures var r := Dispatch(decide, baseDN, kept, n);
      r.stopped ==> !decide(n + r.count - 1, Delivery(baseDN, kept[r.count - 1]))
    ensures var r := Dispatch(decide, baseDN, kept, n);
      forall k :: 0 <= k < r.count && !(r.stopped && k == r.count - 1) ==>
        decide(n + k, Delivery(baseDN, kept[k]))
    decreases |kept|
  {
    if kept != [] && decide(n, Delivery(baseDN, kept[0])) {
      DispatchAsksInOrder(decide, baseDN, kept[1..], n + 1);
      var r := Dispatch(decide, baseDN, kept, n);
      forall k | 1 <= k < r.count
        ensures kept[1..][k - 1] == kept[k] && n + 1 + (k - 1) == n + k { }
    }
  }

  /** The k-th consumer call for a run of entries is about the k-th entry. */
  lemma {:induction false} DeliveriesAt(baseDN: string, es: seq<Entry>, k: nat)
    requires k < |es|
    ensures Deliveries(baseDN, es)[k] == Delivery(baseDN, es[k])
    decreases k
  {
    if k > 0 {
      DeliveriesAt(baseDN, es[1..], k - 1);
    }
  }

  // ---------------------------------------------------------------------------
  // The laws of a page step.
  // ---------------------------------------------------------------------------

  /** `index` moves by the number of entries the step delivered. */
  ghost predicate CountsIndex(step: Stepper) {
    forall c: Cursor, p: Option<string>, reply: Reply, n: nat ::
      step(c, p, reply, n).cursor.index == c.index + |step(c, p, reply, n).delivered|
  }

  /**
   * Another page is asked for only after a page of the server that delivered
   * something, left `index` within the content count, and adopted the content
   * count the response reported.
   */
  ghost predicate NextPageLaw(step: Stepper) {
    forall c: Cursor, p: Option<string>, reply: Reply, n: nat ::
      step(c, p, reply, n).outcome.NextPage? ==>
        reply.Page? && 0 < |step(c, p, reply, n).delivered| &&
        step(c, p, reply, n).cursor.index <= step(c, p, reply, n).cursor.lastListSize &&
        step(c, p, reply, n).cursor.lastListSize == LastReportedCount(reply.controls).GetOr(c.lastListSize)
  }

  /** A step ends as stopped only after delivering an entry. */
  ghost predicate StopsAfterEntry(step: Stepper) {
    forall c: Cursor, p: Option<string>, reply: Reply, n: nat ::
      step(c, p, reply, n).outcome.Stopped? ==> 0 < |step(c, p, reply, n).delivered|
  }

  /**
   * Each entry the step delivered was handed to the consumer under `baseDN`
   * and answered "go on", except the last one when the step ended because
   * the consumer stopped.
   */
  ghost predicate AsksInOrder(step: Stepper, decide: Verdict, baseDN: string) {
    forall c: Cursor, p: Option<string>, reply: Reply, n: nat ::
      forall k :: 0 <= k < |step(c, p, reply, n).delivered| ==>
        (decide(n + k, Delivery(baseDN, step(c, p, reply, n).delivered[k])) <==>
          !(step(c, p, reply, n).outcome.Stopped? && k == |step(c, p, reply, n).delivered| - 1))
  }

  /**
   * A page none of whose response controls rejects, and all of whose
   * buffered entries the consumer accepts, delivers every buffered entry,
   * adopts the decoded list-view state, remembers the last entry's name, and
   * asks for another page exactly when it was not empty and `index` has not
   * passed the content count.
   */
  ghost predicate AcceptedLaw(step: Stepper, decide: Verdict, baseDN: string) {
    forall c: Cursor, p: Option<string>, stream: seq<Entry>, cs: seq<ResponseControl>, n: nat ::
      AcceptedAt(step, decide, baseDN, c, p, stream, cs, n)
  }

  /** The accepted-page law for one call of the step. */
  ghost predicate AcceptedAt(step: Stepper, decide: Verdict, baseDN: string, c: Cursor, p: Option<string>,
                             stream: seq<Entry>, cs: seq<ResponseControl>, n: nat) {
    Process(c.lastListSize, c.cookie, cs).error.None? &&
    !Dispatch(decide, baseDN, Buffered(p, stream), n).stopped ==>
      var kept := Buffered(p, stream);
      var d := Process(c.lastListSize, c.cookie, cs);
      var s := step(c, p, Page(stream, cs), n);
      s.delivered == kept &&
      s.cursor == Cursor(c.index + |kept|, d.lastListSize, d.cookie) &&
      (kept != [] ==> s.pending == Some(kept[|kept| - 1].name)) &&
      s.outcome == (if c.index + |kept| > d.lastListSize then Exhausted else if kept == [] then EmptyPage else NextPage)
  }

  // ---------------------------------------------------------------------------
  // The engine's page step obeys them.
  // ---------------------------------------------------------------------------

  /** One page moves `index` by the number of entries handed to the consumer. */
  lemma PageStepCountsIndex(cfg: Config, decide: Verdict, baseDN: string, c: Cursor, pending: Option<string>,
                            reply: Reply, n: nat)
    ensures var s := PageStep(cfg, decide, baseDN, c, pending, reply, n);
      s.cursor.index == c.index + |s.delivered|
  {
  }

  /**
   * Another page is asked for only when this one delivered something, no
   * response control rejected it, and `index` has not passed the content
   * count the server last reported.
   */
  lemma PageStepNextPage(cfg: Config, decide: Verdict, baseDN: string, c: Cursor, pending: Option<string>,
                         reply: Reply, n: nat)
    ensures var s := PageStep(cfg, decide, baseDN, c, pending, reply, n);
      s.outcome.NextPage? ==>
        reply.Page? && 0 < |s.delivered| &&
        s.cursor.index <= s.cursor.lastListSize &&
        s.cursor.lastListSize == LastReportedCount(reply.controls).GetOr(c.lastListSize) &&
        (forall i :: 0 <= i < |reply.controls| ==> !Rejects(reply.controls[i]))
  {
    var s := PageStep(cfg, decide, baseDN, c, pending, reply, n);
    if s.outcome.NextPage? {
      var controls := reply.controls;
      ProcessFailsIff(c.lastListSize, c.cookie, controls);
      ProcessSucceeds(c.lastListSize, c.cookie, controls);
    }
  }

  /**
   * On a page none of whose response controls rejects, every delivered entry
   * went to the consumer in order; only the consumer's refusal of the last
   * one ends the page as stopped.
   */
  lemma AcceptedPageAsksInOrder(cfg: Config, decide: Verdict, baseDN: string, c: Cursor, pending: Option<string>,
                                stream: seq<Entry>, controls: seq<ResponseControl>, n: nat)
    requires Process(c.lastListSize, c.cookie, controls).error.None?
    ensures var s := PageStep(cfg, decide, baseDN, c, pending, Page(stream, controls), n);
      forall k :: 0 <= k < |s.delivered| ==>
        (decide(n + k, Delivery(baseDN, s.delivered[k])) <==> !(s.outcome.Stopped? && k == |s.delivered| - 1))
  {
    var s := PageStep(cfg, decide, baseDN, c, pending, Page(stream, controls), n);
    var kept := Buffered(pending, stream);
    var r := Dispatch(decide, baseDN, kept, n);
    var d := Process(c.lastListSize, c.cookie, controls);
    var h := Handed(decide, baseDN, Cursor(c.index, d.lastListSize, d.cookie), PendingAfter(pending, stream), kept, n);
    assert s == h;
    assert h.delivered == kept[..r.count] && (h.outcome.Stopped? <==> r.stopped);
    DispatchAsksInOrder(decide, baseDN, kept, n);
    forall k | 0 <= k < |s.delivered|
      ensures decide(n + k, Delivery(baseDN, s.delivered[k])) <==> !(r.stopped && k == r.count - 1)
    {
      assert s.delivered[k] == kept[k];
    }
  }

  /** A page ends as stopped only after handing the consumer at least one entry. */
  lemma PageStepStopsAfterEntry(cfg: Config, decide: Verdict, baseDN: string, c: Cursor, pending: Option<string>,
                                reply: Reply, n: nat)
    ensures var s := PageStep(cfg, decide, baseDN, c, pending, reply, n);
      s.outcome.Stopped? ==> 0 < |s.delivered|
  {
  }

  /**
   * Every entry a page delivers went to the consumer in order; only the
   * consumer's refusal of the last one ends the page as stopped.
   */
  lemma PageStepAsksInOrder(cfg: Config, decide: Verdict, baseDN: string, c: Cursor, pending: Option<string>,
                            reply: Reply, n: nat)
    ensures var s := PageStep(cfg, decide, baseDN, c, pending, reply, n);
      forall k :: 0 <= k < |s.delivered| ==>
        (decide(n + k, Delivery(baseDN, s.delivered[k])) <==> !(s.outcome.Stopped? && k == |s.delivered| - 1))
  {
    if reply.Page? && Process(c.lastListSize, c.cookie, reply.controls).error.None? {
      AcceptedPageAsksInOrder(cfg, decide, baseDN, c, pending, reply.entries, reply.controls, n);
    }
  }

  /**
   * A page fails exactly when its search broke or one of its response
   * controls rejects, and a page that fails delivers nothing: the controls
   * are validated before any buffered entry reaches the consumer.
   */
  lemma PageStepFailsSilently(cfg: Config, decide: Verdict, baseDN: string, c: Cursor, pending: Option<string>,
                              reply: Reply, n: nat)
    ensures var s := PageStep(cfg, decide, baseDN, c, pending, reply, n);
      s.outcome.Failed? <==> (reply.Broken? || exists i :: 0 <= i < |reply.controls| && Rejects(reply.controls[i]))
    ensures var s := PageStep(cfg, decide, baseDN, c, pending, reply, n);
      s.outcome.Failed? ==> s.delivered == []
  {
    if reply.Page? {
      ProcessFailsIff(c.lastListSize, c.cookie, reply.controls);
    }
  }

  /**
   * The overlap guard: a page delivers a prefix of its buffered entries, that
   * is, of the streamed entries with the first one dropped exactly when it
   * repeats the last entry delivered before.
   */
  lemma PageStepDelivers(cfg: Config, decide: Verdict, baseDN: string, c: Cursor, pending: Option<string>,
                         stream: seq<Entry>, controls: seq<ResponseControl>, n: nat)
    ensures var s := PageStep(cfg, decide, baseDN, c, pending, Page(stream, controls), n);
      var kept := Buffered(pending, stream);
      |s.delivered| <= |kept| && s.delivered == kept[..|s.delivered|]
  {
    var s := PageStep(cfg, decide, baseDN, c, pending, Page(stream, controls), n);
    var kept := Buffered(pending, stream);
    if Process(c.lastListSize, c.cookie, controls).error.None? {
      var r := Dispatch(decide, baseDN, kept, n);
      assert s.delivered == kept[..r.count];
    } else {
      assert s.delivered == [];
    }
  }

  /**
   * A page that asks for the next one remembers the name of the last entry
   * it delivered, for the next page's overlap guard.
   */
  lemma PageStepRemembersLast(cfg: Config, decide: Verdict, baseDN: string, c: Cursor, pending: Option<string>,
                              reply: Reply, n: nat)
    ensures var s := PageStep(cfg, decide, baseDN, c, pending, reply, n);
      s.outcome.NextPage? ==> 0 < |s.delivered| && s.pending == Some(s.delivered[|s.delivered| - 1].name)
  {
    var s := PageStep(cfg, decide, baseDN, c, pending, reply, n);
    if s.outcome.NextPage? {
      assert reply.Page?;
      var kept := Buffered(pending, reply.entries);
      var d := Process(c.lastListSize, c.cookie, reply.controls);
      assert d.error.None?;
      var h := Handed(decide, baseDN, Cursor(c.index, d.lastListSize, d.cookie),
                      PendingAfter(pending, reply.entries), kept, n);
      assert s == h;
      HandedRemembersLast(decide, baseDN, Cursor(c.index, d.lastListSize, d.cookie),
                          PendingAfter(pending, reply.entries), kept, n);
    }
  }

  /** A hand-over that asks for the next page delivered its whole non-empty buffer and remembers its last name. */
  lemma HandedRemembersLast(decide: Verdict, baseDN: string, c: Cursor, pending: Option<string>, kept: seq<Entry>,
                            n: nat)
    ensures var h := Handed(decide, baseDN, c, pending, kept, n);
      h.outcome.NextPage? ==> 0 < |h.delivered| && h.pending == Some(h.delivered[|h.delivered| - 1].name)
  {
    var h := Handed(decide, baseDN, c, pending, kept, n);
    if h.outcome.NextPage? {
      var r := Dispatch(decide, baseDN, kept, n);
      assert !r.stopped && r.count == |kept| && kept != [];
      assert h.delivered == kept[..|kept|] == kept;
    }
  }

  /**
   * A page whose response controls are all accepted, and whose buffered
   * entries the consumer all accepts: every buffered entry is delivered, the
   * cursor adopts the decoded list-view state, and the loop goes on exactly
   * when the page was not empty and `index` has not passed the content count.
   */
  lemma PageStepAccepted(cfg: Config, decide: Verdict, baseDN: string, c: Cursor, pending: Option<string>,
                         stream: seq<Entry>, controls: seq<ResponseControl>, n: nat)
    requires Process(c.lastListSize, c.cookie, controls).error.None?
    requires !Dispatch(decide, baseDN, Buffered(pending, stream), n).stopped
    ensures var kept := Buffered(pending, stream);
      var d := Process(c.lastListSize, c.cookie, controls);
      var s := PageStep(cfg, decide, baseDN, c, pending, Page(stream, controls), n);
      s.delivered == kept &&
      s.cursor == Cursor(c.index + |kept|, d.lastListSize, d.cookie) &&
      (kept != [] ==> s.pending == Some(kept[|kept| - 1].name)) &&
      s.outcome == (if c.index + |kept| > d.lastListSize then Exhausted
                    else if kept == [] then EmptyPage else NextPage)
  {
    var kept := Buffered(pending, stream);
    assert kept[..|kept|] == kept;
  }

  /** The engine's page step obeys the index law. */
  lemma EngineCountsIndex(cfg: Config, decide: Verdict, baseDN: string)
    ensures CountsIndex(StepOf(cfg, decide, baseDN))
  {
    forall c: Cursor, p: Option<string>, reply: Reply, n: nat
      ensures StepOf(cfg, decide, baseDN)(c, p, reply, n).cursor.index ==
        c.index + |StepOf(cfg, decide, baseDN)(c, p, reply, n).delivered|
    {
      PageStepCountsIndex(cfg, decide, baseDN, c, p, reply, n);
    }
  }

  /** The engine's page step obeys the next-page law. */
  lemma EngineNextPageLaw(cfg: Config, decide: Verdict, baseDN: string)
    ensures NextPageLaw(StepOf(cfg, decide, baseDN))
  {
    forall c: Cursor, p: Option<string>, reply: Reply, n: nat {
      PageStepNextPage(cfg, decide, baseDN, c, p, reply, n);
    }
  }

  /** The engine's page step obeys the stop law. */
  lemma EngineStopsAfterEntry(cfg: Config, decide: Verdict, baseDN: string)
    ensures StopsAfterEntry(StepOf(cfg, decide, baseDN))
  {
    forall c: Cursor, p: Option<string>, reply: Reply, n: nat {
      PageStepStopsAfterEntry(cfg, decide, baseDN, c, p, reply, n);
    }
  }

  /** The engine's page step obeys the consumer law. */
  lemma EngineAsksInOrder(cfg: Config, decide: Verdict, baseDN: string)
    ensures AsksInOrder(StepOf(cfg, decide, baseDN), decide, baseDN)
  {
    forall c: Cursor, p: Option<string>, reply: Reply, n: nat {
      PageStepAsksInOrder(cfg, decide, baseDN, c, p, reply, n);
    }
  }

  /** The engine's page step obeys the accepted-page law. */
  lemma EngineAcceptedLaw(cfg: Config, decide: Verdict, baseDN: string)
    ensures AcceptedLaw(StepOf(cfg, decide, baseDN), decide, baseDN)
  {
    forall c: Cursor, p: Option<string>, stream: seq<Entry>, cs: seq<ResponseControl>, n: nat
      ensures AcceptedAt(StepOf(cfg, decide, baseDN), decide, baseDN, c, p, stream, cs, n)
    {
      if Process(c.lastListSize, c.cookie, cs).error.None? &&
         !Dispatch(decide, baseDN, Buffered(p, stream), n).stopped
      {
        PageStepAccepted(cfg, decide, baseDN, c, p, stream, cs, n);
        assert StepOf(cfg, decide, baseDN)(c, p, Page(stream, cs), n) ==
          PageStep(cfg, decide, baseDN, c, p, Page(stream, cs), n);
      }
    }
  }

  /** The engine's page step obeys the four laws. */
  lemma EngineStepLaws(cfg: Config, decide: Verdict, baseDN: string)
    ensures CountsIndex(StepOf(cfg, decide, baseDN))
    ensures NextPageLaw(StepOf(cfg, decide, baseDN))
    ensures StopsAfterEntry(StepOf(cfg, decide, baseDN))
    ensures AsksInOrder(StepOf(cfg, decide, baseDN), decide, baseDN)
  {
    EngineCountsIndex(cfg, decide, baseDN);
    EngineNextPageLaw(cfg, decide, baseDN);
    EngineStopsAfterEntry(cfg, decide, baseDN);
    EngineAsksInOrder(cfg, decide, baseDN);
  }
}
