/** What each executor call achieves, in terms of the record before it and the answers it gets. */
module OrderLaws {
  import opened Basics
  import opened OrderLifecycle

  /** The transitions the store allows, beside staying where it is. */
  lemma TransitionsAre(from: Status, to: Status)
    ensures IsValidStatusTransition(from, to) <==>
      from == to || (from, to) in {
        (Pending, Submitted), (Pending, Failed), (Pending, Cancelled), (Pending, Expired),
        (Submitted, PartiallyFilled), (Submitted, Filled), (Submitted, Cancelled), (Submitted, Failed), (Submitted, Expired),
        (PartiallyFilled, Filled), (PartiallyFilled, Cancelled), (PartiallyFilled, Failed),
        (Failed, Submitted)}
  {
  }

  /** The order can still be cancelled, or already is. */
  predicate MayCancel(s: Status) {
    s == Pending || s == Submitted || s == PartiallyFilled || s == Cancelled
  }

  /**
   Cancelling leaves everything but the status. The order ends cancelled exactly when it may be and the venue agrees or
   never had it; the call throws exactly for a failing venue call or audit write, or an order that may not be cancelled.
   */
  lemma CancelTells(r: OrderRecord, answer: CancelAnswer)
    ensures var (after, threw) := Cancel(r, answer);
      var agreed := r.venueOrderId == None || answer.Agrees?;
      && after == r.(status := if agreed && MayCancel(r.status) then Cancelled else r.status)
      && (threw <==>
            || (agreed && !MayCancel(r.status))
            || (r.venueOrderId.Some? && (answer.CancelThrows? || answer == Agrees(true))))
  {
  }

  /** The status a poll asks for. */
  function Reported(status: VenueStatus, current: Status): Status {
    match status
    case VenueFilled => Filled
    case VenuePartiallyFilled => PartiallyFilled
    case VenueRejected => Failed
    case VenueOther => current
  }

  /** A poll records what the venue reports, when the order was placed, is known there, and may change that way. */
  lemma PollTells(r: OrderRecord, answer: PollAnswer)
    ensures var (after, threw) := Poll(r, answer);
      var asked := r.venueOrderId.Some? && answer.Reports?;
      var allowed := asked && IsValidStatusTransition(r.status, Reported(answer.status, r.status));
      && after == r.(status := if allowed then Reported(answer.status, r.status) else r.status)
      && (threw <==> (r.venueOrderId.Some? && answer.QueryThrows?) || (asked && !allowed))
  {
  }

  /**
   A fill counts for an order that is submitted or partially filled and has not seen it. It is appended, and the order is
   filled exactly when its fills reach its size less 1e-12. Other fills change nothing; those of pending and expired
   orders make the call throw.
   */
  lemma FillTells(r: OrderRecord, fill: Fill, auditFails: bool)
    ensures var (after, threw) := ProcessFill(r, fill, auditFails);
      var known := exists i :: 0 <= i < |r.fills| && r.fills[i].fillId == fill.fillId;
      var counts := !known && (r.status == Submitted || r.status == PartiallyFilled);
      var covered := SumFilled(r.fills) + fill.filledSize >= r.intent.size - 0.000000000001;
      && after == (if counts then r.(fills := r.fills + [fill], status := if covered then Filled else PartiallyFilled) else r)
      && (threw <==> (counts && auditFails) || (!known && (r.status == Pending || r.status == Expired)))
  {
    assert (r.fills + [fill])[..|r.fills|] == r.fills;
    hide SumFilled;
    SumOfOneMore(r.fills, fill);
  }

  lemma SumOfOneMore(fills: seq<Fill>, fill: Fill)
    ensures SumFilled(fills + [fill]) == SumFilled(fills) + fill.filledSize
  {
    assert (fills + [fill])[..|fills|] == fills;
  }

  // ---- submitIntent ----

  /** An order that is neither pending nor failed is returned as it is, and nothing is placed for it. */
  lemma SubmitLeavesPlacedOrders(existing: OrderRecord, intent: Intent, maxRetries: int, venue: seq<Placement>)
    requires |venue| >= maxRetries + 1
    ensures var o := Submit(Some(existing), intent, maxRetries, venue);
      if existing.status == Pending || existing.status == Failed then o == Attempts(existing, 1, maxRetries, venue)
      else o == Outcome(existing, [], false, false)
    ensures Submit(None, intent, maxRetries, venue)
         == Attempts(OrderRecord(intent, Pending, None, 0.0, [], None, 0), 1, maxRetries, venue)
  {
    hide Attempts;
  }

  /** What the last of `n` attempts leaves behind. */
  ghost predicate LastAttempt(after: OrderRecord, before: OrderRecord, p: Placement, n: int) {
    && after.intent == before.intent && after.fills == before.fills && after.attemptCount == n
    && (p.Throws? ==> after.status == Failed && after.lastError == Some(p.message))
    && (p.Returns? ==> after.venueOrderId == Some(p.venueOrderId) && after.filledSize == p.filledSize)
    && (p.Returns? && Retries(p) ==> after.status == Failed && after.lastError == Some("audit write failed"))
    && (p.Returns? && !Retries(p) ==>
          && after.lastError == None
          && after.status == (match p.status
                              case VenueFilled => Filled
                              case VenuePartiallyFilled => PartiallyFilled
                              case VenueRejected => Failed
                              case VenueOther => Submitted))
  }

  lemma OneAttempt(r: OrderRecord, attempt: int, p: Placement)
    requires MayResubmit(r.status)
    ensures LastAttempt(if Retries(p) then Retried(r, attempt, p) else Try(r, attempt, p).record, r, p, attempt)
  {
  }

  /** The placements from `attempt` on: the venue's answers in order, up to the first that is not retried or the last allowed. */
  ghost predicate Placements(log: seq<Placement>, attempt: int, maxRetries: int, venue: seq<Placement>)
    requires 1 <= attempt && |venue| >= maxRetries + 1
  {
    && 1 <= |log| <= maxRetries + 2 - attempt
    && (forall i :: 0 <= i < |log| ==> log[i] == venue[attempt - 1 + i])
    && (forall i :: 0 <= i < |log| - 1 ==> Retries(log[i]))
    && (Retries(log[|log| - 1]) ==> |log| == maxRetries + 2 - attempt)
  }

  lemma PlacementsExtend(p: Placement, log: seq<Placement>, attempt: int, maxRetries: int, venue: seq<Placement>)
    requires 1 <= attempt <= maxRetries && |venue| >= maxRetries + 1 && p == venue[attempt - 1] && Retries(p)
    requires Placements(log, attempt + 1, maxRetries, venue)
    ensures Placements([p] + log, attempt, maxRetries, venue)
  {
    hide Retries;
    var longer := [p] + log;
    forall i | 0 <= i < |longer|
      ensures longer[i] == venue[attempt - 1 + i]
      ensures i < |longer| - 1 ==> Retries(longer[i])
    {
      if i > 0 { assert longer[i] == log[i - 1]; }
    }
    assert longer[|longer| - 1] == log[|log| - 1];
  }

  /** Which of the venue's answers a submit call on a resubmittable record asks for. */
  lemma {:induction false} SubmitPlaces(r: OrderRecord, attempt: int, maxRetries: int, venue: seq<Placement>)
    requires 1 <= attempt <= maxRetries + 1 <= |venue| && MayResubmit(r.status)
    ensures Placements(Attempts(r, attempt, maxRetries, venue).log, attempt, maxRetries, venue)
    decreases maxRetries + 2 - attempt
  {
    var p := venue[attempt - 1];
    AttemptCases(r, attempt, maxRetries, venue);
    var next := Retried(r, attempt, p);
    hide Attempts, Try, Retried, Placements, Retries, FilledUnaudited;
    if Retries(p) && attempt <= maxRetries {
      SubmitPlaces(next, attempt + 1, maxRetries, venue);
      PlacementsExtend(p, Attempts(next, attempt + 1, maxRetries, venue).log, attempt, maxRetries, venue);
    } else {
      SinglePlacementIsAll(attempt, maxRetries, venue);
      if Retries(p) { NoAttempts(next, attempt + 1, maxRetries, venue); }
    }
  }

  /** `o` ends with the last attempt of a call whose first attempt has number `attempt`. */
  ghost predicate EndsWithLast(o: Outcome, r: OrderRecord, attempt: int) {
    o.log != [] && LastAttempt(o.record, r, o.log[|o.log| - 1], attempt - 1 + |o.log|)
  }

  lemma EndsHere(o: Outcome, r: OrderRecord, p: Placement, attempt: int)
    requires o.log == [p] && LastAttempt(o.record, r, p, attempt)
    ensures EndsWithLast(o, r, attempt)
  {
  }

  lemma EndsLater(o: Outcome, rest: Outcome, r: OrderRecord, next: OrderRecord, p: Placement, attempt: int)
    requires EndsWithLast(rest, next, attempt + 1) && o.record == rest.record && o.log == [p] + rest.log
    requires next.intent == r.intent && next.fills == r.fills
    ensures EndsWithLast(o, r, attempt)
  {
    hide LastAttempt;
    LastOfPrepended(p, rest.log);
    SameLastAttempt(rest.record, next, r, rest.log[|rest.log| - 1], attempt + |rest.log|);
  }

  /** How one attempt continues. */
  lemma AttemptContinues(r: OrderRecord, attempt: int, maxRetries: int, venue: seq<Placement>)
    requires 1 <= attempt <= maxRetries + 1 <= |venue| && MayResubmit(r.status)
    ensures var p, o, next := venue[attempt - 1], Attempts(r, attempt, maxRetries, venue), Retried(r, attempt, venue[attempt - 1]);
      var rest := Attempts(next, attempt + 1, maxRetries, venue);
      && o.log == (if Retries(p) then [p] + rest.log else [p])
      && o.record == (if Retries(p) then rest.record else Try(r, attempt, p).record)
      && MayResubmit(next.status) && next.intent == r.intent && next.fills == r.fills
  {
    AttemptCases(r, attempt, maxRetries, venue);
    hide Attempts, Try, Retried, Retries;
  }

  /** The record a submit call leaves is that of its last attempt, whose number is the number of placements. */
  lemma {:induction false} SubmitTells(r: OrderRecord, attempt: int, maxRetries: int, venue: seq<Placement>)
    requires 1 <= attempt <= maxRetries + 1 <= |venue| && MayResubmit(r.status)
    ensures EndsWithLast(Attempts(r, attempt, maxRetries, venue), r, attempt)
    decreases maxRetries + 2 - attempt
  {
    var p := venue[attempt - 1];
    AttemptContinues(r, attempt, maxRetries, venue);
    OneAttempt(r, attempt, p);
    hide Attempts, Try, Retried, Retries, LastAttempt, MayResubmit, EndsWithLast;
    var o, next := Attempts(r, attempt, maxRetries, venue), Retried(r, attempt, p);
    var rest := Attempts(next, attempt + 1, maxRetries, venue);
    if Retries(p) && attempt <= maxRetries {
      SubmitTells(next, attempt + 1, maxRetries, venue);
      EndsLater(o, rest, r, next, p, attempt);
    } else {
      if Retries(p) { NoAttempts(next, attempt + 1, maxRetries, venue); }
      EndsHere(o, r, p, attempt);
    }
  }

  lemma SameLastAttempt(after: OrderRecord, next: OrderRecord, r: OrderRecord, p: Placement, n: int)
    requires LastAttempt(after, next, p, n) && next.intent == r.intent && next.fills == r.fills
    ensures LastAttempt(after, r, p, n)
  {
  }

  lemma SinglePlacementIsAll(attempt: int, maxRetries: int, venue: seq<Placement>)
    requires 1 <= attempt <= maxRetries + 1 <= |venue| && (Retries(venue[attempt - 1]) ==> attempt == maxRetries + 1)
    ensures Placements([venue[attempt - 1]], attempt, maxRetries, venue)
  {
  }
}
