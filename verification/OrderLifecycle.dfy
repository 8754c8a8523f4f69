/**
 The order lifecycle on values: the store's transition table, what each executor call does to a record, and
 what holds over every run of calls taken one at a time. The venue's answers and audit failures are inputs.
 */
module OrderLifecycle {
  import opened Basics

  const FILL_TOLERANCE: real := 0.000000000001

  datatype Status = Pending | Submitted | PartiallyFilled | Filled | Cancelled | Expired | Failed

  datatype Fill = Fill(fillId: string, filledSize: real)
  datatype Intent = Intent(intentId: string, size: real)

  datatype OrderRecord = OrderRecord(
    intent: Intent,
    status: Status,
    venueOrderId: Option<string>,
    filledSize: real,
    fills: seq<Fill>,
    lastError: Option<string>,
    attemptCount: int)

  // ---- The store's transition table ----

  predicate IsTerminal(s: Status) {
    s == Filled || s == Cancelled || s == Expired
  }

  predicate IsValidStatusTransition(from: Status, to: Status) {
    if from == to then true
    else if IsTerminal(from) then false
    else match from
      case Pending => to == Submitted || to == Failed || to == Cancelled || to == Expired
      case Submitted => to == PartiallyFilled || to == Filled || to == Cancelled || to == Failed || to == Expired
      case PartiallyFilled => to == PartiallyFilled || to == Filled || to == Cancelled || to == Failed
      case Failed => to == Submitted
      case _ => false
  }

  // ---- What the venue answers ----

  datatype VenueStatus = VenueFilled | VenuePartiallyFilled | VenueRejected | VenueOther

  /** One `placeOrder`: it throws, or returns a result, after which writing the audit event may fail. */
  datatype Placement = Throws(message: string) | Returns(status: VenueStatus, venueOrderId: string, filledSize: real, auditFails: bool)

  predicate IsAccepted(p: Placement) {
    p.Returns? && p.status != VenueRejected
  }

  function StatusOfPlacement(s: VenueStatus): Status {
    match s
    case VenueFilled => Filled
    case VenuePartiallyFilled => PartiallyFilled
    case VenueRejected => Failed
    case VenueOther => Submitted
  }

  // ---- submitIntent ----

  function NewRecord(intent: Intent): OrderRecord {
    OrderRecord(intent, Pending, None, 0.0, [], None, 0)
  }

  /** `log` lists the placements made; `refused` says that the store rejected a requested transition. */
  datatype Outcome = Outcome(record: OrderRecord, log: seq<Placement>, refused: bool, threw: bool)

  /** The body of the `try` block: its record, whether the venue was reached, whether it was caught, whether the store refused. */
  datatype Tried = Tried(record: OrderRecord, placed: bool, caught: bool, refused: bool, message: string)

  function Try(r: OrderRecord, attempt: int, p: Placement): Tried {
    if !IsValidStatusTransition(r.status, Submitted) then Tried(r, false, true, true, "invalid order status transition")
    else
      var submitted := r.(status := Submitted, attemptCount := attempt);
      match p
      case Throws(message) => Tried(submitted, true, true, false, message)
      case Returns(s, venueOrderId, filledSize, auditFails) =>
        if !IsValidStatusTransition(Submitted, StatusOfPlacement(s)) then
          Tried(submitted, true, true, true, "invalid order status transition")
        else
          Tried(submitted.(status := StatusOfPlacement(s), venueOrderId := Some(venueOrderId), filledSize := filledSize,
                           lastError := None),
                true, auditFails, false, "audit write failed")
  }

  /** Attempts from number `attempt` on. */
  function Attempts(r: OrderRecord, attempt: int, maxRetries: int, venue: seq<Placement>): Outcome
    requires attempt >= 1 && |venue| >= maxRetries + 1
    decreases maxRetries + 2 - attempt
  {
    if attempt > maxRetries + 1 then Outcome(r, [], false, false)
    else
      var t := Try(r, attempt, venue[attempt - 1]);
      var log := if t.placed then [venue[attempt - 1]] else [];
      if !t.caught then Outcome(t.record, log, t.refused, false)
      else if !IsValidStatusTransition(t.record.status, Failed) then Outcome(t.record, log, true, true)
      else
        var rest := Attempts(t.record.(status := Failed, lastError := Some(t.message)), attempt + 1, maxRetries, venue);
        Outcome(rest.record, log + rest.log, t.refused || rest.refused, rest.threw)
  }

  predicate MayResubmit(s: Status) {
    s == Pending || s == Failed
  }

  function Submit(existing: Option<OrderRecord>, intent: Intent, maxRetries: int, venue: seq<Placement>): Outcome
    requires |venue| >= maxRetries + 1
  {
    if existing.Some? && !MayResubmit(existing.value.status) then Outcome(existing.value, [], false, false)
    else Attempts(existing.GetOr(NewRecord(intent)), 1, maxRetries, venue)
  }

  // ---- pollOrderStatus, cancelOrder, processFill ----

  /** A requested transition: refused ones leave the record alone and make the call throw. */
  function Update(r: OrderRecord, to: Status, fills: seq<Fill>): (OrderRecord, bool) {
    if IsValidStatusTransition(r.status, to) then (r.(status := to, fills := fills), false) else (r, true)
  }

  /** One `getOrder`: it throws, knows no such order, or reports a status. */
  datatype PollAnswer = QueryThrows | NotFound | Reports(status: VenueStatus)

  /** One `cancelOrder` of the venue: it throws, refuses, or agrees, after which writing the audit event may fail. */
  datatype CancelAnswer = CancelThrows | Refuses | Agrees(auditFails: bool)

  function Poll(r: OrderRecord, answer: PollAnswer): (OrderRecord, bool) {
    if r.venueOrderId.None? then (r, false)
    else match answer
      case QueryThrows => (r, true)
      case NotFound => (r, false)
      case Reports(status) => Update(r, if status == VenueOther then r.status else StatusOfPlacement(status), r.fills)
  }

  /** An order that never reached the venue is cancelled locally, without an audit event. */
  function Cancel(r: OrderRecord, answer: CancelAnswer): (OrderRecord, bool) {
    if r.venueOrderId.None? then Update(r, Cancelled, r.fills)
    else match answer
      case CancelThrows => (r, true)
      case Refuses => (r, false)
      case Agrees(auditFails) =>
        var (after, refused) := Update(r, Cancelled, r.fills);
        (after, refused || auditFails)
  }

  function SumFilled(fills: seq<Fill>): real {
    if fills == [] then 0.0 else SumFilled(fills[..|fills| - 1]) + fills[|fills| - 1].filledSize
  }

  predicate HasFill(fills: seq<Fill>, fillId: string) {
    exists i :: 0 <= i < |fills| && fills[i].fillId == fillId
  }

  /** A failing audit write makes the call throw after the fill is stored. */
  function ProcessFill(r: OrderRecord, fill: Fill, auditFails: bool): (OrderRecord, bool) {
    if r.status == Filled || r.status == Cancelled || r.status == Failed then (r, false)
    else if HasFill(r.fills, fill.fillId) then (r, false)
    else
      var fills := r.fills + [fill];
      var to := if SumFilled(fills) >= r.intent.size - FILL_TOLERANCE then Filled else PartiallyFilled;
      var (after, refused) := Update(r, to, fills);
      (after, refused || auditFails)
  }

  // ---- Runs ----

  datatype Call =
    | SubmitIntent(intent: Intent, venue: seq<Placement>)
    | PollOrderStatus(id: string, answer: PollAnswer)
    | CancelOrder(id: string, agreement: CancelAnswer)
    | ProcessFillOf(id: string, fill: Fill, auditFails: bool)

  type Records = map<string, OrderRecord>

  predicate Feasible(call: Call, maxRetries: int) {
    call.SubmitIntent? ==> |call.venue| >= maxRetries + 1
  }

  function Lookup(records: Records, id: string): Option<OrderRecord> {
    if id in records then Some(records[id]) else None
  }

  function Step(records: Records, call: Call, maxRetries: int): Records
    requires Feasible(call, maxRetries)
  {
    match call
    case SubmitIntent(intent, venue) =>
      records[intent.intentId := Submit(Lookup(records, intent.intentId), intent, maxRetries, venue).record]
    case PollOrderStatus(id, answer) => if id in records then records[id := Poll(records[id], answer).0] else records
    case CancelOrder(id, agreement) => if id in records then records[id := Cancel(records[id], agreement).0] else records
    case ProcessFillOf(id, fill, auditFails) =>
      if id in records then records[id := ProcessFill(records[id], fill, auditFails).0] else records
  }

  /** Placements a call makes for order `id`. */
  function PlacementsOf(records: Records, call: Call, maxRetries: int, id: string): seq<Placement>
    requires Feasible(call, maxRetries)
  {
    if call.SubmitIntent? && call.intent.intentId == id
    then Submit(Lookup(records, id), call.intent, maxRetries, call.venue).log
    else []
  }

  ghost predicate AllFeasible(calls: seq<Call>, maxRetries: int) {
    forall i :: 0 <= i < |calls| ==> Feasible(calls[i], maxRetries)
  }

  function Run(calls: seq<Call>, maxRetries: int): Records
    requires AllFeasible(calls, maxRetries)
  {
    if calls == [] then map[]
    else Step(Run(calls[..|calls| - 1], maxRetries), calls[|calls| - 1], maxRetries)
  }

  function Log(calls: seq<Call>, maxRetries: int, id: string): seq<Placement>
    requires AllFeasible(calls, maxRetries)
  {
    if calls == [] then []
    else
      Log(calls[..|calls| - 1], maxRetries, id)
      + PlacementsOf(Run(calls[..|calls| - 1], maxRetries), calls[|calls| - 1], maxRetries, id)
  }

  // ---- Records: fills and absorbing states ----

  ghost predicate DistinctFills(fills: seq<Fill>) {
    forall i, j :: 0 <= i < j < |fills| ==> fills[i].fillId != fills[j].fillId
  }

  /** Fill ids are distinct, and fills that cover the order have made it 'filled'. */
  ghost predicate GoodRecord(r: OrderRecord) {
    && r.intent.size > FILL_TOLERANCE
    && DistinctFills(r.fills)
    && (SumFilled(r.fills) >= r.intent.size - FILL_TOLERANCE ==> r.status == Filled)
  }

  ghost predicate AllGood(records: Records) {
    forall id :: id in records ==> GoodRecord(records[id])
  }

  /** How a record may change: recorded fills stay, the order stays the same order, terminal states stay put. */
  ghost predicate Evolves(before: OrderRecord, after: OrderRecord) {
    && before.intent == after.intent
    && before.fills <= after.fills
    && (IsTerminal(before.status) ==> after.status == before.status && after.fills == before.fills)
  }

  /** Whether the attempt is followed by another one, when the record may be submitted. */
  predicate Retries(p: Placement) {
    p.Throws? || (p.auditFails && p.status != VenueFilled)
  }

  predicate FilledUnaudited(p: Placement) {
    p.Returns? && p.status == VenueFilled && p.auditFails
  }

  /** The record the next attempt starts from. */
  function Retried(r: OrderRecord, attempt: int, p: Placement): OrderRecord {
    var t := Try(r, attempt, p);
    t.record.(status := Failed, lastError := Some(t.message))
  }

  /** What the `try` block does to a resubmittable record: whether it is caught, and what it leaves. */
  lemma TryCases(r: OrderRecord, attempt: int, p: Placement)
    requires MayResubmit(r.status)
    ensures var t := Try(r, attempt, p);
      && t.placed && !t.refused
      && (t.caught <==> Retries(p) || FilledUnaudited(p))
      && (IsValidStatusTransition(t.record.status, Failed) <==> p.Throws? || p.status != VenueFilled)
      && (p.Returns? ==> t.record.status == StatusOfPlacement(p.status))
      && t.record.intent == r.intent && t.record.fills == r.fills
  {
  }

  /** The three ways one attempt on a resubmittable record can end. */
  lemma AttemptCases(r: OrderRecord, attempt: int, maxRetries: int, venue: seq<Placement>)
    requires 1 <= attempt <= maxRetries + 1 <= |venue| && MayResubmit(r.status)
    ensures var p, o := venue[attempt - 1], Attempts(r, attempt, maxRetries, venue);
      && (Retries(p) ==>
            var rest := Attempts(Retried(r, attempt, p), attempt + 1, maxRetries, venue);
            o == Outcome(rest.record, [p] + rest.log, rest.refused, rest.threw))
      && (FilledUnaudited(p) ==> o == Outcome(Try(r, attempt, p).record, [p], true, true))
      && (!Retries(p) && !FilledUnaudited(p) ==> o == Outcome(Try(r, attempt, p).record, [p], false, false))
    ensures var p := venue[attempt - 1];
      && MayResubmit(Retried(r, attempt, p).status)
      && (p.Returns? ==> Try(r, attempt, p).record.status == StatusOfPlacement(p.status))
      && Try(r, attempt, p).record.intent == Retried(r, attempt, p).intent == r.intent
      && Try(r, attempt, p).record.fills == Retried(r, attempt, p).fills == r.fills
  {
    TryCases(r, attempt, venue[attempt - 1]);
    hide Try, IsValidStatusTransition;
  }

  lemma {:induction false} AttemptsEvolve(r: OrderRecord, attempt: int, maxRetries: int, venue: seq<Placement>)
    requires attempt >= 1 && |venue| >= maxRetries + 1 && MayResubmit(r.status) && GoodRecord(r)
    ensures var o := Attempts(r, attempt, maxRetries, venue);
      && Evolves(r, o.record) && GoodRecord(o.record) && o.record.fills == r.fills
      && (o.refused ==> o.threw)
    decreases maxRetries + 2 - attempt
  {
    hide Attempts, SumFilled, Try, Retried;
    if attempt <= maxRetries + 1 {
      AttemptCases(r, attempt, maxRetries, venue);
      if Retries(venue[attempt - 1]) {
        AttemptsEvolve(Retried(r, attempt, venue[attempt - 1]), attempt + 1, maxRetries, venue);
      }
    } else {
      NoAttempts(r, attempt, maxRetries, venue);
    }
  }

  lemma NoAttempts(r: OrderRecord, attempt: int, maxRetries: int, venue: seq<Placement>)
    requires 1 <= attempt && maxRetries + 1 < attempt && maxRetries + 1 <= |venue|
    ensures Attempts(r, attempt, maxRetries, venue) == Outcome(r, [], false, false)
  {
  }

  lemma PollEvolves(r: OrderRecord, answer: PollAnswer)
    requires GoodRecord(r)
    ensures Evolves(r, Poll(r, answer).0) && GoodRecord(Poll(r, answer).0)
  {
    hide SumFilled;
  }

  lemma CancelEvolves(r: OrderRecord, agreement: CancelAnswer)
    requires GoodRecord(r)
    ensures Evolves(r, Cancel(r, agreement).0) && GoodRecord(Cancel(r, agreement).0)
  {
    hide SumFilled;
  }

  lemma FillEvolves(r: OrderRecord, fill: Fill, auditFails: bool)
    requires GoodRecord(r)
    ensures Evolves(r, ProcessFill(r, fill, auditFails).0) && GoodRecord(ProcessFill(r, fill, auditFails).0)
  {
    hide SumFilled;
  }

  /** The orders submitted in a run have sizes above the tolerance. */
  ghost predicate RealSizes(calls: seq<Call>) {
    forall i :: 0 <= i < |calls| && calls[i].SubmitIntent? ==> calls[i].intent.size > FILL_TOLERANCE
  }

  lemma StepEvolves(records: Records, call: Call, maxRetries: int)
    requires Feasible(call, maxRetries) && (call.SubmitIntent? ==> call.intent.size > FILL_TOLERANCE)
    requires AllGood(records)
    ensures var after := Step(records, call, maxRetries);
      && AllGood(after)
      && (forall id :: id in records ==> id in after && Evolves(records[id], after[id]))
  {
    hide GoodRecord, Evolves, Poll, Cancel, ProcessFill, Attempts;
    forall r: OrderRecord | GoodRecord(r)
      ensures Evolves(r, r)
    {
      EvolvesReflexive(r);
    }
    match call {
      case SubmitIntent(intent, venue) =>
        var existing := Lookup(records, intent.intentId);
        NewRecordIsGood(intent);
        if existing.None? || MayResubmit(existing.value.status) {
          AttemptsEvolve(existing.GetOr(NewRecord(intent)), 1, maxRetries, venue);
        }
      case PollOrderStatus(id, answer) =>
        if id in records { PollEvolves(records[id], answer); }
      case CancelOrder(id, agreement) =>
        if id in records { CancelEvolves(records[id], agreement); }
      case ProcessFillOf(id, fill, auditFails) =>
        if id in records { FillEvolves(records[id], fill, auditFails); }
    }
  }

  lemma EvolvesReflexive(r: OrderRecord)
    ensures Evolves(r, r)
  {
  }

  lemma NewRecordIsGood(intent: Intent)
    requires intent.size > FILL_TOLERANCE
    ensures GoodRecord(NewRecord(intent))
  {
  }

  /** In every reachable state fill ids are distinct, and an order whose fills cover its size is 'filled'. */
  lemma {:induction false} ReachableRecordsAreGood(calls: seq<Call>, maxRetries: int)
    requires AllFeasible(calls, maxRetries) && RealSizes(calls)
    ensures AllGood(Run(calls, maxRetries))
  {
    if calls != [] {
      hide AllGood;
      var front, last := calls[..|calls| - 1], calls[|calls| - 1];
      ReachableRecordsAreGood(front, maxRetries);
      StepEvolves(Run(front, maxRetries), last, maxRetries);
    }
  }

  /** Over any continuation of a run, filled, cancelled and expired are absorbing and no recorded fill is lost. */
  lemma {:induction false} RecordsEvolve(calls: seq<Call>, n: nat, maxRetries: int, id: string)
    requires AllFeasible(calls, maxRetries) && RealSizes(calls) && n <= |calls|
    requires AllFeasible(calls[..n], maxRetries) && id in Run(calls[..n], maxRetries)
    ensures id in Run(calls, maxRetries)
    ensures Evolves(Run(calls[..n], maxRetries)[id], Run(calls, maxRetries)[id])
  {
    hide Step;
    if n == |calls| {
      assert calls[..n] == calls;
    } else {
      var front := calls[..|calls| - 1];
      assert front[..n] == calls[..n];
      RecordsEvolve(front, n, maxRetries, id);
      ReachableRecordsAreGood(front, maxRetries);
      StepEvolves(Run(front, maxRetries), calls[|calls| - 1], maxRetries);
    }
  }

  // ---- Placements ----

  /** A call makes at most `maxRetries + 1` placements. */
  lemma {:induction false} AttemptsAreBounded(r: OrderRecord, attempt: int, maxRetries: int, venue: seq<Placement>)
    requires attempt >= 1 && |venue| >= maxRetries + 1
    ensures var o := Attempts(r, attempt, maxRetries, venue);
      |o.log| <= if attempt <= maxRetries + 1 then maxRetries + 2 - attempt else 0
    decreases maxRetries + 2 - attempt
  {
    if attempt <= maxRetries + 1 {
      var t := Try(r, attempt, venue[attempt - 1]);
      AttemptsAreBounded(t.record.(status := Failed, lastError := Some(t.message)), attempt + 1, maxRetries, venue);
    }
  }

  /** Submitting never asks the store for a transition it refuses, unless an audit write fails after a full fill. */
  lemma {:induction false} SubmitIsNeverRefused(r: OrderRecord, attempt: int, maxRetries: int, venue: seq<Placement>)
    requires attempt >= 1 && |venue| >= maxRetries + 1 && MayResubmit(r.status)
    ensures var o := Attempts(r, attempt, maxRetries, venue);
      && (o.refused <==> o.threw)
      && (o.refused <==> o.log != [] && FilledUnaudited(o.log[|o.log| - 1]))
    decreases maxRetries + 2 - attempt
  {
    hide Attempts, Try, Retried;
    if attempt <= maxRetries + 1 {
      AttemptCases(r, attempt, maxRetries, venue);
      var p := venue[attempt - 1];
      if Retries(p) {
        var next := Retried(r, attempt, p);
        SubmitIsNeverRefused(next, attempt + 1, maxRetries, venue);
        LastOfPrepended(p, Attempts(next, attempt + 1, maxRetries, venue).log);
      }
    } else {
      NoAttempts(r, attempt, maxRetries, venue);
    }
  }

  lemma LastOfPrepended(p: Placement, log: seq<Placement>)
    ensures var longer := [p] + log; longer[|longer| - 1] == if log == [] then p else log[|log| - 1]
  {
  }

  function CountAccepted(log: seq<Placement>): nat {
    if log == [] then 0 else CountAccepted(log[..|log| - 1]) + if IsAccepted(log[|log| - 1]) then 1 else 0
  }

  /** An accepted order whose audit write failed is marked failed, unless it was filled at once. */
  predicate IsForgotten(p: Placement) {
    IsAccepted(p) && p.auditFails && p.status != VenueFilled
  }

  function CountForgotten(log: seq<Placement>): nat {
    if log == [] then 0 else CountForgotten(log[..|log| - 1]) + if IsForgotten(log[|log| - 1]) then 1 else 0
  }

  /** Polls in which the venue reports the order rejected. */
  function CountRejections(calls: seq<Call>, id: string): nat {
    if calls == [] then 0
    else
      var last := calls[|calls| - 1];
      CountRejections(calls[..|calls| - 1], id)
      + if last.PollOrderStatus? && last.id == id && last.answer == Reports(VenueRejected) then 1 else 0
  }

  lemma {:induction false} CountsAppend(a: seq<Placement>, b: seq<Placement>)
    ensures CountAccepted(a + b) == CountAccepted(a) + CountAccepted(b)
    ensures CountForgotten(a + b) == CountForgotten(a) + CountForgotten(b)
  {
    if b == [] {
      assert a + b == a;
    } else {
      assert (a + b)[..|a + b| - 1] == a + b[..|b| - 1];
      CountsAppend(a, b[..|b| - 1]);
    }
  }

  lemma CountsEmpty()
    ensures CountAccepted([]) == 0 && CountForgotten([]) == 0
  {
  }

  lemma CountsSingle(p: Placement)
    ensures CountAccepted([p]) == if IsAccepted(p) then 1 else 0
    ensures CountForgotten([p]) == if IsForgotten(p) then 1 else 0
  {
    assert [p][..0] == [];
  }

  /** What `submitIntent` adds: at most one accepted placement beyond the forgotten ones, and none if it ends resubmittable. */
  lemma {:induction false} AttemptsAccept(r: OrderRecord, attempt: int, maxRetries: int, venue: seq<Placement>)
    requires attempt >= 1 && |venue| >= maxRetries + 1 && MayResubmit(r.status)
    ensures var o := Attempts(r, attempt, maxRetries, venue);
      CountAccepted(o.log) == CountForgotten(o.log) + if MayResubmit(o.record.status) then 0 else 1
    decreases maxRetries + 2 - attempt
  {
    hide CountAccepted, CountForgotten, Attempts, Try, Retried;
    CountsEmpty();
    if attempt <= maxRetries + 1 {
      AttemptCases(r, attempt, maxRetries, venue);
      var p := venue[attempt - 1];
      CountsSingle(p);
      if Retries(p) {
        var next := Retried(r, attempt, p);
        AttemptsAccept(next, attempt + 1, maxRetries, venue);
        CountsAppend([p], Attempts(next, attempt + 1, maxRetries, venue).log);
      }
    } else {
      NoAttempts(r, attempt, maxRetries, venue);
    }
  }

  /** Only a poll that reports a rejection makes an order resubmittable. */
  lemma NoCallReopens(r: OrderRecord, answer: PollAnswer, agreement: CancelAnswer, fill: Fill, auditFails: bool)
    ensures MayResubmit(Poll(r, answer).0.status) ==> MayResubmit(r.status) || answer == Reports(VenueRejected)
    ensures MayResubmit(Cancel(r, agreement).0.status) ==> MayResubmit(r.status)
    ensures MayResubmit(ProcessFill(r, fill, auditFails).0.status) ==> MayResubmit(r.status)
  {
    hide SumFilled;
  }

  /** The record of an order may be submitted again, or was never submitted. */
  ghost predicate Resubmittable(records: Records, id: string) {
    id !in records || MayResubmit(records[id].status)
  }

  /**
   Over any run, an order is accepted by the venue at most once, plus once for every poll that reported it rejected
   and once for every accepted placement that a failing audit write made the executor forget.
   */
  lemma {:induction false} AcceptedPlacementsAreBounded(calls: seq<Call>, maxRetries: int, id: string)
    requires AllFeasible(calls, maxRetries)
    ensures var log := Log(calls, maxRetries, id);
      CountAccepted(log) <= CountRejections(calls, id) + CountForgotten(log)
        + if Resubmittable(Run(calls, maxRetries), id) then 0 else 1
  {
    hide CountAccepted, CountForgotten, Attempts, Poll, Cancel, ProcessFill;
    CountsEmpty();
    if calls != [] {
      var front, call := calls[..|calls| - 1], calls[|calls| - 1];
      AcceptedPlacementsAreBounded(front, maxRetries, id);
      var records := Run(front, maxRetries);
      CountsAppend(Log(front, maxRetries, id), PlacementsOf(records, call, maxRetries, id));
      match call {
        case SubmitIntent(intent, venue) =>
          if intent.intentId == id && Resubmittable(records, id) {
            AttemptsAccept(Lookup(records, id).GetOr(NewRecord(intent)), 1, maxRetries, venue);
          }
        case PollOrderStatus(other, answer) =>
          if other in records { NoCallReopens(records[other], answer, Refuses, Fill("", 0.0), false); }
        case CancelOrder(other, agreement) =>
          if other in records { NoCallReopens(records[other], NotFound, agreement, Fill("", 0.0), false); }
        case ProcessFillOf(other, fill, auditFails) =>
          if other in records { NoCallReopens(records[other], NotFound, Refuses, fill, auditFails); }
      }
    }
  }

  /** Without rejections and audit failures an accepted placement is the last one ever attempted for its order. */
  ghost predicate AcceptedOnlyLast(log: seq<Placement>) {
    forall i :: 0 <= i < |log| - 1 ==> !IsAccepted(log[i])
  }

  lemma {:induction false} AttemptsStopWhenAccepted(r: OrderRecord, attempt: int, maxRetries: int, venue: seq<Placement>)
    requires attempt >= 1 && |venue| >= maxRetries + 1 && MayResubmit(r.status)
    requires CountForgotten(Attempts(r, attempt, maxRetries, venue).log) == 0
    ensures var o := Attempts(r, attempt, maxRetries, venue);
      && AcceptedOnlyLast(o.log)
      && (MayResubmit(o.record.status) ==> forall i :: 0 <= i < |o.log| ==> !IsAccepted(o.log[i]))
    decreases maxRetries + 2 - attempt
  {
    hide CountForgotten, CountAccepted, Attempts, Try, Retried;
    if attempt <= maxRetries + 1 {
      AttemptCases(r, attempt, maxRetries, venue);
      var p := venue[attempt - 1];
      CountsSingle(p);
      if Retries(p) {
        var next := Retried(r, attempt, p);
        CountsAppend([p], Attempts(next, attempt + 1, maxRetries, venue).log);
        AttemptsStopWhenAccepted(next, attempt + 1, maxRetries, venue);
      }
    } else {
      NoAttempts(r, attempt, maxRetries, venue);
    }
  }

  /** Nothing is placed for an order after the venue has accepted it, when no poll rejects it and no audit write fails. */
  lemma {:induction false} NothingAfterAccepted(calls: seq<Call>, maxRetries: int, id: string)
    requires AllFeasible(calls, maxRetries)
    requires CountRejections(calls, id) == 0 && CountForgotten(Log(calls, maxRetries, id)) == 0
    ensures var log := Log(calls, maxRetries, id);
      && AcceptedOnlyLast(log)
      && (Resubmittable(Run(calls, maxRetries), id) ==> forall i :: 0 <= i < |log| ==> !IsAccepted(log[i]))
  {
    hide CountForgotten, Attempts, Poll, Cancel, ProcessFill, IsAccepted;
    if calls != [] {
      var front, call := calls[..|calls| - 1], calls[|calls| - 1];
      var records := Run(front, maxRetries);
      CountsAppend(Log(front, maxRetries, id), PlacementsOf(records, call, maxRetries, id));
      NothingAfterAccepted(front, maxRetries, id);
      match call {
        case SubmitIntent(intent, venue) =>
          if intent.intentId == id && Resubmittable(records, id) {
            AttemptsStopWhenAccepted(Lookup(records, id).GetOr(NewRecord(intent)), 1, maxRetries, venue);
          }
        case PollOrderStatus(other, answer) =>
          if other in records { NoCallReopens(records[other], answer, Refuses, Fill("", 0.0), false); }
        case CancelOrder(other, agreement) =>
          if other in records { NoCallReopens(records[other], NotFound, agreement, Fill("", 0.0), false); }
        case ProcessFillOf(other, fill, auditFails) =>
          if other in records { NoCallReopens(records[other], NotFound, Refuses, fill, auditFails); }
      }
    }
  }

  /**
   An accepted answer of the venue is forgotten by a failing audit write while attempts are left: the answers before
   it were retried, and so is it.
   */
  ghost predicate ForgetsAndRetries(venue: seq<Placement>, attempt: int, maxRetries: int)
    requires attempt >= 1 && |venue| >= maxRetries + 1
  {
    exists i :: ForgottenAt(venue, attempt, maxRetries, i)
  }

  ghost predicate ForgottenAt(venue: seq<Placement>, attempt: int, maxRetries: int, i: int)
    requires attempt >= 1 && |venue| >= maxRetries + 1
  {
    && attempt - 1 <= i < maxRetries && IsForgotten(venue[i])
    && forall j :: attempt - 1 <= j < i ==> Retries(venue[j])
  }

  lemma ForgottenUnfolds(venue: seq<Placement>, attempt: int, maxRetries: int)
    requires 1 <= attempt <= maxRetries + 1 <= |venue|
    ensures ForgetsAndRetries(venue, attempt, maxRetries)
      <==> attempt <= maxRetries
           && (IsForgotten(venue[attempt - 1])
               || (Retries(venue[attempt - 1]) && ForgetsAndRetries(venue, attempt + 1, maxRetries)))
  {
    hide IsForgotten, Retries;
    if i :| ForgottenAt(venue, attempt, maxRetries, i) {
      if i >= attempt { assert ForgottenAt(venue, attempt + 1, maxRetries, i); }
    }
    if attempt <= maxRetries {
      if IsForgotten(venue[attempt - 1]) {
        assert ForgottenAt(venue, attempt, maxRetries, attempt - 1);
      } else if Retries(venue[attempt - 1]) && ForgetsAndRetries(venue, attempt + 1, maxRetries) {
        var i :| ForgottenAt(venue, attempt + 1, maxRetries, i);
        assert ForgottenAt(venue, attempt, maxRetries, i);
      }
    }
  }

  lemma AcceptedOnlyLastUnfolds(p: Placement, log: seq<Placement>)
    ensures AcceptedOnlyLast([p] + log) <==> (log == [] || !IsAccepted(p)) && AcceptedOnlyLast(log)
  {
    hide IsAccepted;
    var longer := [p] + log;
    assert forall i :: 0 <= i < |log| ==> longer[i + 1] == log[i];
    assert longer[0] == p;
    if AcceptedOnlyLast(longer) {
      forall i | 0 <= i < |log| - 1
        ensures !IsAccepted(log[i])
      {
        assert !IsAccepted(longer[i + 1]);
      }
    }
  }

  /**
   Exactly when a submit call places an order again that the venue has accepted, in terms of the venue's answers:
   an accepted one, not filled at once, is followed by a failing audit write while attempts are left.
   */
  lemma {:induction false} PlacesAgainIff(r: OrderRecord, attempt: int, maxRetries: int, venue: seq<Placement>)
    requires attempt >= 1 && |venue| >= maxRetries + 1 && MayResubmit(r.status)
    ensures !AcceptedOnlyLast(Attempts(r, attempt, maxRetries, venue).log) <==> ForgetsAndRetries(venue, attempt, maxRetries)
    ensures Attempts(r, attempt, maxRetries, venue).log == [] <==> attempt > maxRetries + 1
    decreases maxRetries + 2 - attempt
  {
    hide Attempts, Try, Retried;
    if attempt <= maxRetries + 1 {
      AttemptCases(r, attempt, maxRetries, venue);
      ForgottenUnfolds(venue, attempt, maxRetries);
      hide ForgetsAndRetries, AcceptedOnlyLast;
      var p := venue[attempt - 1];
      if Retries(p) {
        var next := Retried(r, attempt, p);
        PlacesAgainIff(next, attempt + 1, maxRetries, venue);
        AcceptedOnlyLastUnfolds(p, Attempts(next, attempt + 1, maxRetries, venue).log);
      } else {
        SinglePlacement(p);
      }
    } else {
      NoAttempts(r, attempt, maxRetries, venue);
    }
  }

  lemma SinglePlacement(p: Placement)
    ensures AcceptedOnlyLast([p])
  {
  }

  /** A failing audit write after an accepted placement makes the retry place the same order again. */
  lemma AuditFailurePlacesTwice(intent: Intent)
    ensures var accepted := Returns(VenueOther, "a", 0.0, true);
      var again := Returns(VenueOther, "b", 0.0, false);
      Submit(None, intent, 1, [accepted, again]).log == [accepted, again]
  {
    var accepted, again := Returns(VenueOther, "a", 0.0, true), Returns(VenueOther, "b", 0.0, false);
    hide Attempts, Try, Retried;
    AttemptCases(NewRecord(intent), 1, 1, [accepted, again]);
    AttemptCases(Retried(NewRecord(intent), 1, accepted), 2, 1, [accepted, again]);
  }
}
