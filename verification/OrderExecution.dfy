/** The in-memory store and the executor that drives it, each call proved to be a step of `OrderLifecycle`. */
module OrderExecution {
  import opened Basics
  import opened OrderLifecycle

  /** The fields a call may write along with the status. */
  datatype Updates =
    | NoUpdates
    | Attempt(attemptCount: int)
    | Placed(venueOrderId: string, filledSize: real)
    | Failure(message: string)
    | Fills(fills: seq<Fill>)

  function Merge(r: OrderRecord, status: Status, updates: Updates): OrderRecord {
    match updates
    case NoUpdates => r.(status := status)
    case Attempt(n) => r.(status := status, attemptCount := n)
    case Placed(venueOrderId, filledSize) =>
      r.(status := status, venueOrderId := Some(venueOrderId), filledSize := filledSize, lastError := None)
    case Failure(message) => r.(status := status, lastError := Some(message))
    case Fills(fills) => r.(status := status, fills := fills)
  }

  class InMemoryOrderStore {
    var records: Records

    constructor ()
      ensures records == map[]
    {
      records := map[];
    }

    method Save(record: OrderRecord)
      modifies this
      ensures records == old(records)[record.intent.intentId := record]
    {
      records := records[record.intent.intentId := record];
    }

    method GetByClientId(id: string) returns (r: Option<OrderRecord>)
      ensures r == Lookup(records, id)
    {
      r := if id in records then Some(records[id]) else None;
    }

    /** False stands for the exception the source throws; the store is then unchanged. */
    method UpdateStatus(id: string, status: Status, updates: Updates) returns (ok: bool)
      modifies this
      ensures ok <==> id in old(records) && IsValidStatusTransition(old(records)[id].status, status)
      ensures records == if ok then old(records)[id := Merge(old(records)[id], status, updates)] else old(records)
    {
      if id !in records {
        return false;
      }
      var existing := records[id];
      if !IsValidStatusTransition(existing.status, status) {
        return false;
      }
      records := records[id := Merge(existing, status, updates)];
      return true;
    }
  }

  /** Records are stored under their own intent id. */
  ghost predicate Keyed(records: Records) {
    forall id :: id in records ==> records[id].intent.intentId == id
  }

  class OrderExecutor {
    const store: InMemoryOrderStore
    const maxRetries: int

    constructor (store: InMemoryOrderStore, maxRetries: int)
      ensures this.store == store && this.maxRetries == maxRetries
    {
      this.store := store;
      this.maxRetries := maxRetries;
    }

    /** The `try` block of one attempt; `ok` is false when control reaches the `catch`. */
    method PlaceOnce(id: string, attempt: int, answer: Placement) returns (ok: bool, message: string, reached: bool)
      requires id in store.records
      modifies store
      ensures var t := Try(old(store.records)[id], attempt, answer);
        && store.records == old(store.records)[id := t.record]
        && ok == !t.caught && (t.caught ==> message == t.message) && reached == t.placed
    {
      message, reached := "", false;
      var submitted := store.UpdateStatus(id, Submitted, Attempt(attempt));
      if !submitted {
        return false, "invalid order status transition", false;
      }
      reached := true;
      if answer.Throws? {
        return false, answer.message, true;
      }
      var newStatus := StatusOfPlacement(answer.status);
      var stored := store.UpdateStatus(id, newStatus, Placed(answer.venueOrderId, answer.filledSize));
      if !stored {
        return false, "invalid order status transition", true;
      }
      if answer.auditFails {
        return false, "audit write failed", true;
      }
      ok := true;
    }

    /**
     `venue` lists what `placeOrder` answers, attempt by attempt; `log` collects the placements made, and `threw`
     tells that the call ended with an exception from the store.
     */
    method SubmitIntent(intent: Intent, venue: seq<Placement>) returns (log: seq<Placement>, threw: bool)
      requires |venue| >= maxRetries + 1 && Keyed(store.records)
      modifies store
      ensures Keyed(store.records)
      ensures store.records == Step(old(store.records), Call.SubmitIntent(intent, venue), maxRetries)
      ensures var o := Submit(Lookup(old(store.records), intent.intentId), intent, maxRetries, venue);
        log == o.log && threw == o.threw
    {
      hide Try;
      var id := intent.intentId;
      log, threw := [], false;
      var existing := store.GetByClientId(id);
      if existing.Some? && existing.value.status != Pending && existing.value.status != Failed {
        assert store.records == old(store.records)[id := existing.value];
        return;
      }
      var record := if existing.Some? then existing.value else NewRecord(intent);
      store.Save(record);
      AttemptsKeepIntent(record, 1, maxRetries, venue);
      hide Attempts;
      log, threw := RunAttempts(id, venue);
    }

    /** The retry loop. */
    method RunAttempts(id: string, venue: seq<Placement>) returns (log: seq<Placement>, threw: bool)
      requires |venue| >= maxRetries + 1 && id in store.records
      modifies store
      ensures var o := Attempts(old(store.records)[id], 1, maxRetries, venue);
        store.records == old(store.records)[id := o.record] && log == o.log && threw == o.threw
    {
      hide Try, Attempts;
      log, threw := [], false;
      ghost var start := store.records;
      ghost var whole := Attempts(start[id], 1, maxRetries, venue);
      var attempt := 1;
      while attempt <= maxRetries + 1
        invariant attempt >= 1 && id in store.records
        invariant store.records == start[id := store.records[id]]
        invariant !threw
        invariant var rest := Attempts(store.records[id], attempt, maxRetries, venue);
          whole.record == rest.record && whole.log == log + rest.log && whole.threw == rest.threw
        decreases maxRetries + 2 - attempt
      {
        OneAttempt(store.records[id], attempt, maxRetries, venue, log);
        var ok, message, reached := PlaceOnce(id, attempt, venue[attempt - 1]);
        if reached {
          log := log + [venue[attempt - 1]];
        }
        if ok {
          return;
        }
        var marked := store.UpdateStatus(id, Failed, Failure(message));
        if !marked {
          threw := true;
          return;
        }
        attempt := attempt + 1;
      }
      NoAttempts(store.records[id], attempt, maxRetries, venue);
    }

    static lemma OneAttempt(r: OrderRecord, attempt: int, maxRetries: int, venue: seq<Placement>, log: seq<Placement>)
      requires 1 <= attempt <= maxRetries + 1 <= |venue|
      ensures var t, o := Try(r, attempt, venue[attempt - 1]), Attempts(r, attempt, maxRetries, venue);
        var logged := if t.placed then log + [venue[attempt - 1]] else log;
        if !t.caught then o.record == t.record && log + o.log == logged && !o.threw
        else if !IsValidStatusTransition(t.record.status, Failed) then
          o.record == t.record && log + o.log == logged && o.threw
        else
          var rest := Attempts(t.record.(status := Failed, lastError := Some(t.message)), attempt + 1, maxRetries, venue);
          o.record == rest.record && log + o.log == logged + rest.log && o.threw == rest.threw
    {
      hide Try;
    }

    static lemma {:induction false} AttemptsKeepIntent(r: OrderRecord, attempt: int, maxRetries: int, venue: seq<Placement>)
      requires attempt >= 1 && |venue| >= maxRetries + 1
      ensures Attempts(r, attempt, maxRetries, venue).record.intent == r.intent
      decreases maxRetries + 2 - attempt
    {
      if attempt <= maxRetries + 1 {
        AttemptsKeepIntent(Retried(r, attempt, venue[attempt - 1]), attempt + 1, maxRetries, venue);
      }
    }

    /** False stands for an exception: an unknown order, a failing query, or a refused transition. */
    method PollOrderStatus(id: string, answer: PollAnswer) returns (ok: bool)
      requires Keyed(store.records)
      modifies store
      ensures Keyed(store.records)
      ensures store.records == Step(old(store.records), Call.PollOrderStatus(id, answer), maxRetries)
      ensures ok <==> id in old(store.records) && !Poll(old(store.records)[id], answer).1
    {
      var record := store.GetByClientId(id);
      if record.None? {
        return false;
      }
      assert store.records == store.records[id := store.records[id]];
      if record.value.venueOrderId.None? {
        return true;
      }
      if answer.QueryThrows? {
        return false;
      }
      if answer.NotFound? {
        return true;
      }
      var newStatus := match answer.status {
        case VenueFilled => Filled
        case VenuePartiallyFilled => PartiallyFilled
        case VenueRejected => Failed
        case VenueOther => record.value.status
      };
      ok := store.UpdateStatus(id, newStatus, NoUpdates);
    }

    /** False stands for an exception: an unknown order, a failing venue call or audit write, or a refused transition. */
    method CancelOrder(id: string, agreement: CancelAnswer) returns (ok: bool)
      requires Keyed(store.records)
      modifies store
      ensures Keyed(store.records)
      ensures store.records == Step(old(store.records), Call.CancelOrder(id, agreement), maxRetries)
      ensures ok <==> id in old(store.records) && !Cancel(old(store.records)[id], agreement).1
    {
      var record := store.GetByClientId(id);
      if record.None? {
        return false;
      }
      assert store.records == store.records[id := store.records[id]];
      if record.value.venueOrderId.None? {
        ok := store.UpdateStatus(id, Cancelled, NoUpdates);
        return;
      }
      if agreement.CancelThrows? {
        return false;
      }
      if agreement.Refuses? {
        return true;
      }
      ok := store.UpdateStatus(id, Cancelled, NoUpdates);
      if agreement.auditFails {
        ok := false;
      }
    }

    /** False stands for an exception: an unknown order, a refused transition, or a failing audit write. */
    method ProcessFill(id: string, fill: Fill, auditFails: bool) returns (ok: bool)
      requires Keyed(store.records)
      modifies store
      ensures Keyed(store.records)
      ensures store.records == Step(old(store.records), Call.ProcessFillOf(id, fill, auditFails), maxRetries)
      ensures ok <==> id in old(store.records) && !OrderLifecycle.ProcessFill(old(store.records)[id], fill, auditFails).1
    {
      var record := store.GetByClientId(id);
      if record.None? {
        return false;
      }
      assert store.records == store.records[id := store.records[id]];
      var r := record.value;
      if r.status == Filled || r.status == Cancelled || r.status == Failed {
        return true;
      }
      if HasFill(r.fills, fill.fillId) {
        return true;
      }
      var updatedFills := r.fills + [fill];
      var totalFilled := 0.0;
      for i := 0 to |updatedFills|
        invariant totalFilled == SumFilled(updatedFills[..i])
      {
        assert updatedFills[..i + 1][..i] == updatedFills[..i];
        totalFilled := totalFilled + updatedFills[i].filledSize;
      }
      assert updatedFills[..|updatedFills|] == updatedFills;
      var isFullyFilled := totalFilled >= r.intent.size - FILL_TOLERANCE;
      ok := store.UpdateStatus(id, if isFullyFilled then Filled else PartiallyFilled, Fills(updatedFills));
      if auditFails {
        ok := false;
      }
    }
  }
}
