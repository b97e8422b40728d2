/**
 * The bookkeeping of server.py's active-event store: handle_pod_alert records an alert
 * under its event id and decides whether to run the BetBCK scrape, get_active_events_data
 * answers the live entries and sweeps out the expired ones.  The two module-level
 * globals (active_events_data_store and betbck_scrape_attempted_for_event_id) are the
 * fields of one object.  The clock, the Pinnacle fetch with its processing, and the
 * scrape itself are parameters.
 */
module EventStore {
  import opened Wrappers
  import opened Values
  import opened Numerals

  /** EVENT_DATA_EXPIRY_SECONDS. */
  const ExpirySeconds: real := 300.0

  /**
   * One stored alert.  arrival is None for an entry without an alert_arrival_timestamp;
   * handle_pod_alert itself always writes one.
   */
  datatype Entry = Entry(arrival: Option<real>, lastUpdate: real, pinnacle: Value, alert: Value, betbck: Value)

  /** Both globals together, as the specification functions take them. */
  datatype State = State(store: map<string, Entry>, attempted: set<string>)

  /** The stored BetBCK data is a dict whose "status" is "success". */
  predicate Succeeded(betbck: Value) {
    betbck.VDict? && "status" in betbck.entries && betbck.entries["status"] == VStr("success")
  }

  /** current_betbck_status_in_store: the "status" of stored BetBCK data that is a non-empty dict, else None. */
  function StoredStatus(carried: Value): (r: Value)
    ensures (r == VStr("success")) == Succeeded(carried)
  {
    if Truthy(carried) && carried.VDict? && "status" in carried.entries then carried.entries["status"] else VNone
  }

  /** status_msg: the "status" of a dict result ("N/A" when it has none), "Unknown" for anything else. */
  function ResultStatus(result: Value): (r: Value)
    ensures (r == VStr("success")) == Succeeded(result)
  {
    if result.VDict? then (if "status" in result.entries then result.entries["status"] else VStr("N/A")) else VStr("Unknown")
  }

  /** str(event_id): a string is itself, an int its decimal text; other kinds go through strOf. */
  function IdText(id: Value, strOf: Value -> string): string {
    match id
    case VStr(s) => s
    case VInt(i) => IntToString(i)
    case _ => strOf(id)
  }

  /** The BetBCK data an alert for id carries over: that of the existing entry, else None. */
  function Carried(s: State, id: string): Value {
    if id in s.store then s.store[id].betbck else VNone
  }

  /** The scrape runs for an alert when main_logic is available and the carried data is not a success. */
  predicate ScrapeRuns(s: State, id: string, mainLogicAvailable: bool) {
    mainLogicAvailable && !Succeeded(Carried(s, id))
  }

  /**
   * The HTTP status handle_pod_alert answers.  processed is what the display step
   * gives (or raises) for the fetched odds, result what process_alert_and_scrape_betbck
   * returns (or raises) if it is called.  Any exception inside the try is a 500: the
   * payload has no get, the display step raises, or the scrape raises.
   */
  function AlertCode(s: State, payload: Value, strOf: Value -> string, processed: Result<Value>,
                     mainLogicAvailable: bool, result: Result<Value>): (code: int)
    ensures code == 200 || code == 400 || code == 500
    ensures !payload.VDict? ==> code == 500
    ensures payload.VDict? ==> (code == 400 <==> !Truthy(Get(payload, "eventId").value))
    ensures code == 200 <==>
      payload.VDict? && Truthy(Get(payload, "eventId").value) && processed.Ok? &&
      !(ScrapeRuns(s, IdText(Get(payload, "eventId").value, strOf), mainLogicAvailable) && result.Raised?)
  {
    match Get(payload, "eventId")
    case Raised(_) => 500
    case Ok(id) =>
      if !Truthy(id) then 400
      else if processed.Raised? then 500
      else if ScrapeRuns(s, IdText(id, strOf), mainLogicAvailable) && result.Raised? then 500
      else 200
  }

  /**
   * The state after an alert for id at time now whose display step succeeded: the entry
   * is rewritten (keeping the arrival time and BetBCK data of an existing one); when the
   * scrape runs, the id is marked attempted and, unless the scrape raised, its result
   * is stored and the mark dropped again unless the result is a success.  A raising
   * scrape leaves the rewritten entry and the mark in place.
   */
  function AfterAlert(s: State, id: string, now: real, processed: Value, alert: Value,
                      mainLogicAvailable: bool, result: Result<Value>): State
  {
    var existing := if id in s.store then Some(s.store[id]) else None;
    var arrival := if existing.Some? then existing.value.arrival else Some(now);
    var entry := Entry(arrival, now, processed, alert, Carried(s, id));
    if ScrapeRuns(s, id, mainLogicAvailable) then
      var marked := s.attempted + {id};
      match result
      case Raised(_) => State(s.store[id := entry], marked)
      case Ok(r) => State(s.store[id := entry.(betbck := r)], if Succeeded(r) then marked else marked - {id})
    else State(s.store[id := entry], s.attempted)
  }

  /** An expired entry arrived more than 300 s ago; one without an arrival time never expires. */
  predicate Expired(e: Entry, now: real) {
    match e.arrival
    case None => false
    case Some(t) => now - t > ExpirySeconds
  }

  /** The client's view of a live entry. */
  function Summary(e: Entry): Value {
    VDict(map[
      "pinnacle_data_processed" := e.pinnacle,
      "alert_trigger_details" := e.alert,
      "betbck_data" := e.betbck,
      "alert_arrival_timestamp" := (match e.arrival case None => VNone case Some(t) => VFloat(t)),
      "pinnacle_last_update_for_display" := VFloat(e.lastUpdate)])
  }

  /** The ids of the expired entries. */
  function ExpiredIds(store: map<string, Entry>, now: real): set<string> {
    set id | id in store && Expired(store[id], now)
  }

  /** The state after the sweep: expired entries leave the store and the attempted-set. */
  function Swept(s: State, now: real): State {
    State(map id | id in s.store && !Expired(s.store[id], now) :: s.store[id], s.attempted - ExpiredIds(s.store, now))
  }

  /** What get_active_events_data answers: a summary of every live entry. */
  function Visible(store: map<string, Entry>, now: real): map<string, Value> {
    map id | id in store && !Expired(store[id], now) :: Summary(store[id])
  }

  // ---------------------------------------------------------------------------
  // Properties
  // ---------------------------------------------------------------------------

  /** A re-alert keeps the stored arrival time; a first alert records now. */
  lemma AlertArrival(s: State, id: string, now: real, processed: Value, alert: Value,
                     mainLogicAvailable: bool, result: Result<Value>)
    ensures var t := AfterAlert(s, id, now, processed, alert, mainLogicAvailable, result);
      id in t.store && t.store[id].arrival == if id in s.store then s.store[id].arrival else Some(now)
    ensures var t := AfterAlert(s, id, now, processed, alert, mainLogicAvailable, result);
      t.store[id].lastUpdate == now && t.store[id].pinnacle == processed && t.store[id].alert == alert
  {
  }

  /** Other events are not touched, and the store only grows by the alert's id. */
  lemma AlertLeavesOthers(s: State, id: string, now: real, processed: Value, alert: Value,
                          mainLogicAvailable: bool, result: Result<Value>)
    ensures var t := AfterAlert(s, id, now, processed, alert, mainLogicAvailable, result);
      t.store.Keys == s.store.Keys + {id} &&
      (forall other :: other in s.store && other != id ==> t.store[other] == s.store[other]) &&
      forall other :: other != id ==> (other in t.attempted <==> other in s.attempted)
  {
  }

  /** Stored BetBCK data with status "success" is never scraped again: it is carried over as it is. */
  lemma NoRescrapeAfterSuccess(s: State, id: string, now: real, processed: Value, alert: Value,
                               mainLogicAvailable: bool, result: Result<Value>)
    requires id in s.store && Succeeded(s.store[id].betbck)
    ensures var t := AfterAlert(s, id, now, processed, alert, mainLogicAvailable, result);
      t.store[id].betbck == s.store[id].betbck && t.attempted == s.attempted
  {
  }

  /**
   * A scrape that runs leaves its result stored, and the id stays marked exactly when the
   * result is a success, so a failed scrape is retried on the next alert.
   */
  lemma ScrapeOutcome(s: State, id: string, now: real, processed: Value, alert: Value, result: Value)
    requires id !in s.store || !Succeeded(s.store[id].betbck)
    ensures var t := AfterAlert(s, id, now, processed, alert, true, Ok(result));
      t.store[id].betbck == result && (id in t.attempted <==> Succeeded(result))
  {
  }

  /**
   * A scrape that raises leaves the entry rewritten but its BetBCK data unchanged, and
   * the id marked as attempted, since the unmarking after the scrape is skipped.
   */
  lemma RaisedScrapeKeepsMark(s: State, id: string, now: real, processed: Value, alert: Value, error: string)
    requires id !in s.store || !Succeeded(s.store[id].betbck)
    ensures var t := AfterAlert(s, id, now, processed, alert, true, Raised(error));
      t.store[id].betbck == Carried(s, id) && t.store[id].pinnacle == processed && id in t.attempted
  {
  }

  /** Without main_logic no scrape runs: the BetBCK data is carried over and nothing is marked. */
  lemma NoMainLogic(s: State, id: string, now: real, processed: Value, alert: Value, result: Result<Value>)
    ensures var t := AfterAlert(s, id, now, processed, alert, false, result);
      t.attempted == s.attempted &&
      t.store[id].betbck == if id in s.store then s.store[id].betbck else VNone
  {
  }

  /**
   * The sweep removes exactly the expired entries from the store, every expired id from
   * the attempted-set, and keeps the live entries as they are; the answer covers exactly
   * the live entries.
   */
  lemma SweepRemovesExpired(s: State, now: real)
    ensures var t := Swept(s, now);
      (forall id :: id in s.store ==> (id in t.store <==> !Expired(s.store[id], now))) &&
      (forall id :: id in t.store ==> t.store[id] == s.store[id]) &&
      t.store.Keys <= s.store.Keys &&
      (forall id :: id in t.attempted <==> id in s.attempted && !(id in s.store && Expired(s.store[id], now)))
    ensures Visible(s.store, now).Keys == Swept(s, now).store.Keys
  {
  }

  /** An entry without an arrival time survives every sweep. */
  lemma NoArrivalNeverExpires(s: State, id: string, now: real)
    requires id in s.store && s.store[id].arrival.None?
    ensures id in Swept(s, now).store && Swept(s, now).store[id] == s.store[id]
  {
  }

  /** A second sweep at the same time changes nothing. */
  lemma SweepIdempotent(s: State, now: real)
    ensures Swept(Swept(s, now), now) == Swept(s, now)
  {
    var t := Swept(s, now);
    assert ExpiredIds(t.store, now) == {};
    assert (map id | id in t.store && !Expired(t.store[id], now) :: t.store[id]) == t.store;
  }

  /** Entries recorded by alerts expire 300 s after their first alert, however often the event is re-alerted. */
  lemma FreshAlertIsLive(s: State, id: string, now: real, processed: Value, alert: Value,
                         mainLogicAvailable: bool, result: Result<Value>)
    requires id !in s.store
    ensures var t := AfterAlert(s, id, now, processed, alert, mainLogicAvailable, result);
      !Expired(t.store[id], now) && Expired(t.store[id], now + ExpirySeconds + 1.0)
  {
  }

  // ---------------------------------------------------------------------------
  // The store
  // ---------------------------------------------------------------------------

  class ActiveEvents {
    /** active_events_data_store */
    var store: map<string, Entry>
    /** betbck_scrape_attempted_for_event_id */
    var attempted: set<string>

    constructor()
      ensures store == map[] && attempted == {}
    {
      store := map[];
      attempted := {};
    }

    /**
     * handle_pod_alert: processed is the display form of the Pinnacle odds fetched for
     * the event (or the exception the display step raised), result what
     * process_alert_and_scrape_betbck returns or raises if it is called.  An exception
     * inside the try becomes a 500 and keeps whatever was written before it.
     */
    method HandlePodAlert(payload: Value, strOf: Value -> string, now: real, processed: Result<Value>,
                          mainLogicAvailable: bool, result: Result<Value>) returns (code: int)
      modifies this
      ensures code == AlertCode(State(old(store), old(attempted)), payload, strOf, processed, mainLogicAvailable, result)
      ensures !payload.VDict? || !Truthy(Get(payload, "eventId").value) || processed.Raised? ==>
        store == old(store) && attempted == old(attempted)
      ensures payload.VDict? && Truthy(Get(payload, "eventId").value) && processed.Ok? ==>
        State(store, attempted) ==
          AfterAlert(State(old(store), old(attempted)), IdText(Get(payload, "eventId").value, strOf), now,
                     processed.value, payload, mainLogicAvailable, result)
    {
      var got := Get(payload, "eventId");
      if got.Raised? {
        return 500;
      }
      if !Truthy(got.value) {
        return 400;
      }
      var id := IdText(got.value, strOf);
      if processed.Raised? {
        return 500;
      }
      var raised := StoreAlert(id, now, processed.value, payload, mainLogicAvailable, result);
      if raised {
        return 500;
      }
      return 200;
    }

    /**
     * The part of handle_pod_alert after the display step: rewrite the entry, then maybe
     * scrape; raised tells whether the scrape raised.
     */
    method StoreAlert(id: string, now: real, processed: Value, payload: Value, mainLogicAvailable: bool,
                      result: Result<Value>) returns (raised: bool)
      modifies this
      ensures raised == (ScrapeRuns(State(old(store), old(attempted)), id, mainLogicAvailable) && result.Raised?)
      ensures State(store, attempted) ==
        AfterAlert(State(old(store), old(attempted)), id, now, processed, payload, mainLogicAvailable, result)
    {
      var existing := if id in store then Some(store[id]) else None;
      var arrival := if existing.Some? then existing.value.arrival else Some(now);
      var carried := if existing.Some? then existing.value.betbck else VNone;
      var currentStatus := StoredStatus(carried);
      ghost var before := State(old(store), old(attempted));
      ghost var entry := Entry(arrival, now, processed, payload, carried);
      store := store[id := Entry(arrival, now, processed, payload, carried)];
      var shouldScrape := currentStatus != VStr("success");
      raised := false;
      if mainLogicAvailable && shouldScrape {
        raised := RecordScrape(id, result);
        assert result.Ok? ==> store == before.store[id := entry.(betbck := result.value)];
      }
    }

    /**
     * The scrape branch of handle_pod_alert: mark the id; unless the scrape raised,
     * store the result and unmark unless it succeeded.
     */
    method RecordScrape(id: string, result: Result<Value>) returns (raised: bool)
      modifies this
      ensures raised == result.Raised?
      ensures store == if id in old(store) && result.Ok? then old(store)[id := old(store)[id].(betbck := result.value)] else old(store)
      ensures attempted == if result.Raised? || Succeeded(result.value) then old(attempted) + {id} else old(attempted) + {id} - {id}
    {
      attempted := attempted + {id};
      if result.Raised? {
        return true;
      }
      var betbckResult := result.value;
      if id in store {
        store := store[id := store[id].(betbck := betbckResult)];
      }
      var statusMsg := ResultStatus(betbckResult);
      if statusMsg != VStr("success") && id in attempted {
        attempted := attempted - {id};
      }
      return false;
    }

    /** The first loop of get_active_events_data: the live entries' summaries and the expired ids. */
    method Scan(now: real) returns (data: map<string, Value>, expiredIds: set<string>)
      ensures data == Visible(store, now)
      ensures expiredIds == ExpiredIds(store, now)
    {
      data := map[];
      expiredIds := {};
      var pending := store.Keys;
      while pending != {}
        invariant pending <= store.Keys
        invariant data == map id | id in store.Keys - pending && !Expired(store[id], now) :: Summary(store[id])
        invariant expiredIds == set id | id in store.Keys - pending && Expired(store[id], now)
        decreases pending
      {
        var eid :| eid in pending;
        if Expired(store[eid], now) {
          expiredIds := expiredIds + {eid};
        } else {
          data := data[eid := Summary(store[eid])];
        }
        pending := pending - {eid};
      }
    }

    /** The second loop: every listed id leaves the store and the attempted-set. */
    method Forget(ids: set<string>)
      modifies this
      ensures store == map id | id in old(store) && id !in ids :: old(store)[id]
      ensures attempted == old(attempted) - ids
    {
      var toDelete := ids;
      while toDelete != {}
        invariant toDelete <= ids
        invariant store == map id | id in old(store) && id !in ids - toDelete :: old(store)[id]
        invariant attempted == old(attempted) - (ids - toDelete)
        decreases toDelete
      {
        var eid :| eid in toDelete;
        if eid in store {
          store := store - {eid};
        }
        if eid in attempted {
          attempted := attempted - {eid};
        }
        toDelete := toDelete - {eid};
      }
    }

    /** get_active_events_data: the live entries' summaries; the expired ones are deleted. */
    method GetActiveEventsData(now: real) returns (data: map<string, Value>)
      modifies this
      ensures data == Visible(old(store), now)
      ensures State(store, attempted) == Swept(State(old(store), old(attempted)), now)
    {
      var expiredIds;
      data, expiredIds := Scan(now);
      Forget(expiredIds);
    }
  }
}
