/** components/StatusWidget.tsx: the request counters kept in browser storage under
    `qds-metrics`, updated after each generation request, read back by the widget, and
    removed by a reset. Storage is a field holding the parsed record, nothing, or text that
    does not parse; the clock's ISO timestamps are parameters. */
module StatusWidget {
  import opened Wrappers

  /** The stored record without `averageResponseTime` (a floating-point running mean). */
  datatype StatusMetrics = StatusMetrics(
    totalRequests: int,
    successfulRequests: int,
    failedRequests: int,
    lastError: Option<string>,
    lastUpdated: string)

  /** What `localStorage.getItem("qds-metrics")` holds. */
  datatype Stored = Absent | Parsed(record: StatusMetrics) | Unparseable

  /** Every request is counted once, as a success or as a failure. */
  predicate Consistent(m: StatusMetrics) {
    m.successfulRequests >= 0 && m.failedRequests >= 0
    && m.successfulRequests + m.failedRequests == m.totalRequests
  }

  /** A JavaScript truthy string: present and non-empty. */
  predicate Truthy(x: Option<string>) {
    x.Some? && x.value != ""
  }

  /** The initial record: all counters zero, no error. */
  function Zero(now: string): (m: StatusMetrics)
    ensures Consistent(m) && m.totalRequests == 0 && m.lastError.None?
  {
    StatusMetrics(0, 0, 0, None, now)
  }

  /** The record after one request: one more in total, one more success or one more failure
      and nothing else counted, the error kept only for a failure that reports one. */
  function Updated(m: StatusMetrics, success: bool, error: Option<string>, now: string)
    : (r: StatusMetrics)
    ensures r.totalRequests == m.totalRequests + 1
    ensures success ==>
      r.successfulRequests == m.successfulRequests + 1 && r.failedRequests == m.failedRequests
    ensures !success ==>
      r.failedRequests == m.failedRequests + 1 && r.successfulRequests == m.successfulRequests
    ensures r.lastError != m.lastError ==> !success && Truthy(error) && r.lastError == error
    ensures !success && Truthy(error) ==> r.lastError == error
    ensures r.lastUpdated == now
    ensures Consistent(m) ==> Consistent(r)
  {
    var counted :=
      if success then m.(totalRequests := m.totalRequests + 1,
                         successfulRequests := m.successfulRequests + 1)
      else m.(totalRequests := m.totalRequests + 1,
              failedRequests := m.failedRequests + 1,
              lastError := if Truthy(error) then error else m.lastError);
    counted.(lastUpdated := now)
  }

  /** The success rate's text when nothing was counted: `"0"`. Otherwise it is
      `toFixed(1)` of a floating-point percentage, which is not modelled (None). */
  function SuccessRate(m: StatusMetrics): (r: Option<string>)
    ensures r.Some? <==> m.totalRequests <= 0
    ensures r.Some? ==> r.value == "0"
  {
    if m.totalRequests > 0 then None else Some("0")
  }

  /** loadMetrics: the widget's record after a load. Nothing stored gives zeros; a stored
      record is taken as it is; text that fails to parse is logged and the widget keeps what
      it had. */
  function Load(stored: Stored, shown: Option<StatusMetrics>, now: string)
    : (r: Option<StatusMetrics>)
    ensures stored.Absent? ==> r == Some(Zero(now))
    ensures stored.Parsed? ==> r == Some(stored.record)
    ensures stored.Unparseable? ==> r == shown
  {
    match stored
    case Absent => Some(Zero(now))
    case Parsed(m) => Some(m)
    case Unparseable => shown
  }

  class Store {
    var stored: Stored

    constructor(stored: Stored)
      ensures this.stored == stored
    {
      this.stored := stored;
    }

    /** updateMetrics: read the record (zeros when there is none), count the request, stamp
        it, and write it back. When the stored text does not parse, the error is caught and
        storage is left as it was. */
    method UpdateMetrics(success: bool, error: Option<string>, now: string)
      modifies this
      ensures old(stored).Unparseable? ==> stored == old(stored)
      ensures old(stored).Absent? ==> stored == Parsed(Updated(Zero(now), success, error, now))
      ensures old(stored).Parsed? ==>
        stored == Parsed(Updated(old(stored).record, success, error, now))
    {
      if stored.Unparseable? {
        return;
      }
      var current := if stored.Parsed? then stored.record else Zero(now);
      current := current.(totalRequests := current.totalRequests + 1);
      if success {
        current := current.(successfulRequests := current.successfulRequests + 1);
      } else {
        current := current.(failedRequests := current.failedRequests + 1);
        if Truthy(error) {
          current := current.(lastError := error);
        }
      }
      current := current.(lastUpdated := now);
      stored := Parsed(current);
    }

    /** resetMetrics: the record is removed, so the next load shows zeros. */
    method ResetMetrics()
      modifies this
      ensures stored == Absent
      ensures forall shown, now :: Load(stored, shown, now) == Some(Zero(now))
    {
      stored := Absent;
    }
  }

  /** Counting starts from zeros: the first update of an empty store gives one request, of
      the right kind, and a consistent record. */
  lemma FirstUpdate(success: bool, error: Option<string>, now: string)
    ensures var r := Updated(Zero(now), success, error, now);
      Consistent(r) && r.totalRequests == 1
      && (r.successfulRequests == 1 <==> success) && (r.failedRequests == 1 <==> !success)
  {
  }
}
