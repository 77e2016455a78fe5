/** The per-device polling coordinator (`TapoCoordinator`): each poll fetches
    one snapshot of sensor fields from the vendor API, turns every
    `Exception` into an empty snapshot, and remembers when it last
    succeeded. */
module Coordination {
  import opened Values
  import opened Timestamps

  /** The sensor fields one poll returned, by field name. */
  type Snapshot = map<string, Value>

  /** What `api.async_get_sensor_data(device_id)` did: returned a dictionary,
      returned None, raised `asyncio.TimeoutError`, or raised another
      `Exception`. */
  datatype FetchOutcome =
    | Fetched(data: Snapshot)
    | FetchedNull
    | TimedOut
    | Failed(reason: string)

  /** Seconds between two polls the host schedules. */
  const UpdateIntervalSeconds: nat := 60

  /** The result of one run of the update function together with the
      coordinator's last-success time afterwards. */
  datatype PollResult = PollResult(data: Snapshot, lastSuccess: Option<Time>)

  /** One run of the update function, started when the last success was
      `last` and finishing at `now`. */
  function Poll(outcome: FetchOutcome, last: Option<Time>, now: Time): PollResult {
    match outcome
    case Fetched(data) => PollResult(data, Some(now))
    case FetchedNull => PollResult(map[], last)
    case TimedOut => PollResult(map[], last)
    case Failed(_) => PollResult(map[], last)
  }

  /** Every outcome the API can produce leads to a dictionary being returned;
      the returned data is the fetched one exactly when the fetch produced a
      dictionary, and the time moves exactly then. */
  lemma PollOutcomes(outcome: FetchOutcome, last: Option<Time>, now: Time)
    ensures Poll(outcome, last, now).data == (if outcome.Fetched? then outcome.data else map[])
    ensures Poll(outcome, last, now).lastSuccess != last ==> outcome.Fetched?
    ensures outcome.Fetched? ==> Poll(outcome, last, now).lastSuccess == Some(now)
  {
  }

  /** The last-success time after a series of polls, each paired with the
      time at which it finished. */
  function LastSuccessAfter(last: Option<Time>, polls: seq<(FetchOutcome, Time)>): Option<Time>
    decreases |polls|
  {
    if polls == [] then last
    else LastSuccessAfter(Poll(polls[0].0, last, polls[0].1).lastSuccess, polls[1..])
  }

  predicate AnySuccess(polls: seq<(FetchOutcome, Time)>) {
    exists i :: 0 <= i < |polls| && polls[i].0.Fetched?
  }

  /** Starting from a fresh coordinator, no time is recorded after a series of
      polls exactly when none of them fetched a dictionary; otherwise the
      recorded time is the finishing time of the last poll that did. */
  lemma {:induction false} LastSuccessIsLatestFetch(last: Option<Time>, polls: seq<(FetchOutcome, Time)>)
    ensures LastSuccessAfter(last, polls).None? <==> last.None? && !AnySuccess(polls)
    ensures forall i :: 0 <= i < |polls| && polls[i].0.Fetched?
                        && (forall j :: i < j < |polls| ==> !polls[j].0.Fetched?)
                        ==> LastSuccessAfter(last, polls) == Some(polls[i].1)
    ensures !AnySuccess(polls) ==> LastSuccessAfter(last, polls) == last
    decreases |polls|
  {
    if polls != [] {
      var next := Poll(polls[0].0, last, polls[0].1).lastSuccess;
      var rest := polls[1..];
      LastSuccessIsLatestFetch(next, rest);
      assert forall j :: 0 <= j < |rest| ==> rest[j] == polls[j + 1];
      if AnySuccess(rest) {
        var j :| 0 <= j < |rest| && rest[j].0.Fetched?;
        assert polls[j + 1].0.Fetched?;
      }
      if !AnySuccess(rest) && polls[0].0.Fetched? {
        assert AnySuccess(polls);
      }
      if AnySuccess(polls) && !polls[0].0.Fetched? {
        var i :| 0 <= i < |polls| && polls[i].0.Fetched?;
        assert rest[i - 1].0.Fetched?;
      }
      forall i | 0 <= i < |polls| && polls[i].0.Fetched?
                 && (forall j :: i < j < |polls| ==> !polls[j].0.Fetched?)
        ensures LastSuccessAfter(last, polls) == Some(polls[i].1)
      {
        if i == 0 {
          assert !AnySuccess(rest);
        } else {
          assert rest[i - 1] == polls[i];
        }
      }
    }
  }

  class TapoCoordinator {
    const deviceId: Value
    const updateIntervalSeconds: nat
    var lastSuccessfulUpdateTime: Option<Time>

    /** A new coordinator for one device has never succeeded. */
    constructor (deviceId: Value)
      ensures this.deviceId == deviceId
      ensures updateIntervalSeconds == UpdateIntervalSeconds
      ensures lastSuccessfulUpdateTime == None
    {
      this.deviceId := deviceId;
      updateIntervalSeconds := UpdateIntervalSeconds;
      lastSuccessfulUpdateTime := None;
    }

    /** The getter a sensor reads for its update attribute.
        `Sensors.ExtraStateAttributes` takes the value it returns as a
        parameter, since the sensor holds no coordinator of its own here. */
    function GetLastSuccessfulUpdateTime(): (t: Option<Time>)
      reads this
      ensures t == lastSuccessfulUpdateTime
    {
      lastSuccessfulUpdateTime
    }

    /** One run of `_async_update_data`: the fetch has produced `outcome` and
        the clock reads `now`. */
    method UpdateData(outcome: FetchOutcome, now: Time) returns (data: Snapshot)
      modifies this`lastSuccessfulUpdateTime
      ensures outcome.Fetched? ==> data == outcome.data && lastSuccessfulUpdateTime == Some(now)
      ensures !outcome.Fetched? ==> data == map[] && lastSuccessfulUpdateTime == old(lastSuccessfulUpdateTime)
      ensures PollResult(data, lastSuccessfulUpdateTime) == Poll(outcome, old(lastSuccessfulUpdateTime), now)
    {
      match outcome
      case Fetched(fetched) =>
        lastSuccessfulUpdateTime := Some(now);
        data := fetched;
      case FetchedNull =>
        data := map[];
      case TimedOut =>
        data := map[];
      case Failed(_) =>
        data := map[];
    }
  }
}
