/** The log records the dashboards fold over, as read from the document store. A timestamp is
    `None` while a server-assigned timestamp is still pending. Times are milliseconds. */
module Logs {
  import opened Wrappers

  /** One habit completion: `HabitLog` of the record types. */
  datatype HabitLog = HabitLog(id: string, habitId: string, timestamp: Option<int>, userProfileId: string)

  /** One mood check-in: `MoodLog` / `MoodLogData`; ratings run 1..10 in practice. */
  datatype MoodLog = MoodLog(id: string, mood: string, rating: int, timestamp: Option<int>, userProfileId: string)

  /** `logs.filter(l => l.timestamp).map(l => l.timestamp)`. */
  function Timestamps(logs: seq<HabitLog>): (ts: seq<int>)
    ensures |ts| <= |logs|
    ensures forall i | 0 <= i < |logs| && logs[i].timestamp.Some? :: logs[i].timestamp.value in ts
    ensures forall i | 0 <= i < |ts| :: exists j | 0 <= j < |logs| :: logs[j].timestamp == Some(ts[i])
  {
    if logs == [] then []
    else
      var rest := Timestamps(logs[1..]);
      assert forall i | 1 <= i < |logs| :: logs[i] == logs[1..][i - 1];
      match logs[0].timestamp
      case Some(t) => [t] + rest
      case None => rest
  }

  /** `logs.map(l => l.rating)`. */
  function Ratings(logs: seq<MoodLog>): (rs: seq<int>)
    ensures |rs| == |logs| && forall i | 0 <= i < |logs| :: rs[i] == logs[i].rating
  {
    seq(|logs|, i requires 0 <= i < |logs| => logs[i].rating)
  }
}
