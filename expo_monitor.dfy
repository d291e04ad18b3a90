/** The stand-alone reservation monitor: each run reads the `time_state` of
    the 07:00 slot on the target days from the schedule document, compares it
    with the states saved by the previous run, reports the days whose state
    moved from one known value to another, and saves the new states. */
module ExpoMonitor {
  import opened Wrappers
  import ExpoStore

  /** A decoded JSON document; `JNull` is Python's `None`. */
  datatype Json = JNull | JBool(b: bool) | JNum(n: int) | JStr(s: string) | JArr(items: seq<Json>) | JObj(fields: map<string, Json>)

  const TargetDays: seq<string> := ["19", "20"]
  const TargetTime := "0700"

  /** The outcome of `v[key]`: the member, a `KeyError` on an object without
      that key, or a `TypeError` on anything that is not an object. */
  datatype Lookup = Found(value: Json) | KeyMissing | NotAnObject

  function Index(v: Json, key: string): (r: Lookup)
    ensures r.NotAnObject? <==> !v.JObj?
    ensures r.Found? <==> v.JObj? && key in v.fields
  {
    match v
    case JObj(fields) => if key in fields then Found(fields[key]) else KeyMissing
    case _ => NotAnObject
  }

  /** `v[k1][k2]...`: the first failing step decides. */
  function LookupPath(v: Json, path: seq<string>): Lookup
  {
    if path == [] then Found(v)
    else
      match Index(v, path[0])
      case Found(member) => LookupPath(member, path[1..])
      case KeyMissing => KeyMissing
      case NotAnObject => NotAnObject
  }

  /** `["states"][day]["1"]["0700"]["time_state"]`. */
  function StatePath(day: string): seq<string> {
    ["states", day, "1", TargetTime, "time_state"]
  }

  /** What `extract_states` stores for `day`: the value found, or `None` when
      a key is missing. */
  function DayState(data: Json, day: string): Json
  {
    match LookupPath(data, StatePath(day))
    case Found(v) => v
    case _ => JNull
  }

  /** `extract_states`. A `KeyError` on the way gives `None` for that day;
      indexing into something that is not an object raises a `TypeError`
      that escapes the function, given here as the result `None`. */
  method ExtractStates(data: Json) returns (result: Option<map<string, Json>>)
    ensures result.None? <==> exists k :: 0 <= k < |TargetDays| && LookupPath(data, StatePath(TargetDays[k])).NotAnObject?
    ensures result.Some? ==>
      && (forall day :: day in result.value <==> day in TargetDays)
      && forall day :: day in result.value ==> result.value[day] == DayState(data, day)
  {
    var states: map<string, Json> := map[];
    for k := 0 to |TargetDays|
      invariant forall day :: day in states <==> day in TargetDays[..k]
      invariant forall day :: day in states ==> states[day] == DayState(data, day)
      invariant forall j :: 0 <= j < k ==> !LookupPath(data, StatePath(TargetDays[j])).NotAnObject?
    {
      var day := TargetDays[k];
      match LookupPath(data, StatePath(day)) {
        case Found(timeState) =>
          states := states[day := timeState];
        case KeyMissing =>
          states := states[day := JNull];
        case NotAnObject =>
          return None;
      }
    }
    return Some(states);
  }

  /** The value `d.get(day)` gives, with a missing key read as `None`. */
  function StateOf(states: map<string, Json>, day: string): Json {
    Get(states, day).GetOr(JNull)
  }

  /** A day's state changed when both readings are known and differ. */
  predicate IsChange(before: Json, after: Json) {
    before != JNull && after != JNull && before != after
  }

  /** The `{day: (before, after)}` the run reports. */
  function DayChanges(previous: map<string, Json>, current: map<string, Json>): (changes: map<string, (Json, Json)>)
    ensures forall day :: day in changes <==> day in TargetDays && IsChange(StateOf(previous, day), StateOf(current, day))
    ensures forall day :: day in changes ==> changes[day] == (StateOf(previous, day), StateOf(current, day))
  {
    map day | day in TargetDays && IsChange(StateOf(previous, day), StateOf(current, day))
      :: (StateOf(previous, day), StateOf(current, day))
  }

  /** The comparison loop of `main`. */
  method DetectChanges(previous: map<string, Json>, current: map<string, Json>) returns (changes: map<string, (Json, Json)>)
    ensures changes == DayChanges(previous, current)
  {
    changes := map[];
    for k := 0 to |TargetDays|
      invariant forall day :: day in changes <==>
        day in TargetDays[..k] && IsChange(StateOf(previous, day), StateOf(current, day))
      invariant forall day :: day in changes ==> changes[day] == (StateOf(previous, day), StateOf(current, day))
    {
      var day := TargetDays[k];
      var before := StateOf(previous, day);
      var after := StateOf(current, day);
      if before != JNull && after != JNull && before != after {
        changes := changes[day := (before, after)];
      }
    }
    assert TargetDays[..|TargetDays|] == TargetDays;
  }

  /** The state file as the next run finds it. */
  datatype StateFile = NoStateFile | Unparsable | Saved(state: Json)

  /** A run either stops at an exception (nothing is saved, the error is
      reported) or completes with the changes it found and whether it
      posted them. */
  datatype RunOutcome = RunFailed | Completed(changes: map<string, (Json, Json)>, notified: bool)

  /** `load_previous`: no file is an empty state; a file that does not hold
      a JSON object makes the run fail (decoding or `.get` raises). */
  function PreviousStates(file: StateFile): (previous: Option<map<string, Json>>)
    ensures file.NoStateFile? ==> previous == Some(map[])
    ensures previous.Some? <==> file.NoStateFile? || (file.Saved? && file.state.JObj?)
  {
    match file
    case NoStateFile => Some(map[])
    case Saved(JObj(fields)) => Some(fields)
    case _ => None
  }

  /** One run of `main`. `fetched` is the decoded schedule, or `None` when
      fetching raised; `postRaises` says whether posting the notification
      raises. A raising post happens only when there are changes, and it
      skips the save, so those changes are found again by the next run.
      Returns the outcome and the state file after the run. */
  method RunMonitor(fetched: Option<Json>, file: StateFile, postRaises: bool)
    returns (outcome: RunOutcome, fileAfter: StateFile)
    ensures outcome.RunFailed? ==> fileAfter == file
    ensures outcome.Completed? ==>
      && fetched.Some?
      && PreviousStates(file).Some?
      && (forall k :: 0 <= k < |TargetDays| ==> !LookupPath(fetched.value, StatePath(TargetDays[k])).NotAnObject?)
      && var current := map day | day in TargetDays :: DayState(fetched.value, day);
         && outcome.changes == DayChanges(PreviousStates(file).value, current)
         && outcome.notified == (outcome.changes != map[])
         && fileAfter == Saved(JObj(current))
    ensures outcome.Completed? && postRaises ==> outcome.changes == map[]
    ensures fetched.Some? && PreviousStates(file).Some?
      && (forall k :: 0 <= k < |TargetDays| ==> !LookupPath(fetched.value, StatePath(TargetDays[k])).NotAnObject?)
      && (!postRaises || DayChanges(PreviousStates(file).value, map day | day in TargetDays :: DayState(fetched.value, day)) == map[])
      ==> outcome.Completed?
  {
    if fetched.None? {
      return RunFailed, file;
    }
    var current := ExtractStates(fetched.value);
    if current.None? {
      return RunFailed, file;
    }
    var previous := PreviousStates(file);
    if previous.None? {
      return RunFailed, file;
    }
    var changes := DetectChanges(previous.value, current.value);
    var notified := changes != map[];
    if notified && postRaises {
      return RunFailed, file;
    }
    assert current.value == map day | day in TargetDays :: DayState(fetched.value, day);
    return Completed(changes, notified), Saved(JObj(current.value));
  }

  /** With no state file, the first run reports nothing. */
  lemma FirstRunReportsNothing(current: map<string, Json>)
    ensures DayChanges(PreviousStates(NoStateFile).value, current) == map[]
  {
  }

  /** A day whose state is unknown on either side is never reported, which
      is not how `apply_updates` treats a slot it has not seen before: there
      the absent old status is reported as `(None, new)`. */
  lemma NoneHandlingDiffers(day: string, code: string, slot: string, status: int)
    requires day in TargetDays
    ensures day !in DayChanges(map[], map[day := JNum(status)])
    ensures var st := ExpoStore.Ingest(map[code := map[]], map[]);
      ExpoStore.ApplyUpdate(st, code, ExpoStore.Update(Some(slot), Some(status))).changes
        == map[code := map[slot := ExpoStore.Transition(None, status)]]
  {
  }

  /** A saved state read back by the next run with an unchanged schedule
      reports nothing: saving after every run keeps a change from being
      reported twice. */
  lemma SavedStateIsQuiet(data: Json)
    ensures var current := map day | day in TargetDays :: DayState(data, day);
      DayChanges(PreviousStates(Saved(JObj(current))).value, current) == map[]
  {
  }
}
