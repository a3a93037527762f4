/**
 * The agent's status machine: a five-valued status plus the task, the last
 * audio output and the last error. `started_at` and the uptime derived from
 * it read the clock and are not part of this model.
 */
module State {
  import opened Wrappers
  import Bytes

  datatype Status = Idle | Listening | Processing | Speaking | Error

  datatype AgentState<V> = AgentState(
    status: Status,
    currentTask: Option<string>,
    lastAudioOutput: Option<seq<Bytes.Byte>>,
    lastError: Option<string>,
    metadata: map<string, V>)

  /** `to_dict` without `uptime_seconds`. */
  datatype StateDict<V> = StateDict(
    status: string,
    currentTask: Option<string>,
    hasAudioOutput: bool,
    lastError: Option<string>,
    metadata: map<string, V>)

  /** The enum's value string. */
  function StatusValue(s: Status): (v: string)
    ensures |v| > 0
    ensures forall i :: 0 <= i < |v| ==> 'a' <= v[i] <= 'z'
  {
    match s
    case Idle => "idle"
    case Listening => "listening"
    case Processing => "processing"
    case Speaking => "speaking"
    case Error => "error"
  }

  /** Distinct statuses have distinct value strings, and every value string is lower case. */
  lemma StatusValueInjective(s1: Status, s2: Status)
    ensures StatusValue(s1) == StatusValue(s2) ==> s1 == s2
    ensures forall i :: 0 <= i < |StatusValue(s1)| ==> 'a' <= StatusValue(s1)[i] <= 'z'
  {
  }

  /** Python truthiness of an optional string: present and non-empty. */
  predicate Truthy(t: Option<string>)
  {
    t.Some? && |t.value| > 0
  }

  function Initial<V>(): (s: AgentState<V>)
    ensures s.status == Idle && s.currentTask.None? && s.lastError.None?
    ensures s.lastAudioOutput.None? && |s.metadata| == 0
  {
    AgentState(Idle, None, None, None, map[])
  }

  /** `set_status(status, task)`: the task is replaced only by a truthy one. */
  function SetStatus<V>(st: AgentState<V>, status: Status, task: Option<string>): (st': AgentState<V>)
    ensures st'.status == status
    ensures Truthy(task) ==> st'.currentTask == task
    ensures !Truthy(task) ==> st'.currentTask == st.currentTask
    ensures st'.lastError == st.lastError && st'.lastAudioOutput == st.lastAudioOutput
    ensures st'.metadata == st.metadata
  {
    if Truthy(task) then st.(status := status, currentTask := task)
    else st.(status := status)
  }

  function SetError<V>(st: AgentState<V>, error: string): (st': AgentState<V>)
    ensures st'.status == Error && st'.lastError == Some(error)
    ensures st'.currentTask == st.currentTask && st'.lastAudioOutput == st.lastAudioOutput
    ensures st'.metadata == st.metadata
  {
    st.(status := Error, lastError := Some(error))
  }

  /** `clear_error`: forget the error; leave ERROR for IDLE, keep any other status. */
  function ClearError<V>(st: AgentState<V>): (st': AgentState<V>)
    ensures st'.lastError.None?
    ensures st.status == Error ==> st'.status == Idle
    ensures st.status != Error ==> st'.status == st.status
    ensures st'.currentTask == st.currentTask && st'.lastAudioOutput == st.lastAudioOutput
    ensures st'.metadata == st.metadata
  {
    st.(lastError := None, status := if st.status == Error then Idle else st.status)
  }

  /** `is_busy`; whether the agent is busy can be read off the status string of `to_dict`. */
  predicate IsBusy<V>(st: AgentState<V>)
    ensures IsBusy(st) <==> StatusValue(st.status) == "processing" || StatusValue(st.status) == "speaking"
  {
    st.status == Processing || st.status == Speaking
  }

  function ToDict<V>(st: AgentState<V>): (d: StateDict<V>)
    ensures d.status == StatusValue(st.status)
    ensures d.hasAudioOutput <==> st.lastAudioOutput.Some?
    ensures d.currentTask == st.currentTask && d.lastError == st.lastError
    ensures d.metadata == st.metadata
  {
    StateDict(StatusValue(st.status), st.currentTask, st.lastAudioOutput.Some?, st.lastError, st.metadata)
  }

  /** The dictionary determines the status it was made from. */
  lemma ToDictDeterminesStatus<V>(a: AgentState<V>, b: AgentState<V>)
    ensures ToDict(a).status == ToDict(b).status ==> a.status == b.status
  {
    StatusValueInjective(a.status, b.status);
  }

  /** `clear_error` is idempotent and never leaves the machine in ERROR. */
  lemma ClearErrorIdempotent<V>(st: AgentState<V>)
    ensures ClearError(ClearError(st)) == ClearError(st)
    ensures ClearError(st).status != Error
  {
  }

  /** Setting and then clearing an error returns to IDLE with the task kept. */
  lemma ErrorRoundTrip<V>(st: AgentState<V>, error: string)
    ensures ClearError(SetError(st, error)) == st.(status := Idle, lastError := None)
  {
  }

  /** After `set_status(s, t)` the agent is busy exactly when s is PROCESSING or SPEAKING; after an error it is not busy. */
  lemma BusyAfterSetStatus<V>(st: AgentState<V>, status: Status, task: Option<string>, error: string)
    ensures IsBusy(SetStatus(st, status, task)) <==> status in {Processing, Speaking}
    ensures !IsBusy(SetError(st, error))
    ensures !IsBusy(Initial<V>())
  {
  }
}
