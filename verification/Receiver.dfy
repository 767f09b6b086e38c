/** The receiver's threads (src/receiver/receiver.hpp) as steps that interleave. Every call of a
    shared component is one step; what a thread holds between two calls is its program counter. The
    loop bodies are not atomic: the temporaries `std::scoped_lock{mut};` hold no lock past their line. */
module Receivers {
  import opened Types
  import opened BufferWindows
  import opened Contents
  import opened Rexmit

  /** Where run_data_receiver is. */
  datatype DataPc =
    | Listening
    | Received(d: Datagram)
    | Accepted(d: Datagram)
    | WriteFailed
    | Reporting(missed: set<nat>)

  /** Where run_playback_resetter is. */
  datatype ResetPc = Watching | ResettingBuffer | ResettingSchedule

  datatype State = State(
    // shared components
    buffer: Window, schedule: Schedule, rtime: nat, dirty: bool, sessionId: nat,
    // run_data_receiver, run_playback_resetter, run_data_streamer
    data: DataPc, resetter: ResetPc, readFailed: bool,
    // run_rexmit_sender: ids_to_forget, what is left of ids_to_rexmit to check, what is kept of it
    toForget: set<nat>, toCheck: set<nat>, toSend: set<nat>,
    // the history: sessions registered, datagrams written and where the last buffer reset came among
    // them, packets played, and the largest id stored since that reset
    registered: seq<nat>, written: seq<Datagram>, since: nat, played: seq<Message>, high: int)

  datatype Action =
    | Receive(d: Datagram) | Register | WriteBuffer | MarkWriteFailed | Report(now: int)
    | Play | MarkReadFailed
    | FilterSchedule(now: int) | Check(id: nat)
    | CheckDirty | ResetBuffer | ResetSchedule
    | ChangeStation

  function Start(maxSize: nat, rtime: nat): State {
    State(BufferWindows.Initial(maxSize), map[], rtime, false, 0, Listening, Watching, false,
          {}, {}, {}, [], [], 0, [], -1)
  }

  predicate Enabled(s: State, a: Action) {
    match a
    case Receive(_) => s.data.Listening?
    case Register => s.data.Received?
    case WriteBuffer => s.data.Accepted? && (s.buffer.state == NoSession ==> s.data.d.msg.data != [])
    case MarkWriteFailed => s.data.WriteFailed?
    case Report(_) => s.data.Reporting?
    case Play => !s.readFailed
    case MarkReadFailed => s.readFailed
    case FilterSchedule(_) => s.toCheck == {}
    case Check(id) => id in s.toCheck
    case CheckDirty => s.resetter.Watching?
    case ResetBuffer => s.resetter.ResettingBuffer?
    case ResetSchedule => s.resetter.ResettingSchedule?
    case ChangeStation => true
  }

  function AfterRegister(s: State): State
    requires s.data.Received?
  {
    var session := s.data.d.session;
    var s' := s.(registered := s.registered + [session]);
    if session < s.sessionId then s'.(data := Listening)
    else if session == s.sessionId then s'.(data := Accepted(s.data.d))
    else s'.(data := Listening, sessionId := session, dirty := true)
  }

  function AfterWrite(s: State): State
    requires Valid(s.buffer) && Enabled(s, WriteBuffer)
  {
    var msg := s.data.d.msg;
    var s' := s.(buffer := Write(s.buffer, msg).0, written := s.written + [s.data.d]);
    match Write(s.buffer, msg).1
    case Err(_) => s'.(data := WriteFailed)
    case Ok(missed) =>
      s'.(data := if missed == {} then Listening else Reporting(missed),
          high := if msg.id > s.high then msg.id else s.high)
  }

  function AfterPlay(s: State): State
    requires Valid(s.buffer)
  {
    match Read(s.buffer)
    case (w, Ok(Some(data))) => s.(buffer := w, played := s.played + [Message(s.buffer.Front(), data)])
    case (_, Ok(None)) => s
    case (_, Err(_)) => s.(readFailed := true)
  }

  function AfterFilter(s: State, now: int): State {
    var (m, due) := Filter(s.schedule, s.toForget, now, s.rtime);
    s.(schedule := m, toForget := {}, toCheck := due, toSend := {})
  }

  function AfterCheck(s: State, id: nat): State {
    if HasSpaceFor(s.buffer, id)
    then s.(toCheck := s.toCheck - {id}, toSend := s.toSend + {id})
    else s.(toCheck := s.toCheck - {id}, toForget := s.toForget + {id})
  }

  /** One step of one thread; a step that is not enabled leaves the state alone. */
  function Do(s: State, a: Action): State
    requires Valid(s.buffer)
  {
    if !Enabled(s, a) then s
    else
      match a
      case Receive(d) => s.(data := Received(d))
      case Register => AfterRegister(s)
      case WriteBuffer => AfterWrite(s)
      case MarkWriteFailed => s.(data := Listening, dirty := true)
      case Report(now) => s.(data := Listening, schedule := Append(s.schedule, s.data.missed, now + s.rtime))
      case Play => AfterPlay(s)
      case MarkReadFailed => s.(readFailed := false, dirty := true)
      case FilterSchedule(now) => AfterFilter(s, now)
      case Check(id) => AfterCheck(s, id)
      case CheckDirty => s.(dirty := false, resetter := if s.dirty then ResettingBuffer else Watching)
      case ResetBuffer =>
        s.(buffer := Reset(s.buffer), resetter := ResettingSchedule, since := |s.written|, high := -1)
      case ResetSchedule => s.(schedule := map[], resetter := Watching)
      case ChangeStation => s.(dirty := true)
  }

  lemma DoValid(s: State, a: Action)
    requires Valid(s.buffer)
    ensures Valid(Do(s, a).buffer)
  {
    if Enabled(s, a) {
      match a
      case WriteBuffer => WriteValid(s.buffer, s.data.d.msg);
      case Play => ReadValid(s.buffer);
      case _ =>
    }
  }

  /** The state after a run: any interleaving of the threads, with any datagrams and times. */
  function RunFrom(s: State, actions: seq<Action>): (s': State)
    requires Valid(s.buffer)
    ensures Valid(s'.buffer)
  {
    if actions == [] then s
    else
      var before := RunFrom(s, actions[..|actions| - 1]);
      DoValid(before, actions[|actions| - 1]);
      Do(before, actions[|actions| - 1])
  }

  function Run(maxSize: nat, rtime: nat, actions: seq<Action>): (s: State)
    ensures Valid(s.buffer)
  {
    RunFrom(Start(maxSize, rtime), actions)
  }

  lemma {:induction false} RunAppend(s: State, first: seq<Action>, second: seq<Action>)
    requires Valid(s.buffer)
    ensures RunFrom(s, first + second) == RunFrom(RunFrom(s, first), second)
  {
    if second == [] {
      assert first + second == first;
    } else {
      RunAppend(s, first, second[..|second| - 1]);
      assert (first + second)[..|first + second| - 1] == first + second[..|second| - 1];
    }
  }
}
