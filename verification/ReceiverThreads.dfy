/** The receiver (src/receiver/receiver.hpp) over its components: each method is what one thread does
    between two points where another may come in, and does to the components exactly what the step of
    that name does to the state. */
module ReceiverThreads {
  import opened Types
  import opened Stations
  import opened BufferWindows
  import opened Buffers
  import opened Rexmit
  import opened StateManagers
  import opened Contents
  import opened Receivers
  import P = SessionPurity
  import B = BufferRuns
  import RB = ReceiverBuffer

  /** What the data receiver does next, by what the buffer returned. */
  lemma WriteOutcome(s: State, w: Window, r: Result<set<nat>, BufferError>)
    requires BufferWindows.Valid(s.buffer) && Enabled(s, WriteBuffer)
    requires (w, r) == BufferWindows.Write(s.buffer, s.data.d.msg)
    ensures AfterWrite(s)
         == s.(buffer := w, written := s.written + [s.data.d],
               data := if r.Err? then WriteFailed else if r.value == {} then Listening else Reporting(r.value),
               high := if r.Ok? && s.data.d.msg.id > s.high then s.data.d.msg.id else s.high)
    ensures Do(s, WriteBuffer) == AfterWrite(s)
  {
  }

  class Receiver {
    const buffer: Buffer
    const rexmitManager: RexmitManager
    const stateManager: StateManager
    // what the threads hold
    var data: DataPc
    var resetter: ResetPc
    var readFailed: bool
    var toForget: set<nat>
    var toCheck: set<nat>
    var toSend: set<nat>
    // the history
    ghost var registered: seq<nat>
    ghost var written: seq<Datagram>
    ghost var since: nat
    ghost var played: seq<Message>
    ghost var high: int

    ghost function View(): State
      reads this, buffer, rexmitManager, stateManager
    {
      State(buffer.View(), rexmitManager.View(), rexmitManager.rtime, stateManager.dirty, stateManager.sessionId,
            data, resetter, readFailed, toForget, toCheck, toSend, registered, written, since, played, high)
    }

    ghost predicate Valid()
      reads this, buffer, rexmitManager
    {
      BufferWindows.Valid(buffer.View()) && Sorted(rexmitManager.rexmitIds)
    }

    constructor (bsize: nat, rtime: nat)
      ensures Valid() && fresh(buffer) && fresh(rexmitManager) && fresh(stateManager)
      ensures View() == Start(bsize, rtime)
    {
      buffer := new Buffer(bsize);
      rexmitManager := new RexmitManager(rtime);
      stateManager := new StateManager();
      data, resetter, readFailed := Listening, Watching, false;
      toForget, toCheck, toSend := {}, {}, {};
      registered, written, since, played, high := [], [], 0, [], -1;
    }

    // ---------- run_data_receiver ----------

    method ReceiveDatagram(d: Datagram)
      requires Valid() && Enabled(View(), Receive(d))
      modifies this`data
      ensures Valid() && View() == Do(old(View()), Receive(d))
    {
      data := Received(d);
    }

    method RegisterSession()
      requires Valid() && Enabled(View(), Register)
      modifies this`data, this`registered, stateManager
      ensures Valid() && View() == Do(old(View()), Register)
      ensures stateManager.activeStation == old(stateManager.activeStation)
    {
      var ignoreMsg := stateManager.RegisterSessionCheckIgnore(data.d.session);
      registered := registered + [data.d.session];
      data := if ignoreMsg then Listening else Accepted(data.d);
    }

    method Write()
      requires Valid() && Enabled(View(), WriteBuffer)
      modifies this`data, this`written, this`high, buffer
      ensures Valid() && View() == Do(old(View()), WriteBuffer)
    {
      var msg := data.d.msg;
      var r := buffer.WriteGetMissed(msg);
      WriteOutcome(old(View()), buffer.View(), r);
      written := written + [data.d];
      high := if r.Ok? && msg.id > high then msg.id else high;
      data := if r.Err? then WriteFailed else if r.value == {} then Listening else Reporting(r.value);
    }

    method FailedWrite()
      requires Valid() && Enabled(View(), MarkWriteFailed)
      modifies this`data, stateManager
      ensures Valid() && View() == Do(old(View()), MarkWriteFailed) && stateManager.activeStation == None
    {
      stateManager.MarkDirty();
      data := Listening;
    }

    method ReportMissed(now: int)
      requires Valid() && Enabled(View(), Report(now))
      modifies this`data, rexmitManager
      ensures Valid() && View() == Do(old(View()), Report(now))
    {
      rexmitManager.AppendIds(data.missed, now);
      data := Listening;
    }

    // ---------- run_data_streamer ----------

    method Stream() returns (audio: Option<Payload>)
      requires Valid() && Enabled(View(), Play)
      modifies this`readFailed, this`played, buffer
      ensures Valid() && View() == Do(old(View()), Play)
      ensures audio.None? ==> played == old(played)
      ensures audio.Some? ==>
                old(buffer.msgIds) != [] && played == old(played) + [Message(old(buffer.msgIds[0]), audio.value)]
    {
      ghost var ids := buffer.msgIds;
      var r := buffer.TryRead();
      match r
      case Ok(read) =>
        audio := read;
        if read.Some? {
          played := played + [Message(ids[0], read.value)];
        }
      case Err(_) =>
        audio := None;
        readFailed := true;
    }

    method FailedRead()
      requires Valid() && Enabled(View(), MarkReadFailed)
      modifies this`readFailed, stateManager
      ensures Valid() && View() == Do(old(View()), MarkReadFailed) && stateManager.activeStation == None
    {
      stateManager.MarkDirty();
      readFailed := false;
    }

    // ---------- run_rexmit_sender ----------

    method FilterIds(now: int)
      requires Valid() && Enabled(View(), FilterSchedule(now))
      modifies this`toForget, this`toCheck, this`toSend, rexmitManager
      ensures Valid() && View() == Do(old(View()), FilterSchedule(now))
    {
      toCheck := rexmitManager.FilterGetIds(toForget, now);
      toForget, toSend := {}, {};
    }

    method CheckId(id: nat)
      requires Valid() && Enabled(View(), Check(id))
      modifies this`toForget, this`toCheck, this`toSend
      ensures Valid() && View() == Do(old(View()), Check(id))
    {
      var hasSpace := buffer.HasSpace(id);
      toCheck := toCheck - {id};
      if hasSpace {
        toSend := toSend + {id};
      } else {
        toForget := toForget + {id};
      }
    }

    // ---------- run_playback_resetter ----------

    method CheckState() returns (station: Option<Station>)
      requires Valid() && Enabled(View(), CheckDirty)
      modifies this`resetter, stateManager
      ensures Valid() && View() == Do(old(View()), CheckDirty)
      ensures station == stateManager.activeStation == old(stateManager.activeStation)
    {
      var dirty;
      station, dirty := stateManager.CheckState();
      resetter := if dirty then ResettingBuffer else Watching;
    }

    method ClearBuffer()
      requires Valid() && Enabled(View(), ResetBuffer)
      modifies this`resetter, this`since, this`high, buffer
      ensures Valid() && View() == Do(old(View()), ResetBuffer)
    {
      buffer.Clear();
      resetter := ResettingSchedule;
      since, high := |written|, -1;
    }

    method ClearSchedule()
      requires Valid() && Enabled(View(), ResetSchedule)
      modifies this`resetter, rexmitManager
      ensures Valid() && View() == Do(old(View()), ResetSchedule)
    {
      rexmitManager.Reset();
      resetter := Watching;
    }

    // ---------- run_ctrl_receiver and run_ui_handler ----------

    /** A station other than the active one is a change; the same one is none. */
    method RegisterStation(station: Station)
      requires Valid()
      modifies stateManager
      ensures Valid()
      ensures var active := old(stateManager.activeStation);
              View() == if active.Some? && Same(active.value, station) then old(View())
                        else Do(old(View()), ChangeStation)
      ensures var active := old(stateManager.activeStation);
              stateManager.activeStation
              == if active.Some? && Same(active.value, station) then active else Some(station)
    {
      var isDirty := stateManager.RegisterAddressCheckChange(station);
    }

    method NoStation()
      requires Valid()
      modifies stateManager
      ensures Valid() && View() == Do(old(View()), ChangeStation) && stateManager.activeStation == None
    {
      stateManager.MarkDirty();
    }

    // ---------- Any thread ----------

    method Perform(a: Action)
      requires Valid() && Enabled(View(), a)
      modifies this, buffer, rexmitManager, stateManager
      ensures Valid() && View() == Do(old(View()), a)
    {
      match a
      case Receive(d) => ReceiveDatagram(d);
      case Register => RegisterSession();
      case WriteBuffer => Write();
      case MarkWriteFailed => FailedWrite();
      case Report(now) => ReportMissed(now);
      case Play => var _ := Stream();
      case MarkReadFailed => FailedRead();
      case FilterSchedule(now) => FilterIds(now);
      case Check(id) => CheckId(id);
      case CheckDirty => var _ := CheckState();
      case ResetBuffer => ClearBuffer();
      case ResetSchedule => ClearSchedule();
      case ChangeStation => NoStation();
    }
  }

  ghost predicate AllEnabled(bsize: nat, rtime: nat, actions: seq<Action>) {
    forall i :: 0 <= i < |actions| ==> Enabled(Run(bsize, rtime, actions[..i]), actions[i])
  }

  /** A receiver object after any interleaving of its threads: it is in the state of that run, its buffer
      holds packets of the current session alone whenever no reset is due, and its holes have all been
      reported since the last reset. */
  method RunReceiver(bsize: nat, rtime: nat, actions: seq<Action>) returns (r: Receiver)
    requires AllEnabled(bsize, rtime, actions)
    ensures fresh(r) && r.Valid() && r.View() == Run(bsize, rtime, actions)
    ensures var s := r.View();
            s.since <= |s.written|
            && (!s.dirty && !s.resetter.ResettingBuffer? ==>
                  forall p :: p in Packets(r.buffer.View())
                              ==> exists d :: d in P.Current(s) && d.msg == p && d.session == r.stateManager.sessionId)
    ensures Holes(r.buffer.View()) <= B.Run(bsize, RB.Ops(bsize, rtime, actions)).requested
  {
    r := new Receiver(bsize, rtime);
    assert actions[..0] == [];
    var i := 0;
    while i < |actions|
      invariant i <= |actions|
      invariant fresh(r) && fresh(r.buffer) && fresh(r.rexmitManager) && fresh(r.stateManager)
      invariant r.Valid() && r.View() == Run(bsize, rtime, actions[..i])
    {
      assert actions[..i + 1][..i] == actions[..i];
      r.Perform(actions[i]);
      i := i + 1;
    }
    assert actions[..i] == actions;
    P.BufferIsPure(bsize, rtime, actions);
    RB.GapsAndOrderUnderInterleaving(bsize, rtime, actions);
  }
}
