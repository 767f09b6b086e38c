/** The receiver's buffer, as src/receiver/buffer.hpp updates it: two deques in step, a session
    state, and the id of the last packet. Each public method is one atomic step. */
module Buffers {
  import opened Types
  import opened Progressions
  import opened BufferWindows

  class Buffer {
    const maxSize: nat
    var maxElements: nat
    var state: SessionState
    var maxMsgId: nat
    var byteZero: nat
    var packageSize: nat
    var msgVals: seq<Option<Payload>>
    var msgIds: seq<nat>

    ghost function View(): Window
      reads this
    {
      Window(maxSize, maxElements, state, maxMsgId, byteZero, packageSize, msgIds, msgVals)
    }

    constructor (maxSize: nat)
      ensures this.maxSize == maxSize
      ensures View() == Initial(maxSize) && Valid(View())
    {
      this.maxSize := maxSize;
      maxElements, maxMsgId, byteZero, packageSize := 0, 0, 0, 0;
      state, msgVals, msgIds := NoSession, [], [];
    }

    /** Pops what does not fit, and reserves a hole for each id skipped. */
    method SaveNewMessage(msg: Message)
      requires Valid(View()) && state != NoSession
      requires msgIds != [] ==> msg.id > msgIds[|msgIds| - 1]
      modifies this`msgIds, this`msgVals
      ensures View() == Store(old(View()), msg)
    {
      if msgIds == [] {
        msgVals := msgVals + [Some(msg.data)];
        msgIds := msgIds + [msg.id];
        return;
      }
      var missedId := msgIds[|msgIds| - 1] + packageSize;
      while missedId < msg.id
        invariant |msgIds| == |msgVals| > 0 && missedId == msgIds[|msgIds| - 1] + packageSize
        invariant PushHoles(View(), msg.id) == PushHoles(old(View()), msg.id)
        decreases msg.id - missedId
      {
        PopAndPush(missedId, None);
        missedId := missedId + packageSize;
      }
      PopAndPush(msg.id, Some(msg.data));
    }

    /** Pops the front if the deques are full, and pushes a slot at the back. */
    method PopAndPush(id: nat, val: Option<Payload>)
      requires |msgIds| == |msgVals| > 0
      modifies this`msgIds, this`msgVals
      ensures View() == PushSlot(old(View()), id, val)
    {
      if |msgIds| == maxElements {
        msgIds := msgIds[1..];
        msgVals := msgVals[1..];
      }
      msgVals := msgVals + [val];
      msgIds := msgIds + [id];
    }

    /** Fills the slot of a packet that is inside the window. */
    method SaveMissedMessage(msg: Message)
      requires Valid(View()) && msgIds != [] && Aligned(msg.id, packageSize)
      requires msgIds[0] <= msg.id <= msgIds[|msgIds| - 1]
      modifies this`msgVals
      ensures View() == Store(old(View()), msg)
    {
      PositionOf(msgIds, packageSize, msg.id);
      StepsIsQuotient(msg.id - msgIds[0], packageSize);
      var msgPos := (msg.id - msgIds[0]) / packageSize;
      msgVals := msgVals[msgPos := Some(msg.data)];
    }

    method SaveMessage(msg: Message)
      requires Valid(View()) && state != NoSession && Aligned(msg.id, packageSize)
      modifies this`msgIds, this`msgVals
      ensures View() == Store(old(View()), msg)
    {
      if msgIds == [] || msg.id > msgIds[|msgIds| - 1] {
        SaveNewMessage(msg);
      } else if msgIds[0] <= msg.id <= msgIds[|msgIds| - 1] {
        SaveMissedMessage(msg);
      } else {
        StaleIsIgnored(View(), msg);
      }
    }

    /** The ids skipped since the last packet and still missing. Before the first packet is stored
        the last id may be unaligned; then the window is one slot and nothing is scanned. */
    method ScanMissed(id: nat) returns (missed: set<nat>)
      requires Scannable(View(), maxMsgId, id)
      ensures missed == Missed(View(), maxMsgId, id)
    {
      missed := {};
      var next := if maxMsgId + packageSize < msgIds[0] then msgIds[0] else maxMsgId + packageSize;
      var end := if id < msgIds[|msgIds| - 1] then id else msgIds[|msgIds| - 1];
      MissedStart(View(), maxMsgId, id, next);
      while next < end
        invariant next < end ==> Aligned(next, packageSize) && msgIds[0] <= next && maxMsgId < next
        invariant missed == Missed(View(), maxMsgId, if next < end then next else id)
        decreases end - next
      {
        PositionOf(msgIds, packageSize, next);
        StepsIsQuotient(next - msgIds[0], packageSize);
        var msgPos := (next - msgIds[0]) / packageSize;
        MissedStep(View(), maxMsgId, id, msgPos);
        if msgVals[msgPos].None? {
          missed := missed + {next};
        }
        next := next + packageSize;
      }
    }

    /** A first packet fixes the session's parameters; one far enough makes the buffer readable. */
    method StartSession(msg: Message)
      requires state == NoSession ==> msg.data != []
      modifies this
      ensures View() == Open(old(View()), msg)
    {
      if state == NoSession {
        byteZero := msg.id;
        maxMsgId := msg.id;
        packageSize := |msg.data|;
        maxElements := maxSize / packageSize;
        state := Waiting;
      }
      if msg.id >= byteZero + maxElements * packageSize * 3 / 4 {
        state := Readable;
      }
    }

    method SaveAndScan(msg: Message) returns (missed: set<nat>)
      requires Valid(View()) && state != NoSession && Aligned(msg.id, packageSize)
      modifies this
      ensures View() == Store(old(View()), msg).(lastId := msg.id)
      ensures missed == Missed(Store(old(View()), msg), old(maxMsgId), msg.id)
    {
      StoreValid(View(), msg);
      SaveMessage(msg);
      missed := ScanMissed(msg.id);
      maxMsgId := msg.id;
    }

    method WriteGetMissed(msg: Message) returns (r: Result<set<nat>, BufferError>)
      requires Valid(View())
      requires state == NoSession ==> msg.data != []
      modifies this
      ensures (View(), r) == Write(old(View()), msg)
      ensures Valid(View())
    {
      WriteValid(View(), msg);
      StartSession(msg);
      StepsIsQuotient(msg.id, packageSize);
      if msg.id % packageSize != 0 {
        return Err(Misaligned);
      }
      var missed := SaveAndScan(msg);
      r := Ok(missed);
    }

    method TryRead() returns (r: Result<Option<Payload>, BufferError>)
      requires Valid(View())
      modifies this`msgIds, this`msgVals
      ensures (View(), r) == Read(old(View()))
      ensures Valid(View())
    {
      ReadValid(View());
      if state != Readable {
        return Ok(None);
      }
      if |msgVals| == 0 || msgVals[0].None? {
        return Err(NotReadable);
      }
      r := Ok(msgVals[0]);
      msgVals := msgVals[1..];
      msgIds := msgIds[1..];
    }

    method HasSpace(id: nat) returns (r: bool)
      ensures r == HasSpaceFor(View(), id)
    {
      var isInSession := state != NoSession;
      var hasSpace := msgIds != [] && msgIds[0] <= id <= msgIds[|msgIds| - 1];
      r := isInSession && hasSpace;
    }

    method Clear()
      modifies this`state, this`msgIds, this`msgVals
      ensures View() == Reset(old(View()))
    {
      state := NoSession;
      msgIds := [];
      msgVals := [];
    }
  }

  lemma StaleIsIgnored(w: Window, msg: Message)
    requires Valid(w) && w.state != NoSession && w.ids != [] && msg.id < w.Front()
    ensures Store(w, msg) == w
  {
    GridIncreasing(w.ids, w.packageSize);
    assert msg.id <= w.Back();
    assert Store(w, msg).vals == w.vals;
  }
}
