/** The active station, the dirty flag and the session of the receiver
    (src/receiver/state_manager.hpp). Each method is one atomic step. */
module StateManagers {
  import opened Types
  import opened Stations

  class StateManager {
    var activeStation: Option<Station>
    var dirty: bool
    var sessionId: nat

    constructor ()
      ensures activeStation == None && !dirty && sessionId == 0
    {
      activeStation, dirty, sessionId := None, false, 0;
    }

    method CheckState() returns (station: Option<Station>, wasDirty: bool)
      modifies this`dirty
      ensures station == activeStation && wasDirty == old(dirty) && !dirty
    {
      wasDirty := dirty;
      dirty := false;
      station := activeStation;
    }

    method RegisterAddressCheckChange(newStation: Station) returns (isDirty: bool)
      modifies this`activeStation, this`dirty
      ensures var active := old(activeStation);
              var changed := active.None? || newStation != active.value.(lastReply := newStation.lastReply);
              && activeStation == (if changed then Some(newStation) else old(activeStation))
              && dirty == isDirty == (old(dirty) || changed)
    {
      if activeStation.Some? { SameButForReply(activeStation.value, newStation); }
      if activeStation.None? || !Same(activeStation.value, newStation) {
        activeStation := Some(newStation);
        dirty := true;
      }
      isDirty := dirty;
    }

    /** The session id only grows, to the largest registered; a packet is kept if its session is the
        current one and was so before. */
    method RegisterSessionCheckIgnore(newSessionId: nat) returns (ignore: bool)
      modifies this`sessionId, this`dirty
      ensures sessionId == if newSessionId > old(sessionId) then newSessionId else old(sessionId)
      ensures dirty == (old(dirty) || newSessionId > old(sessionId))
      ensures ignore <==> newSessionId != old(sessionId)
    {
      if newSessionId < sessionId { return true; }
      if newSessionId == sessionId { return false; }
      sessionId := newSessionId;
      dirty := true;
      return true;
    }

    method MarkDirty()
      modifies this`activeStation, this`dirty
      ensures activeStation == None && dirty
    {
      activeStation := None;
      dirty := true;
    }
  }
}
