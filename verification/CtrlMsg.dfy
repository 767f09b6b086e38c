/** Control messages (src/common/ctrl_msg.hpp): the class, and the functions that build messages. */
module CtrlMsgs {
  import opened Types
  import opened Progressions
  import opened Decimals
  import opened RexmitText
  import opened ReplyText

  const LOOKUP_KEY := "ZERO_SEVEN_COME_IN"

  predicate IsLookup(text: string) {
    LOOKUP_KEY <= text
  }

  /** No text is of two kinds. */
  lemma KindsAreDisjoint(text: string)
    ensures !(IsLookup(text) && IsReply(text)) && !(IsReply(text) && IsRexmit(text))
    ensures !(IsRexmit(text) && IsLookup(text))
  {
    if text != [] {
      assert IsLookup(text) ==> text[0] == LOOKUP_KEY[0];
      assert IsReply(text) ==> text[0] == REPLY_KEY[0];
      assert IsRexmit(text) ==> text[0] == REXMIT_KEY[0];
    }
  }

  class CtrlMsg {
    const msgData: string

    constructor (msgData: string)
      ensures this.msgData == msgData
    {
      this.msgData := msgData;
    }

    /** The ids of a request, in the order of the text; the first number beyond 64 bits is an error. */
    method GetRexmitIds() returns (r: Result<seq<nat>, CtrlError>)
      ensures r == RexmitIds(msgData)
    {
      if !IsRexmit(msgData) {
        return Err(WrongKind);
      }
      var searchable := msgData[|REXMIT_KEY| - 1..];
      searchable := searchable[0 := ','];
      assert searchable == Searchable(msgData);
      var ids: seq<nat> := [];
      ghost var left := searchable;
      var found := NextNumber(searchable);
      while found.Some?
        invariant found == NextNumber(left) && ReadIds(ids, left) == RexmitIds(msgData)
        decreases |left|
      {
        var (num, rest) := found.value;
        if Value(num) >= TWO_TO_THE_64 {
          return Err(OutOfRange);
        }
        ids := ids + [Value(num)];
        left := rest;
        found := NextNumber(rest);
      }
      r := Ok(ids);
    }

    method GetReplyData() returns (r: Result<Reply, CtrlError>)
      ensures r == ReplyData(msgData)
    {
      if !IsReply(msgData) {
        return Err(WrongKind);
      }
      var i := NextWord(msgData);
      if i.None? { return Err(MissingWord); }
      var addr := i.value.0;
      i := NextWord(i.value.1);
      if i.None? { return Err(MissingWord); }
      var number := Stoul(i.value.0);
      if number.None? { return Err(NotANumber); }
      var port := number.value % 0x1_0000;
      i := NextWord(i.value.1);
      if i.None? { return Err(MissingWord); }
      var name := i.value.0;
      ghost var left := i.value.1;
      i := NextWord(i.value.1);
      while i.Some?
        invariant i == NextWord(left) && ReplyData(msgData) == Ok(Reply(ReadName(name, left), addr, port))
        decreases |left|
      {
        name := name + " " + i.value.0;
        left := i.value.1;
        i := NextWord(i.value.1);
      }
      r := Ok(Reply(name, addr, port));
    }
  }

  method MakeLookup() returns (msg: CtrlMsg)
    ensures msg.msgData == "ZERO_SEVEN_COME_IN\n" && IsLookup(msg.msgData)
  {
    msg := new CtrlMsg(LOOKUP_KEY + "\n");
  }

  method MakeReply(name: string, mcastAddr: string, dataPort: nat) returns (msg: CtrlMsg)
    requires dataPort < 0x1_0000
    ensures msg.msgData == ReplyTextOf(name, mcastAddr, dataPort)
  {
    var ss := REPLY_KEY;
    ss := ss + mcastAddr + " " + Print(dataPort);
    ss := ss + (" " + name + "\n");
    msg := new CtrlMsg(ss);
  }

  /** What the list still lacks: the first number has no comma before it. */
  function StillListed(isFirst: bool, ids: set<nat>): string {
    if isFirst then Listed(Sorted(ids)) else CommaEach(Sorted(ids))
  }

  method MakeRexmit(ids: set<nat>) returns (msg: CtrlMsg)
    ensures msg.msgData == RexmitTextOf(Sorted(ids))
  {
    var ss, rest := "", ids;
    while rest != {}
      invariant ss + StillListed(rest == ids, rest) == Listed(Sorted(ids))
      invariant rest <= ids
      decreases |rest|
    {
      var id := Min(rest);
      NextListed(ss, rest == ids, rest);
      if rest != ids {
        ss := ss + ",";
      }
      ss := ss + Print(id);
      rest := rest - {id};
    }
    msg := new CtrlMsg(REXMIT_KEY + ss + "\n");
  }

  /** One turn of the loop over the ids. */
  lemma NextListed(ss: string, isFirst: bool, ids: set<nat>)
    requires ids != {}
    ensures ss + StillListed(isFirst, ids)
         == (if isFirst then ss else ss + ",") + Print(Min(ids)) + StillListed(false, ids - {Min(ids)})
  {
    var id, sorted, later := Min(ids), Sorted(ids), Sorted(ids - {Min(ids)});
    assert sorted[0] == id && sorted[1..] == later;
    Assoc(ss, Print(id), CommaEach(later));
    Assoc(ss, ",", Print(id));
    Assoc(ss, "," + Print(id), CommaEach(later));
    assert Listed(sorted) == Print(id) + CommaEach(later);
    assert CommaEach(sorted) == "," + Print(id) + CommaEach(later);
  }

  lemma PrintExamples()
    ensures Print(80) == "80" && Print(512) == "512" && Print(0) == "0"
  {
    assert Print(8) == "8";
    assert Print(51) == "51" by { assert Print(5) == "5"; }
  }

  /** A reply as it is sent. */
  lemma ReplyExample()
    ensures ReplyTextOf("A B", "1.2.3.4", 80) == "BOREWICZ_HERE 1.2.3.4 80 A B\n"
  {
    PrintExamples();
  }

  /** A request as it is sent. */
  lemma RexmitExample()
    ensures RexmitTextOf([0] + [512]) == "LOUDER_PLEASE 0,512\n"
  {
    PrintExamples();
    assert ([0] + [512])[1..] == [512] && [512][1..] == [];
    assert CommaEach([512]) == "," + Print(512) + "";
    assert Listed([0] + [512]) == Print(0) + CommaEach([512]);
  }
}
