/** The text of a retransmission request (src/common/ctrl_msg.hpp): the ids asked for, separated by
    commas, found again by a search for the regular expression `,[0-9]+`. */
module RexmitText {
  import opened Types
  import opened Progressions
  import opened Search
  import opened Decimals

  const REXMIT_KEY := "LOUDER_PLEASE "

  datatype CtrlError = WrongKind | OutOfRange | MissingWord | NotANumber

  // ---------- Sets in ascending order, as std::set keeps them ----------

  lemma ThereIsMin(s: set<nat>)
    requires s != {}
    ensures exists m :: m in s && forall x :: x in s ==> m <= x
  {
    var m :| m in s;
    if s != {m} {
      var rest := s - {m};
      ThereIsMin(rest);
      var r :| r in rest && forall x :: x in rest ==> r <= x;
      var least := if r < m then r else m;
      assert forall x :: x in s ==> x == m || x in rest;
      assert least in s && forall x :: x in s ==> least <= x;
    }
  }

  function Min(s: set<nat>): (m: nat)
    requires s != {}
    ensures m in s && forall x :: x in s ==> m <= x
  {
    ThereIsMin(s);
    var m :| m in s && forall x :: x in s ==> m <= x;
    m
  }

  function Sorted(s: set<nat>): seq<nat> {
    if s == {} then [] else [Min(s)] + Sorted(s - {Min(s)})
  }

  lemma {:induction false} SortedMeans(s: set<nat>)
    ensures Increasing(Sorted(s)) && forall x :: x in Sorted(s) <==> x in s
  {
    if s != {} {
      var m, rest := Min(s), s - {Min(s)};
      SortedMeans(rest);
      IncreasingCons(m, Sorted(rest));
    }
  }

  // ---------- The text ----------

  /** The numbers, with a comma before each. */
  function CommaEach(ids: seq<nat>): string {
    if ids == [] then "" else "," + Print(ids[0]) + CommaEach(ids[1..])
  }

  /** The numbers, with commas between them. */
  function Listed(ids: seq<nat>): string {
    if ids == [] then "" else Print(ids[0]) + CommaEach(ids[1..])
  }

  function CommaText(ids: seq<nat>): string {
    CommaEach(ids) + "\n"
  }

  lemma CommaFirst(ids: seq<nat>)
    requires ids != []
    ensures "," + Listed(ids) == CommaEach(ids)
  {
    assert "," + (Print(ids[0]) + CommaEach(ids[1..])) == "," + Print(ids[0]) + CommaEach(ids[1..]);
  }

  // ---------- The ids in a text ----------

  /** The next number: its digits, and the text after it. */
  function NextNumber(s: string): (r: Option<(string, string)>)
    ensures r.Some? ==> AllDigits(r.value.0) && |r.value.1| < |s|
  {
    Next(CommaDigits, s)
  }

  /** The ids of the matches, after those already found; std::stoull throws beyond 64 bits. */
  function ReadIds(ids: seq<nat>, s: string): Result<seq<nat>, CtrlError>
    decreases |s|
  {
    match NextNumber(s)
    case None => Ok(ids)
    case Some((num, rest)) =>
      if Value(num) >= TWO_TO_THE_64 then Err(OutOfRange) else ReadIds(ids + [Value(num)], rest)
  }

  predicate IsRexmit(text: string) {
    REXMIT_KEY <= text
  }

  /** The text with the key taken off, but for its last space, which becomes a comma. */
  function Searchable(text: string): string
    requires IsRexmit(text)
  {
    "," + text[|REXMIT_KEY|..]
  }

  function RexmitIds(text: string): Result<seq<nat>, CtrlError> {
    if !IsRexmit(text) then Err(WrongKind) else ReadIds([], Searchable(text))
  }

  function RexmitTextOf(ids: seq<nat>): string {
    REXMIT_KEY + Listed(ids) + "\n"
  }

  /** A printed number is found, with what follows it. */
  lemma NextPrinted(id: nat, rest: string)
    requires rest != [] && !IsDigit(rest[0])
    ensures NextNumber("," + Print(id) + rest) == Some((Print(id), rest))
  {
    NextOf(CommaDigits, "," + Print(id) + rest, Print(id), rest);
  }

  ghost predicate Below64(ids: seq<nat>) {
    forall k :: 0 <= k < |ids| ==> ids[k] < TWO_TO_THE_64
  }

  /** One turn of the loop over the matches. */
  lemma ReadFirst(found: seq<nat>, ids: seq<nat>)
    requires ids != [] && ids[0] < TWO_TO_THE_64
    ensures ReadIds(found, CommaText(ids)) == ReadIds(found + [ids[0]], CommaText(ids[1..]))
  {
    var rest := CommaText(ids[1..]);
    assert CommaText(ids) == "," + Print(ids[0]) + rest;
    NextPrinted(ids[0], rest);
    ValueOfPrint(ids[0]);
  }

  lemma {:induction false} CommaEachIsRead(found: seq<nat>, ids: seq<nat>, all: seq<nat>)
    requires Below64(ids) && all == found + ids
    ensures ReadIds(found, CommaText(ids)) == Ok(all)
    decreases |ids|
  {
    if ids == [] {
      assert all == found;
    } else {
      CommaEachIsRead(found + [ids[0]], ids[1..], all);
      ReadFirst(found, ids);
      assert ReadIds(found, CommaText(ids)) == ReadIds(found + [ids[0]], CommaText(ids[1..])) == Ok(all);
    }
  }

  /** Every list of 64-bit ids, in any order and with repetitions, is read back from its text. */
  lemma ListIsRead(ids: seq<nat>)
    requires Below64(ids)
    ensures RexmitIds(RexmitTextOf(ids)) == Ok(ids)
  {
    var text := RexmitTextOf(ids);
    assert Searchable(text) == "," + Listed(ids) + "\n";
    if ids == [] {
      assert Searchable(text) == ",\n" && ",\n"[1..] == "\n" && "\n"[1..] == "";
      assert Next(CommaDigits, "\n") == Next(CommaDigits, "") == None;
    } else {
      CommaFirst(ids);
      CommaEachIsRead([], ids, ids);
    }
  }

  /** And with an id beyond 64 bits in it, wherever, a list is refused. */
  lemma ListIsReadIff(ids: seq<nat>)
    ensures RexmitIds(RexmitTextOf(ids)) == if Below64(ids) then Ok(ids) else Err(OutOfRange)
  {
    if Below64(ids) {
      ListIsRead(ids);
    } else {
      assert Searchable(RexmitTextOf(ids)) == "," + Listed(ids) + "\n";
      CommaFirst(ids);
      LargeIsRefused([], ids);
    }
  }

  lemma LargeFirst(found: seq<nat>, ids: seq<nat>)
    requires ids != [] && ids[0] >= TWO_TO_THE_64
    ensures ReadIds(found, CommaText(ids)) == Err(OutOfRange)
  {
    assert CommaText(ids) == "," + Print(ids[0]) + CommaText(ids[1..]);
    NextPrinted(ids[0], CommaText(ids[1..]));
    ValueOfPrint(ids[0]);
  }

  lemma {:induction false} LargeIsRefused(found: seq<nat>, ids: seq<nat>)
    requires !Below64(ids)
    ensures ReadIds(found, CommaText(ids)) == Err(OutOfRange)
    decreases |ids|
  {
    if ids[0] >= TWO_TO_THE_64 {
      LargeFirst(found, ids);
    } else {
      ReadFirst(found, ids);
      LargeIsRefused(found + [ids[0]], ids[1..]);
    }
  }

  /** A text is refused as no request exactly if it does not begin with the words of one. */
  lemma WrongKindIff(text: string)
    ensures RexmitIds(text) == Err(WrongKind) <==> !("LOUDER_PLEASE " <= text)
  {
    if IsRexmit(text) { NeverWrongKind([], Searchable(text)); }
  }

  lemma {:induction false} NeverWrongKind(ids: seq<nat>, s: string)
    ensures ReadIds(ids, s) != Err(WrongKind)
    decreases |s|
  {
    match NextNumber(s)
    case None =>
    case Some((num, rest)) => NeverWrongKind(ids + [Value(num)], rest);
  }

  /** Every set of 64-bit ids, the empty one too, is read back as its ascending sequence. */
  lemma SetIsRead(ids: set<nat>)
    requires forall id :: id in ids ==> id < TWO_TO_THE_64
    ensures RexmitIds(RexmitTextOf(Sorted(ids))) == Ok(Sorted(ids))
    ensures Increasing(Sorted(ids)) && forall id :: id in Sorted(ids) <==> id in ids
  {
    SortedMeans(ids);
    assert forall k :: 0 <= k < |Sorted(ids)| ==> Sorted(ids)[k] in ids;
    ListIsRead(Sorted(ids));
  }
}
