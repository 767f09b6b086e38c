/** The two searches of src/common/ctrl_msg.hpp, for the regular expressions `,[0-9]+` and `(?: )(\S+)`:
    one leading character, and then as many as possible of a class, at least one. */
module Search {
  import opened Types

  datatype Pattern = CommaDigits | SpaceWord

  predicate IsDigit(c: char) {
    '0' <= c <= '9'
  }

  /** White space, as the regular expression knows it. */
  predicate IsSpace(c: char) {
    c == ' ' || '\t' <= c <= '\r'
  }

  function Lead(p: Pattern): char {
    if p == CommaDigits then ',' else ' '
  }

  predicate Fits(p: Pattern, c: char) {
    if p == CommaDigits then IsDigit(c) else !IsSpace(c)
  }

  predicate AllFit(p: Pattern, s: string) {
    forall k :: 0 <= k < |s| ==> Fits(p, s[k])
  }

  /** How many characters of the class a string starts with. */
  function Run(p: Pattern, s: string): (n: nat)
    ensures n <= |s| && AllFit(p, s[..n]) && (n < |s| ==> !Fits(p, s[n]))
    ensures s != [] && Fits(p, s[0]) ==> n > 0
    decreases |s|
  {
    if s == [] || !Fits(p, s[0]) then 0
    else
      assert s[..1 + Run(p, s[1..])] == [s[0]] + s[1..][..Run(p, s[1..])];
      1 + Run(p, s[1..])
  }

  lemma {:induction false} RunOf(p: Pattern, word: string, rest: string)
    requires AllFit(p, word) && (rest != [] ==> !Fits(p, rest[0]))
    ensures Run(p, word + rest) == |word|
    decreases |word|
  {
    if word != [] {
      RunOf(p, word[1..], rest);
      assert (word + rest)[1..] == word[1..] + rest;
    } else {
      assert word + rest == rest;
    }
  }

  predicate Starts(p: Pattern, s: string) {
    |s| > 1 && s[0] == Lead(p) && Fits(p, s[1])
  }

  /** The next match: what follows its leading character, and the text after it. */
  function Next(p: Pattern, s: string): (r: Option<(string, string)>)
    ensures r.Some? ==> r.value.0 != [] && AllFit(p, r.value.0) && |r.value.1| < |s|
    decreases |s|
  {
    if s == [] then None
    else if Starts(p, s) then
      var n := Run(p, s[1..]);
      Some((s[1..][..n], s[1..][n..]))
    else Next(p, s[1..])
  }

  /** A match of s that starts at i and has length n. */
  ghost predicate MatchAt(p: Pattern, s: string, i: nat, n: nat) {
    1 < n && i + n <= |s| && s[i] == Lead(p) && AllFit(p, s[i..i + n][1..])
  }

  ghost predicate NoneBefore(p: Pattern, s: string, end: nat) {
    forall i: nat, n: nat :: i < end ==> !MatchAt(p, s, i, n)
  }

  ghost predicate NoneLonger(p: Pattern, s: string, start: nat, longest: nat) {
    forall n: nat :: n > longest ==> !MatchAt(p, s, start, n)
  }

  /** The match that starts at `start`, and what follows. */
  ghost predicate FoundAt(p: Pattern, s: string, start: nat, word: string, rest: string) {
    && start < |s| && s == s[..start] + [Lead(p)] + word + rest
    && MatchAt(p, s, start, 1 + |word|)
    && NoneBefore(p, s, start)
    && NoneLonger(p, s, start, 1 + |word|)
  }

  lemma MatchInTail(p: Pattern, s: string, i: nat, n: nat)
    requires s != []
    ensures MatchAt(p, s, i + 1, n) <==> MatchAt(p, s[1..], i, n)
  {
    if i + 1 + n <= |s| { assert s[i + 1..i + 1 + n] == s[1..][i..i + n]; }
  }

  lemma LongestHere(p: Pattern, s: string, n: nat)
    requires Starts(p, s)
    ensures var longest := 1 + Run(p, s[1..]);
            MatchAt(p, s, 0, longest) && (n > longest ==> !MatchAt(p, s, 0, n))
  {
    var longest := 1 + Run(p, s[1..]);
    assert s[0..longest][1..] == s[1..][..longest - 1];
    if longest < n <= |s| { assert s[0..n][1..][longest - 1] == s[longest]; }
  }

  lemma FoundHere(p: Pattern, s: string)
    requires Starts(p, s)
    ensures FoundAt(p, s, 0, Next(p, s).value.0, Next(p, s).value.1)
  {
    var n := Run(p, s[1..]);
    assert s == [Lead(p)] + (s[1..][..n] + s[1..][n..]);
    LongestHere(p, s, 0);
    forall k: nat ensures k > 1 + n ==> !MatchAt(p, s, 0, k) { LongestHere(p, s, k); }
  }

  lemma NoneBeforeTail(p: Pattern, s: string, end: nat)
    requires s != [] && !Starts(p, s) && NoneBefore(p, s[1..], end)
    ensures NoneBefore(p, s, end + 1)
  {
    forall i: nat, n: nat | i < end + 1 ensures !MatchAt(p, s, i, n) {
      if i > 0 {
        MatchInTail(p, s, i - 1, n);
      } else if 1 < n <= |s| {
        assert s[0..n][1..][0] == s[1];
      }
    }
  }

  lemma FoundLater(p: Pattern, s: string, start: nat, word: string, rest: string)
    requires s != [] && !Starts(p, s) && FoundAt(p, s[1..], start, word, rest)
    ensures FoundAt(p, s, start + 1, word, rest)
  {
    assert s == [s[0]] + (s[1..][..start] + [Lead(p)] + word + rest);
    assert s[..start + 1] == [s[0]] + s[1..][..start];
    MatchInTail(p, s, start, 1 + |word|);
    NoneBeforeTail(p, s, start);
    var next := start + 1;
    forall n: nat ensures n > 1 + |word| ==> !MatchAt(p, s, next, n) { MatchInTail(p, s, start, n); }
  }

  /** The search finds the leftmost match, and of the matches there the longest; it finds none only where
      there is none. */
  lemma {:induction false} SearchIsLeftmostLongest(p: Pattern, s: string)
    ensures Next(p, s).None? ==> NoneBefore(p, s, |s|)
    ensures Next(p, s).Some? ==>
              exists start: nat :: FoundAt(p, s, start, Next(p, s).value.0, Next(p, s).value.1)
    decreases |s|
  {
    if s == [] {
    } else if Starts(p, s) {
      FoundHere(p, s);
    } else {
      SearchIsLeftmostLongest(p, s[1..]);
      if Next(p, s).None? {
        NoneBeforeTail(p, s, |s| - 1);
      } else {
        var (word, rest) := Next(p, s).value;
        var start: nat :| FoundAt(p, s[1..], start, word, rest);
        FoundLater(p, s, start, word, rest);
      }
    }
  }

  /** What is printed as a match is found as one. */
  lemma NextOf(p: Pattern, text: string, word: string, rest: string)
    requires text == [Lead(p)] + word + rest
    requires word != [] && AllFit(p, word) && (rest != [] ==> !Fits(p, rest[0]))
    ensures Next(p, text) == Some((word, rest))
  {
    assert text[1..] == word + rest;
    RunOf(p, word, rest);
    assert text[1..][..|word|] == word && text[1..][|word|..] == rest;
  }
}
