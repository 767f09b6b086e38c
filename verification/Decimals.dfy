/** Decimal numbers as std::to_string prints them and std::stoull and std::stoul read them. */
module Decimals {
  import opened Types
  import opened Progressions
  import opened Search

  predicate AllDigits(s: string) {
    AllFit(CommaDigits, s)
  }

  function Digit(n: nat): (c: char)
    requires n < 10
    ensures IsDigit(c) && DigitValue(c) == n
  {
    '0' + n as char
  }

  function DigitValue(c: char): (n: nat)
    requires IsDigit(c)
    ensures n < 10
  {
    (c - '0') as nat
  }

  function Print(n: nat): (s: string)
    ensures s != [] && AllDigits(s)
  {
    if n < 10 then [Digit(n)] else Print(n / 10) + [Digit(n % 10)]
  }

  function Value(s: string): nat
    requires AllDigits(s)
  {
    if s == [] then 0 else Value(s[..|s| - 1]) * 10 + DigitValue(s[|s| - 1])
  }

  lemma {:induction false} ValueOfPrint(n: nat)
    ensures Value(Print(n)) == n
  {
    var s := Print(n);
    if n < 10 {
      assert s[..0] == [];
    } else {
      ValueOfPrint(n / 10);
      assert s[..|s| - 1] == Print(n / 10);
    }
  }

  /** 10 to the n. */
  function TenTo(n: nat): (p: nat)
    ensures p > 0
  {
    if n == 0 then 1 else 10 * TenTo(n - 1)
  }

  lemma QuotientOfTen(n: nat, p: nat)
    requires p > 0
    ensures n / 10 / p == n / (10 * p)
  {
    var q, r := n / 10 / p, n / 10 % p;
    assert n / 10 == q * p + r;
    assert 10 * (q * p) == q * (10 * p);
    DivUnique(n, q, 10 * r + n % 10, 10 * p);
  }

  /** A number is printed in base ten, highest digit first, without leading zeros. */
  lemma {:induction false} PrintIsDecimal(n: nat, i: nat)
    requires i < |Print(n)|
    ensures Print(n)[|Print(n)| - 1 - i] as nat - '0' as nat == n / TenTo(i) % 10
    ensures n > 0 ==> Print(n)[0] != '0'
  {
    if n >= 10 {
      PrintIsDecimal(n / 10, if i > 0 then i - 1 else 0);
    }
    if i > 0 {
      QuotientOfTen(n, TenTo(i - 1));
    } else {
      assert TenTo(0) == 1;
    }
  }

  /** std::stoul on a word without white space: an optional sign, digits, and whatever follows them is
      ignored. No digits, or a number beyond 64 bits, is an exception; a minus sign wraps around. */
  function Stoul(word: string): Option<nat> {
    var signed := word != [] && (word[0] == '+' || word[0] == '-');
    var rest := if signed then word[1..] else word;
    var n := Run(CommaDigits, rest);
    if n == 0 || Value(rest[..n]) >= TWO_TO_THE_64 then None
    else if signed && word[0] == '-' then Some((TWO_TO_THE_64 - Value(rest[..n])) % TWO_TO_THE_64)
    else Some(Value(rest[..n]))
  }

  lemma DigitsAreRead(n: nat, rest: string)
    requires rest != [] ==> !IsDigit(rest[0])
    ensures var s := Print(n) + rest;
            && s != [] && IsDigit(s[0])
            && Run(CommaDigits, s) == |Print(n)| && AllDigits(s[..|Print(n)|]) && Value(s[..|Print(n)|]) == n
  {
    var s := Print(n) + rest;
    assert Fits(CommaDigits, Print(n)[0]);
    RunOf(CommaDigits, Print(n), rest);
    assert s[..|Print(n)|] == Print(n);
    ValueOfPrint(n);
  }

  lemma StoulUnsigned(n: nat, s: string, rest: string)
    requires s == Print(n) + rest && (rest != [] ==> !IsDigit(rest[0]))
    ensures Stoul(s) == if n >= TWO_TO_THE_64 then None else Some(n)
  {
    DigitsAreRead(n, rest);
  }

  lemma StoulPlus(n: nat, s: string, rest: string)
    requires s == Print(n) + rest && (rest != [] ==> !IsDigit(rest[0]))
    ensures Stoul("+" + s) == if n >= TWO_TO_THE_64 then None else Some(n)
  {
    DigitsAreRead(n, rest);
    assert ("+" + s)[1..] == s;
  }

  lemma StoulMinus(n: nat, s: string, rest: string)
    requires s == Print(n) + rest && (rest != [] ==> !IsDigit(rest[0]))
    ensures Stoul("-" + s) == if n >= TWO_TO_THE_64 then None else Some((TWO_TO_THE_64 - n) % TWO_TO_THE_64)
  {
    DigitsAreRead(n, rest);
    assert ("-" + s)[1..] == s;
  }

  /** A printed number, with a sign or without, and whatever else comes after it. */
  lemma StoulReads(n: nat, rest: string)
    requires rest != [] ==> !IsDigit(rest[0])
    ensures Stoul(Print(n) + rest) == if n >= TWO_TO_THE_64 then None else Some(n)
    ensures Stoul("+" + (Print(n) + rest)) == if n >= TWO_TO_THE_64 then None else Some(n)
    ensures Stoul("-" + (Print(n) + rest))
         == if n >= TWO_TO_THE_64 then None else Some((TWO_TO_THE_64 - n) % TWO_TO_THE_64)
  {
    StoulUnsigned(n, Print(n) + rest, rest);
    StoulPlus(n, Print(n) + rest, rest);
    StoulMinus(n, Print(n) + rest, rest);
  }

  lemma StoulOfPrint(n: nat)
    requires n < TWO_TO_THE_64
    ensures Stoul(Print(n)) == Some(n)
  {
    assert Print(n) + "" == Print(n);
    StoulUnsigned(n, Print(n), "");
  }
}
