/**
 * The pieces of Go's standard library that the ledger uses and that are simple
 * enough to state exactly: strings.HasPrefix, strings.Repeat and strconv.Itoa.
 */
module GoStd {

  /** strings.HasPrefix: does `s` begin with `prefix`? */
  predicate HasPrefix(s: string, prefix: string)
  {
    |prefix| <= |s| && s[..|prefix|] == prefix
  }

  /**
   * strings.Repeat for a non-negative count. Go panics when the count is
   * negative; callers model that case themselves.
   */
  function Repeat(s: string, count: nat): (r: string)
    ensures |r| == count * |s|
  {
    if count == 0 then "" else s + Repeat(s, count - 1)
  }

  /** Repeating a single character gives that character at every position. */
  lemma {:induction false} RepeatChar(c: char, count: nat)
    ensures |Repeat([c], count)| == count
    ensures forall i :: 0 <= i < count ==> Repeat([c], count)[i] == c
  {
    if count > 0 {
      RepeatChar(c, count - 1);
      assert Repeat([c], count) == [c] + Repeat([c], count - 1);
    }
  }

  /** A prefix of copies of `c` is exactly a run of `c` at the start. */
  lemma HasRepeatedPrefix(s: string, c: char, count: nat)
    ensures HasPrefix(s, Repeat([c], count)) <==>
            count <= |s| && forall i :: 0 <= i < count ==> s[i] == c
  {
    RepeatChar(c, count);
    if count <= |s| && forall i :: 0 <= i < count ==> s[i] == c {
      assert s[..count] == Repeat([c], count);
    }
  }

  predicate IsDigits(s: string)
  {
    forall i :: 0 <= i < |s| ==> '0' <= s[i] <= '9'
  }

  function DigitValue(c: char): int
  {
    c as int - '0' as int
  }

  function DigitChar(d: nat): (c: char)
    requires d < 10
    ensures '0' <= c <= '9' && DigitValue(c) == d
  {
    ('0' as int + d) as char
  }

  /** Decimal digits of a non-negative integer, most significant first, no leading zeros. */
  function Utoa(n: nat): (s: string)
    ensures 1 <= |s| && IsDigits(s)
    decreases n
  {
    if n < 10 then [DigitChar(n)] else Utoa(n / 10) + [DigitChar(n % 10)]
  }

  /** strconv.Itoa: base-10 text of an integer, with a leading '-' when negative. */
  function Itoa(n: int): (s: string)
    ensures 1 <= |s|
    ensures s[0] == '-' <==> n < 0
  {
    if n < 0 then "-" + Utoa(-n) else Utoa(n)
  }

  /** The number a string of decimal digits denotes: the reading of Utoa's output. */
  function DecimalValue(s: string): nat
    requires IsDigits(s)
    decreases |s|
  {
    if s == [] then 0 else 10 * DecimalValue(s[..|s| - 1]) + DigitValue(s[|s| - 1])
  }

  /** Reading back the digits Utoa writes gives the number written. */
  lemma {:induction false} UtoaRoundTrip(n: nat)
    ensures DecimalValue(Utoa(n)) == n
  {
    var s := Utoa(n);
    if n < 10 {
      assert s[..|s| - 1] == [];
    } else {
      assert s[..|s| - 1] == Utoa(n / 10);
      UtoaRoundTrip(n / 10);
    }
  }

  /** Reads Itoa's output back: an optional '-' followed by decimal digits. */
  function ParseInt(s: string): int
  {
    if 1 <= |s| && s[0] == '-' && IsDigits(s[1..]) then -(DecimalValue(s[1..]) as int)
    else if IsDigits(s) then DecimalValue(s)
    else 0
  }

  /** Parsing the text Itoa writes gives back the integer. */
  lemma ItoaRoundTrip(n: int)
    ensures ParseInt(Itoa(n)) == n
  {
    if n < 0 {
      assert Itoa(n)[1..] == Utoa(-n);
      UtoaRoundTrip(-n);
    } else {
      UtoaRoundTrip(n);
    }
  }

  /** Different integers have different decimal texts. */
  lemma ItoaInjective(m: int, n: int)
    requires Itoa(m) == Itoa(n)
    ensures m == n
  {
    ItoaRoundTrip(m);
    ItoaRoundTrip(n);
  }
}
