/** Shared vocabulary: optional values, results that carry the message of an
    IllegalArgumentException, Java's 64-bit `Long`, and the decimal text that
    `Long.toString` writes and `Long.parseLong` reads. */
module Common {

  datatype Option<+T> = None | Some(value: T)

  /** The outcome of a service call: a value, or the message of the exception it throws. */
  datatype Result<+T> = Ok(value: T) | Err(error: string)

  const LongMin: int := -0x8000_0000_0000_0000
  const LongMax: int := 0x7FFF_FFFF_FFFF_FFFF

  /** A value a Java `long` can hold. */
  type Long = x: int | LongMin <= x <= LongMax

  predicate IsDigit(c: char) {
    '0' <= c <= '9'
  }

  predicate AllDigits(s: string) {
    forall i :: 0 <= i < |s| ==> IsDigit(s[i])
  }

  /** The value of a string of decimal digits, most significant first. */
  function DigitsValue(s: string): (v: nat)
    requires AllDigits(s)
    ensures s == [] ==> v == 0
  {
    if s == [] then 0
    else DigitsValue(s[..|s| - 1]) * 10 + (s[|s| - 1] - '0') as nat
  }

  /** The decimal digits of n, without leading zeros (`0` for zero). */
  function NatToDecimal(n: nat): (s: string)
    ensures |s| >= 1 && AllDigits(s)
    ensures |s| > 1 ==> s[0] != '0'
  {
    var last := [('0' as int + n % 10) as char];
    if n < 10 then last else NatToDecimal(n / 10) + last
  }

  /** `Long.toString`: a minus sign for negative values, then the digits of the magnitude. */
  function LongToString(n: int): (s: string)
    ensures |s| >= 1
    ensures n >= 0 ==> AllDigits(s)
    ensures n < 0 ==> s[0] == '-' && AllDigits(s[1..])
  {
    if n < 0 then "-" + NatToDecimal(-n) else NatToDecimal(n)
  }

  /** `Long.parseLong` on ASCII text: an optional sign, at least one digit, and a
      value within the range of a `long`; anything else is a NumberFormatException. */
  function ParseLong(s: string): (r: Option<Long>)
    ensures r.Some? <==>
      (exists k :: 0 <= k <= 1 && |s| > k && AllDigits(s[k..])
                   && (k == 0 || s[0] == '-' || s[0] == '+')
                   && LongMin <= (if k == 1 && s[0] == '-' then -1 else 1) * DigitsValue(s[k..]) <= LongMax)
    ensures r.Some? ==> r.value == (if s[0] == '-' then -(DigitsValue(s[1..]) as int)
                                    else if s[0] == '+' then DigitsValue(s[1..])
                                    else DigitsValue(s))
  {
    var k := if |s| > 0 && (s[0] == '-' || s[0] == '+') then 1 else 0;
    var sign := if k == 1 && s[0] == '-' then -1 else 1;
    if |s| > k && AllDigits(s[k..]) && LongMin <= sign * DigitsValue(s[k..]) <= LongMax then
      Some(sign * DigitsValue(s[k..]))
    else
      None
  }

  lemma {:induction false} DigitsValueOfDecimal(n: nat)
    ensures DigitsValue(NatToDecimal(n)) == n
  {
    var s := NatToDecimal(n);
    if n >= 10 {
      DigitsValueOfDecimal(n / 10);
      assert s[..|s| - 1] == NatToDecimal(n / 10);
    }
  }

  /** Reading back what `Long.toString` wrote gives the same value. */
  lemma ParseLongToString(n: Long)
    ensures ParseLong(LongToString(n)) == Some(n)
  {
    var s := LongToString(n);
    if n < 0 {
      DigitsValueOfDecimal(-(n as int));
      assert s[1..] == NatToDecimal(-(n as int));
      assert -1 * DigitsValue(s[1..]) == n;
    } else {
      DigitsValueOfDecimal(n);
      assert s[0..] == s;
      assert s[0] != '-' && s[0] != '+';
    }
  }

  predicate NoDuplicates<T(==)>(s: seq<T>) {
    forall i, j :: 0 <= i < j < |s| ==> s[i] != s[j]
  }

  /** A sequence without duplicates holds each value at most once. */
  lemma {:induction false} NoDuplicatesOnce<T>(s: seq<T>, x: T)
    requires NoDuplicates(s)
    ensures multiset(s)[x] <= 1
  {
    if s != [] {
      assert s == [s[0]] + s[1..];
      NoDuplicatesOnce(s[1..], x);
      if s[0] == x {
        assert x !in s[1..];
      }
    }
  }

  /** A value at two positions is held at least twice. */
  lemma RepeatedTwice<T>(s: seq<T>, i: nat, j: nat)
    requires i < j < |s| && s[i] == s[j]
    ensures multiset(s)[s[i]] >= 2
  {
    assert s == s[..i] + [s[i]] + s[i + 1..j] + [s[j]] + s[j + 1..];
  }

  /** Reordering keeps a sequence free of duplicates. */
  lemma PermutationNoDuplicates<T>(a: seq<T>, b: seq<T>)
    requires multiset(a) == multiset(b) && NoDuplicates(a)
    ensures NoDuplicates(b)
  {
    forall i, j | 0 <= i < j < |b| ensures b[i] != b[j] {
      if b[i] == b[j] {
        RepeatedTwice(b, i, j);
        NoDuplicatesOnce(a, b[i]);
      }
    }
  }

  /** The elements of s in the order of their first occurrence, each once: what
      a `LinkedHashSet` built by adding the elements of s in order iterates. */
  function Distinct<T(==,!new)>(s: seq<T>): (r: seq<T>)
    ensures NoDuplicates(r)
    ensures forall x :: x in r <==> x in s
    ensures |r| <= |s|
    ensures forall i, j, k :: 0 <= i < j < |r| && 0 <= k < |s| && s[k] == r[j] ==> r[i] in s[..k]
  {
    if s == [] then []
    else
      var d := Distinct(s[..|s| - 1]);
      assert forall x :: x in s <==> x in s[..|s| - 1] || x == s[|s| - 1];
      assert forall k :: 0 <= k < |s| - 1 ==> s[..k] == s[..|s| - 1][..k];
      if s[|s| - 1] in d then d else d + [s[|s| - 1]]
  }
}
