/**
 * The text forms the report row is built from: Long.toString for the
 * integer statistics, with Long.parseLong as its inverse, and the
 * `|`-separated join of the row's fields, with the split that undoes it.
 */
module Text {

  const Separator: char := '|'

  predicate IsDigit(c: char) { '0' <= c <= '9' }

  function DigitChar(d: int): (c: char)
    requires 0 <= d < 10
    ensures IsDigit(c)
  {
    ('0' as int + d) as char
  }

  function DigitValue(c: char): int
  {
    if IsDigit(c) then c as int - '0' as int else 0
  }

  /** Decimal digits of a natural number, most significant first, no leading zeros. */
  function Digits(n: nat): (r: string)
    ensures |r| >= 1
    ensures forall i :: 0 <= i < |r| ==> IsDigit(r[i])
    decreases n
  {
    if n < 10 then [DigitChar(n)] else Digits(n / 10) + [DigitChar(n % 10)]
  }

  /** The value of a string of decimal digits. */
  function ParseDigits(s: string): int
  {
    if s == [] then 0 else 10 * ParseDigits(s[..|s| - 1]) + DigitValue(s[|s| - 1])
  }

  /** Long.toString: an optional minus sign followed by the digits of the magnitude. */
  function LongToString(n: int): (r: string)
    ensures |r| >= 1
    ensures Separator !in r && '\n' !in r
  {
    if n < 0 then "-" + Digits(-n) else Digits(n)
  }

  /** Long.parseLong, for the strings LongToString produces. */
  function ParseLong(s: string): int
  {
    if |s| > 0 && s[0] == '-' then -ParseDigits(s[1..]) else ParseDigits(s)
  }

  lemma {:induction false} ParseDigitsOfDigits(n: nat)
    ensures ParseDigits(Digits(n)) == n
    decreases n
  {
    var r := Digits(n);
    if n >= 10 {
      ParseDigitsOfDigits(n / 10);
      assert r[..|r| - 1] == Digits(n / 10);
    }
  }

  /** Parsing a rendered Long gives back the number. */
  lemma ParseLongOfLongToString(n: int)
    ensures ParseLong(LongToString(n)) == n
  {
    if n < 0 {
      ParseDigitsOfDigits(-n);
      assert LongToString(n)[1..] == Digits(-n);
    } else {
      ParseDigitsOfDigits(n);
    }
  }

  /** The fields written one after another with a separator between neighbours. */
  function Join(fields: seq<string>): (r: string)
  {
    if |fields| == 0 then ""
    else if |fields| == 1 then fields[0]
    else Join(fields[..|fields| - 1]) + [Separator] + fields[|fields| - 1]
  }

  /** Joining one more field adds a separator first, unless it is the first field. */
  lemma JoinPrefixStep(fields: seq<string>, i: nat)
    requires i < |fields|
    ensures Join(fields[..i + 1]) == Join(fields[..i]) + (if i == 0 then "" else [Separator]) + fields[i]
  {
    assert fields[..i + 1][..i] == fields[..i];
  }

  /** Index of the last separator in s. */
  function LastSeparator(s: string): (k: nat)
    requires Separator in s
    ensures k < |s| && s[k] == Separator
    ensures Separator !in s[k + 1..]
  {
    if s[|s| - 1] == Separator then |s| - 1
    else
      var k := LastSeparator(s[..|s| - 1]);
      assert s[k + 1..] == s[..|s| - 1][k + 1..] + [s[|s| - 1]];
      k
  }

  /** Cuts s at every separator; the inverse of Join. */
  function Split(s: string): (r: seq<string>)
    ensures |r| >= 1
    decreases |s|
  {
    if Separator !in s then [s]
    else
      var k := LastSeparator(s);
      Split(s[..k]) + [s[k + 1..]]
  }

  /** The separator placed before a separator-free last field is the last one. */
  lemma SplitAtLastField(head: string, last: string)
    requires Separator !in last
    ensures Separator in head + [Separator] + last
    ensures LastSeparator(head + [Separator] + last) == |head|
  {
    var s := head + [Separator] + last;
    assert s[|head|] == Separator;
    assert s[|head| + 1..] == last;
  }

  /** Splitting a joined row gives back its fields when no field holds a separator. */
  lemma {:induction false} SplitJoin(fields: seq<string>)
    requires |fields| >= 1
    requires forall i :: 0 <= i < |fields| ==> Separator !in fields[i]
    ensures Split(Join(fields)) == fields
  {
    if |fields| > 1 {
      var init, last := fields[..|fields| - 1], fields[|fields| - 1];
      var head := Join(init);
      var s := head + [Separator] + last;
      SplitAtLastField(head, last);
      assert s[..|head|] == head && s[|head| + 1..] == last;
      SplitJoin(init);
      assert Split(s) == Split(head) + [last];
      assert init + [last] == fields;
    }
  }
}
