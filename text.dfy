/** The string operations the core uses: `toLowerCase`, `includes`, `join` and the decimal
    rendering of integers (JavaScript's `String(n)` for an integral number). */
module Text {

  /** `toLowerCase` restricted to ASCII: 'A'..'Z' become 'a'..'z', every other character is kept. */
  function LowerChar(c: char): char
  {
    if 'A' <= c <= 'Z' then (c as int - 'A' as int + 'a' as int) as char else c
  }

  function Lower(s: string): (r: string)
    ensures |r| == |s|
    ensures forall i :: 0 <= i < |s| ==> r[i] == LowerChar(s[i])
  {
    seq(|s|, i requires 0 <= i < |s| => LowerChar(s[i]))
  }

  /** `s.includes(sub)`: `sub` occurs in `s` at some position (the empty string occurs everywhere). */
  predicate Includes(s: string, sub: string)
    decreases |s|
  {
    sub <= s || (|s| > 0 && Includes(s[1..], sub))
  }

  lemma IncludesEmpty(s: string)
    ensures Includes(s, "")
  {
  }

  /** `parts.join(sep)`. */
  function Join(parts: seq<string>, sep: string): (r: string)
    ensures |parts| == 0 ==> r == ""
    ensures |parts| == 1 ==> r == parts[0]
  {
    if |parts| == 0 then ""
    else if |parts| == 1 then parts[0]
    else parts[0] + sep + Join(parts[1..], sep)
  }

  function DigitChar(d: nat): char
    requires d < 10
  {
    "0123456789"[d]
  }

  /** Decimal digits of a natural number, most significant first, no leading zeros. */
  function NatToString(n: nat): (r: string)
    ensures |r| > 0
    ensures forall i :: 0 <= i < |r| ==> '0' <= r[i] <= '9'
  {
    if n < 10 then [DigitChar(n)] else NatToString(n / 10) + [DigitChar(n % 10)]
  }

  /** `String(n)` for an integral JavaScript number. */
  function IntToString(n: int): (r: string)
    ensures |r| > 0
  {
    if n < 0 then "-" + NatToString(-n) else NatToString(n)
  }

  /** Neither a carriage return nor a line feed occurs in `s`. */
  predicate NoBreak(s: string)
  {
    '\r' !in s && '\n' !in s
  }

  lemma IntToStringNoBreak(n: int)
    ensures NoBreak(IntToString(n))
  {
    var r := IntToString(n);
    if n >= 0 {
      assert forall i :: 0 <= i < |r| ==> '0' <= r[i] <= '9';
    } else {
      var d := NatToString(-n);
      assert r == "-" + d;
      assert forall i :: 0 <= i < |d| ==> '0' <= d[i] <= '9';
    }
  }

  lemma JoinNoBreak(parts: seq<string>, sep: string)
    requires NoBreak(sep)
    requires forall i :: 0 <= i < |parts| ==> NoBreak(parts[i])
    ensures NoBreak(Join(parts, sep))
  {
    if |parts| > 1 {
      JoinNoBreak(parts[1..], sep);
    }
  }
}
