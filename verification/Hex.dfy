/** Lower-case hexadecimal text of bytes. */
module Hex {
  import opened Common

  predicate IsDigit(c: char) {
    '0' <= c <= '9' || 'a' <= c <= 'f'
  }

  function Digit(n: nat): (c: char)
    requires n < 16
    ensures IsDigit(c)
  {
    if n < 10 then '0' + n as char else 'a' + (n - 10) as char
  }

  function Encode(b: bytes): (r: string)
    ensures |r| == 2 * |b|
    ensures forall i :: 0 <= i < |r| ==> IsDigit(r[i])
  {
    if b == [] then "" else [Digit(b[0] / 16), Digit(b[0] % 16)] + Encode(b[1..])
  }

  lemma {:induction false} Injective(a: bytes, b: bytes)
    ensures Encode(a) == Encode(b) <==> a == b
  {
    if a != [] && b != [] {
      var x, y := Encode(a), Encode(b);
      Injective(a[1..], b[1..]);
      assert x[2..] == Encode(a[1..]) && y[2..] == Encode(b[1..]);
      if x == y {
        assert x[0] == y[0] && x[1] == y[1];
        assert a[0] == a[0] / 16 * 16 + a[0] % 16 && b[0] == b[0] / 16 * 16 + b[0] % 16;
      }
      assert a == [a[0]] + a[1..] && b == [b[0]] + b[1..];
    } else {
      assert |Encode(a)| == 2 * |a| && |Encode(b)| == 2 * |b|;
    }
  }

  /** Two digits an octet, the more significant first; digits are 0-9 and a-f in order. */
  lemma DigitsAre(n: byte, rest: bytes)
    ensures Encode([n] + rest) == [Digit(n / 16), Digit(n % 16)] + Encode(rest) && Encode([]) == ""
    ensures Digit(n % 16) as int == if n % 16 < 10 then 48 + n % 16 else 97 + n % 16 - 10
  {
    assert ([n] + rest)[1..] == rest;
  }
}
