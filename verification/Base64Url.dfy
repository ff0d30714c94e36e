/** Unpadded base64url, section 5 of RFC 4648, as Python's urlsafe codec reads and writes it. */
module Base64Url {
  import opened Common

  type sextet = n: int | 0 <= n < 64

  function Digit(n: sextet): (c: char)
    ensures Value(c) == Some(n) && UrlSafe(c)
  {
    if n < 26 then 'A' + n as char
    else if n < 52 then 'a' + (n - 26) as char
    else if n < 62 then '0' + (n - 52) as char
    else if n == 62 then '-' else '_'
  }

  /** The decoder also takes the plain alphabet's two characters. */
  function Value(c: char): Option<sextet> {
    if 'A' <= c <= 'Z' then Some(c as int - 'A' as int)
    else if 'a' <= c <= 'z' then Some(c as int - 'a' as int + 26)
    else if '0' <= c <= '9' then Some(c as int - '0' as int + 52)
    else if c == '-' || c == '+' then Some(62)
    else if c == '_' || c == '/' then Some(63)
    else None
  }

  predicate UrlSafe(c: char) {
    Value(c).Some? && c != '+' && c != '/'
  }

  lemma DigitOfValue(c: char)
    requires Value(c).Some?
    ensures Digit(Value(c).value) == c <==> UrlSafe(c)
  {
  }

  // ----- One group: 24 bits as three octets or four sextets -----

  datatype Group = Group(v0: sextet, v1: sextet, v2: sextet, v3: sextet)
  datatype Triple = Triple(b0: byte, b1: byte, b2: byte)

  function Split(t: Triple): Group {
    Group(t.b0 / 4, t.b0 % 4 * 16 + t.b1 / 16, t.b1 % 16 * 4 + t.b2 / 64, t.b2 % 64)
  }

  function Join(g: Group): Triple {
    Triple(g.v0 * 4 + g.v1 / 16, g.v1 % 16 * 16 + g.v2 / 4, g.v2 % 4 * 64 + g.v3)
  }

  lemma JoinSplit(t: Triple)
    ensures Join(Split(t)) == t
    ensures t.b2 == 0 ==> Split(t).v3 == 0 && Split(t).v2 % 4 == 0
    ensures t.b1 == 0 && t.b2 == 0 ==> Split(t).v2 == 0 && Split(t).v1 % 16 == 0
  {
  }

  lemma SplitJoin(g: Group)
    ensures Split(Join(g)) == g
    ensures g.v3 == 0 && g.v2 % 4 == 0 ==> Join(g).b2 == 0
    ensures g.v3 == 0 && g.v2 == 0 && g.v1 % 16 == 0 ==> Join(g).b1 == 0 && Join(g).b2 == 0
  {
    var t := Join(g);
    assert t.b0 / 4 == g.v0 && t.b0 % 4 == g.v1 / 16;
    assert t.b1 / 16 == g.v1 % 16 && t.b1 % 16 == g.v2 / 4;
    assert t.b2 / 64 == g.v2 % 4 && t.b2 % 64 == g.v3;
  }

  // ----- Whole texts -----

  function Encode(b: bytes): string {
    if |b| == 0 then ""
    else if |b| == 1 then
      var g := Split(Triple(b[0], 0, 0)); [Digit(g.v0), Digit(g.v1)]
    else if |b| == 2 then
      var g := Split(Triple(b[0], b[1], 0)); [Digit(g.v0), Digit(g.v1), Digit(g.v2)]
    else
      var g := Split(Triple(b[0], b[1], b[2]));
      [Digit(g.v0), Digit(g.v1), Digit(g.v2), Digit(g.v3)] + Encode(b[3..])
  }

  predicate Alphabetic(s: string) {
    forall i :: 0 <= i < |s| ==> Value(s[i]).Some?
  }

  function V(s: string, i: nat): sextet
    requires Alphabetic(s) && i < |s|
  {
    Value(s[i]).value
  }

  /** The octets of a text of base64 characters; a group of one character is refused, and bits
      of a short last group beyond its octets are dropped. */
  function Decode(s: string): Option<bytes>
    requires Alphabetic(s)
  {
    if |s| == 0 then Some([])
    else if |s| == 1 then None
    else if |s| == 2 then Some([Join(Group(V(s, 0), V(s, 1), 0, 0)).b0])
    else if |s| == 3 then
      var t := Join(Group(V(s, 0), V(s, 1), V(s, 2), 0)); Some([t.b0, t.b1])
    else match Decode(s[4..])
      case None => None
      case Some(rest) =>
        var t := Join(Group(V(s, 0), V(s, 1), V(s, 2), V(s, 3))); Some([t.b0, t.b1, t.b2] + rest)
  }

  lemma {:induction false} EncodeShape(b: bytes)
    ensures forall i :: 0 <= i < |Encode(b)| ==> UrlSafe(Encode(b)[i])
    ensures |Encode(b)| == (|b| * 4 + 2) / 3
  {
    if |b| >= 3 { EncodeShape(b[3..]); }
  }

  /** The first octet does not see the last two sextets, nor the first two the last one. */
  lemma DropLow(g: Group)
    ensures Join(g.(v2 := 0, v3 := 0)).b0 == Join(g).b0
    ensures Join(g.(v3 := 0)).b0 == Join(g).b0 && Join(g.(v3 := 0)).b1 == Join(g).b1
  {
  }

  lemma Decode1(b: bytes)
    requires |b| == 1
    ensures Alphabetic(Encode(b)) && Decode(Encode(b)) == Some(b)
  {
    var g := Split(Triple(b[0], 0, 0));
    EncodeShape(b);
    assert V(Encode(b), 0) == g.v0 && V(Encode(b), 1) == g.v1;
    DropLow(g);
    JoinSplit(Triple(b[0], 0, 0));
    assert b == [b[0]];
  }

  lemma Decode2(b: bytes)
    requires |b| == 2
    ensures Alphabetic(Encode(b)) && Decode(Encode(b)) == Some(b)
  {
    var g := Split(Triple(b[0], b[1], 0));
    EncodeShape(b);
    assert V(Encode(b), 0) == g.v0 && V(Encode(b), 1) == g.v1 && V(Encode(b), 2) == g.v2;
    DropLow(g);
    JoinSplit(Triple(b[0], b[1], 0));
    assert b == [b[0], b[1]];
  }

  lemma DecodeFull(b: bytes)
    requires |b| >= 3 && Alphabetic(Encode(b[3..])) && Decode(Encode(b[3..])) == Some(b[3..])
    ensures Alphabetic(Encode(b)) && Decode(Encode(b)) == Some(b)
  {
    var t := Triple(b[0], b[1], b[2]);
    var g := Split(t);
    JoinSplit(t);
    EncodeFull(b);
    hide *;
    FourDigits(g, Encode(b[3..]));
    DecodeGroup(Encode(b), g);
    FirstThree(b);
  }

  lemma FirstThree(b: bytes)
    requires |b| >= 3
    ensures [b[0], b[1], b[2]] + b[3..] == b
  {
  }

  lemma EncodeFull(b: bytes)
    requires |b| >= 3
    ensures var g := Split(Triple(b[0], b[1], b[2]));
            Encode(b) == [Digit(g.v0), Digit(g.v1), Digit(g.v2), Digit(g.v3)] + Encode(b[3..])
  {
  }

  lemma FourDigits(g: Group, rest: string)
    requires Alphabetic(rest)
    ensures var s := [Digit(g.v0), Digit(g.v1), Digit(g.v2), Digit(g.v3)] + rest;
            && Alphabetic(s) && s[4..] == rest
            && V(s, 0) == g.v0 && V(s, 1) == g.v1 && V(s, 2) == g.v2 && V(s, 3) == g.v3
  {
  }

  lemma DecodeGroup(s: string, g: Group)
    requires Alphabetic(s) && |s| >= 4 && Decode(s[4..]).Some?
    requires V(s, 0) == g.v0 && V(s, 1) == g.v1 && V(s, 2) == g.v2 && V(s, 3) == g.v3
    ensures var t := Join(g); Decode(s) == Some([t.b0, t.b1, t.b2] + Decode(s[4..]).value)
  {
    hide Join, V;
  }

  lemma {:induction false} DecodeEncode(b: bytes)
    ensures Alphabetic(Encode(b)) && Decode(Encode(b)) == Some(b)
  {
    if |b| >= 3 {
      DecodeEncode(b[3..]);
      DecodeFull(b);
    } else if |b| == 2 {
      Decode2(b);
    } else if |b| == 1 {
      Decode1(b);
    }
  }

  /** Written as the encoder would: its own alphabet, and no stray bits in the last group. */
  predicate Canonical(s: string)
    requires Alphabetic(s)
  {
    && (forall i :: 0 <= i < |s| ==> UrlSafe(s[i]))
    && (|s| % 4 == 2 ==> V(s, |s| - 1) % 16 == 0)
    && (|s| % 4 == 3 ==> V(s, |s| - 1) % 4 == 0)
  }

  lemma Quarter(n: nat)
    requires n >= 4
    ensures (n - 4) % 4 == n % 4 && (n - 4) * 3 / 4 + 3 == n * 3 / 4
  {
    assert n * 3 == (n - 4) * 3 + 3 * 4;
  }

  lemma {:induction false} DecodeLength(s: string)
    requires Alphabetic(s)
    ensures Decode(s).Some? <==> |s| % 4 != 1
    ensures Decode(s).Some? ==> |Decode(s).value| == |s| * 3 / 4
  {
    hide Split, Join, V, Value;
    if |s| >= 4 {
      DecodeLength(s[4..]);
      Quarter(|s|);
    }
  }

  /** Two short texts agree exactly when their characters do. */
  lemma SameText(e: string, s: string)
    ensures e == s <==> |e| == |s| && forall i :: 0 <= i < |s| ==> e[i] == s[i]
  {
  }

  lemma ReencodeFull(s: string)
    requires Alphabetic(s) && |s| >= 4 && Decode(s).Some?
    ensures Encode(Decode(s).value)
            == [Digit(V(s, 0)), Digit(V(s, 1)), Digit(V(s, 2)), Digit(V(s, 3))] + Encode(Decode(s[4..]).value)
  {
    SplitJoin(Group(V(s, 0), V(s, 1), V(s, 2), V(s, 3)));
    assert Decode(s).value[3..] == Decode(s[4..]).value;
  }

  lemma Reencode3(s: string)
    requires Alphabetic(s) && |s| == 3
    ensures Encode(Decode(s).value) == s <==> Canonical(s)
  {
    var b := Decode(s).value;
    var g := Group(V(s, 0), V(s, 1), V(s, 2), 0);
    DigitOfValue(s[0]); DigitOfValue(s[1]); DigitOfValue(s[2]);
    SplitJoin(g);
    JoinSplit(Triple(b[0], b[1], 0));
    SameText(Encode(b), s);
  }

  lemma Reencode2(s: string)
    requires Alphabetic(s) && |s| == 2
    ensures Encode(Decode(s).value) == s <==> Canonical(s)
  {
    var b := Decode(s).value;
    DigitOfValue(s[0]); DigitOfValue(s[1]);
    SplitJoin(Group(V(s, 0), V(s, 1), 0, 0));
    JoinSplit(Triple(b[0], 0, 0));
    SameText(Encode(b), s);
  }

  /** Decoding then encoding gives a text back exactly when it was canonical: the others are
      aliases that decode to the same octets. */
  lemma {:induction false} EncodeDecodeIff(s: string)
    requires Alphabetic(s) && Decode(s).Some?
    ensures Encode(Decode(s).value) == s <==> Canonical(s)
  {
    if |s| >= 4 {
      EncodeDecodeIff(s[4..]);
      ReencodeFull(s);
      CanonicalTail(s);
      DigitOfValue(s[0]); DigitOfValue(s[1]); DigitOfValue(s[2]); DigitOfValue(s[3]);
      SameGroup([Digit(V(s, 0)), Digit(V(s, 1)), Digit(V(s, 2)), Digit(V(s, 3))], Encode(Decode(s[4..]).value), s);
    } else if |s| == 3 {
      Reencode3(s);
    } else if |s| == 2 {
      Reencode2(s);
    }
  }

  lemma SameGroup(group: string, rest: string, s: string)
    requires |group| == 4 && |s| >= 4
    ensures group + rest == s <==>
            group[0] == s[0] && group[1] == s[1] && group[2] == s[2] && group[3] == s[3] && rest == s[4..]
  {
    assert (group + rest)[4..] == rest;
    assert s == [s[0], s[1], s[2], s[3]] + s[4..];
    assert group == [group[0], group[1], group[2], group[3]];
  }

  lemma CanonicalTail(s: string)
    requires Alphabetic(s) && |s| >= 4
    ensures Canonical(s) <==>
            UrlSafe(s[0]) && UrlSafe(s[1]) && UrlSafe(s[2]) && UrlSafe(s[3]) && Canonical(s[4..])
  {
    var t := s[4..];
    assert forall i :: 0 <= i < |t| ==> t[i] == s[i + 4];
    if |s| > 4 { assert V(t, |t| - 1) == V(s, |s| - 1); }
    if UrlSafe(s[0]) && UrlSafe(s[1]) && UrlSafe(s[2]) && UrlSafe(s[3]) && Canonical(t) {
      forall i | 0 <= i < |s| ensures UrlSafe(s[i]) {
        if i >= 4 { assert UrlSafe(t[i - 4]); }
      }
    }
  }

  /** The alphabet in the order of table 2 of RFC 4648. */
  lemma AlphabetIs(n: sextet)
    ensures Digit(n) as int == if n < 26 then 65 + n else if n < 52 then 97 + n - 26 else if n < 62 then 48 + n - 52
                               else if n == 62 then 45 else 95
  {
  }

  lemma SplitSpells(t: Triple)
    ensures var g := Split(t); g.v0 * 0x4_0000 + g.v1 * 0x1000 + g.v2 * 0x40 + g.v3 == t.b0 * 0x1_0000 + t.b1 * 0x100 + t.b2
  {
    assert t.b0 == t.b0 / 4 * 4 + t.b0 % 4;
    assert t.b1 == t.b1 / 16 * 16 + t.b1 % 16;
    assert t.b2 == t.b2 / 64 * 64 + t.b2 % 64;
  }

  /** Four characters spell three octets as one number, most significant bit first. */
  lemma GroupSpells(a: byte, b: byte, c: byte, rest: bytes) returns (i: sextet, j: sextet, k: sextet, l: sextet)
    ensures Encode([a, b, c] + rest) == [Digit(i), Digit(j), Digit(k), Digit(l)] + Encode(rest)
    ensures i * 0x4_0000 + j * 0x1000 + k * 0x40 + l == a * 0x1_0000 + b * 0x100 + c
  {
    var t := Triple(a, b, c);
    SplitSpells(t);
    var g := Split(t);
    hide Split;
    i, j, k, l := g.v0, g.v1, g.v2, g.v3;
    assert ([a, b, c] + rest)[3..] == rest;
  }
}
