/** Well-formed UTF-8, as `String::from_utf8` accepts it, and the code points it stands for (Unicode
    Standard, section 3.9). */
module Utf8 {
  import opened Bits

  predicate Continuation(b: byte) { 0x80 <= b <= 0xBF }

  /** The well-formed byte sequences of table 3-7. */
  predicate ValidUtf8(s: seq<byte>) {
    if s == [] then true
    else if s[0] < 0x80 then ValidUtf8(s[1..])
    else if 0xC2 <= s[0] <= 0xDF then |s| >= 2 && Continuation(s[1]) && ValidUtf8(s[2..])
    else if 0xE0 <= s[0] <= 0xEF then
      && |s| >= 3 && Continuation(s[1]) && Continuation(s[2])
      && (s[0] == 0xE0 ==> s[1] >= 0xA0) && (s[0] == 0xED ==> s[1] <= 0x9F)
      && ValidUtf8(s[3..])
    else if 0xF0 <= s[0] <= 0xF4 then
      && |s| >= 4 && Continuation(s[1]) && Continuation(s[2]) && Continuation(s[3])
      && (s[0] == 0xF0 ==> s[1] >= 0x90) && (s[0] == 0xF4 ==> s[1] <= 0x8F)
      && ValidUtf8(s[4..])
    else false
  }

  // ----- the encoding form -----

  predicate Scalar(c: nat) { c < 0xD800 || 0xE000 <= c <= 0x10FFFF }

  function Encode(c: nat): (s: seq<byte>)
    requires Scalar(c)
    ensures s != []
  {
    var q := c / 0x40;
    var q2 := q / 0x40;
    if c < 0x80 then [c]
    else if c < 0x800 then [0xC0 + q, 0x80 + c % 0x40]
    else if c < 0x1_0000 then [0xE0 + q2, 0x80 + q % 0x40, 0x80 + c % 0x40]
    else [0xF0 + q2 / 0x40, 0x80 + q2 % 0x40, 0x80 + q % 0x40, 0x80 + c % 0x40]
  }

  predicate Scalars(cs: seq<nat>) { forall c <- cs :: Scalar(c) }

  function EncodeAll(cs: seq<nat>): seq<byte>
    requires Scalars(cs)
  {
    if cs == [] then [] else Encode(cs[0]) + EncodeAll(cs[1..])
  }

  /** The bytes are the encoding of some code points. */
  ghost predicate Text(s: seq<byte>) {
    exists cs :: Scalars(cs) && EncodeAll(cs) == s
  }

  lemma EncodeValid(c: nat, rest: seq<byte>)
    requires Scalar(c) && ValidUtf8(rest)
    ensures ValidUtf8(Encode(c) + rest)
  {
    var s := Encode(c) + rest;
    assert s[|Encode(c)|..] == rest;
  }

  lemma {:induction false} AllValid(cs: seq<nat>)
    requires Scalars(cs)
    ensures ValidUtf8(EncodeAll(cs))
  {
    if cs != [] {
      AllValid(cs[1..]);
      EncodeValid(cs[0], EncodeAll(cs[1..]));
    }
  }

  function Low6(b: byte): (r: nat)
    requires Continuation(b)
    ensures r < 0x40
  {
    (b as nat) - 0x80
  }

  lemma Digit(q: nat, b: byte)
    requires Continuation(b)
    ensures (0x40 * q + Low6(b)) / 0x40 == q && 0x80 + (0x40 * q + Low6(b)) % 0x40 == b as nat
  {
  }

  /** The first code point of a well-formed sequence. */
  lemma Decode(s: seq<byte>) returns (c: nat, n: nat)
    requires s != [] && ValidUtf8(s)
    ensures Scalar(c) && 0 < n <= |s| && ValidUtf8(s[n..]) && Encode(c) == s[..n]
  {
    var a: nat := s[0] as nat;
    if a < 0x80 {
      c, n := a, 1;
    } else if a <= 0xDF {
      c, n := 0x40 * (a - 0xC0) + Low6(s[1]), 2;
      Digit(a - 0xC0, s[1]);
    } else if a <= 0xEF {
      var q := 0x40 * (a - 0xE0) + Low6(s[1]);
      c, n := 0x40 * q + Low6(s[2]), 3;
      Digit(a - 0xE0, s[1]);
      Digit(q, s[2]);
    } else {
      var q2 := 0x40 * (a - 0xF0) + Low6(s[1]);
      var q := 0x40 * q2 + Low6(s[2]);
      c, n := 0x40 * q + Low6(s[3]), 4;
      Digit(a - 0xF0, s[1]);
      Digit(q2, s[2]);
      Digit(q, s[3]);
    }
  }

  lemma {:induction false} DecodeAll(s: seq<byte>) returns (cs: seq<nat>)
    requires ValidUtf8(s)
    ensures Scalars(cs) && EncodeAll(cs) == s
    decreases |s|
  {
    hide Encode, Scalar, ValidUtf8;
    if s == [] {
      cs := [];
    } else {
      var c, n := Decode(s);
      var rest := DecodeAll(s[n..]);
      cs := [c] + rest;
      assert cs[1..] == rest;
    }
  }

  /** The table accepts exactly the encodings of sequences of code points. */
  lemma ValidIsText(s: seq<byte>)
    ensures ValidUtf8(s) <==> Text(s)
  {
    if ValidUtf8(s) {
      var cs := DecodeAll(s);
    }
    if Text(s) {
      var cs :| Scalars(cs) && EncodeAll(cs) == s;
      AllValid(cs);
    }
  }
}
