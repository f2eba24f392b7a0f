/** UTF-8 as section 3 of RFC 3629 writes it: every scalar value in one to four bytes. A byte string is valid
    exactly if it is the encoding of some scalar values. */
module Utf8Text {
  import opened ByteOrder
  import opened MetadataPages

  predicate Scalar(v: nat) {
    v < 0xD800 || 0xE000 <= v < 0x110000
  }

  function Tail(v: nat): Byte {
    0x80 + v % 64
  }

  function Encode(v: nat): Bytes
    requires Scalar(v)
  {
    if v < 0x80 then [v]
    else if v < 0x800 then [0xC0 + v / 64, Tail(v)]
    else if v < 0x10000 then [0xE0 + v / 64 / 64, Tail(v / 64), Tail(v)]
    else [0xF0 + v / 64 / 64 / 64, Tail(v / 64 / 64), Tail(v / 64), Tail(v)]
  }

  function EncodeAll(vs: seq<nat>): Bytes
    requires forall i :: 0 <= i < |vs| ==> Scalar(vs[i])
  {
    if vs == [] then [] else Encode(vs[0]) + EncodeAll(vs[1..])
  }

  lemma EncodeAccepted(v: nat, rest: Bytes)
    requires Scalar(v)
    ensures Utf8(Encode(v) + rest) <==> Utf8(rest)
  {
    var e := Encode(v);
    var s := e + rest;
    assert s[|e|..] == rest && s[0] == e[0];
    assert |e| > 1 ==> s[1] == e[1];
    assert |e| > 2 ==> s[2] == e[2];
    assert |e| > 3 ==> s[3] == e[3];
  }

  lemma {:induction false} EncodedIsValid(vs: seq<nat>)
    requires forall i :: 0 <= i < |vs| ==> Scalar(vs[i])
    ensures Utf8(EncodeAll(vs))
  {
    if vs != [] {
      EncodedIsValid(vs[1..]);
      EncodeAccepted(vs[0], EncodeAll(vs[1..]));
    }
  }

  /** Six more bits behind `x`. */
  function Push(x: nat, b: nat): (v: nat)
    requires b < 64
    ensures v / 64 == x && Tail(v) == 0x80 + b
  {
    x * 64 + b
  }

  lemma TwoBytes(a: nat, b: nat)
    requires 2 <= a < 0x20 && b < 64
    ensures var v := Push(a, b); Scalar(v) && Encode(v) == [0xC0 + a, 0x80 + b]
  {
  }

  lemma ThreeBytes(a: nat, b: nat, c: nat)
    requires a < 0x10 && b < 64 && c < 64 && (a == 0 ==> b >= 0x20) && (a == 0xD ==> b < 0x20)
    ensures var v := Push(Push(a, b), c); Scalar(v) && Encode(v) == [0xE0 + a, 0x80 + b, 0x80 + c]
  {
  }

  lemma FourBytes(a: nat, b: nat, c: nat, d: nat)
    requires a < 5 && b < 64 && c < 64 && d < 64 && (a == 0 ==> b >= 0x10) && (a == 4 ==> b < 0x10)
    ensures var v := Push(Push(Push(a, b), c), d); Scalar(v) && Encode(v) == [0xF0 + a, 0x80 + b, 0x80 + c, 0x80 + d]
  {
  }

  /** The first scalar value of a valid string and what follows it. */
  lemma FirstScalar(s: Bytes) returns (v: nat, n: nat)
    requires Utf8(s) && s != []
    ensures Scalar(v) && 0 < n <= |s| && s[..n] == Encode(v) && Utf8(s[n..])
  {
    hide Push;
    var a: int := s[0];
    if a < 0x80 { return a, 1; }
    hide Encode, Scalar;
    var b: int := s[1] - 0x80;
    if a <= 0xDF {
      TwoBytes(a - 0xC0, b);
      return Push(a - 0xC0, b), 2;
    }
    var c: int := s[2] - 0x80;
    if a <= 0xEF {
      ThreeBytes(a - 0xE0, b, c);
      return Push(Push(a - 0xE0, b), c), 3;
    }
    var d: int := s[3] - 0x80;
    FourBytes(a - 0xF0, b, c, d);
    return Push(Push(Push(a - 0xF0, b), c), d), 4;
  }

  lemma {:induction false} ValidIsEncoded(s: Bytes) returns (vs: seq<nat>)
    requires Utf8(s)
    ensures (forall i :: 0 <= i < |vs| ==> Scalar(vs[i])) && EncodeAll(vs) == s
    decreases |s|
  {
    hide Utf8, Encode, Scalar;
    if s == [] { return []; }
    var v, n := FirstScalar(s);
    var rest := ValidIsEncoded(s[n..]);
    vs := [v] + rest;
    assert vs[1..] == rest && s == s[..n] + s[n..];
  }

  /** The client's check accepts exactly the encodings of scalar values. */
  lemma ValidIffEncoded(s: Bytes)
    ensures Utf8(s) <==> exists vs: seq<nat> :: (forall i :: 0 <= i < |vs| ==> Scalar(vs[i])) && EncodeAll(vs) == s
  {
    hide Utf8, Scalar;
    if Utf8(s) {
      var vs := ValidIsEncoded(s);
      assert (forall i :: 0 <= i < |vs| ==> Scalar(vs[i])) && EncodeAll(vs) == s;
    }
    forall vs: seq<nat> | (forall i :: 0 <= i < |vs| ==> Scalar(vs[i])) && EncodeAll(vs) == s ensures Utf8(s) { EncodedIsValid(vs); }
  }
}
