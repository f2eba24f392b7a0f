/** Byte strings, their lexicographic order, and hexadecimal text that keeps it. */
module ByteOrder {
  type Byte = b: int | 0 <= b < 256
  type Bytes = seq<Byte>

  /** Byte-wise comparison; a proper prefix comes first. */
  predicate Less(a: Bytes, b: Bytes) {
    b != [] && (a == [] || a[0] < b[0] || (a[0] == b[0] && Less(a[1..], b[1..])))
  }

  lemma {:induction false} LessTotal(a: Bytes, b: Bytes)
    ensures Less(a, b) || a == b || Less(b, a)
    ensures !(Less(a, b) && Less(b, a)) && !Less(a, a)
  {
    if a != [] && b != [] {
      LessTotal(a[1..], b[1..]);
      assert a == [a[0]] + a[1..] && b == [b[0]] + b[1..];
    }
    if a != [] { LessTotal(a[1..], a[1..]); }
  }

  lemma {:induction false} LessTrans(a: Bytes, b: Bytes, c: Bytes)
    requires Less(a, b) && Less(b, c)
    ensures Less(a, c)
  {
    if a != [] && a[0] == b[0] == c[0] { LessTrans(a[1..], b[1..], c[1..]); }
  }

  /** A common prefix does not matter. */
  lemma {:induction false} LessAfterPrefix(p: Bytes, a: Bytes, b: Bytes)
    ensures Less(p + a, p + b) <==> Less(a, b)
  {
    if p == [] {
      assert p + a == a && p + b == b;
    } else {
      assert (p + a)[1..] == p[1..] + a && (p + b)[1..] == p[1..] + b;
      LessAfterPrefix(p[1..], a, b);
    }
  }

  /** Strings of one length decide before anything that follows them. */
  lemma {:induction false} LessEqualLength(a: Bytes, x: Bytes, b: Bytes, y: Bytes)
    requires |a| == |b| && a != b
    ensures Less(a + x, b + y) <==> Less(a, b)
  {
    assert (a + x)[0] == a[0] && (b + y)[0] == b[0];
    if a[0] == b[0] {
      assert (a + x)[1..] == a[1..] + x && (b + y)[1..] == b[1..] + y;
      assert a[1..] != b[1..] by { assert a == [a[0]] + a[1..] && b == [b[0]] + b[1..]; }
      LessEqualLength(a[1..], x, b[1..], y);
    }
  }

  /** With a terminator below every byte of `a` and `b`, terminated strings compare like plain ones. */
  lemma {:induction false} LessTerminated(a: Bytes, b: Bytes, t: Byte, x: Bytes, y: Bytes)
    requires a != b && (forall i :: 0 <= i < |a| ==> t < a[i]) && (forall i :: 0 <= i < |b| ==> t < b[i])
    ensures Less(a + [t] + x, b + [t] + y) <==> Less(a, b)
  {
    if a != [] && b != [] && a[0] == b[0] {
      assert (a + [t] + x)[1..] == a[1..] + [t] + x && (b + [t] + y)[1..] == b[1..] + [t] + y;
      assert a[1..] != b[1..] by { assert a == [a[0]] + a[1..] && b == [b[0]] + b[1..]; }
      LessTerminated(a[1..], b[1..], t, x, y);
    } else {
      assert a != [] ==> (a + [t] + x)[0] == a[0];
      assert b != [] ==> (b + [t] + y)[0] == b[0];
      assert a == [] ==> (a + [t] + x)[0] == t;
      assert b == [] ==> (b + [t] + y)[0] == t;
    }
  }

  // ------------------------------------------------------------------ hexadecimal

  /** Lower-case digits, in the order of their values. */
  function HexDigit(d: int): Byte
    requires 0 <= d < 16
  {
    if d < 10 then 48 + d else 87 + d
  }

  function Hex(s: Bytes): Bytes {
    if s == [] then [] else [HexDigit(s[0] / 16), HexDigit(s[0] % 16)] + Hex(s[1..])
  }

  function UnhexDigit(c: Byte): int {
    if 48 <= c <= 57 then c - 48 else if 97 <= c <= 102 then c - 87 else if 65 <= c <= 70 then c - 55 else -1
  }

  datatype Option<+T> = None | Some(value: T)

  function Unhex(s: Bytes): Option<Bytes> {
    if s == [] then Some([])
    else if |s| == 1 || UnhexDigit(s[0]) < 0 || UnhexDigit(s[1]) < 0 then None
    else match Unhex(s[2..])
         case None => None
         case Some(rest) => var b: Byte := UnhexDigit(s[0]) * 16 + UnhexDigit(s[1]); Some([b] + rest)
  }

  lemma {:induction false} HexRoundTrip(s: Bytes)
    ensures Unhex(Hex(s)) == Some(s)
  {
    if s != [] {
      HexRoundTrip(s[1..]);
      assert Hex(s)[2..] == Hex(s[1..]);
      assert s == [s[0]] + s[1..];
    }
  }

  lemma {:induction false} HexDigits(s: Bytes)
    ensures |Hex(s)| == 2 * |s| && forall i :: 0 <= i < |Hex(s)| ==> 48 <= Hex(s)[i] <= 102
  {
    if s != [] {
      HexDigits(s[1..]);
      assert forall i :: 2 <= i < |Hex(s)| ==> Hex(s)[i] == Hex(s[1..])[i - 2];
    }
  }

  lemma {:induction false} HexOrder(a: Bytes, b: Bytes)
    ensures Less(Hex(a), Hex(b)) <==> Less(a, b)
  {
    if a != [] && b != [] {
      HexOrder(a[1..], b[1..]);
      var x, y := [HexDigit(a[0] / 16), HexDigit(a[0] % 16)], [HexDigit(b[0] / 16), HexDigit(b[0] % 16)];
      if a[0] == b[0] {
        LessAfterPrefix(x, Hex(a[1..]), Hex(b[1..]));
      } else {
        assert x != y && |x| == |y|;
        LessEqualLength(x, Hex(a[1..]), y, Hex(b[1..]));
        assert x[1..] == [HexDigit(a[0] % 16)] && y[1..] == [HexDigit(b[0] % 16)];
        assert Less(x, y) <==> a[0] < b[0];
      }
    }
  }

  // ------------------------------------------------------------------ fixed-width numbers

  function Pow16(n: nat): nat {
    if n == 0 then 1 else 16 * Pow16(n - 1)
  }

  /** `width` lower-case hexadecimal digits, most significant first. */
  function HexNum(x: nat, width: nat): Bytes {
    if width == 0 then [] else HexNum(x / 16, width - 1) + [HexDigit(x % 16)]
  }

  lemma {:induction false} HexNumLength(x: nat, width: nat)
    ensures |HexNum(x, width)| == width
  {
    if width > 0 { HexNumLength(x / 16, width - 1); }
  }

  lemma {:induction false} HexNumOrder(x: nat, y: nat, width: nat)
    requires x < Pow16(width) && y < Pow16(width)
    ensures Less(HexNum(x, width), HexNum(y, width)) <==> x < y
    ensures HexNum(x, width) == HexNum(y, width) <==> x == y
  {
    if width > 0 {
      HexNumOrder(x / 16, y / 16, width - 1);
      var a, b := HexNum(x / 16, width - 1), HexNum(y / 16, width - 1);
      HexNumLength(x / 16, width - 1);
      HexNumLength(y / 16, width - 1);
      var d, e := [HexDigit(x % 16)], [HexDigit(y % 16)];
      if x / 16 == y / 16 {
        LessAfterPrefix(a, d, e);
        assert (a + d)[|a|] == d[0] && (b + e)[|a|] == e[0];
      } else {
        LessEqualLength(a, d, b, e);
        assert (a + d)[..|a|] == a && (b + e)[..|a|] == b;
      }
    }
  }
}
