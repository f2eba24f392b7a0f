/** The byte layout of sorted-set members and partition keys in the Redis indexes, and of the file names
    in the jsonlstore lineage catalog. Sorted sets with equal scores are ordered by these bytes. */
module IndexKeys {
  import opened ByteOrder

  // ------------------------------------------------------------------ metadata members

  const Two64 := 0x1_0000_0000_0000_0000

  predicate IsNano(t: int) {
    -0x8000_0000_0000_0000 <= t < 0x8000_0000_0000_0000
  }

  /** The bitwise complement of the time as an unsigned word: later times get smaller numbers. */
  function Inverse(t: int): nat
    requires IsNano(t)
  {
    Two64 - 1 - (if t < 0 then t + Two64 else t)
  }

  /** Time, id and payload: sixteen digits, a colon, the id in hex, an exclamation mark, the rest. */
  function Member(t: int, id: Bytes, payload: Bytes): Bytes
    requires IsNano(t)
  {
    HexNum(Inverse(t), 16) + [58] + Hex(id) + [33] + payload
  }

  /** Newest first, then by id. */
  predicate Before(t: int, id: Bytes, u: int, jd: Bytes) {
    t > u || (t == u && Less(id, jd))
  }

  lemma InverseOrder(t: int, u: int)
    requires IsNano(t) && IsNano(u)
    ensures Inverse(t) < Pow16(16)
    ensures Inverse(t) == Inverse(u) <==> t == u
    ensures (t < 0) == (u < 0) ==> (Inverse(t) < Inverse(u) <==> t > u)
    ensures (t < 0) != (u < 0) ==> (Inverse(t) < Inverse(u) <==> t < u)
  {
    assert Pow16(16) == Two64 by {
      assert Pow16(4) == 0x1_0000;
      assert Pow16(8) == 0x1_0000_0000;
      assert Pow16(12) == 0x1_0000_0000_0000;
    }
  }

  lemma SameTimeOrder(t: int, id: Bytes, p: Bytes, jd: Bytes, q: Bytes)
    requires IsNano(t) && id != jd
    ensures Less(Member(t, id, p), Member(t, jd, q)) <==> Less(id, jd)
  {
    var head := HexNum(Inverse(t), 16) + [58];
    assert Member(t, id, p) == head + (Hex(id) + [33] + p) && Member(t, jd, q) == head + (Hex(jd) + [33] + q);
    LessAfterPrefix(head, Hex(id) + [33] + p, Hex(jd) + [33] + q);
    HexDigits(id);
    HexDigits(jd);
    HexRoundTrip(id);
    HexRoundTrip(jd);
    LessTerminated(Hex(id), Hex(jd), 33, p, q);
    HexOrder(id, jd);
  }

  lemma DifferentTimeOrder(t: int, id: Bytes, p: Bytes, u: int, jd: Bytes, q: Bytes)
    requires IsNano(t) && IsNano(u) && t != u
    ensures Less(Member(t, id, p), Member(u, jd, q)) <==> Inverse(t) < Inverse(u)
  {
    hide HexNum, Hex, Less, Pow16;
    InverseOrder(t, u);
    InverseOrder(u, t);
    HexNumOrder(Inverse(t), Inverse(u), 16);
    HexNumLength(Inverse(t), 16);
    HexNumLength(Inverse(u), 16);
    var a, b := HexNum(Inverse(t), 16), HexNum(Inverse(u), 16);
    assert Member(t, id, p) == a + ([58] + Hex(id) + [33] + p) && Member(u, jd, q) == b + ([58] + Hex(jd) + [33] + q);
    LessEqualLength(a, [58] + Hex(id) + [33] + p, b, [58] + Hex(jd) + [33] + q);
  }

  /** Member order is row order, for ids of every kind and whatever the payloads. */
  lemma MemberOrder(t: int, id: Bytes, p: Bytes, u: int, jd: Bytes, q: Bytes)
    requires IsNano(t) && IsNano(u) && (t < 0) == (u < 0) && (t != u || id != jd)
    ensures Less(Member(t, id, p), Member(u, jd, q)) <==> Before(t, id, u, jd)
  {
    if t == u { SameTimeOrder(t, id, p, jd, q); }
    else { DifferentTimeOrder(t, id, p, u, jd, q); InverseOrder(t, u); }
  }

  /** Across the epoch the order is reversed: two different times sort right exactly when both are
      negative or neither is. */
  lemma OrderNeedsOneSign(t: int, id: Bytes, p: Bytes, u: int, jd: Bytes, q: Bytes)
    requires IsNano(t) && IsNano(u) && t != u
    ensures (Less(Member(t, id, p), Member(u, jd, q)) <==> Before(t, id, u, jd)) <==> (t < 0) == (u < 0)
  {
    DifferentTimeOrder(t, id, p, u, jd, q);
    InverseOrder(t, u);
  }

  /** The position of the first `c` in `s` from `from` on. */
  function Find(s: Bytes, c: Byte, from: nat): (r: Option<nat>)
    requires from <= |s|
    decreases |s| - from
    ensures r.Some? ==> from <= r.value < |s| && s[r.value] == c && forall i :: from <= i < r.value ==> s[i] != c
    ensures r.None? ==> forall i :: from <= i < |s| ==> s[i] != c
  {
    if from == |s| then None else if s[from] == c then Some(from) else Find(s, c, from + 1)
  }

  /** The framing that decoding checks: id and payload, or nothing. */
  function Unframe(m: Bytes): Option<(Bytes, Bytes)> {
    if |m| < 18 || m[16] != 58 then None
    else match Find(m, 33, 17)
         case None => None
         case Some(at) =>
           match Unhex(m[17..at])
           case None => None
           case Some(id) => Some((id, m[at + 1..]))
  }

  lemma MemberUnframes(t: int, id: Bytes, p: Bytes)
    requires IsNano(t)
    ensures Unframe(Member(t, id, p)) == Some((id, p))
  {
    var m := Member(t, id, p);
    HexNumLength(Inverse(t), 16);
    HexDigits(id);
    HexRoundTrip(id);
    var at := 17 + |Hex(id)|;
    assert m[16] == 58 && m[at] == 33;
    assert m[17..at] == Hex(id) && m[at + 1..] == p;
    assert forall i :: 17 <= i < at ==> m[i] == Hex(id)[i - 17];
  }

  // ------------------------------------------------------------------ lineage order members

  /** Incarnation ids use letters, digits and underscores: all above the full stop, and no colon. */
  predicate IsIncarnation(s: Bytes) {
    s != [] && forall i :: 0 <= i < |s| ==> s[i] > 46 && s[i] != 58
  }

  predicate NulFree(s: Bytes) {
    forall i :: 0 <= i < |s| ==> s[i] > 0
  }

  /** The hash field of a record: id, NUL, incarnation. */
  function LineageField(id: Bytes, inc: Bytes): Bytes {
    id + [0] + inc
  }

  /** Incarnations hold no NUL, so the last NUL of a field separates id and incarnation. */
  lemma FieldInjective(id: Bytes, inc: Bytes, jd: Bytes, jnc: Bytes)
    requires IsIncarnation(inc) && IsIncarnation(jnc)
    ensures LineageField(id, inc) == LineageField(jd, jnc) <==> id == jd && inc == jnc
  {
    var f, g := LineageField(id, inc), LineageField(jd, jnc);
    assert |id| < |jd| < |f| ==> f[|jd|] == inc[|jd| - |id| - 1];
    assert |jd| < |id| < |g| ==> g[|id|] == jnc[|id| - |jd| - 1];
    assert f[|id|] == 0 && g[|jd|] == 0;
    assert f[..|id|] == id && g[..|jd|] == jd && f[|id| + 1..] == inc && g[|jd| + 1..] == jnc;
  }

  function StateDigit(pruned: bool): Byte {
    if pruned then 49 else 48
  }

  /** Members of a record partition's order. Hex stands for the unpadded base64 of the field: both are
      injective and free of full stops. */
  function RootMember(id: Bytes, pruned: bool, inc: Bytes): Bytes {
    [StateDigit(pruned), 0] + inc + [46] + Hex(LineageField(id, inc))
  }

  function EdgeMember(id: Bytes, pruned: bool, inc: Bytes): Bytes {
    id + [0] + RootMember(id, pruned, inc)
  }

  /** The position of the last full stop. */
  function LastStop(m: Bytes): (r: Option<nat>)
    ensures r.Some? ==> r.value < |m| && m[r.value] == 46 && forall i :: r.value < i < |m| ==> m[i] != 46
    ensures r.None? ==> forall i :: 0 <= i < |m| ==> m[i] != 46
  {
    if m == [] then None else if m[|m| - 1] == 46 then Some(|m| - 1) else LastStop(m[..|m| - 1])
  }

  function OrderField(m: Bytes): Option<Bytes> {
    match LastStop(m) case None => None case Some(at) => Unhex(m[at + 1..])
  }

  /** Every order member decodes to the field it was made for. */
  lemma MemberDecodes(prefix: Bytes, field: Bytes)
    ensures OrderField(prefix + [46] + Hex(field)) == Some(field)
  {
    var m := prefix + [46] + Hex(field);
    HexDigits(field);
    HexRoundTrip(field);
    assert m[|prefix|] == 46 && m[|prefix| + 1..] == Hex(field);
    assert forall i :: |prefix| < i < |m| ==> m[i] == Hex(field)[i - |prefix| - 1];
  }

  lemma RootMemberDecodes(id: Bytes, pruned: bool, inc: Bytes)
    ensures OrderField(RootMember(id, pruned, inc)) == Some(LineageField(id, inc))
    ensures OrderField(EdgeMember(id, pruned, inc)) == Some(LineageField(id, inc))
  {
    var head := [StateDigit(pruned), 0] + inc;
    MemberDecodes(head, LineageField(id, inc));
    MemberDecodes(id + [0] + head, LineageField(id, inc));
    assert EdgeMember(id, pruned, inc) == id + [0] + head + [46] + Hex(LineageField(id, inc));
  }

  /** What the scripts do to the root order member of a record that becomes a tombstone. */
  function FlipRoot(m: Bytes): Bytes {
    if m == [] then [] else [49] + m[1..]
  }

  /** And to the edge order member: the byte after the first NUL becomes the pruned digit. */
  function FlipEdge(m: Bytes): Option<Bytes> {
    match Find(m, 0, 0)
    case None => None
    case Some(sep) => if sep + 1 < |m| then Some(m[..sep + 1] + [49] + m[sep + 2..]) else None
  }

  lemma RootFlips(id: Bytes, inc: Bytes)
    ensures FlipRoot(RootMember(id, false, inc)) == RootMember(id, true, inc)
  {
  }

  /** The edge member is flipped in the right place if and only if the id holds no NUL. */
  lemma EdgeFlipsIff(id: Bytes, inc: Bytes)
    ensures FlipEdge(EdgeMember(id, false, inc)) == Some(EdgeMember(id, true, inc)) <==> NulFree(id)
  {
    var m, want := EdgeMember(id, false, inc), EdgeMember(id, true, inc);
    assert m[|id|] == 0 && m[|id| + 1] == 48 && want[|id| + 1] == 49;
    var sep := Find(m, 0, 0).value;
    assert forall i :: 0 <= i < |id| ==> m[i] == id[i];
    if NulFree(id) {
      assert sep == |id|;
      assert m[..sep + 1] + [49] + m[sep + 2..] == want;
    } else {
      var i :| 0 <= i < |id| && id[i] == 0;
      assert m[i] == 0 && sep < |id|;
      assert (m[..sep + 1] + [49] + m[sep + 2..])[|id| + 1] == m[|id| + 1];
    }
  }

  /** The order that clients check: by id, retained before pruned, then by incarnation. */
  predicate WireLess(id: Bytes, pruned: bool, inc: Bytes, jd: Bytes, qruned: bool, jnc: Bytes) {
    if id != jd then Less(id, jd) else if pruned != qruned then !pruned else Less(inc, jnc)
  }

  lemma EdgeMemberOrder(id: Bytes, pruned: bool, inc: Bytes, jd: Bytes, qruned: bool, jnc: Bytes)
    requires NulFree(id) && NulFree(jd) && IsIncarnation(inc) && IsIncarnation(jnc)
    requires id != jd || inc != jnc
    ensures Less(EdgeMember(id, pruned, inc), EdgeMember(jd, qruned, jnc)) <==> WireLess(id, pruned, inc, jd, qruned, jnc)
  {
    if id != jd {
      LessTerminated(id, jd, 0, RootMember(id, pruned, inc), RootMember(jd, qruned, jnc));
    } else {
      LessAfterPrefix(id + [0], RootMember(id, pruned, inc), RootMember(jd, qruned, jnc));
      RootMemberOrder(id, pruned, inc, qruned, jnc);
    }
  }

  lemma RootMemberOrder(id: Bytes, pruned: bool, inc: Bytes, qruned: bool, jnc: Bytes)
    requires IsIncarnation(inc) && IsIncarnation(jnc) && inc != jnc
    ensures Less(RootMember(id, pruned, inc), RootMember(id, qruned, jnc)) <==> WireLess(id, pruned, inc, id, qruned, jnc)
  {
    var a, b := Hex(LineageField(id, inc)), Hex(LineageField(id, jnc));
    if pruned == qruned {
      LessTerminated(inc, jnc, 46, a, b);
      LessAfterPrefix([StateDigit(pruned), 0], inc + [46] + a, jnc + [46] + b);
      assert RootMember(id, pruned, inc) == [StateDigit(pruned), 0] + (inc + [46] + a);
      assert RootMember(id, qruned, jnc) == [StateDigit(pruned), 0] + (jnc + [46] + b);
    } else {
      assert RootMember(id, pruned, inc)[0] == StateDigit(pruned) && RootMember(id, qruned, jnc)[0] == StateDigit(qruned);
    }
  }

  // ------------------------------------------------------------------ partition keys and file names

  const OrderSuffix: Bytes := [58, 111, 114, 100, 101, 114]

  /** The order set of one partition and the hash of another share a key exactly when the second id is
      the first with the suffix appended. */
  lemma KeysCollideIff(prefix: Bytes, x: Bytes, y: Bytes)
    ensures prefix + y + OrderSuffix == prefix + x <==> x == y + OrderSuffix
  {
    assert prefix + y + OrderSuffix == prefix + (y + OrderSuffix);
    if prefix + (y + OrderSuffix) == prefix + x {
      assert x == (prefix + x)[|prefix|..];
      assert y + OrderSuffix == (prefix + (y + OrderSuffix))[|prefix|..];
    }
  }

  /** The keys of record and edge partitions, behind the prefixes that tell them apart. */
  function RecordKey(id: Bytes): Bytes {
    RecordPrefix + id
  }

  function EdgeKey(id: Bytes, inc: Bytes): Bytes {
    EdgePrefix + LineageField(id, inc)
  }

  /** "records:" and "edges:", behind a stem that both share. */
  const RecordPrefix: Bytes := [114, 101, 99, 111, 114, 100, 115, 58]
  const EdgePrefix: Bytes := [101, 100, 103, 101, 115, 58]

  function OrderKey(key: Bytes): Bytes {
    key + OrderSuffix
  }

  /** Which partition keys can be an order key: a record partition's exactly for an id with the suffix,
      an edge partition's never. */
  lemma OrderKeysApart(id: Bytes, jd: Bytes, e: Bytes, einc: Bytes, f: Bytes, finc: Bytes)
    requires IsIncarnation(einc) && IsIncarnation(finc)
    ensures OrderKey(RecordKey(id)) == RecordKey(jd) <==> jd == id + OrderSuffix
    ensures OrderKey(RecordKey(id)) != EdgeKey(f, finc) && OrderKey(EdgeKey(e, einc)) != RecordKey(jd)
    ensures OrderKey(EdgeKey(e, einc)) != EdgeKey(f, finc)
  {
    KeysCollideIff(RecordPrefix, jd, id);
    assert OrderKey(RecordKey(id))[0] == 114 && EdgeKey(f, finc)[0] == 101;
    assert OrderKey(EdgeKey(e, einc))[0] == 101 && RecordKey(jd)[0] == 114;
    var a, b := OrderKey(EdgeKey(e, einc)), EdgeKey(f, finc);
    assert a[|a| - 6] == 58 && b[|b| - 1 - |finc|] == 0;
    assert |finc| >= 6 ==> b[|b| - 6] == finc[|finc| - 6];
    assert |finc| < 6 ==> a[|a| - 1 - |finc|] == OrderSuffix[5 - |finc|];
  }

  /** Lineage catalog files: a shared stem, the kind of partition, and a hash. */
  const EdgeKind: Bytes := [101, 100, 103, 101]
  const PointKind: Bytes := [112, 111, 105, 110, 116]
  const RecordKind: Bytes := [114, 101, 99, 111, 114, 100]

  /** Sorted by name, the record partition comes after every edge and point partition, so the loop that
      clears markers in name order removes the manifest last. */
  lemma RecordNameIsLast(stem: Bytes, kind: Bytes, x: Bytes, y: Bytes)
    requires kind == EdgeKind || kind == PointKind
    ensures Less(stem + (kind + x), stem + (RecordKind + y))
  {
    LessAfterPrefix(stem, kind + x, RecordKind + y);
    assert (kind + x)[0] == kind[0] && (RecordKind + y)[0] == 114;
  }

  lemma RecordSortsLast(names: seq<Bytes>, stem: Bytes, hash: Bytes)
    requires forall i, j :: 0 <= i < j < |names| ==> Less(names[i], names[j])
    requires stem + (RecordKind + hash) in names
    requires forall i :: 0 <= i < |names| ==>
               names[i] == stem + (RecordKind + hash) || exists x :: names[i] == stem + (EdgeKind + x) || names[i] == stem + (PointKind + x)
    ensures names[|names| - 1] == stem + (RecordKind + hash)
  {
    var record := stem + (RecordKind + hash);
    var k :| 0 <= k < |names| && names[k] == record;
    var last := |names| - 1;
    if names[last] != record {
      var x :| names[last] == stem + (EdgeKind + x) || names[last] == stem + (PointKind + x);
      RecordNameIsLast(stem, if names[last] == stem + (EdgeKind + x) then EdgeKind else PointKind, x, hash);
      LessTotal(record, names[last]);
      assert false;
    }
  }
}
