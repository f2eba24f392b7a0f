/** Newline-committed records in a file: a newline ends a record, and what follows the last newline is
    not committed. */
module Lines {
  import opened ByteOrder

  const NL: Byte := 10
  const CR: Byte := 13

  predicate Whole(r: Bytes) {
    NL !in r
  }

  function Frame(rs: seq<Bytes>): Bytes {
    if rs == [] then [] else rs[0] + [NL] + Frame(rs[1..])
  }

  /** The offset just behind the last newline. */
  function CompleteSize(b: Bytes): (n: nat)
    ensures n <= |b| && (n > 0 ==> b[n - 1] == NL) && forall i :: n <= i < |b| ==> b[i] != NL
  {
    if b == [] then 0 else if b[|b| - 1] == NL then |b| else CompleteSize(b[..|b| - 1])
  }

  function FirstLine(b: Bytes): (n: nat)
    requires NL in b
    ensures n < |b| && b[n] == NL && forall i :: 0 <= i < n ==> b[i] != NL
  {
    if b[0] == NL then 0 else 1 + FirstLine(b[1..])
  }

  /** The committed records of a file. */
  function Records(b: Bytes): seq<Bytes>
    decreases |b|
  {
    if NL !in b then [] else [b[..FirstLine(b)]] + Records(b[FirstLine(b) + 1..])
  }

  ghost predicate AllWhole(rs: seq<Bytes>) {
    forall i :: 0 <= i < |rs| ==> Whole(rs[i])
  }

  lemma {:induction false} FrameAppend(rs: seq<Bytes>, ss: seq<Bytes>)
    ensures Frame(rs + ss) == Frame(rs) + Frame(ss)
  {
    if rs == [] { assert rs + ss == ss; }
    else {
      assert (rs + ss)[0] == rs[0] && (rs + ss)[1..] == rs[1..] + ss;
      FrameAppend(rs[1..], ss);
    }
  }

  lemma FirstOf(r: Bytes, rest: Bytes)
    requires Whole(r)
    ensures NL in r + [NL] + rest && FirstLine(r + [NL] + rest) == |r|
    ensures (r + [NL] + rest)[..|r|] == r && (r + [NL] + rest)[|r| + 1..] == rest
  {
    var b := r + [NL] + rest;
    assert b[|r|] == NL;
    assert forall i :: 0 <= i < |r| ==> b[i] == r[i];
  }

  lemma CompleteAt(b: Bytes, n: nat)
    requires n <= |b| && (n > 0 ==> b[n - 1] == NL) && forall i :: n <= i < |b| ==> b[i] != NL
    ensures CompleteSize(b) == n
  {
  }

  lemma FrameCons(r: Bytes, rs: seq<Bytes>)
    ensures Frame([r] + rs) == r + [NL] + Frame(rs)
  {
    assert ([r] + rs)[1..] == rs;
  }

  lemma RecordsCons(b: Bytes)
    requires NL in b
    ensures Records(b) == [b[..FirstLine(b)]] + Records(b[FirstLine(b) + 1..])
    ensures b == b[..FirstLine(b)] + [NL] + b[FirstLine(b) + 1..] && Whole(b[..FirstLine(b)])
  {
    var n := FirstLine(b);
    assert b == b[..n] + [b[n]] + b[n + 1..];
  }

  lemma NoRecords(b: Bytes)
    requires NL !in b
    ensures Records(b) == [] && Frame(Records(b)) + b == b
  {
    assert [] + b == b;
  }

  lemma {:induction false} RecordsBack(rs: seq<Bytes>, tail: Bytes)
    requires AllWhole(rs) && Whole(tail)
    ensures Records(Frame(rs) + tail) == rs
  {
    hide Records, FirstLine;
    if rs == [] {
      assert Frame(rs) + tail == tail;
      NoRecords(tail);
    } else {
      RecordsBack(rs[1..], tail);
      BackStep(rs[0], rs[1..], tail);
      assert rs == [rs[0]] + rs[1..];
    }
  }

  lemma BackStep(r: Bytes, rs: seq<Bytes>, tail: Bytes)
    requires Whole(r)
    ensures Records(Frame([r] + rs) + tail) == [r] + Records(Frame(rs) + tail)
  {
    hide Records, Frame, FirstLine;
    var rest := Frame(rs) + tail;
    var b := r + [NL] + rest;
    FrameCons(r, rs);
    assert Frame([r] + rs) + tail == b;
    FirstOf(r, rest);
    RecordsCons(b);
  }

  /** Reading back what was framed, with any uncommitted tail behind it. */
  lemma ReadBack(rs: seq<Bytes>, tail: Bytes)
    requires AllWhole(rs) && Whole(tail)
    ensures Records(Frame(rs) + tail) == rs && CompleteSize(Frame(rs) + tail) == |Frame(rs)|
  {
    hide Records, CompleteSize;
    RecordsBack(rs, tail);
    var b, n := Frame(rs) + tail, |Frame(rs)|;
    if rs != [] { EndsInNewline(rs); }
    assert forall i :: n <= i < |b| ==> b[i] == tail[i - n];
    CompleteAt(b, n);
  }

  lemma {:induction false} EndsInNewline(rs: seq<Bytes>)
    requires rs != []
    ensures |Frame(rs)| > 0 && Frame(rs)[|Frame(rs)| - 1] == NL
  {
    if |rs| > 1 { EndsInNewline(rs[1..]); } else { assert rs[1..] == []; }
  }

  lemma WholeCons(r: Bytes, rs: seq<Bytes>)
    requires Whole(r) && AllWhole(rs)
    ensures AllWhole([r] + rs)
  {
  }

  lemma JoinRecord(b: Bytes, tail: Bytes)
    requires NL in b
    requires var rest := b[FirstLine(b) + 1..]; AllWhole(Records(rest)) && rest == Frame(Records(rest)) + tail
    ensures AllWhole(Records(b)) && b == Frame(Records(b)) + tail
  {
    hide Records, Frame, FirstLine, Whole, AllWhole;
    var n := FirstLine(b);
    var rs := Records(b[n + 1..]);
    RecordsCons(b);
    WholeCons(b[..n], rs);
    FrameCons(b[..n], rs);
    assert b[..n] + [NL] + (Frame(rs) + tail) == b[..n] + [NL] + Frame(rs) + tail;
  }

  lemma {:induction false} FrameOfRecords(b: Bytes) returns (tail: Bytes)
    ensures AllWhole(Records(b)) && b == Frame(Records(b)) + tail && Whole(tail)
    decreases |b|
  {
    hide Records, Frame, FirstLine;
    if NL in b {
      tail := FrameOfRecords(b[FirstLine(b) + 1..]);
      JoinRecord(b, tail);
    } else {
      NoRecords(b);
      tail := b;
    }
  }

  /** Every file is the frame of its records and an uncommitted tail. */
  lemma Decompose(b: Bytes)
    ensures AllWhole(Records(b)) && CompleteSize(b) == |Frame(Records(b))| && b[..CompleteSize(b)] == Frame(Records(b))
    ensures Whole(b[CompleteSize(b)..])
  {
    hide Records, Frame;
    var tail := FrameOfRecords(b);
    ReadBack(Records(b), tail);
  }

  // ------------------------------------------------------------------ appending, with a crash

  /** Truncate the torn tail, then write: `kept` bytes of the write survive. */
  function Appended(b: Bytes, rs: seq<Bytes>, kept: nat): Bytes
    requires kept <= |Frame(rs)|
  {
    b[..CompleteSize(b)] + Frame(rs)[..kept]
  }

  /** How many of the records are complete in the first `kept` bytes of their frame. */
  function Kept(rs: seq<Bytes>, kept: nat): (n: nat)
    ensures n <= |rs|
  {
    if rs == [] || kept < |rs[0]| + 1 then 0 else 1 + Kept(rs[1..], kept - |rs[0]| - 1)
  }

  lemma {:induction false} KeptSplits(rs: seq<Bytes>, kept: nat)
    requires AllWhole(rs) && kept <= |Frame(rs)|
    ensures exists tail :: Whole(tail) && Frame(rs)[..kept] == Frame(rs[..Kept(rs, kept)]) + tail
    ensures Kept(rs, kept) == |rs| <==> kept == |Frame(rs)|
  {
    if rs == [] {
      assert Whole([]) && Frame(rs)[..kept] == Frame(rs[..0]) + [];
    } else if kept < |rs[0]| + 1 {
      var tail := rs[0][..kept];
      assert Frame(rs)[..kept] == tail && rs[..0] == [];
      assert Frame(rs[..0]) + tail == tail;
      assert Whole(tail);
    } else {
      var rest := kept - |rs[0]| - 1;
      KeptSplits(rs[1..], rest);
      var n := Kept(rs[1..], rest);
      var tail :| Whole(tail) && Frame(rs[1..])[..rest] == Frame(rs[1..][..n]) + tail;
      assert rs[..n + 1][0] == rs[0] && rs[..n + 1][1..] == rs[1..][..n];
      assert Frame(rs)[..kept] == rs[0] + [NL] + Frame(rs[1..])[..rest];
      assert Frame(rs)[..kept] == Frame(rs[..n + 1]) + tail;
    }
  }

  /** After any append, finished or not, the committed records are the earlier ones and the first few
      new ones: all of them exactly if the write finished. Earlier bytes do not move. */
  lemma AppendCommits(b: Bytes, rs: seq<Bytes>, kept: nat)
    requires AllWhole(rs) && kept <= |Frame(rs)|
    ensures Records(Appended(b, rs, kept)) == Records(b) + rs[..Kept(rs, kept)]
    ensures Kept(rs, kept) == |rs| <==> kept == |Frame(rs)|
    ensures Appended(b, rs, kept)[..CompleteSize(b)] == b[..CompleteSize(b)]
    ensures kept == |Frame(rs)| ==> CompleteSize(Appended(b, rs, kept)) == CompleteSize(b) + |Frame(rs)|
  {
    hide Records, CompleteSize, Kept, Frame;
    Decompose(b);
    KeptSplits(rs, kept);
    var n := Kept(rs, kept);
    var tail :| Whole(tail) && Frame(rs)[..kept] == Frame(rs[..n]) + tail;
    var all := Records(b) + rs[..n];
    FrameAppend(Records(b), rs[..n]);
    assert Appended(b, rs, kept) == Frame(all) + tail;
    ReadBack(all, tail);
    if kept == |Frame(rs)| {
      assert rs[..n] == rs;
      assert Frame(rs)[..kept] == Frame(rs);
      assert |tail| == 0;
    }
  }

  // ------------------------------------------------------------------ boundaries

  /** The offset behind the first `i` records. */
  function Offset(rs: seq<Bytes>, i: nat): nat
    requires i <= |rs|
  {
    |Frame(rs[..i])|
  }

  lemma OffsetGrows(rs: seq<Bytes>, i: nat, j: nat)
    requires i < j <= |rs|
    ensures Offset(rs, i) < Offset(rs, j)
  {
    assert rs[..j] == rs[..i] + rs[i..j];
    FrameAppend(rs[..i], rs[i..j]);
    EndsInNewline(rs[i..j]);
  }

  lemma FrameAt(rs: seq<Bytes>, i: nat)
    requires i <= |rs|
    ensures Frame(rs) == Frame(rs[..i]) + Frame(rs[i..])
  {
    assert rs == rs[..i] + rs[i..];
    FrameAppend(rs[..i], rs[i..]);
  }

  /** The check on the byte before an offset accepts the record boundaries and nothing else. */
  lemma {:induction false} BoundaryIff(rs: seq<Bytes>, off: nat)
    requires AllWhole(rs) && 0 < off <= |Frame(rs)|
    ensures Frame(rs)[off - 1] == NL <==> exists i :: 0 <= i <= |rs| && off == Offset(rs, i)
  {
    if exists i :: 0 <= i <= |rs| && off == Offset(rs, i) {
      var i :| 0 <= i <= |rs| && off == Offset(rs, i);
      FrameAt(rs, i);
      EndsInNewline(rs[..i]);
    }
    if Frame(rs)[off - 1] == NL {
      var i := BoundaryIndex(rs, off);
    }
  }

  lemma NotInside(rs: seq<Bytes>, off: nat)
    requires AllWhole(rs) && rs != [] && 0 < off <= |rs[0]|
    ensures off <= |Frame(rs)| && Frame(rs)[off - 1] != NL
  {
    assert Frame(rs)[off - 1] == rs[0][off - 1];
  }

  lemma {:induction false} BoundaryIndex(rs: seq<Bytes>, off: nat) returns (i: nat)
    requires AllWhole(rs) && 0 < off <= |Frame(rs)| && Frame(rs)[off - 1] == NL
    ensures i <= |rs| && off == Offset(rs, i)
  {
    var head := |rs[0]| + 1;
    if off < head {
      NotInside(rs, off);
      assert false;
    } else if off == head {
      i := 1;
      assert rs[..1][0] == rs[0] && rs[..1][1..] == [] && Frame([]) == [];
    } else {
      assert Frame(rs)[off - 1] == Frame(rs[1..])[off - head - 1];
      var j := BoundaryIndex(rs[1..], off - head);
      i := j + 1;
      assert rs[..i][0] == rs[0] && rs[..i][1..] == rs[1..][..j];
    }
  }
}
