/** The jsonlstore event log at the level of bytes: finding the committed end, appending over a torn tail,
    and reading pages of records from byte-offset cursors. */
module EventFile {
  import opened ByteOrder
  import opened Lines

  // ------------------------------------------------------------------ what reading should yield

  /** A record and the number of lines up to and including it. */
  datatype Entry = Entry(body: Bytes, index: nat)

  /** The records from line `i` on; header lines occupy a position but are not records. */
  function Entries(header: Bytes -> bool, rs: seq<Bytes>, i: nat): seq<Entry>
    requires i <= |rs|
    decreases |rs| - i
  {
    if i == |rs| then []
    else (if header(rs[i]) then [] else [Entry(rs[i], i + 1)]) + Entries(header, rs, i + 1)
  }

  /** At most `limit` of them; zero means no limit. */
  function Limited(es: seq<Entry>, limit: nat): seq<Entry> {
    if limit > 0 && |es| > limit then es[..limit] else es
  }

  /** A reader that hands the cursor of the last record back, page after page, until a page is empty. */
  function Chain(header: Bytes -> bool, rs: seq<Bytes>, i: nat, limits: seq<nat>): seq<Entry>
    requires i <= |rs|
    decreases |limits|
  {
    if limits == [] then [] else
    var page := Limited(Entries(header, rs, i), limits[0]);
    if page == [] || page[|page| - 1].index > |rs| then page
    else page + Chain(header, rs, page[|page| - 1].index, limits[1..])
  }

  function Sum(limits: seq<nat>): nat {
    if limits == [] then 0 else limits[0] + Sum(limits[1..])
  }

  /** Exactly the lines from `i` on that are not headers, each with its place. */
  lemma {:induction false} EntriesExactly(header: Bytes -> bool, rs: seq<Bytes>, i: nat, e: Entry)
    requires i <= |rs|
    ensures e in Entries(header, rs, i) <==> i < e.index <= |rs| && e.body == rs[e.index - 1] && !header(e.body)
    decreases |rs| - i
  {
    if i < |rs| { EntriesExactly(header, rs, i + 1, e); }
  }

  /** In the order of the file, none twice. */
  lemma {:induction false} EntriesRise(header: Bytes -> bool, rs: seq<Bytes>, i: nat)
    requires i <= |rs|
    ensures forall k, l :: 0 <= k < l < |Entries(header, rs, i)| ==> Entries(header, rs, i)[k].index < Entries(header, rs, i)[l].index
    decreases |rs| - i
  {
    if i < |rs| {
      EntriesRise(header, rs, i + 1);
      var tail := Entries(header, rs, i + 1);
      forall l | 0 <= l < |tail| ensures i + 1 < tail[l].index { EntriesExactly(header, rs, i + 1, tail[l]); }
    }
  }

  /** Resuming behind the k-th record yields the records after it. */
  lemma {:induction false} Resume(header: Bytes -> bool, rs: seq<Bytes>, i: nat, k: nat)
    requires i <= |rs| && 0 < k <= |Entries(header, rs, i)|
    ensures var es := Entries(header, rs, i);
            i < es[k - 1].index <= |rs| && Entries(header, rs, es[k - 1].index) == es[k..]
    decreases |rs| - i
  {
    var es, tail := Entries(header, rs, i), Entries(header, rs, i + 1);
    if header(rs[i]) {
      assert es == tail;
      Resume(header, rs, i + 1, k);
    } else {
      assert es == [Entry(rs[i], i + 1)] + tail;
      if k == 1 { assert es[1..] == tail; }
      else {
        Resume(header, rs, i + 1, k - 1);
        assert es[k - 1] == tail[k - 2] && es[k..] == tail[k - 1..];
      }
    }
  }

  /** Chained pages with any positive limits yield every record once, in order. */
  lemma {:induction false} ChainYieldsAll(header: Bytes -> bool, rs: seq<Bytes>, i: nat, limits: seq<nat>)
    requires i <= |rs| && forall k :: 0 <= k < |limits| ==> limits[k] > 0
    ensures var es := Entries(header, rs, i);
            Chain(header, rs, i, limits) == es[..if Sum(limits) <= |es| then Sum(limits) else |es|]
    decreases |limits|
  {
    hide Entries;
    var es := Entries(header, rs, i);
    if limits != [] {
      var n := if limits[0] < |es| then limits[0] else |es|;
      assert Limited(es, limits[0]) == es[..n];
      if n > 0 {
        Resume(header, rs, i, n);
        ChainYieldsAll(header, rs, es[n - 1].index, limits[1..]);
        TakeMore(es, n, Sum(limits[1..]));
      }
    }
  }

  lemma TakeMore(es: seq<Entry>, n: nat, more: nat)
    requires n <= |es|
    ensures var rest := es[n..];
            es[..n] + rest[..if more <= |rest| then more else |rest|] == es[..if n + more <= |es| then n + more else |es|]
  {
  }

  // ------------------------------------------------------------------ reading a page

  /** The line scanner also removes one carriage return before the newline. */
  function DropCR(line: Bytes): Bytes {
    if line != [] && line[|line| - 1] == CR then line[..|line| - 1] else line
  }

  predicate Clean(r: Bytes) {
    r == [] || r[|r| - 1] != CR
  }

  /** The cursor behind a record is counted from the scanned line. It is a record boundary, and so accepted
      by the next read, if and only if the record does not end in a carriage return. */
  lemma CursorValidIffClean(rs: seq<Bytes>, n: nat)
    requires AllWhole(rs) && n < |rs|
    ensures (exists i :: 0 <= i <= |rs| && Offset(rs, n) + |DropCR(rs[n])| + 1 == Offset(rs, i)) <==> Clean(rs[n])
  {
    hide Frame;
    var off := Offset(rs, n) + |DropCR(rs[n])| + 1;
    RestFrame(rs, n);
    if Clean(rs[n]) {
      assert off == Offset(rs, n + 1);
    } else {
      FrameAt(rs, n);
      OffsetBound(rs, n + 1);
      assert Frame(rs)[off - 1] == Frame(rs[n..])[|rs[n]| - 1] == rs[n][|rs[n]| - 1];
      BoundaryIff(rs, off);
    }
  }

  /** One step of the line scanner, from the offset of record `n`. */
  method ScanLine(data: Bytes, pos: nat, complete: nat, ghost rs: seq<Bytes>, ghost n: nat) returns (line: Bytes, behind: nat)
    requires complete <= |data| && data[..complete] == Frame(rs) && AllWhole(rs) && n <= |rs| && pos == Offset(rs, n) < complete
    requires forall k :: 0 <= k < |rs| ==> Clean(rs[k])
    ensures n < |rs| && line == rs[n] && behind == Offset(rs, n + 1) == pos + |line| + 1 && behind <= complete
  {
    hide Frame, FirstLine, Offset;
    LineAt(rs, n, data, complete);
    OffsetBound(rs, n + 1);
    var length := FirstLine(data[pos..complete]);
    line := DropCR(data[pos..pos + length]);
    behind := pos + length + 1;
  }

  lemma EntriesStep(header: Bytes -> bool, rs: seq<Bytes>, n: nat, got: seq<Entry>)
    requires n < |rs|
    ensures header(rs[n]) ==> got + Entries(header, rs, n) == got + Entries(header, rs, n + 1)
    ensures !header(rs[n]) ==> got + Entries(header, rs, n) == got + [Entry(rs[n], n + 1)] + Entries(header, rs, n + 1)
  {
    var rest := Entries(header, rs, n + 1);
    if header(rs[n]) { assert [] + rest == rest; }
    else { assert got + ([Entry(rs[n], n + 1)] + rest) == got + [Entry(rs[n], n + 1)] + rest; }
  }

  method DecodePage(data: Bytes, offset: nat, complete: nat, limit: nat, header: Bytes -> bool, ghost rs: seq<Bytes>, ghost i: nat)
    returns (out: seq<(Bytes, nat)>, next: nat)
    requires complete <= |data| && data[..complete] == Frame(rs) && AllWhole(rs) && i <= |rs| && offset == Offset(rs, i)
    requires forall k :: 0 <= k < |rs| ==> Clean(rs[k])
    ensures var es := Limited(Entries(header, rs, i), limit);
            |out| == |es| && forall k :: 0 <= k < |es| ==> es[k].index <= |rs| && out[k] == (es[k].body, Offset(rs, es[k].index))
    ensures exists n :: i <= n <= |rs| && next == Offset(rs, n)
  {
    hide Entries, Frame, Offset, AllWhole;
    ghost var n := i;
    ghost var got: seq<Entry> := [];
    ghost var all := Entries(header, rs, i);
    assert got + all == all;
    var pos := offset;
    out, next := [], offset;
    OffsetBound(rs, i);
    while pos < complete
      invariant i <= n <= |rs| && pos == next == Offset(rs, n) <= complete
      invariant got + Entries(header, rs, n) == all
      invariant limit > 0 ==> |got| < limit
      invariant |out| == |got|
      invariant forall k :: 0 <= k < |got| ==> got[k].index <= |rs| && out[k] == (got[k].body, Offset(rs, got[k].index))
      decreases complete - pos
    {
      var line, behind := ScanLine(data, pos, complete, rs, n);
      EntriesStep(header, rs, n, got);
      pos := behind;
      next := next + |line| + 1;
      n := n + 1;
      if header(line) { continue; }
      out := out + [(line, next)];
      got := got + [Entry(line, n)];
      if limit > 0 && |out| >= limit {
        assert got == all[..limit];
        return;
      }
    }
    EndReached(rs, n);
    NoEntries(header, rs);
    assert got == all;
  }

  lemma NoEntries(header: Bytes -> bool, rs: seq<Bytes>)
    ensures Entries(header, rs, |rs|) == []
  {
  }

  lemma OffsetBound(rs: seq<Bytes>, n: nat)
    requires n <= |rs|
    ensures Offset(rs, n) <= |Frame(rs)|
  {
    FrameAt(rs, n);
  }

  lemma EndReached(rs: seq<Bytes>, n: nat)
    requires n <= |rs| && Offset(rs, n) >= |Frame(rs)|
    ensures n == |rs|
  {
    assert rs[..|rs|] == rs;
    if n < |rs| { OffsetGrows(rs, n, |rs|); }
  }

  /** The line that starts at the offset of record `n`. */
  lemma LineAt(rs: seq<Bytes>, n: nat, data: Bytes, complete: nat)
    requires complete <= |data| && data[..complete] == Frame(rs) && AllWhole(rs) && n <= |rs| && Offset(rs, n) < complete
    ensures n < |rs| && NL in data[Offset(rs, n)..complete]
    ensures FirstLine(data[Offset(rs, n)..complete]) == |rs[n]|
    ensures data[Offset(rs, n)..Offset(rs, n) + |rs[n]|] == rs[n]
    ensures Offset(rs, n + 1) == Offset(rs, n) + |rs[n]| + 1
  {
    hide Frame, FirstLine, Records;
    var off := Offset(rs, n);
    FrameAt(rs, n);
    EmptyFrame();
    assert rs[|rs|..] == [];
    assert n < |rs|;
    RestFrame(rs, n);
    var rest := data[off..complete];
    assert rest == Frame(rs)[off..] == Frame(rs[n..]);
    FirstOf(rs[n], Frame(rs[n + 1..]));
    assert rest[..|rs[n]|] == data[off..off + |rs[n]|];
  }

  lemma EmptyFrame()
    ensures Frame([]) == []
  {
  }

  lemma RestFrame(rs: seq<Bytes>, n: nat)
    requires n < |rs|
    ensures Frame(rs[n..]) == rs[n] + [NL] + Frame(rs[n + 1..])
    ensures Offset(rs, n + 1) == Offset(rs, n) + |rs[n]| + 1
  {
    assert rs[n..][0] == rs[n] && rs[n..][1..] == rs[n + 1..];
    assert rs[..n + 1] == rs[..n] + [rs[n]];
    FrameAppend(rs[..n], [rs[n]]);
    FrameCons(rs[n], []);
    assert [rs[n]] + [] == [rs[n]];
  }

  // ------------------------------------------------------------------ the file

  const BlockSize := 32768

  datatype Append = Committed(cursor: nat) | Torn
  datatype Read = Page(records: seq<(Bytes, nat)>, next: nat) | Malformed

  method Framed(lines: seq<Bytes>) returns (record: Bytes)
    ensures record == Frame(lines)
  {
    record := [];
    for i := 0 to |lines|
      invariant record == Frame(lines[..i])
    {
      assert lines[..i + 1] == lines[..i] + [lines[i]] && [lines[i]] + [] == [lines[i]];
      FrameAppend(lines[..i], [lines[i]]);
      FrameCons(lines[i], []);
      record := record + lines[i] + [NL];
    }
    assert lines[..|lines|] == lines;
  }

  class File {
    var data: Bytes

    constructor ()
      ensures data == []
    {
      data := [];
    }

    /** Search backwards, one block at a time, for the last newline. */
    method CompleteRecordSize() returns (n: nat)
      ensures n == CompleteSize(data)
    {
      var end: nat := |data|;
      while end > 0
        invariant end <= |data| && forall i :: end <= i < |data| ==> data[i] != NL
      {
        var start: nat := if end > BlockSize then end - BlockSize else 0;
        var i: nat := end;
        while i > start
          invariant start <= i <= end && forall j :: i <= j < end ==> data[j] != NL
        {
          if data[i - 1] == NL {
            CompleteAt(data, i);
            return i;
          }
          i := i - 1;
        }
        end := start;
      }
      CompleteAt(data, 0);
      return 0;
    }

    /** Truncate the torn tail and write all lines at once. The process may die with only `kept` bytes of
        the write on disk. */
    method AppendRecords(lines: seq<Bytes>, kept: nat) returns (r: Append)
      requires AllWhole(lines)
      modifies this
      ensures r.Committed? <==> kept >= |Frame(lines)|
      ensures r.Committed? ==> Records(data) == Records(old(data)) + lines && r.cursor == CompleteSize(data)
      ensures r.Torn? ==> Kept(lines, kept) < |lines| && Records(data) == Records(old(data)) + lines[..Kept(lines, kept)]
      ensures CompleteSize(old(data)) <= |data| && data[..CompleteSize(old(data))] == old(data)[..CompleteSize(old(data))]
    {
      hide CompleteSize, Records, Kept, Frame;
      var end := CompleteRecordSize();
      var record := Framed(lines);
      data := data[..end];
      var written := if kept < |record| then kept else |record|;
      AppendCommits(old(data), lines, written);
      data := data + record[..written];
      assert data == Appended(old(data), lines, written);
      if written < |record| { return Torn; }
      assert lines[..Kept(lines, written)] == lines;
      return Committed(end + |record|);
    }

    /** A page behind a cursor: exactly the offsets of record boundaries are accepted. */
    method ReadAfter(offset: nat, limit: nat, header: Bytes -> bool) returns (r: Read)
      requires forall k :: 0 <= k < |Records(data)| ==> Clean(Records(data)[k])
      ensures r.Malformed? <==> !exists i :: 0 <= i <= |Records(data)| && offset == Offset(Records(data), i)
      ensures forall i :: 0 <= i <= |Records(data)| && offset == Offset(Records(data), i) ==>
                var es := Limited(Entries(header, Records(data), i), limit);
                && r.Page? && |r.records| == |es|
                && forall k :: 0 <= k < |es| ==> es[k].index <= |Records(data)| && r.records[k] == (es[k].body, Offset(Records(data), es[k].index))
    {
      hide CompleteSize, Records, Entries;
      var complete := CompleteRecordSize();
      ghost var rs := Records(data);
      Decompose(data);
      if offset > complete {
        forall i | 0 <= i <= |rs| ensures offset != Offset(rs, i) { OffsetBound(rs, i); }
        return Malformed;
      }
      if offset > 0 {
        BoundaryIff(rs, offset);
        if data[offset - 1] != NL { return Malformed; }
      } else {
        assert rs[..0] == [] && Offset(rs, 0) == 0;
      }
      ghost var i :| 0 <= i <= |rs| && offset == Offset(rs, i);
      forall j | 0 <= j <= |rs| && offset == Offset(rs, j) ensures j == i { OneIndex(rs, i, j); }
      var out, next := DecodePage(data, offset, complete, limit, header, rs, i);
      return Page(out, next);
    }
  }

  lemma OneIndex(rs: seq<Bytes>, i: nat, j: nat)
    requires i <= |rs| && j <= |rs| && Offset(rs, i) == Offset(rs, j)
    ensures i == j
  {
    if i < j { OffsetGrows(rs, i, j); }
    if j < i { OffsetGrows(rs, j, i); }
  }
}
