/** The jsonlstore inventory catalog: one file of rows per scope, in listing order, paged by byte
    position. The reader variant carries a row ordinal beside the position. */
module InventoryCatalog {
  import opened ByteOrder
  import opened Lines
  import opened SessionIndex
  import EventFile
  import MetadataPages

  // ------------------------------------------------------------------ writing the catalog

  /** Newest first, then by id; rows with the same time and id stay as they are. */
  function Insert(s: seq<Row>, r: Row): seq<Row> {
    if s == [] || MetadataPages.RowBefore(r, s[0]) then [r] + s else [s[0]] + Insert(s[1..], r)
  }

  predicate OneRowPerId(rows: seq<Row>) {
    forall i, j :: 0 <= i < j < |rows| ==> rows[i].id != rows[j].id
  }

  lemma {:induction false} InsertSorts(s: seq<Row>, r: Row)
    requires MetadataPages.Ordered(s) && forall i :: 0 <= i < |s| ==> s[i].id != r.id
    ensures MetadataPages.Ordered(Insert(s, r)) && multiset(Insert(s, r)) == multiset(s) + multiset{r}
  {
    hide MetadataPages.RowBefore;
    if s == [] {
    } else if MetadataPages.RowBefore(r, s[0]) {
      forall i | 0 <= i < |s| ensures MetadataPages.RowBefore(r, s[i]) {
        if i > 0 { BeforeTrans(r, s[0], s[i]); }
      }
    } else {
      InsertSorts(s[1..], r);
      MetadataPages.BeforeTotal(s[0], r);
      var t := Insert(s[1..], r);
      assert s == [s[0]] + s[1..];
      forall i | 0 <= i < |t| ensures MetadataPages.RowBefore(s[0], t[i]) {
        assert t[i] in multiset(t);
        assert t[i] in s[1..] || t[i] == r;
      }
    }
  }

  lemma BeforeTrans(a: Row, b: Row, c: Row)
    requires MetadataPages.RowBefore(a, b) && MetadataPages.RowBefore(b, c)
    ensures MetadataPages.RowBefore(a, c)
  {
    if Less(a.id, b.id) && Less(b.id, c.id) { LessTrans(a.id, b.id, c.id); }
  }

  /** The inventory in listing order. */
  method Sort(rows: seq<Row>) returns (sorted: seq<Row>)
    requires OneRowPerId(rows)
    ensures multiset(sorted) == multiset(rows) && MetadataPages.Ordered(sorted)
  {
    hide MetadataPages.RowBefore;
    sorted := [];
    for k := 0 to |rows|
      invariant multiset(sorted) == multiset(rows[..k]) && MetadataPages.Ordered(sorted)
    {
      assert rows[..k + 1] == rows[..k] + [rows[k]];
      forall i | 0 <= i < |sorted| ensures sorted[i].id != rows[k].id {
        assert sorted[i] in multiset(rows[..k]);
        assert sorted[i] in rows[..k];
      }
      InsertSorts(sorted, rows[k]);
      sorted := Insert(sorted, rows[k]);
    }
    assert rows[..|rows|] == rows;
  }

  function Owned(rows: seq<Row>, o: Owner): seq<Row> {
    if rows == [] then []
    else Owned(rows[..|rows| - 1], o) + (if rows[|rows| - 1].owner == Some(o) then [rows[|rows| - 1]] else [])
  }

  /** What the file of a scope should hold. */
  function ScopeRows(rows: seq<Row>, sc: Scope): seq<Row> {
    match sc case All => rows case Of(o) => Owned(rows, o)
  }

  /** The loop that groups the sorted inventory by owner. */
  method Group(rows: seq<Row>) returns (grouped: map<Scope, seq<Row>>)
    ensures All in grouped && forall sc :: sc in grouped <==> sc.All? || ScopeRows(rows, sc) != []
    ensures forall sc :: sc in grouped ==> grouped[sc] == ScopeRows(rows, sc)
  {
    grouped := map[All := rows];
    for k := 0 to |rows|
      invariant All in grouped && grouped[All] == rows
      invariant forall o :: Of(o) in grouped <==> Owned(rows[..k], o) != []
      invariant forall o :: Of(o) in grouped ==> grouped[Of(o)] == Owned(rows[..k], o)
    {
      assert rows[..k + 1][..k] == rows[..k] && rows[..k + 1][k] == rows[k];
      if rows[k].owner.Some? {
        var sc := Of(rows[k].owner.value);
        grouped := grouped[sc := (if sc in grouped then grouped[sc] else []) + [rows[k]]];
      }
    }
    assert rows[..|rows|] == rows;
  }

  /** A scope holds an inventory row exactly as often as the inventory does if the owner matches, and
      no other row. */
  lemma {:induction false} OwnedIsFiltered(rows: seq<Row>, o: Owner, r: Row)
    ensures multiset(Owned(rows, o))[r] == if r.owner == Some(o) then multiset(rows)[r] else 0
  {
    if rows != [] {
      var n := |rows| - 1;
      OwnedIsFiltered(rows[..n], o, r);
      assert rows == rows[..n] + [rows[n]];
    }
  }

  lemma {:induction false} OwnedIn(rows: seq<Row>, o: Owner)
    ensures forall r :: r in Owned(rows, o) ==> r in rows && r.owner == Some(o)
  {
    if rows != [] { OwnedIn(rows[..|rows| - 1], o); }
  }

  /** And in the inventory's order. */
  lemma {:induction false} OwnedIsOrdered(rows: seq<Row>, o: Owner)
    requires MetadataPages.Ordered(rows)
    ensures MetadataPages.Ordered(Owned(rows, o))
  {
    hide MetadataPages.RowBefore;
    if rows != [] {
      var n := |rows| - 1;
      OwnedIsOrdered(rows[..n], o);
      OwnedIn(rows[..n], o);
      var front := Owned(rows[..n], o);
      forall i | 0 <= i < |front| ensures MetadataPages.RowBefore(front[i], rows[n]) {
        assert front[i] in rows[..n];
      }
    }
  }

  // ------------------------------------------------------------------ the scope file

  /** How a row is written: one line of JSON, and the way back. */
  datatype Codec = Codec(encode: Row -> Bytes, decode: Bytes -> Option<Row>)

  ghost predicate Faithful(c: Codec) {
    forall r :: Whole(c.encode(r)) && c.decode(c.encode(r)) == Some(r)
  }

  function Encoded(c: Codec, rows: seq<Row>): seq<Bytes> {
    seq(|rows|, i requires 0 <= i < |rows| => c.encode(rows[i]))
  }

  function FileOf(c: Codec, rows: seq<Row>): Bytes {
    Frame(Encoded(c, rows))
  }

  lemma EncodedWhole(c: Codec, rows: seq<Row>)
    requires Faithful(c)
    ensures AllWhole(Encoded(c, rows))
  {
  }

  /** Sort, group, and write one file and one count per scope. */
  method WriteCatalog(c: Codec, rows: seq<Row>) returns (sorted: seq<Row>, files: map<Scope, Bytes>, counts: map<Scope, nat>)
    requires OneRowPerId(rows)
    ensures multiset(sorted) == multiset(rows) && MetadataPages.Ordered(sorted)
    ensures files.Keys == counts.Keys && forall sc :: sc in files <==> sc.All? || ScopeRows(sorted, sc) != []
    ensures forall sc :: sc in files ==> files[sc] == FileOf(c, ScopeRows(sorted, sc)) && counts[sc] == |ScopeRows(sorted, sc)|
  {
    hide MetadataPages.RowBefore, Frame;
    sorted := Sort(rows);
    var grouped := Group(sorted);
    files := map sc | sc in grouped :: FileOf(c, grouped[sc]);
    counts := map sc | sc in grouped :: |grouped[sc]|;
  }

  // ------------------------------------------------------------------ one page

  /** Corrupt: the error replies for a row that does not decode or is out of order. */
  datatype Page = Page(rows: seq<Row>, next: nat, more: bool) | Restart | Corrupt

  /** The last of the first `i` rows. */
  function RowAt(s: seq<Row>, i: nat): Option<Row>
    requires i <= |s|
  {
    if i == 0 then None else Some(s[i - 1])
  }

  /** Read rows from a byte position, one more than the limit to see whether there is a next page. */
  method ReadScopePage(c: Codec, data: Bytes, position: nat, cursor: Option<Row>, limit: nat, ghost s: seq<Row>, ghost i: nat)
    returns (p: Page)
    requires Faithful(c) && data == FileOf(c, s) && MetadataPages.Ordered(s)
    requires i <= |s| && position == Offset(Encoded(c, s), i) && cursor == RowAt(s, i)
    ensures p == Page(s[i..MetadataPages.End(|s|, i, limit)], Offset(Encoded(c, s), MetadataPages.End(|s|, i, limit)), MetadataPages.End(|s|, i, limit) < |s|)
  {
    hide Frame, Offset, FirstLine, Faithful, AllWhole, FileOf;
    ghost var lines, n := Encoded(c, s), i;
    assert data == Frame(lines) && |lines| == |s| by { FileLines(c, s); }
    assert AllWhole(lines) by { EncodedWhole(c, s); }
    var rows: seq<Row> := [];
    var pos, next := position, position;
    EventFile.OffsetBound(lines, n);
    while |rows| <= limit
      invariant i <= n <= |s| && n == i + |rows| && rows == s[i..n] && |rows| <= limit
      invariant pos == next == Offset(lines, n) <= |data|
      decreases |s| - n
    {
      if pos == |data| {
        EventFile.EndReached(lines, n);
        return Page(rows, next, false);
      }
      LineIn(lines, n, data);
      var length := FirstLine(data[pos..]);
      var row := c.decode(data[pos..pos + length]);
      assert row == Some(s[n]) by { RowDecodes(c, s, n); }
      if row.None? { return if cursor.Some? then Restart else Corrupt; }
      if cursor.Some? && |rows| == 0 && !MetadataPages.RowBefore(cursor.value, row.value) { return Restart; }
      if |rows| > 0 && !MetadataPages.RowBefore(rows[|rows| - 1], row.value) { return Corrupt; }
      if |rows| == limit { return Page(rows, next, true); }
      rows := rows + [row.value];
      pos := pos + length + 1;
      next := next + length + 1;
      n := n + 1;
      EventFile.OffsetBound(lines, n);
    }
    assert false;
  }

  lemma FileLines(c: Codec, s: seq<Row>)
    ensures FileOf(c, s) == Frame(Encoded(c, s)) && |Encoded(c, s)| == |s|
  {
  }

  lemma RowDecodes(c: Codec, s: seq<Row>, n: nat)
    requires Faithful(c) && n < |s|
    ensures c.decode(Encoded(c, s)[n]) == Some(s[n])
  {
  }

  lemma LineIn(lines: seq<Bytes>, n: nat, data: Bytes)
    requires data == Frame(lines) && AllWhole(lines) && n <= |lines| && Offset(lines, n) < |data|
    ensures n < |lines| && NL in data[Offset(lines, n)..] && FirstLine(data[Offset(lines, n)..]) == |lines[n]|
    ensures data[Offset(lines, n)..Offset(lines, n) + |lines[n]|] == lines[n]
    ensures Offset(lines, n + 1) == Offset(lines, n) + |lines[n]| + 1
  {
    assert data[..|data|] == data;
    EventFile.LineAt(lines, n, data, |data|);
    assert data[Offset(lines, n)..|data|] == data[Offset(lines, n)..];
  }

  /** A line, up to a newline or the end of the file, and how many bytes it takes. */
  function NextLine(rest: Bytes): (Bytes, nat) {
    if NL in rest then (rest[..FirstLine(rest)], FirstLine(rest) + 1) else (rest, |rest|)
  }

  /** What the loop reads, as a function of the bytes: rows while there is room, the first after the cursor's,
      each other after the one before. */
  function Scan(c: Codec, data: Bytes, pos: nat, cursor: Option<Row>, prev: Option<Row>, room: nat): Page
    decreases |data| - pos
  {
    if pos >= |data| then Page([], pos, false)
    else
      var (line, taken) := NextLine(data[pos..]);
      match c.decode(line)
      case None => if cursor.Some? then Restart else Corrupt
      case Some(row) =>
        if prev.None? && cursor.Some? && !MetadataPages.RowBefore(cursor.value, row) then Restart
        else if prev.Some? && !MetadataPages.RowBefore(prev.value, row) then Corrupt
        else if room == 0 then Page([], pos, true)
        else
          var tail := Scan(c, data, pos + taken, cursor, Some(row), room - 1);
          if tail.Page? then tail.(rows := [row] + tail.rows) else tail
  }

  /** What comes next is after the row before it. */
  predicate Fits(s: seq<Row>, i: nat, before: Option<Row>) {
    i < |s| && before.Some? ==> MetadataPages.RowBefore(before.value, s[i])
  }

  lemma LineNext(lines: seq<Bytes>, n: nat, data: Bytes)
    requires data == Frame(lines) && AllWhole(lines) && n <= |lines| && Offset(lines, n) < |data|
    ensures n < |lines| && NextLine(data[Offset(lines, n)..]) == (lines[n], |lines[n]| + 1)
    ensures Offset(lines, n + 1) == Offset(lines, n) + |lines[n]| + 1
  {
    hide Frame, FirstLine, Offset, AllWhole;
    LineIn(lines, n, data);
    var off := Offset(lines, n);
    assert data[off..][..|lines[n]|] == data[off..off + |lines[n]|];
  }

  /** From row `i` of a scope file, behind a cursor or a row that comes before it. */
  lemma {:induction false} ScanFrom(c: Codec, s: seq<Row>, i: nat, cursor: Option<Row>, prev: Option<Row>, room: nat)
    requires Faithful(c) && MetadataPages.Ordered(s) && i <= |s|
    requires Fits(s, i, if prev.Some? then prev else cursor)
    ensures var end := MetadataPages.End(|s|, i, room);
            Scan(c, FileOf(c, s), Offset(Encoded(c, s), i), cursor, prev, room) == Page(s[i..end], Offset(Encoded(c, s), end), end < |s|)
    decreases |s| - i
  {
    hide Frame, FirstLine, Faithful, AllWhole, FileOf, Offset, MetadataPages.RowBefore, NextLine;
    var lines, data := Encoded(c, s), FileOf(c, s);
    FileLines(c, s);
    EncodedWhole(c, s);
    EventFile.OffsetBound(lines, i);
    if i == |s| {
      AtEnd(lines);
      assert s[i..i] == [];
    } else {
      NotAtEnd(lines, i);
      LineNext(lines, i, data);
      RowDecodes(c, s, i);
      if room > 0 {
        ScanFrom(c, s, i + 1, cursor, Some(s[i]), room - 1);
        var end := MetadataPages.End(|s|, i, room);
        assert [s[i]] + s[i + 1..end] == s[i..end];
      } else {
        assert s[i..i] == [];
      }
    }
  }

  /** The page behind row `i` of a scope file. */
  lemma ScanAt(c: Codec, s: seq<Row>, i: nat, room: nat)
    requires Faithful(c) && MetadataPages.Ordered(s) && i <= |s|
    ensures var end := MetadataPages.End(|s|, i, room);
            Scan(c, FileOf(c, s), Offset(Encoded(c, s), i), RowAt(s, i), None, room) == Page(s[i..end], Offset(Encoded(c, s), end), end < |s|)
  {
    hide Scan, FileOf, Faithful, Offset;
    ScanFrom(c, s, i, RowAt(s, i), None, room);
  }

  /** At a row boundary the cursor's row decides: the listing restarts exactly if that row does not come before
      the next one in the file, and otherwise goes on from there. */
  lemma ScanRestartsExactly(c: Codec, s: seq<Row>, i: nat, row: Row, room: nat)
    requires Faithful(c) && MetadataPages.Ordered(s) && i <= |s|
    ensures var p := Scan(c, FileOf(c, s), Offset(Encoded(c, s), i), Some(row), None, room);
            if Fits(s, i, Some(row)) then p == Page(s[i..MetadataPages.End(|s|, i, room)],
                                                   Offset(Encoded(c, s), MetadataPages.End(|s|, i, room)), MetadataPages.End(|s|, i, room) < |s|)
            else p.Restart?
  {
    hide Frame, FirstLine, Faithful, AllWhole, FileOf, Offset, MetadataPages.RowBefore, NextLine;
    if Fits(s, i, Some(row)) {
      ScanFrom(c, s, i, Some(row), None, room);
    } else {
      FileLines(c, s);
      EncodedWhole(c, s);
      NotAtEnd(Encoded(c, s), i);
      LineNext(Encoded(c, s), i, FileOf(c, s));
      RowDecodes(c, s, i);
    }
  }

  lemma AtEnd(lines: seq<Bytes>)
    ensures Offset(lines, |lines|) == |Frame(lines)|
  {
    assert lines[..|lines|] == lines;
  }

  lemma NotAtEnd(lines: seq<Bytes>, i: nat)
    requires i < |lines|
    ensures Offset(lines, i) < |Frame(lines)|
  {
    OffsetGrows(lines, i, |lines|);
    AtEnd(lines);
  }

  // ------------------------------------------------------------------ the reader and its ordinal

  /** The file of one scope with what the manifest says about it. */
  datatype ScopeFile = ScopeFile(generation: string, scope: string, data: Bytes, total: nat)

  /** The reader's cursor carries the number of rows read so far beside the byte position. */
  datatype Cursor = Cursor(row: Row, generation: string, scope: string, position: nat, ordinal: int)

  datatype Answer = Rows(rows: seq<Row>, next: Option<Cursor>) | Restarted | Unavailable

  function Served(c: Codec, f: ScopeFile, cursor: Option<Cursor>, limit: nat): Page {
    if cursor.None? then Scan(c, f.data, 0, None, None, limit)
    else if cursor.value.generation != f.generation || cursor.value.scope != f.scope then Restart
    else Scan(c, f.data, cursor.value.position, Some(cursor.value.row), None, limit)
  }

  /** One request of the reader against a scope file and the count in the manifest. */
  function Read(c: Codec, f: ScopeFile, cursor: Option<Cursor>, limit: nat): Answer {
    var consumed := if cursor.None? then 0 else cursor.value.ordinal;
    if cursor.Some? && consumed <= 0 then Restarted else
    match Served(c, f, cursor, limit)
    case Restart => Restarted
    case Corrupt => Unavailable
    case Page(rows, next, more) =>
      if rows == [] && !more && f.total > 0 then Unavailable
      else if consumed > f.total || |rows| > f.total - consumed then Unavailable
      else
        var end := consumed + |rows|;
        var last := more && rows != [];
        if limit > 0 && (!last) != (end == f.total) then Unavailable
        else Rows(rows, if last then Some(Cursor(rows[|rows| - 1], f.generation, f.scope, next, end)) else None)
  }

  datatype Ending = Done | Open | Failed

  /** Ask for pages until there is no next cursor: the rows, the number of requests, and how it ended. */
  function Chain(c: Codec, f: ScopeFile, cursor: Option<Cursor>, limits: seq<nat>): (seq<Row>, nat, Ending)
    decreases |limits|
  {
    if limits == [] then ([], 0, Open) else
    match Read(c, f, cursor, limits[0])
    case Restarted => ([], 1, Failed)
    case Unavailable => ([], 1, Failed)
    case Rows(rows, next) =>
      if next.None? then (rows, 1, Done) else
      var (more, requests, end) := Chain(c, f, next, limits[1..]);
      (rows + more, requests + 1, end)
  }

  /** The cursor that a chain holds after `i` rows. */
  function CursorAt(c: Codec, f: ScopeFile, s: seq<Row>, i: nat): Option<Cursor>
    requires i <= |s|
  {
    if i == 0 then None else Some(Cursor(s[i - 1], f.generation, f.scope, Offset(Encoded(c, s), i), i))
  }

  /** The file holds the rows of `s`, in listing order. */
  ghost predicate Lists(c: Codec, f: ScopeFile, s: seq<Row>) {
    Faithful(c) && f.data == FileOf(c, s) && MetadataPages.Ordered(s)
  }

  lemma ServedAt(c: Codec, f: ScopeFile, s: seq<Row>, i: nat, limit: nat)
    requires Lists(c, f, s) && i <= |s|
    ensures var end := MetadataPages.End(|s|, i, limit);
            Served(c, f, CursorAt(c, f, s, i), limit) == Page(s[i..end], Offset(Encoded(c, s), end), end < |s|)
  {
    hide FileOf, Faithful, Frame, Scan;
    ScanAt(c, s, i, limit);
    StartsAtZero(Encoded(c, s));
  }

  lemma StartsAtZero(lines: seq<Bytes>)
    ensures Offset(lines, 0) == 0
  {
    assert lines[..0] == [];
  }

  /** With any count in the manifest, a request after `i` rows passes the ordinal checks exactly if it is not
      the last page and the count is not yet reached, or the last one and the count is. */
  lemma ReadAt(c: Codec, f: ScopeFile, s: seq<Row>, i: nat, limit: nat)
    requires Lists(c, f, s) && i <= |s| && limit > 0 && (i < |s| || i == 0)
    ensures var end := MetadataPages.End(|s|, i, limit);
            var r := Read(c, f, CursorAt(c, f, s, i), limit);
            if (end < |s| && end < f.total) || (end == |s| && end == f.total)
            then r == Rows(s[i..end], if end < |s| then CursorAt(c, f, s, end) else None)
            else r == Unavailable
  {
    hide Lists, Served, Offset, Encoded;
    ServedAt(c, f, s, i, limit);
  }

  /** With a cursor at a row boundary, the reader restarts exactly if the cursor is of another generation or
      scope, carries no ordinal, or its row does not come before the next one. */
  lemma ReadRestartsExactly(c: Codec, f: ScopeFile, s: seq<Row>, i: nat, cursor: Cursor, limit: nat)
    requires Lists(c, f, s) && i <= |s| && cursor.position == Offset(Encoded(c, s), i)
    ensures Read(c, f, Some(cursor), limit).Restarted? <==>
              || cursor.generation != f.generation || cursor.scope != f.scope || cursor.ordinal <= 0
              || (i < |s| && !MetadataPages.RowBefore(cursor.row, s[i]))
  {
    hide Scan, FileOf, Faithful, Offset, Encoded, MetadataPages.RowBefore, MetadataPages.Ordered;
    ScanRestartsExactly(c, s, i, cursor.row, limit);
  }

  function Sum(limits: seq<nat>): nat {
    if limits == [] then 0 else limits[0] + Sum(limits[1..])
  }

  /** Requests that a chain over `n` rows makes. */
  function Requests(n: nat, limits: seq<nat>): nat {
    if limits == [] then 0 else if n <= limits[0] then 1 else 1 + Requests(n - limits[0], limits[1..])
  }

  lemma {:induction false} ChainAt(c: Codec, f: ScopeFile, s: seq<Row>, i: nat, limits: seq<nat>)
    requires Lists(c, f, s) && f.total == |s| && (i < |s| || i == 0) && i <= |s| && forall k :: 0 <= k < |limits| ==> limits[k] > 0
    ensures Chain(c, f, CursorAt(c, f, s, i), limits)
            == (s[i..MetadataPages.End(|s|, i, Sum(limits))], Requests(|s| - i, limits),
                if limits != [] && |s| <= i + Sum(limits) then Done else Open)
    decreases |limits|
  {
    hide Lists, Read, Offset, Encoded;
    if limits == [] {
      assert s[i..i] == [];
    } else {
      ReadAt(c, f, s, i, limits[0]);
      var end := MetadataPages.End(|s|, i, limits[0]);
      if end < |s| {
        ChainAt(c, f, s, end, limits[1..]);
        MetadataPages.Adjacent(s, i, end, MetadataPages.End(|s|, i, Sum(limits)));
      }
    }
  }

  /** Chained pages with any positive limits reproduce the scope, never fail a check, and end exactly when
      the scope is exhausted. */
  lemma ChainReproduces(c: Codec, f: ScopeFile, s: seq<Row>, limits: seq<nat>)
    requires Lists(c, f, s) && f.total == |s| && limits != [] && forall k :: 0 <= k < |limits| ==> limits[k] > 0
    ensures var (rows, requests, end) := Chain(c, f, None, limits);
            && !end.Failed? && (end.Done? <==> |s| <= Sum(limits))
            && rows == s[..MetadataPages.End(|s|, 0, Sum(limits))]
  {
    ChainAt(c, f, s, 0, limits);
    assert forall k :: 0 <= k <= |s| ==> s[0..k] == s[..k];
  }

  /** The checks are not idle: a chain over the file of `s` that comes to its end has found the count that
      the manifest gives. */
  lemma {:induction false} DoneMeansCounted(c: Codec, f: ScopeFile, s: seq<Row>, i: nat, limits: seq<nat>)
    requires Lists(c, f, s) && (i < |s| || i == 0) && i <= |s| && forall k :: 0 <= k < |limits| ==> limits[k] > 0
    ensures Chain(c, f, CursorAt(c, f, s, i), limits).2.Done? ==> f.total == |s|
    decreases |limits|
  {
    hide Lists, Read, Offset, Encoded;
    if limits != [] {
      ReadAt(c, f, s, i, limits[0]);
      var end := MetadataPages.End(|s|, i, limits[0]);
      if end < |s| { DoneMeansCounted(c, f, s, end, limits[1..]); }
    }
  }

  function Repeat(limit: nat, k: nat): seq<nat> {
    if k == 0 then [] else [limit] + Repeat(limit, k - 1)
  }

  function Ceiling(n: nat, l: nat): nat
    requires l > 0 && n > 0
  {
    (n + l - 1) / l
  }

  /** With one limit a chain over n > 0 rows takes n/limit requests, rounded up. */
  lemma PagesAreCeiling(c: Codec, f: ScopeFile, s: seq<Row>, limit: nat, k: nat)
    requires Lists(c, f, s) && f.total == |s| && limit > 0 && s != [] && k >= Ceiling(|s|, limit)
    ensures var (rows, requests, end) := Chain(c, f, None, Repeat(limit, k));
            rows == s && end.Done? && requests == Ceiling(|s|, limit)
  {
    hide Ceiling, Repeat, Sum, Requests, Chain, FileOf;
    CeilingEnough(|s|, limit, k);
    RepeatPositive(limit, k);
    ChainAt(c, f, s, 0, Repeat(limit, k));
    assert s[0..|s|] == s;
  }

  lemma {:induction false} RepeatPositive(limit: nat, k: nat)
    requires limit > 0
    ensures |Repeat(limit, k)| == k && forall i :: 0 <= i < k ==> Repeat(limit, k)[i] > 0
  {
    if k > 0 { RepeatPositive(limit, k - 1); }
  }

  lemma {:induction false} CeilingEnough(n: nat, limit: nat, k: nat)
    requires n > 0 && limit > 0 && k >= Ceiling(n, limit)
    ensures k > 0 && Sum(Repeat(limit, k)) >= n && Requests(n, Repeat(limit, k)) == Ceiling(n, limit)
    decreases n
  {
    hide Ceiling;
    CeilingStep(n, limit);
    if n > limit {
      CeilingEnough(n - limit, limit, k - 1);
    }
    assert Repeat(limit, k) == [limit] + Repeat(limit, k - 1);
    assert Repeat(limit, k)[1..] == Repeat(limit, k - 1);
  }

  lemma CeilingStep(n: nat, l: nat)
    requires n > 0 && l > 0
    ensures n <= l ==> Ceiling(n, l) == 1
    ensures n > l ==> Ceiling(n, l) == 1 + Ceiling(n - l, l)
  {
    var m := n - 1;
    var q, r := m / l, m % l;
    assert m == q * l + r;
    DivUnique(m + l, l, q + 1, r);
    if n <= l { DivUnique(m, l, 0, m); }
  }

  lemma DivUnique(a: nat, l: nat, q: nat, r: nat)
    requires l > 0 && a == q * l + r && r < l
    ensures a / l == q
  {
    var p, t := a / l, a % l;
    assert a == p * l + t;
    Apart(p, q, l);
    Apart(q, p, l);
  }

  lemma {:induction false} Apart(p: nat, q: nat, l: nat)
    requires l > 0
    ensures p < q ==> q * l >= p * l + l
    decreases q
  {
    if p < q {
      assert q * l == (q - 1) * l + l;
      Apart(p, q - 1, l);
    }
  }
}
