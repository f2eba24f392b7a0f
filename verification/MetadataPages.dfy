/** Keyset paging over one scope of the metadata index: the page script, the continuation cursor, chains of
    pages over a live index, and the checks that the remote client makes on every page it receives. */
module MetadataPages {
  import opened ByteOrder
  import opened SessionIndex
  import SessionIndexRuns
  import IndexKeys
  import Decimal

  predicate RowBefore(a: Row, b: Row) {
    IndexKeys.Before(a.modifiedAt, a.id, b.modifiedAt, b.id)
  }

  /** The payload of a member, base64 of the row's JSON, and the way back. */
  datatype Codec = Codec(payload: Row -> Bytes, decode: Bytes -> Option<Row>)

  ghost predicate Faithful(c: Codec) {
    forall r :: c.decode(c.payload(r)) == Some(r)
  }

  function MemberOf(c: Codec, r: Row): Bytes
    requires IndexKeys.IsNano(r.modifiedAt)
  {
    IndexKeys.Member(r.modifiedAt, r.id, c.payload(r))
  }

  /** Rows of one scope: one per id, with times after the epoch. */
  predicate Proper(rows: set<Row>) {
    && (forall r :: r in rows ==> ProperRow(r))
    && (forall r, q :: r in rows && q in rows && r.id == q.id ==> r == q)
  }

  predicate ProperRow(r: Row) {
    0 <= r.modifiedAt && IndexKeys.IsNano(r.modifiedAt) && r.id != []
  }

  function Elems(s: seq<Row>): set<Row> {
    set r | r in s
  }

  predicate MemberLess(c: Codec, a: Row, b: Row)
    requires ProperRow(a) && ProperRow(b)
  {
    Less(MemberOf(c, a), MemberOf(c, b))
  }

  /** The rows in the order Redis keeps them: by member bytes. */
  predicate Listing(c: Codec, s: seq<Row>, rows: set<Row>) {
    && Proper(rows) && Elems(s) == rows
    && (forall i :: 0 <= i < |s| ==> ProperRow(s[i]))
    && forall i, j :: 0 <= i < j < |s| ==> MemberLess(c, s[i], s[j])
  }

  predicate Ordered(s: seq<Row>) {
    forall i, j :: 0 <= i < j < |s| ==> RowBefore(s[i], s[j])
  }

  lemma ListedIn(c: Codec, s: seq<Row>, rows: set<Row>)
    requires Listing(c, s, rows)
    ensures forall k :: 0 <= k < |s| ==> s[k] in rows && ProperRow(s[k])
  {
    forall k | 0 <= k < |s| ensures s[k] in rows { assert s[k] in Elems(s); }
  }

  /** Byte order is newest first, then by id, and no row comes twice. */
  lemma ListingIsOrdered(c: Codec, s: seq<Row>, rows: set<Row>)
    requires Listing(c, s, rows)
    ensures Ordered(s) && forall i, j :: 0 <= i < j < |s| ==> s[i].id != s[j].id
  {
    hide Less, IndexKeys.Member;
    ListedIn(c, s, rows);
    forall i, j | 0 <= i < j < |s| ensures RowBefore(s[i], s[j]) && s[i].id != s[j].id {
      assert MemberLess(c, s[i], s[j]);
      LessTotal(MemberOf(c, s[i]), MemberOf(c, s[i]));
      IndexKeys.MemberOrder(s[i].modifiedAt, s[i].id, c.payload(s[i]), s[j].modifiedAt, s[j].id, c.payload(s[j]));
    }
  }

  lemma BeforeTotal(a: Row, b: Row)
    ensures RowBefore(a, b) || RowBefore(b, a) || (a.modifiedAt == b.modifiedAt && a.id == b.id)
    ensures !(RowBefore(a, b) && RowBefore(b, a)) && !RowBefore(a, a)
  {
    LessTotal(a.id, b.id);
    LessTotal(a.id, a.id);
  }

  // ------------------------------------------------------------------ one page

  /** The cursor that a page hands out: its last row, the generation and scope it was read in, and the
      member to continue behind. */
  datatype Cursor = Cursor(modifiedAt: int, id: Id, generation: string, scope: string, continuation: Bytes)

  datatype Page = Page(rows: seq<Row>, total: nat, next: Option<Cursor>) | Restart

  const TokenPrefix: Bytes := [114, 101, 100, 105, 115, 45, 118, 49, 46]

  function Token(member: Bytes): Bytes {
    TokenPrefix + Hex(member)
  }

  function Untoken(t: Bytes): Option<Bytes> {
    if |t| <= |TokenPrefix| || t[..|TokenPrefix|] != TokenPrefix then None
    else match Unhex(t[|TokenPrefix|..])
         case None => None
         case Some(m) => if Token(m) == t then Some(m) else None
  }

  /** A member decodes to a row if its framing holds and frame and payload name one id. */
  function DecodeMember(c: Codec, m: Bytes): Option<Row> {
    match IndexKeys.Unframe(m)
    case None => None
    case Some((id, p)) =>
      match c.decode(p)
      case None => None
      case Some(r) => if r.id == id then Some(r) else None
  }

  function CursorFor(c: Codec, r: Row, generation: string, scope: string): Cursor
    requires IndexKeys.IsNano(r.modifiedAt)
  {
    Cursor(r.modifiedAt, r.id, generation, scope, Token(MemberOf(c, r)))
  }

  /** The member that a request continues behind, if its cursor is one of this scope. */
  function Boundary(c: Codec, cursor: Cursor, scope: string): Option<Bytes> {
    match Untoken(cursor.continuation)
    case None => None
    case Some(m) =>
      if cursor.scope != scope then None else
      match DecodeMember(c, m)
      case None => None
      case Some(r) => if r.id == cursor.id && r.modifiedAt == cursor.modifiedAt then Some(m) else None
  }

  /** A cursor made for a row leads back to the row's member. */
  lemma CursorRoundTrip(c: Codec, r: Row, generation: string, scope: string)
    requires Faithful(c) && IndexKeys.IsNano(r.modifiedAt)
    ensures Boundary(c, CursorFor(c, r, generation, scope), scope) == Some(MemberOf(c, r))
  {
    hide IndexKeys.Member, IndexKeys.Unframe, Hex, Unhex;
    var m := MemberOf(c, r);
    HexRoundTrip(m);
    HexDigits(m);
    assert Token(m)[..|TokenPrefix|] == TokenPrefix && Token(m)[|TokenPrefix|..] == Hex(m);
    IndexKeys.MemberUnframes(r.modifiedAt, r.id, c.payload(r));
    MemberLong(c, r);
  }

  lemma MemberLong(c: Codec, r: Row)
    requires IndexKeys.IsNano(r.modifiedAt)
    ensures |Hex(MemberOf(c, r))| > 0
  {
    HexNumLength(IndexKeys.Inverse(r.modifiedAt), 16);
    HexDigits(MemberOf(c, r));
  }

  /** ZRANGEBYLEX from just behind a member to the end. */
  function Rest(c: Codec, s: seq<Row>, behind: Option<Bytes>): seq<Row>
    requires forall i :: 0 <= i < |s| ==> ProperRow(s[i])
  {
    if behind.None? || s == [] then s
    else if assert ProperRow(s[0]); Less(behind.value, MemberOf(c, s[0])) then s
    else Rest(c, s[1..], behind)
  }

  /** One row more than the limit is asked for, to learn whether there is a next page. */
  function PageOf(c: Codec, s: seq<Row>, behind: Option<Bytes>, limit: nat, generation: string, scope: string): Page
    requires forall i :: 0 <= i < |s| ==> ProperRow(s[i])
  {
    var rest := Rest(c, s, behind);
    var values := if |rest| > limit + 1 then rest[..limit + 1] else rest;
    var more := |values| > limit;
    var rows := if more then values[..limit] else values;
    Page(rows, |s|, if more && |rows| > 0 && ProperRow(rows[|rows| - 1]) then Some(CursorFor(c, rows[|rows| - 1], generation, scope)) else None)
  }

  /** The whole request: a foreign cursor or another generation restarts the listing. */
  function Serve(c: Codec, s: seq<Row>, generation: string, scope: string, cursor: Option<Cursor>, limit: nat): Page
    requires forall i :: 0 <= i < |s| ==> ProperRow(s[i])
  {
    if cursor.None? then PageOf(c, s, None, limit, generation, scope)
    else match Boundary(c, cursor.value, scope)
         case None => Restart
         case Some(m) => if cursor.value.generation != generation then Restart else PageOf(c, s, Some(m), limit, generation, scope)
  }

  /** The cursor behind the first `i` rows. */
  function CursorAt(c: Codec, s: seq<Row>, i: nat, generation: string, scope: string): Option<Cursor>
    requires i <= |s| && forall k :: 0 <= k < |s| ==> ProperRow(s[k])
  {
    if i == 0 then None else assert ProperRow(s[i - 1]); Some(CursorFor(c, s[i - 1], generation, scope))
  }

  lemma {:induction false} RestAt(c: Codec, s: seq<Row>, i: nat, from: nat, rows: set<Row>)
    requires Listing(c, s, rows) && 0 < i <= |s| && from <= i
    ensures Rest(c, s[from..], Some(MemberOf(c, s[i - 1]))) == s[i..]
    decreases |s| - from
  {
    hide Less, IndexKeys.Member;
    if from < |s| {
      assert s[from..][0] == s[from] && s[from..][1..] == s[from + 1..];
      if from < i {
        LessTotal(MemberOf(c, s[i - 1]), MemberOf(c, s[from]));
        if from < i - 1 { assert MemberLess(c, s[from], s[i - 1]); }
        RestAt(c, s, i, from + 1, rows);
      } else {
        assert MemberLess(c, s[i - 1], s[i]);
      }
    }
  }

  function End(n: nat, i: nat, limit: nat): nat
    requires i <= n
  {
    if i + limit <= n then i + limit else n
  }

  /** The answer to a request with the cursor behind the first `i` rows, under one generation. */
  lemma ServeAt(c: Codec, s: seq<Row>, i: nat, limit: nat, rows: set<Row>, generation: string, scope: string)
    requires Faithful(c) && Listing(c, s, rows) && i <= |s| && limit > 0
    ensures var end := End(|s|, i, limit);
            Serve(c, s, generation, scope, CursorAt(c, s, i, generation, scope), limit)
            == Page(s[i..end], |s|, if end < |s| then CursorAt(c, s, end, generation, scope) else None)
  {
    hide Listing, Rest, IndexKeys.Member, Boundary, CursorFor, Faithful;
    assert forall k :: 0 <= k < |s| ==> ProperRow(s[k]) by { ListedIn(c, s, rows); }
    assert s[0..] == s;
    if i > 0 {
      CursorRoundTrip(c, s[i - 1], generation, scope);
      RestAt(c, s, i, 0, rows);
      CursorFields(c, s[i - 1], generation, scope);
    } else {
      WholeRest(c, s);
    }
    Sliced(s, i, limit);
  }

  lemma WholeRest(c: Codec, s: seq<Row>)
    requires forall i :: 0 <= i < |s| ==> ProperRow(s[i])
    ensures Rest(c, s, None) == s
  {
  }

  lemma CursorFields(c: Codec, r: Row, generation: string, scope: string)
    requires IndexKeys.IsNano(r.modifiedAt)
    ensures CursorFor(c, r, generation, scope).generation == generation
  {
  }

  lemma Sliced(s: seq<Row>, i: nat, limit: nat)
    requires i <= |s|
    ensures var rest := s[i..];
            var values := if |rest| > limit + 1 then rest[..limit + 1] else rest;
            var end := End(|s|, i, limit);
            && (|values| > limit <==> end < |s|)
            && (if |values| > limit then values[..limit] else values) == s[i..end]
  {
  }

  // ------------------------------------------------------------------ every set has one listing

  lemma NonEmptyElems(t: seq<Row>)
    requires t != []
    ensures Elems(t) != {}
  {
    assert t[0] in Elems(t);
  }

  /** A set has at most one listing. */
  lemma {:induction false} ListingUnique(s: seq<Row>, t: seq<Row>)
    requires Ordered(s) && Ordered(t) && Elems(s) == Elems(t)
    ensures s == t
    decreases |s|
  {
    if s == [] {
      if t != [] { NonEmptyElems(t); }
    } else {
      assert s[0] in Elems(s) && s[0] in t;
      assert t[0] in Elems(t);
      HeadsAgree(s, t);
      TailSet(s);
      TailSet(t);
      ListingUnique(s[1..], t[1..]);
      assert s == [s[0]] + s[1..] && t == [t[0]] + t[1..];
    }
  }

  lemma HeadsAgree(s: seq<Row>, t: seq<Row>)
    requires s != [] && t != [] && Ordered(s) && Ordered(t) && Elems(s) == Elems(t)
    ensures s[0] == t[0]
  {
    assert s[0] in Elems(t) && t[0] in Elems(s);
    var i :| 0 <= i < |s| && s[i] == t[0];
    var j :| 0 <= j < |t| && t[j] == s[0];
    BeforeTotal(s[0], t[0]);
  }

  lemma TailSet(s: seq<Row>)
    requires s != [] && Ordered(s)
    ensures Elems(s[1..]) == Elems(s) - {s[0]}
  {
    forall r | r in s[1..] ensures r != s[0] {
      var i :| 0 <= i < |s[1..]| && s[1..][i] == r;
      BeforeTotal(s[0], s[i + 1]);
    }
    forall r | r in s && r != s[0] ensures r in s[1..] {
      var i :| 0 <= i < |s| && s[i] == r;
      assert s[1..][i - 1] == r;
    }
  }

  /** Where a row goes in a listing. */
  function Insert(c: Codec, s: seq<Row>, r: Row): seq<Row>
    requires ProperRow(r) && forall i :: 0 <= i < |s| ==> ProperRow(s[i])
  {
    if s == [] || MemberLess(c, r, s[0]) then [r] + s else [s[0]] + Insert(c, s[1..], r)
  }

  lemma {:induction false} InsertListing(c: Codec, s: seq<Row>, rows: set<Row>, r: Row)
    requires Listing(c, s, rows) && r !in rows && Proper(rows + {r})
    ensures Listing(c, Insert(c, s, r), rows + {r})
    decreases |s|
  {
    hide Less, IndexKeys.Member;
    ListedIn(c, s, rows);
    if s == [] || MemberLess(c, r, s[0]) {
      var t := [r] + s;
      forall j | 0 < j < |t| ensures MemberLess(c, t[0], t[j]) {
        if j > 1 {
          assert MemberLess(c, s[0], s[j - 1]);
          LessTrans(MemberOf(c, r), MemberOf(c, s[0]), MemberOf(c, s[j - 1]));
        }
      }
      forall i, j | 0 < i < j < |t| ensures MemberLess(c, t[i], t[j]) {
        assert t[i] == s[i - 1] && t[j] == s[j - 1];
        assert MemberLess(c, s[i - 1], s[j - 1]);
      }
    } else {
      ListingIsOrdered(c, s, rows);
      TailSet(s);
      assert s[0] in rows;
      InsertListing(c, s[1..], rows - {s[0]}, r);
      InsertHead(c, s, rows, r);
    }
  }

  lemma InsertHead(c: Codec, s: seq<Row>, rows: set<Row>, r: Row)
    requires Listing(c, s, rows) && s != [] && r !in rows && Proper(rows + {r}) && !MemberLess(c, r, s[0])
    requires Listing(c, Insert(c, s[1..], r), rows - {s[0]} + {r})
    ensures Listing(c, Insert(c, s, r), rows + {r})
  {
    hide Less, IndexKeys.Member;
    ListedIn(c, s, rows);
    var u := Insert(c, s[1..], r);
    ListedIn(c, u, rows - {s[0]} + {r});
    HeadLess(c, s, rows, r);
    forall j | 0 <= j < |u| ensures MemberLess(c, s[0], u[j]) {
      assert u[j] in Elems(u);
      if u[j] != r {
        assert u[j] in Elems(s);
        var k :| 0 <= k < |s| && s[k] == u[j];
        assert MemberLess(c, s[0], s[k]);
      }
    }
    ConsListing(c, s[0], u, rows - {s[0]} + {r});
    assert s[0] in Elems(s);
    assert rows - {s[0]} + {r} + {s[0]} == rows + {r};
  }

  lemma ConsListing(c: Codec, h: Row, u: seq<Row>, rows: set<Row>)
    requires Listing(c, u, rows) && ProperRow(h) && Proper(rows + {h})
    requires forall i :: 0 <= i < |u| ==> MemberLess(c, h, u[i])
    ensures Listing(c, [h] + u, rows + {h})
  {
    hide Less, IndexKeys.Member, MemberOf;
    var t := [h] + u;
    forall i, j | 0 <= i < j < |t| ensures ProperRow(t[i]) && ProperRow(t[j]) && MemberLess(c, t[i], t[j]) {
      assert t[j] == u[j - 1];
      if i > 0 {
        assert t[i] == u[i - 1];
        assert MemberLess(c, u[i - 1], u[j - 1]);
      }
    }
    assert Elems(t) == {h} + Elems(u);
  }

  lemma HeadLess(c: Codec, s: seq<Row>, rows: set<Row>, r: Row)
    requires Listing(c, s, rows) && s != [] && r !in rows && Proper(rows + {r}) && !MemberLess(c, r, s[0])
    ensures MemberLess(c, s[0], r)
  {
    hide Less, IndexKeys.Member;
    ListedIn(c, s, rows);
    assert s[0] in rows + {r} && r in rows + {r};
    IndexKeys.MemberOrder(s[0].modifiedAt, s[0].id, c.payload(s[0]), r.modifiedAt, r.id, c.payload(r));
    IndexKeys.MemberOrder(r.modifiedAt, r.id, c.payload(r), s[0].modifiedAt, s[0].id, c.payload(s[0]));
    BeforeTotal(s[0], r);
  }

  /** And it has one. */
  ghost function Listed(c: Codec, rows: set<Row>): (s: seq<Row>)
    requires Proper(rows)
    ensures Listing(c, s, rows)
    decreases |rows|
  {
    if rows == {} then []
    else
      var r :| r in rows;
      var rest := Listed(c, rows - {r});
      InsertListing(c, rest, rows - {r}, r);
      assert rows - {r} + {r} == rows;
      Insert(c, rest, r)
  }

  // ------------------------------------------------------------------ a chain over a live index

  /** Before each page the store runs some operations. */
  datatype Stage = Stage(ops: seq<Op>, limit: nat)

  datatype Ending = Done | Open | Restarted

  function GenText(st: State, sc: Scope): string {
    Decimal.Text(Gen(st.meta, sc))
  }

  /** Whenever a page is read, the rows of the scope are proper ones. */
  ghost predicate Pageable(st: State, sc: Scope, plan: seq<Stage>)
    decreases |plan|
  {
    plan == [] || (Proper(SessionIndexRuns.RowsOf(Run(st, plan[0].ops), sc)) && plan[0].limit > 0 && Pageable(Run(st, plan[0].ops), sc, plan[1..]))
  }

  ghost function LiveChain(c: Codec, st: State, sc: Scope, scope: string, cursor: Option<Cursor>, plan: seq<Stage>): (seq<Row>, Ending)
    requires Pageable(st, sc, plan)
    decreases |plan|
  {
    if plan == [] then ([], Open) else
    var t := Run(st, plan[0].ops);
    var s := Listed(c, SessionIndexRuns.RowsOf(t, sc));
    match Serve(c, s, GenText(t, sc), scope, cursor, plan[0].limit)
    case Restart => ([], Restarted)
    case Page(rows, _, next) =>
      if next.None? then (rows, Done) else
      var (more, end) := LiveChain(c, t, sc, scope, next, plan[1..]);
      (rows + more, end)
  }

  function Sum(plan: seq<Stage>): nat {
    if plan == [] then 0 else plan[0].limit + Sum(plan[1..])
  }

  lemma Adjacent(s: seq<Row>, a: nat, b: nat, c: nat)
    requires a <= b <= c <= |s|
    ensures s[a..b] + s[b..c] == s[a..c]
  {
  }

  /** Under one generation there is one listing, whatever the store does in between. */
  lemma OneGenerationOneListing(c: Codec, st: State, ops: seq<Op>, sc: Scope, s: seq<Row>)
    requires Gen(st.meta, sc) == Gen(Run(st, ops).meta, sc)
    requires Listing(c, s, SessionIndexRuns.RowsOf(st, sc)) && Proper(SessionIndexRuns.RowsOf(Run(st, ops), sc))
    ensures Listed(c, SessionIndexRuns.RowsOf(Run(st, ops), sc)) == s
  {
    hide Listed;
    var rows := SessionIndexRuns.RowsOf(st, sc);
    SessionIndexRuns.SameGenerationSameRows(st, ops, sc);
    ListingIsOrdered(c, s, rows);
    ListingIsOrdered(c, Listed(c, rows), rows);
    ListingUnique(s, Listed(c, rows));
  }

  /** Continuing behind the first `i` rows of a listing read at `st`. */
  lemma {:induction false} LiveFrom(c: Codec, st: State, sc: Scope, scope: string, s: seq<Row>, i: nat, plan: seq<Stage>)
    requires Faithful(c) && Pageable(st, sc, plan) && 0 < i < |s| && Listing(c, s, SessionIndexRuns.RowsOf(st, sc))
    ensures var (rows, end) := LiveChain(c, st, sc, scope, CursorAt(c, s, i, GenText(st, sc), scope), plan);
            var last := End(|s|, i, Sum(plan));
            && (end.Restarted? <==> !UnmovedUntil(st, sc, Gen(st.meta, sc), |s| - i, plan))
            && (!end.Restarted? ==> rows == s[i..last] && (end.Done? <==> last == |s|))
    decreases |plan|
  {
    hide Listing, Listed, Serve, Faithful, CursorFor, Run, SessionIndexRuns.RowsOf, ProperRow, Proper;
    var g := GenText(st, sc);
    ListedIn(c, s, SessionIndexRuns.RowsOf(st, sc));
    if plan == [] {
      assert s[i..i] == [];
    } else {
      var t, limit := Run(st, plan[0].ops), plan[0].limit;
      Decimal.Injective(Gen(st.meta, sc), Gen(t.meta, sc));
      if Gen(t.meta, sc) == Gen(st.meta, sc) {
        OneGenerationOneListing(c, st, plan[0].ops, sc, s);
        SessionIndexRuns.SameGenerationSameRows(st, plan[0].ops, sc);
        ServeAt(c, s, i, limit, SessionIndexRuns.RowsOf(st, sc), g, scope);
        var end := End(|s|, i, limit);
        if end < |s| {
          LiveFrom(c, t, sc, scope, s, end, plan[1..]);
          Adjacent(s, i, end, End(|s|, end, Sum(plan[1..])));
        }
      } else {
        OtherGeneration(c, s, i, st, t, sc, scope, limit);
        assert s[i..i] == [];
      }
    }
  }

  /** The generation stays `g` at every page up to the one that reaches the end of `left` rows. */
  predicate UnmovedUntil(st: State, sc: Scope, g: nat, left: nat, plan: seq<Stage>)
    decreases |plan|
  {
    plan == [] || (
      && Gen(Run(st, plan[0].ops).meta, sc) == g
      && (left <= plan[0].limit || UnmovedUntil(Run(st, plan[0].ops), sc, g, left - plan[0].limit, plan[1..])))
  }

  lemma OtherGeneration(c: Codec, s: seq<Row>, i: nat, st: State, t: State, sc: Scope, scope: string, limit: nat)
    requires 0 < i <= |s| && GenText(st, sc) != GenText(t, sc) && Proper(SessionIndexRuns.RowsOf(t, sc))
    requires forall k :: 0 <= k < |s| ==> ProperRow(s[k])
    ensures var l := Listed(c, SessionIndexRuns.RowsOf(t, sc));
            Serve(c, l, GenText(t, sc), scope, CursorAt(c, s, i, GenText(st, sc), scope), limit) == Restart
  {
    hide Listed, CursorFor;
    CursorFields(c, s[i - 1], GenText(st, sc), scope);
  }

  /** A whole chain from no cursor. Unless it is told to restart, it has listed the rows that the scope had
      at its first page, once each, newest first, up to the sum of the limits, and it ends exactly when all
      are listed. It is told to restart exactly if the generation moved at a page it still needed. */
  lemma LiveChainLists(c: Codec, st: State, sc: Scope, scope: string, plan: seq<Stage>)
    requires Faithful(c) && Pageable(st, sc, plan) && plan != []
    ensures var t := Run(st, plan[0].ops);
            var s := Listed(c, SessionIndexRuns.RowsOf(t, sc));
            var (rows, end) := LiveChain(c, st, sc, scope, None, plan);
            && Ordered(s) && Elems(s) == SessionIndexRuns.RowsOf(t, sc)
            && (end.Restarted? <==> !UnmovedUntil(st, sc, Gen(t.meta, sc), |s|, plan))
            && (!end.Restarted? ==> rows == s[..End(|s|, 0, Sum(plan))] && (end.Done? <==> |s| <= Sum(plan)))
  {
    hide Listing, Listed, Serve, Faithful, CursorFor, Run, SessionIndexRuns.RowsOf, Proper;
    var t, limit := Run(st, plan[0].ops), plan[0].limit;
    var all := SessionIndexRuns.RowsOf(t, sc);
    var s := Listed(c, all);
    ListingIsOrdered(c, s, all);
    assert Elems(s) == all by { ElemsOf(c, s, all); }
    ServeAt(c, s, 0, limit, all, GenText(t, sc), scope);
    var end := End(|s|, 0, limit);
    if end < |s| {
      LiveFrom(c, t, sc, scope, s, end, plan[1..]);
      Adjacent(s, 0, end, End(|s|, end, Sum(plan[1..])));
    }
    assert forall k :: 0 <= k <= |s| ==> s[0..k] == s[..k];
  }

  lemma ElemsOf(c: Codec, s: seq<Row>, rows: set<Row>)
    requires Listing(c, s, rows)
    ensures Elems(s) == rows
  {
  }

  /** Reachable scopes are pageable as soon as the rows saved have ids and times after the epoch. */
  lemma ReachableProper(ops: seq<Op>, sc: Scope)
    requires forall i :: 0 <= i < |ops| && (ops[i].Create? || ops[i].Save?) ==> ProperRow(ops[i].s.row)
    ensures Proper(SessionIndexRuns.RowsOf(Run(Empty, ops), sc))
  {
    SessionIndexRuns.IndexesAreExact(ops, sc);
    SessionIndexRuns.RunIndexes(Empty, ops);
    StoredProper(Empty, ops);
  }

  lemma {:induction false} StoredProper(st: State, ops: seq<Op>)
    requires forall id :: id in st.sessions ==> ProperRow(st.sessions[id].row)
    requires forall i :: 0 <= i < |ops| && (ops[i].Create? || ops[i].Save?) ==> ProperRow(ops[i].s.row)
    ensures forall id :: id in Run(st, ops).sessions ==> ProperRow(Run(st, ops).sessions[id].row)
    decreases |ops|
  {
    hide ProperRow, Reindexed, Unindexed, Tombstoned, Published, Detached;
    if ops != [] { StoredProper(Step(st, ops[0]).0, ops[1..]); }
  }

  // ------------------------------------------------------------------ the client's checks

  predicate Continuation(b: Byte) {
    0x80 <= b <= 0xBF
  }

  /** Well-formed UTF-8: no overlong form, no surrogate, nothing above U+10FFFF. */
  predicate Utf8(s: Bytes) {
    if s == [] then true
    else if s[0] < 0x80 then Utf8(s[1..])
    else if |s| >= 2 && 0xC2 <= s[0] <= 0xDF && Continuation(s[1]) then Utf8(s[2..])
    else if |s| >= 3 && 0xE0 <= s[0] <= 0xEF && Continuation(s[1]) && Continuation(s[2])
            && (s[0] == 0xE0 ==> s[1] >= 0xA0) && (s[0] == 0xED ==> s[1] <= 0x9F) then Utf8(s[3..])
    else if |s| >= 4 && 0xF0 <= s[0] <= 0xF4 && Continuation(s[1]) && Continuation(s[2]) && Continuation(s[3])
            && (s[0] == 0xF0 ==> s[1] >= 0x90) && (s[0] == 0xF4 ==> s[1] <= 0x8F) then Utf8(s[4..])
    else false
  }

  datatype Request = Request(limit: nat, enforced: bool, owner: Option<Owner>, cursor: Option<Cursor>)

  predicate Behind(r: Row, modifiedAt: int, id: Id) {
    r.modifiedAt < modifiedAt || (r.modifiedAt == modifiedAt && Less(id, r.id))
  }

  predicate Complete(c: Cursor) {
    c.id != [] && Utf8(c.id) && c.generation != "" && c.scope != "" && c.continuation != []
  }

  /** What the client accepts of one row. */
  predicate RowAcceptable(r: Row, q: Request) {
    && r.id != [] && Utf8(r.id)
    && (q.enforced ==> q.owner.Some? && r.owner == q.owner)
    && (q.cursor.Some? ==> Behind(r, q.cursor.value.modifiedAt, q.cursor.value.id))
  }

  /** What the client accepts as the answer to a request. */
  predicate Acceptable(p: Page, q: Request) {
    && p.Page? && |p.rows| <= q.limit && |p.rows| <= p.total
    && (forall i :: 0 <= i < |p.rows| ==> RowAcceptable(p.rows[i], q))
    && (forall i :: 0 < i < |p.rows| ==> Behind(p.rows[i], p.rows[i - 1].modifiedAt, p.rows[i - 1].id))
    && (p.next.Some? ==>
          && p.rows != [] && Complete(p.next.value)
          && p.next.value.modifiedAt == p.rows[|p.rows| - 1].modifiedAt && p.next.value.id == p.rows[|p.rows| - 1].id)
  }

  /** The loop that checks a page row by row. */
  method ValidatePage(p: Page, q: Request) returns (ok: bool)
    requires p.Page?
    ensures ok <==> Acceptable(p, q)
  {
    if |p.rows| > q.limit { return false; }
    if p.total < |p.rows| { return false; }
    for i := 0 to |p.rows|
      invariant forall k :: 0 <= k < i ==> RowAcceptable(p.rows[k], q)
      invariant forall k :: 0 < k < i ==> Behind(p.rows[k], p.rows[k - 1].modifiedAt, p.rows[k - 1].id)
    {
      var row := p.rows[i];
      if row.id == [] || !Utf8(row.id) { return false; }
      if q.enforced && (q.owner.None? || row.owner != q.owner) { return false; }
      if q.cursor.Some? && !Behind(row, q.cursor.value.modifiedAt, q.cursor.value.id) { return false; }
      if i > 0 && !Behind(row, p.rows[i - 1].modifiedAt, p.rows[i - 1].id) { return false; }
    }
    if p.next.Some? {
      if |p.rows| == 0 || !Complete(p.next.value) { return false; }
      var last := p.rows[|p.rows| - 1];
      if p.next.value.modifiedAt != last.modifiedAt || p.next.value.id != last.id { return false; }
    }
    return true;
  }

  lemma BeforeBehind(a: Row, b: Row)
    ensures RowBefore(a, b) <==> Behind(b, a.modifiedAt, a.id)
  {
  }

  lemma SliceIsAcceptable(c: Codec, s: seq<Row>, i: nat, end: nat, q: Request, generation: string, scope: string)
    requires Ordered(s) && i <= end <= |s| && end <= i + q.limit && (end < |s| ==> i < end) && generation != "" && scope != ""
    requires forall k :: 0 <= k < |s| ==> ProperRow(s[k]) && Utf8(s[k].id) && (q.enforced ==> q.owner.Some? && s[k].owner == q.owner)
    requires q.cursor == CursorAt(c, s, i, generation, scope)
    ensures Acceptable(Page(s[i..end], |s|, if end < |s| then CursorAt(c, s, end, generation, scope) else None), q)
  {
    hide RowBefore, Behind, Utf8, Hex, IndexKeys.Member;
    var rows := s[i..end];
    assert forall k :: 0 <= k < |rows| ==> rows[k] == s[i + k];
    forall k | 0 <= k < |rows| ensures RowAcceptable(rows[k], q) {
      if i > 0 { BeforeBehind(s[i - 1], s[i + k]); }
    }
    forall k | 0 < k < |rows| ensures Behind(rows[k], rows[k - 1].modifiedAt, rows[k - 1].id) {
      assert rows[k - 1] == s[i + k - 1];
      BeforeBehind(s[i + k - 1], s[i + k]);
    }
    if end < |s| { assert Token(MemberOf(c, s[end - 1]))[0] == 114; }
  }

  /** Every page of a chain passes them, for ids in UTF-8. */
  lemma PagesAreAcceptable(c: Codec, s: seq<Row>, i: nat, rows: set<Row>, q: Request, generation: string, scope: string)
    requires Faithful(c) && Listing(c, s, rows) && i <= |s| && q.limit > 0 && generation != "" && scope != ""
    requires q.cursor == CursorAt(c, s, i, generation, scope)
    requires forall r :: r in rows ==> Utf8(r.id) && (q.enforced ==> q.owner.Some? && r.owner == q.owner)
    ensures Acceptable(Serve(c, s, generation, scope, q.cursor, q.limit), q)
  {
    hide Acceptable, RowBefore, Ordered, Less, Rest, Serve, CursorFor, Utf8;
    ListedIn(c, s, rows);
    ServeAt(c, s, i, q.limit, rows, generation, scope);
    ListingIsOrdered(c, s, rows);
    SliceIsAcceptable(c, s, i, End(|s|, i, q.limit), q, generation, scope);
  }

  /** Rows that an owner's scope lists belong to that owner, so the foreign-row check never fails. */
  lemma OwnerRowsAreOwn(ops: seq<Op>, o: Owner, r: Row)
    requires r in SessionIndexRuns.RowsOf(Run(Empty, ops), Of(o))
    ensures r.owner == Some(o)
  {
    SessionIndexRuns.IndexesAreExact(ops, Of(o));
  }
}
