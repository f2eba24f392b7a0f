/** Which cursors a page request accepts, and what it serves behind any of them. */
module MetadataCursors {
  import opened ByteOrder
  import opened SessionIndex
  import opened MetadataPages
  import IndexKeys

  lemma UntokenIff(t: Bytes, m: Bytes)
    ensures Untoken(t) == Some(m) <==> m != [] && t == Token(m)
  {
    hide Hex, Unhex;
    HexRoundTrip(m);
    HexDigits(m);
    assert Token(m)[..|TokenPrefix|] == TokenPrefix && Token(m)[|TokenPrefix|..] == Hex(m);
    if m == [] { assert Token(m) == TokenPrefix + Hex([]); }
  }

  /** The bytes are a member for the row: sixteen bytes, a colon, the id in hexadecimal up to the first
      exclamation mark, and behind it a payload that says the row. */
  predicate Encodes(c: Codec, m: Bytes, r: Row) {
    && |m| >= 18 && m[16] == 58
    && exists at :: 17 <= at < |m| && m[at] == 33 && 33 !in m[17..at] && Unhex(m[17..at]) == Some(r.id) && c.decode(m[at + 1..]) == Some(r)
  }

  lemma DecodesIff(c: Codec, m: Bytes, r: Row)
    ensures DecodeMember(c, m) == Some(r) <==> Encodes(c, m, r)
  {
    hide Unhex;
    if |m| >= 18 && m[16] == 58 {
      forall at | 17 <= at < |m| && m[at] == 33 && 33 !in m[17..at] ensures IndexKeys.Find(m, 33, 17) == Some(at) {
        forall i | 17 <= i < at ensures m[i] != 33 { assert m[i] == m[17..at][i - 17]; }
      }
      var f := IndexKeys.Find(m, 33, 17);
      if f.Some? { assert 33 !in m[17..f.value]; }
    }
  }

  /** The cursor is the one of a row: it carries the row's id and time and the token of a member for it. */
  ghost predicate Marks(c: Codec, cursor: Cursor, m: Bytes, r: Row) {
    m != [] && cursor.continuation == Token(m) && Encodes(c, m, r) && r.id == cursor.id && r.modifiedAt == cursor.modifiedAt
  }

  lemma BoundaryIff(c: Codec, cursor: Cursor, scope: string, m: Bytes)
    ensures Boundary(c, cursor, scope) == Some(m) <==> cursor.scope == scope && exists r :: Marks(c, cursor, m, r)
  {
    hide Token, Encodes, DecodeMember, Untoken;
    UntokenIff(cursor.continuation, m);
    forall r ensures DecodeMember(c, m) == Some(r) <==> Encodes(c, m, r) { DecodesIff(c, m, r); }
    if cursor.scope == scope && Boundary(c, cursor, scope) == Some(m) {
      var r := DecodeMember(c, m).value;
      assert Marks(c, cursor, m, r);
    }
  }

  /** A request is told to restart exactly if its cursor is of another scope, of another generation, or not
      the cursor of any row. */
  lemma RestartsExactly(c: Codec, s: seq<Row>, generation: string, scope: string, cursor: Cursor, limit: nat)
    requires forall i :: 0 <= i < |s| ==> ProperRow(s[i])
    ensures Serve(c, s, generation, scope, Some(cursor), limit).Restart? <==>
              cursor.scope != scope || cursor.generation != generation || !exists m, r :: Marks(c, cursor, m, r)
  {
    hide Boundary, Marks, PageOf;
    var b := Boundary(c, cursor, scope);
    forall m ensures b == Some(m) <==> cursor.scope == scope && exists r :: Marks(c, cursor, m, r) { BoundaryIff(c, cursor, scope, m); }
    if b.Some? {
      assert cursor.scope == scope && exists r :: Marks(c, cursor, b.value, r);
    } else if cursor.scope == scope {
      forall m, r ensures !Marks(c, cursor, m, r) { assert b != Some(m); }
    }
    PageIsPage(c, s, b, limit, generation, scope);
  }

  lemma PageIsPage(c: Codec, s: seq<Row>, b: Option<Bytes>, limit: nat, generation: string, scope: string)
    requires forall i :: 0 <= i < |s| ==> ProperRow(s[i])
    ensures PageOf(c, s, b, limit, generation, scope).Page?
  {
  }

  predicate After(c: Codec, m: Bytes, r: Row) {
    ProperRow(r) && Less(m, MemberOf(c, r))
  }

  /** The first `k` rows are not behind the member, the others are. */
  predicate Cut(c: Codec, s: seq<Row>, m: Bytes, k: nat) {
    && k <= |s|
    && (forall i :: 0 <= i < k ==> !After(c, m, s[i]))
    && (forall i :: k <= i < |s| ==> After(c, m, s[i]))
  }

  lemma {:induction false} RestCuts(c: Codec, s: seq<Row>, rows: set<Row>, m: Bytes, k: nat) returns (e: nat)
    requires Listing(c, s, rows) && k <= |s| && forall i :: 0 <= i < k ==> !After(c, m, s[i])
    ensures k <= e && Cut(c, s, m, e) && Rest(c, s[k..], Some(m)) == s[e..]
    decreases |s| - k
  {
    hide Less, IndexKeys.Member;
    e := k;
    if k < |s| {
      assert s[k..][0] == s[k] && s[k..][1..] == s[k + 1..];
      if After(c, m, s[k]) {
        forall i | k < i < |s| ensures After(c, m, s[i]) {
          assert MemberLess(c, s[k], s[i]);
          LessTrans(m, MemberOf(c, s[k]), MemberOf(c, s[i]));
        }
      } else {
        e := RestCuts(c, s, rows, m, k + 1);
      }
    }
  }

  lemma PageFrom(c: Codec, s: seq<Row>, b: Option<Bytes>, k: nat, limit: nat, generation: string, scope: string)
    requires (forall i :: 0 <= i < |s| ==> ProperRow(s[i])) && k <= |s| && Rest(c, s, b) == s[k..] && limit > 0
    ensures var end := End(|s|, k, limit);
            PageOf(c, s, b, limit, generation, scope)
            == Page(s[k..end], |s|, if end < |s| then CursorAt(c, s, end, generation, scope) else None)
  {
    hide Rest, IndexKeys.Member, CursorFor;
    Sliced(s, k, limit);
  }

  /** Behind any accepted cursor, also one of a row that is gone: the rows whose members come after the
      cursor's, in order, up to the limit; the whole count; and a next cursor exactly if rows are left. */
  lemma ServesBehind(c: Codec, s: seq<Row>, rows: set<Row>, generation: string, scope: string, cursor: Cursor, m: Bytes, r: Row, limit: nat)
    returns (k: nat)
    requires Listing(c, s, rows) && limit > 0
    requires cursor.scope == scope && cursor.generation == generation && Marks(c, cursor, m, r)
    ensures Cut(c, s, m, k)
    ensures var end := End(|s|, k, limit);
            Serve(c, s, generation, scope, Some(cursor), limit)
            == Page(s[k..end], |s|, if end < |s| then CursorAt(c, s, end, generation, scope) else None)
  {
    hide Rest, Boundary, CursorAt, Marks, After, PageOf, MemberLess;
    BoundaryIff(c, cursor, scope, m);
    k := RestCuts(c, s, rows, m, 0);
    assert s[0..] == s;
    PageFrom(c, s, Some(m), k, limit, generation, scope);
  }
}
