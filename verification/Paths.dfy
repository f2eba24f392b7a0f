/** Slash-separated paths: cleaning, ancestors, and moving a subtree. */
module Paths {
  datatype Option<+T> = None | Some(value: T)

  /** No empty component: no leading, trailing or doubled slash. */
  predicate Clean(p: string) {
    p != "" && p[0] != '/' && p[|p| - 1] != '/' && forall i :: 0 <= i < |p| - 1 ==> !(p[i] == '/' && p[i + 1] == '/')
  }

  /** `q` lies strictly below `p`: it starts with `p` and a slash. */
  predicate Under(p: string, q: string) {
    |q| > |p| && q[|p|] == '/' && q[..|p|] == p
  }

  // ------------------------------------------------------------------ ancestors

  function LastSlash(p: string): (r: Option<nat>)
    ensures r.Some? ==> r.value < |p| && p[r.value] == '/' && forall i :: r.value < i < |p| ==> p[i] != '/'
    ensures r.None? ==> '/' !in p
  {
    if p == "" then None else if p[|p| - 1] == '/' then Some(|p| - 1) else LastSlash(p[..|p| - 1])
  }

  /** What is before the last slash, if something follows it. */
  function Parent(p: string): (r: Option<string>)
    ensures r.Some? ==> |r.value| < |p|
  {
    match LastSlash(p)
    case None => None
    case Some(k) => if k + 1 < |p| then Some(p[..k]) else None
  }

  lemma ParentStep(p: string, q: string)
    requires Clean(p)
    ensures Under(q, p) <==> Parent(p).Some? && (q == Parent(p).value || Under(q, Parent(p).value))
    ensures Parent(p).Some? ==> Clean(Parent(p).value)
  {
    match LastSlash(p)
    case None =>
    case Some(k) =>
      var up := p[..k];
      assert Clean(up) by {
        assert k > 0;
        assert p[k - 1] != '/';
        assert forall i :: 0 <= i < |up| ==> up[i] == p[i];
      }
      if Under(q, p) {
        if |q| < k { assert up[..|q|] == q && up[|q|] == '/'; }
        else { assert |q| == k; }
      }
      if q == up { assert p[..|q|] == q; }
      if Under(q, up) { assert p[..|q|] == up[..|q|] && p[|q|] == up[|q|]; }
  }

  /** Some ancestor of `p` is in the set, found by walking up. */
  predicate Blocked(names: set<string>, p: string)
    decreases |p|
  {
    match Parent(p)
    case None => false
    case Some(q) => q in names || Blocked(names, q)
  }

  lemma {:induction false} BlockedIff(names: set<string>, p: string)
    requires Clean(p)
    ensures Blocked(names, p) <==> exists q :: q in names && Under(q, p)
    decreases |p|
  {
    match Parent(p)
    case None => forall q ensures !Under(q, p) { ParentStep(p, q); }
    case Some(up) =>
      ParentStep(p, up);
      BlockedIff(names, up);
      forall q ensures Under(q, p) <==> q == up || Under(q, up) { ParentStep(p, q); }
  }

  // ------------------------------------------------------------------ moving a subtree

  /** The path `q` below `from`, moved below `to`. */
  function Moved(from: string, to: string, q: string): string
    requires |from| <= |q|
  {
    to + q[|from|..]
  }

  lemma MovedUnder(from: string, to: string, q: string)
    requires Under(from, q)
    ensures Under(to, Moved(from, to, q)) && Moved(to, from, Moved(from, to, q)) == q
  {
    assert q == from + q[|from|..];
  }

  lemma MovedInjective(from: string, to: string, p: string, q: string)
    requires Under(from, p) && Under(from, q)
    ensures Moved(from, to, p) == Moved(from, to, q) <==> p == q
    ensures Under(Moved(from, to, p), Moved(from, to, q)) <==> Under(p, q)
  {
    MovedUnder(from, to, p);
    MovedUnder(from, to, q);
    var a, b := Moved(from, to, p), Moved(from, to, q);
    assert |a| == |to| + |p| - |from| && |b| == |to| + |q| - |from|;
    if |p| < |q| {
      assert b[|a|] == q[|p|];
      if q[..|p|] == p { assert b[..|a|] == to + q[|from|..|p|] == a; }
      if b[..|a|] == a {
        assert q[..|p|] == from + b[|to|..|a|];
        assert p == from + a[|to|..];
      }
    }
  }

  lemma {:induction false} MovedClean(from: string, to: string, q: string)
    requires Clean(from) && Clean(to) && Clean(q) && Under(from, q)
    ensures Clean(Moved(from, to, q))
  {
    var m := Moved(from, to, q);
    assert m[0] == to[0] && m[|m| - 1] == q[|q| - 1];
    forall i | 0 <= i < |m| - 1 ensures !(m[i] == '/' && m[i + 1] == '/') {
      if i + 1 < |to| { assert m[i] == to[i] && m[i + 1] == to[i + 1]; }
      else if i + 1 == |to| { assert m[i] == to[i]; }
      else {
        var j := i - |to| + |from|;
        assert m[i] == q[j] && m[i + 1] == q[j + 1];
      }
    }
  }

  lemma UnderTrans(p: string, q: string, r: string)
    requires Under(p, q) && Under(q, r)
    ensures Under(p, r)
  {
    assert r[..|p|] == q[..|p|] && r[|p|] == q[|p|];
  }

  /** Two ancestors of one path are comparable. */
  lemma AncestorsCompare(p: string, q: string, r: string)
    requires Under(p, r) && Under(q, r)
    ensures p == q || Under(p, q) || Under(q, p)
  {
    if |p| < |q| { assert q[..|p|] == r[..|p|] && q[|p|] == r[|p|]; }
    else if |q| < |p| { assert p[..|q|] == r[..|q|] && p[|q|] == r[|q|]; }
    else { assert p == r[..|p|] && q == r[..|q|]; }
  }

  // ------------------------------------------------------------------ cleaning

  function Split(p: string): (parts: seq<string>)
    ensures |parts| > 0
  {
    if p == "" then [""]
    else if p[0] == '/' then [""] + Split(p[1..])
    else var rest := Split(p[1..]); [[p[0]] + rest[0]] + rest[1..]
  }

  function Join(parts: seq<string>): string {
    if parts == [] then "" else if |parts| == 1 then parts[0] else parts[0] + "/" + Join(parts[1..])
  }

  function Kept(parts: seq<string>): seq<string> {
    if parts == [] then []
    else if parts[0] == "" || parts[0] == "." then Kept(parts[1..])
    else [parts[0]] + Kept(parts[1..])
  }

  /** The path under which a file is stored, or nothing when the path leaves the workspace. */
  function CleanPath(p: string): Option<string> {
    if p == "" || p[0] == '/' || '\0' in p || ".." in Split(p) then None
    else if Kept(Split(p)) == [] then None
    else Some(Join(Kept(Split(p))))
  }

  predicate Component(c: string) {
    c != "" && '/' !in c
  }

  lemma {:induction false} SplitComponents(p: string)
    ensures forall i :: 0 <= i < |Split(p)| ==> '/' !in Split(p)[i]
  {
    if p != "" {
      SplitComponents(p[1..]);
      var rest := Split(p[1..]);
      if p[0] != '/' { assert '/' !in [p[0]] + rest[0]; }
    }
  }

  lemma {:induction false} KeptComponents(parts: seq<string>)
    requires forall i :: 0 <= i < |parts| ==> '/' !in parts[i]
    ensures forall i :: 0 <= i < |Kept(parts)| ==> Component(Kept(parts)[i]) && Kept(parts)[i] != "." && Kept(parts)[i] in parts
  {
    if parts != [] { KeptComponents(parts[1..]); }
  }

  lemma {:induction false} JoinClean(parts: seq<string>)
    requires parts != [] && forall i :: 0 <= i < |parts| ==> Component(parts[i])
    ensures Clean(Join(parts)) && Join(parts)[..|parts[0]|] == parts[0]
  {
    var c := parts[0];
    if |parts| == 1 { CleanComponent(c); }
    else {
      JoinClean(parts[1..]);
      CleanComponent(c);
      CleanConcat(c, Join(parts[1..]));
    }
  }

  lemma CleanComponent(c: string)
    requires Component(c)
    ensures Clean(c)
  {
  }

  lemma CleanConcat(a: string, b: string)
    requires Clean(a) && Clean(b)
    ensures Clean(a + "/" + b) && (a + "/" + b)[..|a|] == a
  {
    var m := a + "/" + b;
    forall i | 0 <= i < |m| - 1 ensures !(m[i] == '/' && m[i + 1] == '/') {
      if i + 1 < |a| { assert m[i] == a[i] && m[i + 1] == a[i + 1]; }
      else if i + 1 == |a| { assert m[i] == a[i]; }
      else if i == |a| { assert m[i + 1] == b[0]; }
      else { assert m[i] == b[i - |a| - 1] && m[i + 1] == b[i - |a|]; }
    }
  }

  lemma {:induction false} SplitComponent(c: string)
    requires '/' !in c
    ensures Split(c) == [c]
  {
    if c != "" {
      SplitComponent(c[1..]);
      assert c == [c[0]] + c[1..];
    }
  }

  lemma {:induction false} SplitAfter(c: string, rest: string)
    requires '/' !in c
    ensures Split(c + "/" + rest) == [c] + Split(rest)
  {
    if c == "" {
      assert (c + "/" + rest)[1..] == rest;
    } else {
      assert (c + "/" + rest)[1..] == c[1..] + "/" + rest;
      SplitAfter(c[1..], rest);
      assert c == [c[0]] + c[1..];
    }
  }

  lemma {:induction false} SplitJoin(parts: seq<string>)
    requires parts != [] && forall i :: 0 <= i < |parts| ==> '/' !in parts[i]
    ensures Split(Join(parts)) == parts
  {
    if |parts| == 1 { SplitComponent(parts[0]); }
    else {
      SplitJoin(parts[1..]);
      SplitAfter(parts[0], Join(parts[1..]));
      assert parts == [parts[0]] + parts[1..];
    }
  }

  lemma {:induction false} KeptAll(parts: seq<string>)
    requires forall i :: 0 <= i < |parts| ==> parts[i] != "" && parts[i] != "."
    ensures Kept(parts) == parts
  {
    if parts != [] { KeptAll(parts[1..]); }
  }

  /** Accepted paths are stored clean, without dots, and cleaning again changes nothing. */
  lemma CleanPathIsClean(p: string)
    requires CleanPath(p).Some?
    ensures Clean(CleanPath(p).value) && ".." !in Split(CleanPath(p).value) && "." !in Split(CleanPath(p).value)
    ensures Kept(Split(CleanPath(p).value)) == Split(CleanPath(p).value)
  {
    var parts := Kept(Split(p));
    SplitComponents(p);
    KeptComponents(Split(p));
    JoinClean(parts);
    SplitJoin(parts);
    KeptAll(parts);
  }

  lemma {:induction false} JoinSplit(p: string)
    ensures Join(Split(p)) == p
  {
    if p != "" {
      JoinSplit(p[1..]);
      var rest := Split(p[1..]);
      assert p == [p[0]] + p[1..];
      if p[0] == '/' { assert Split(p)[1..] == rest; }
      else {
        assert Split(p)[1..] == rest[1..];
        assert |rest| > 1 ==> Join(rest) == rest[0] + "/" + Join(rest[1..]);
      }
    }
  }

  lemma {:induction false} KeptConcat(a: seq<string>, b: seq<string>)
    ensures Kept(a + b) == Kept(a) + Kept(b)
  {
    if a == [] { assert a + b == b; }
    else {
      KeptConcat(a[1..], b);
      KeptHead(a[0], a[1..] + b);
      KeptHead(a[0], a[1..]);
      assert a + b == [a[0]] + (a[1..] + b) && a == [a[0]] + a[1..];
    }
  }

  lemma KeptHead(c: string, rest: seq<string>)
    ensures Kept([c] + rest) == (if c == "" || c == "." then [] else [c]) + Kept(rest)
  {
    assert ([c] + rest)[1..] == rest;
  }

  lemma {:induction false} KeptNone(parts: seq<string>)
    ensures Kept(parts) == [] <==> forall i :: 0 <= i < |parts| ==> parts[i] == "" || parts[i] == "."
  {
    if parts != [] {
      KeptNone(parts[1..]);
      assert parts == [parts[0]] + parts[1..];
    }
  }

  /** What is refused: the empty path, an absolute one, one with a NUL or a dot-dot component, and one that
      names nothing but the workspace itself. */
  lemma CleanPathRefuses(p: string)
    ensures CleanPath(p).None? <==>
              || p == "" || p[0] == '/' || '\0' in p || ".." in Split(p)
              || forall i :: 0 <= i < |Split(p)| ==> Split(p)[i] == "" || Split(p)[i] == "."
  {
    KeptNone(Split(p));
  }

  /** A path that has nothing to clean is stored as it is. */
  lemma CleanPathFixes(p: string)
    requires '\0' !in p && p != "" && forall i :: 0 <= i < |Split(p)| ==> Split(p)[i] != "" && Split(p)[i] != "." && Split(p)[i] != ".."
    ensures CleanPath(p) == Some(p)
  {
    KeptAll(Split(p));
    JoinSplit(p);
    assert Split(p)[0] != "";
  }

  lemma {:induction false} JoinNul(parts: seq<string>)
    ensures '\0' in Join(parts) <==> exists i :: 0 <= i < |parts| && '\0' in parts[i]
  {
    if parts != [] {
      JoinNul(parts[1..]);
      assert parts == [parts[0]] + parts[1..];
    }
  }

  lemma NulAmong(a: seq<string>, d: string, b: seq<string>)
    requires '\0' !in d
    ensures '\0' in Join(a + [d] + b) <==> '\0' in Join(a + b)
  {
    hide Join;
    var x, y := a + [d] + b, a + b;
    JoinNul(x);
    JoinNul(y);
    if i :| 0 <= i < |x| && '\0' in x[i] { assert x[i] == y[if i < |a| then i else i - 1]; }
    if i :| 0 <= i < |y| && '\0' in y[i] { assert y[i] == x[if i < |a| then i else i + 1]; }
  }

  /** Two relative paths with the same components, up to an empty or dot one, are stored alike. */
  lemma CleanPathDrops(a: seq<string>, d: string, b: seq<string>)
    requires a + b != [] && (d == "" || d == ".") && forall i :: 0 <= i < |a + b| ==> '/' !in (a + b)[i]
    requires var p, q := Join(a + [d] + b), Join(a + b); p != "" && q != "" && p[0] != '/' && q[0] != '/'
    ensures CleanPath(Join(a + [d] + b)) == CleanPath(Join(a + b))
  {
    hide Join, Split;
    var x, y := a + [d] + b, a + b;
    assert forall i :: 0 <= i < |x| && i != |a| ==> x[i] == y[if i < |a| then i else i - 1];
    SplitJoin(y);
    SplitJoin(x);
    NulAmong(a, d, b);
    KeptDrops(a, d, b);
    assert ".." in x <==> ".." in y;
  }

  lemma KeptDrops(a: seq<string>, d: string, b: seq<string>)
    requires d == "" || d == "."
    ensures Kept(a + [d] + b) == Kept(a + b)
  {
    KeptConcat(a, b);
    KeptConcat(a, [d] + b);
    KeptHead(d, b);
    assert a + [d] + b == a + ([d] + b);
  }
}
