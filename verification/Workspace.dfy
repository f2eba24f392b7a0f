/** The Redis workspace: one hash holds a data field and a version field per file, and atomic scripts
    create, replace, remove, copy and rename. SHA-256 is a function of the content. */
module Workspace {
  import opened Paths

  datatype Field = Meta | Data(path: string) | Version(path: string)

  type Hash = map<Field, string>

  type Files = map<string, string>

  datatype Reply = Ok | Exists | NotExist | Mismatch | NotEmpty | Invalid

  // ------------------------------------------------------------------ what the scripts should do

  function Subtree(fs: Files, p: string): set<string> {
    set q | q in fs && Under(p, q)
  }

  /** The destination of a move or copy is free: no file there, above it or below it. */
  predicate Free(fs: Files, p: string) {
    p !in fs && !Blocked(fs.Keys, p) && Subtree(fs, p) == {}
  }

  /** A file moves alone; otherwise the whole subtree moves, and nothing else changes. */
  function Renamed(fs: Files, from: string, to: string): Files {
    if from in fs then (fs - {from})[to := fs[from]]
    else (fs - Subtree(fs, from))
         + (map t | t in (set q | q in Subtree(fs, from) :: Moved(from, to, q)) && |to| <= |t| && Moved(to, from, t) in fs :: fs[Moved(to, from, t)])
  }

  datatype Op =
    | Create(path: string, data: string)
    | Replace(path: string, version: string, data: string)
    | Remove(path: string)
    | Copy(path: string, to: string, version: string)
    | Rename(path: string, to: string)

  /** What each script answers, and the files it leaves. */
  function Apply(token: string -> string, fs: Files, op: Op): (Files, Reply) {
    match op
    case Create(p, data) => if p in fs then (fs, Exists) else (fs[p := data], Ok)
    case Replace(p, version, data) =>
      if p !in fs then (fs, NotExist) else if token(fs[p]) != version then (fs, Mismatch) else (fs[p := data], Ok)
    case Remove(p) =>
      if p in fs then (fs - {p}, Ok) else (fs, if Subtree(fs, p) != {} then NotEmpty else NotExist)
    case Copy(p, to, version) =>
      if p !in fs then (fs, NotExist) else if token(fs[p]) != version then (fs, Mismatch)
      else if !Free(fs, to) then (fs, Exists) else (fs[to := fs[p]], Ok)
    case Rename(p, to) =>
      if Under(p, to) then (fs, Invalid) else if !Free(fs, to) then (fs, Exists)
      else if p !in fs && Subtree(fs, p) == {} then (fs, NotExist) else (Renamed(fs, p, to), Ok)
  }

  /** No file is a proper ancestor of another. */
  predicate Treelike(fs: Files) {
    forall p, q :: p in fs && q in fs ==> !Under(p, q)
  }

  predicate AllClean(fs: Files) {
    forall p :: p in fs ==> Clean(p)
  }

  // ------------------------------------------------------------------ renaming

  /** What a rename of a directory leaves at each path. */
  lemma RenamedAt(fs: Files, from: string, to: string, p: string)
    requires from !in fs
    ensures Under(to, p) && Moved(to, from, p) in fs ==>
              p in Renamed(fs, from, to) && Renamed(fs, from, to)[p] == fs[Moved(to, from, p)]
    ensures !(Under(to, p) && Moved(to, from, p) in fs) ==> (p in Renamed(fs, from, to) <==> p in fs && !Under(from, p))
    ensures !(Under(to, p) && Moved(to, from, p) in fs) && p in fs && !Under(from, p) ==> Renamed(fs, from, to)[p] == fs[p]
  {
    var sub := Subtree(fs, from);
    var targets := set q | q in sub :: Moved(from, to, q);
    if Under(to, p) {
      MovedUnder(to, from, p);
      if Moved(to, from, p) in fs {
        assert Moved(to, from, p) in sub;
        assert p == Moved(from, to, Moved(to, from, p));
        assert p in targets;
      }
    }
    if p in targets {
      var q :| q in sub && p == Moved(from, to, q);
      MovedUnder(from, to, q);
    }
  }

  /** A rename onto a free destination overwrites nothing, loses nothing and moves nothing else. */
  lemma RenameMovesExactly(fs: Files, from: string, to: string)
    requires Clean(to) && Free(fs, to) && !Under(from, to) && from != to
    ensures var gs := Renamed(fs, from, to);
            && (from in fs ==> to in gs && gs[to] == fs[from] && from !in gs)
            && (from !in fs ==> forall q :: q in fs && Under(from, q) ==> Moved(from, to, q) in gs && gs[Moved(from, to, q)] == fs[q] && q !in gs)
            && (forall p :: p in fs && p != from && (from in fs || !Under(from, p)) ==> p in gs && gs[p] == fs[p])
            && (forall p :: p in gs && p !in fs ==> (from in fs && p == to) || (from !in fs && Under(to, p) && Moved(to, from, p) in fs))
  {
    var gs := Renamed(fs, from, to);
    if from !in fs {
      forall q | q in fs && Under(from, q)
        ensures Moved(from, to, q) in gs && gs[Moved(from, to, q)] == fs[q] && q !in gs
      {
        MovedUnder(from, to, q);
        RenamedAt(fs, from, to, Moved(from, to, q));
        RenamedAt(fs, from, to, q);
        NotBelow(fs, to, q);
      }
      forall p | p in fs && !Under(from, p) ensures p in gs && gs[p] == fs[p] {
        RenamedAt(fs, from, to, p);
        NotBelow(fs, to, p);
      }
      forall p | p in gs && p !in fs ensures Under(to, p) && Moved(to, from, p) in fs {
        RenamedAt(fs, from, to, p);
      }
    }
  }

  /** What is below the destination after a directory rename came from below the source. */
  lemma RenamedBelow(fs: Files, from: string, to: string, p: string)
    requires from !in fs && Free(fs, to) && p in Renamed(fs, from, to)
    ensures Under(to, p) ==> Moved(to, from, p) in fs && Under(from, Moved(to, from, p))
    ensures !Under(to, p) ==> p in fs && !Under(from, p)
  {
    RenamedAt(fs, from, to, p);
    if Under(to, p) {
      MovedUnder(to, from, p);
      if p in fs { NotBelow(fs, to, p); }
    }
  }

  lemma NotBelowFile(fs: Files, to: string, p: string)
    requires Clean(to) && Free(fs, to) && p in fs
    ensures !Under(p, to) && p != to && !Under(to, p)
  {
    BlockedIff(fs.Keys, to);
    NotBelow(fs, to, p);
  }

  lemma RenameKeepsTree(fs: Files, from: string, to: string)
    requires Clean(to) && Free(fs, to) && !Under(from, to) && Treelike(fs)
    ensures Treelike(Renamed(fs, from, to))
  {
    var gs := Renamed(fs, from, to);
    forall p, q | p in gs && q in gs ensures !Under(p, q) {
      if from in fs {
        if p != to { NotBelowFile(fs, to, p); }
        if q != to { NotBelowFile(fs, to, q); }
      } else {
        DirectoryPairs(fs, from, to, p, q);
      }
    }
  }

  lemma DirectoryPairs(fs: Files, from: string, to: string, p: string, q: string)
    requires Clean(to) && Free(fs, to) && Treelike(fs) && from !in fs
    requires p in Renamed(fs, from, to) && q in Renamed(fs, from, to)
    ensures !Under(p, q)
  {
    RenamedBelow(fs, from, to, p);
    RenamedBelow(fs, from, to, q);
    if Under(to, p) && Under(to, q) {
      MovedInjective(to, from, p, q);
    } else if Under(to, q) {
      NotBelowFile(fs, to, p);
      if Under(p, q) { AncestorsCompare(p, to, q); }
    } else if Under(to, p) {
      NotBelowFile(fs, to, q);
      if Under(p, q) { UnderTrans(to, p, q); }
    }
  }

  /** A copy onto a free destination keeps the tree; so does dropping or rewriting a file. */
  lemma AddKeepsTree(fs: Files, to: string, data: string)
    requires Clean(to) && Free(fs, to) && Treelike(fs)
    ensures Treelike(fs[to := data])
  {
    forall p | p in fs ensures !Under(p, to) && !Under(to, p) { NotBelowFile(fs, to, p); }
  }

  lemma ReplaceKeepsTree(fs: Files, p: string, data: string)
    requires Treelike(fs) && p in fs
    ensures Treelike(fs[p := data]) && Treelike(fs - {p})
  {
  }

  /** Creation does not look at ancestors: the tree is kept exactly when the path is free. */
  lemma CreateKeepsTreeIffFree(fs: Files, p: string, data: string)
    requires Clean(p) && p !in fs && Treelike(fs)
    ensures Treelike(fs[p := data]) <==> Free(fs, p)
  {
    BlockedIff(fs.Keys, p);
    if Free(fs, p) { AddKeepsTree(fs, p, data); }
    else if Subtree(fs, p) != {} {
      var q :| q in Subtree(fs, p);
      assert p in fs[p := data] && q in fs[p := data] && Under(p, q);
    } else {
      var q :| q in fs && Under(q, p);
      assert p in fs[p := data] && q in fs[p := data];
    }
  }

  // ------------------------------------------------------------------ the hash

  /** Data and version come in pairs, and the version is the hash of the data. */
  ghost predicate Paired(h: Hash, token: string -> string) {
    && Meta in h
    && (forall p :: Data(p) in h <==> Version(p) in h)
    && (forall p :: Data(p) in h ==> h[Version(p)] == token(h[Data(p)]))
  }

  function FilesOf(h: Hash): Files {
    map f | f in h && f.Data? :: f.path := h[f]
  }

  lemma InFiles(h: Hash, p: string)
    ensures p in FilesOf(h) <==> Data(p) in h
    ensures p in FilesOf(h) ==> FilesOf(h)[p] == h[Data(p)]
  {
  }

  lemma FilesAre(h: Hash, fs: Files)
    requires forall p :: Data(p) in h <==> p in fs
    requires forall p :: p in fs ==> h[Data(p)] == fs[p]
    ensures FilesOf(h) == fs
  {
    forall p ensures p in FilesOf(h) <==> p in fs { InFiles(h, p); }
    forall p | p in fs ensures FilesOf(h)[p] == fs[p] { InFiles(h, p); }
  }

  /** Writing both fields of a file, and deleting them. */
  lemma PutFile(h: Hash, p: string, data: string, version: string, token: string -> string)
    requires Paired(h, token) && version == token(data)
    ensures var s := h[Data(p) := data][Version(p) := version];
            Paired(s, token) && FilesOf(s) == FilesOf(h)[p := data]
  {
    hide FilesOf;
    var s := h[Data(p) := data][Version(p) := version];
    forall q ensures (Data(q) in s <==> q in FilesOf(h)[p := data]) && (q in FilesOf(h)[p := data] ==> s[Data(q)] == FilesOf(h)[p := data][q]) {
      InFiles(h, q);
    }
    FilesAre(s, FilesOf(h)[p := data]);
  }

  lemma DropFile(h: Hash, p: string, token: string -> string)
    requires Paired(h, token)
    ensures var s := h - {Data(p), Version(p)};
            Paired(s, token) && FilesOf(s) == FilesOf(h) - {p}
  {
    hide FilesOf;
    var s := h - {Data(p), Version(p)};
    forall q ensures (Data(q) in s <==> q in FilesOf(h) - {p}) && (q in FilesOf(h) - {p} ==> s[Data(q)] == FilesOf(h)[q]) {
      InFiles(h, q);
    }
    FilesAre(s, FilesOf(h) - {p});
  }

  class Namespace {
    const token: string -> string
    var hash: Hash

    ghost predicate Valid()
      reads this
    {
      Paired(hash, token)
    }

    ghost function View(): Files
      reads this
    {
      FilesOf(hash)
    }

    constructor (token: string -> string, format: string)
      ensures Valid() && View() == map[]
    {
      this.token := token;
      hash := map[Meta := format];
    }

    lemma InView(p: string)
      ensures p in View() <==> Data(p) in hash
      ensures p in View() ==> View()[p] == hash[Data(p)]
    {
    }

    method CreateFile(p: string, data: string) returns (r: Reply)
      requires Valid()
      modifies this
      ensures Valid() && (View(), r) == Apply(token, old(View()), Op.Create(p, data))
    {
      hide FilesOf, Subtree;
      InView(p);
      if Data(p) in hash || Version(p) in hash { return Exists; }
      PutFile(hash, p, data, token(data), token);
      hash := hash[Data(p) := data][Version(p) := token(data)];
      return Ok;
    }

    method ReplaceFile(p: string, version: string, data: string) returns (r: Reply)
      requires Valid()
      modifies this
      ensures Valid() && (View(), r) == Apply(token, old(View()), Op.Replace(p, version, data))
    {
      hide FilesOf, Subtree;
      InView(p);
      if Data(p) !in hash && Version(p) !in hash { return NotExist; }
      if hash[Version(p)] != version { return Mismatch; }
      PutFile(hash, p, data, token(data), token);
      hash := hash[Data(p) := data][Version(p) := token(data)];
      return Ok;
    }

    /** `order` lists the fields; a directory is not removed. */
    method Remove(p: string, order: seq<Field>) returns (r: Reply)
      requires Valid() && (set f | f in order) == hash.Keys
      modifies this
      ensures Valid() && (View(), r) == Apply(token, old(View()), Op.Remove(p))
    {
      hide FilesOf, Subtree;
      InView(p);
      if Data(p) in hash || Version(p) in hash {
        DropFile(hash, p, token);
        hash := hash - {Data(p), Version(p)};
        return Ok;
      }
      var below := AnyBelow(p, order);
      return if below then NotEmpty else NotExist;
    }

    method AnyBelow(p: string, order: seq<Field>) returns (found: bool)
      requires (set f | f in order) == hash.Keys
      ensures found <==> Subtree(View(), p) != {}
    {
      for k := 0 to |order|
        invariant forall j :: 0 <= j < k ==> !(order[j].Data? && Under(p, order[j].path))
      {
        if order[k].Data? && Under(p, order[k].path) {
          assert order[k] in (set f | f in order);
          InView(order[k].path);
          assert order[k].path in Subtree(View(), p);
          return true;
        }
      }
      forall q | q in View() ensures !Under(p, q) {
        InView(q);
        assert Data(q) in (set f | f in order);
      }
      return false;
    }

    /** The loop over the ancestors of a destination. */
    method AnyAbove(p: string) returns (found: bool)
      requires Valid()
      ensures found <==> Blocked(View().Keys, p)
    {
      var up := Parent(p);
      while up.Some?
        invariant Blocked(View().Keys, p) <==> up.Some? && (up.value in View() || Blocked(View().Keys, up.value))
        decreases if up.Some? then 1 + |up.value| else 0
      {
        InView(up.value);
        if Data(up.value) in hash || Version(up.value) in hash { return true; }
        up := Parent(up.value);
      }
      return false;
    }

    method Copy(source: string, dest: string, version: string, order: seq<Field>) returns (r: Reply)
      requires Valid() && (set f | f in order) == hash.Keys
      modifies this
      ensures Valid()
      ensures (View(), r) == Apply(token, old(View()), Op.Copy(source, dest, version))
    {
      hide FilesOf, Subtree;
      InView(source);
      InView(dest);
      if Data(source) !in hash && Version(source) !in hash { return NotExist; }
      if hash[Version(source)] != version { return Mismatch; }
      if Data(dest) in hash || Version(dest) in hash { return Exists; }
      var above := AnyAbove(dest);
      if above { return Exists; }
      var below := AnyBelow(dest, order);
      if below { return Exists; }
      PutFile(hash, dest, hash[Data(source)], hash[Version(source)], token);
      hash := hash[Data(dest) := hash[Data(source)]][Version(dest) := hash[Version(source)]];
      return Ok;
    }

    /** A directory is not moved into itself, and nothing is overwritten. */
    method Rename(from: string, to: string, order: seq<Field>) returns (r: Reply)
      requires Valid() && (set f | f in order) == hash.Keys
      requires forall i, j :: 0 <= i < j < |order| ==> order[i] != order[j]
      modifies this
      ensures Valid()
      ensures (View(), r) == Apply(token, old(View()), Op.Rename(from, to))
    {
      hide FilesOf, Renamed, Subtree;
      if Under(from, to) { return Invalid; }
      InView(to);
      InView(from);
      if Data(to) in hash || Version(to) in hash { return Exists; }
      var above := AnyAbove(to);
      if above { return Exists; }
      var below := AnyBelow(to, order);
      if below { return Exists; }
      if Data(from) in hash || Version(from) in hash {
        FileMoves(hash, from, to, token);
        hash := hash[Data(to) := hash[Data(from)]][Version(to) := hash[Version(from)]];
        hash := hash - {Data(from), Version(from)};
        return Ok;
      }
      var any := AnyBelow(from, order);
      if !any { return NotExist; }
      assert from != to;
      MoveFields(from, to, order);
      return Ok;
    }

    /** The second loop of a directory rename: set the target field, then delete the old one. */
    method MoveFields(from: string, to: string, order: seq<Field>)
      requires Valid() && (set f | f in order) == hash.Keys
      requires forall i, j :: 0 <= i < j < |order| ==> order[i] != order[j]
      requires from !in View() && Free(View(), to) && !Under(from, to) && from != to
      modifies this
      ensures Valid() && View() == Renamed(old(View()), from, to)
    {
      hide FilesOf, Renamed, Subtree, Shifted, Target, Paired, Separate;
      ghost var before := hash;
      ghost var done: set<Field> := {};
      assert Separate(before, from, to) by { ViewSeparates(from, to); }
      forall k | 0 <= k < |order| ensures order[k] in before { assert order[k] in (set g | g in order); }
      ShiftNone(before, from, to);
      for k := 0 to |order|
        invariant done == (set f | f in order[..k] && Target(from, to, f) != f)
        invariant hash == Shifted(before, from, to, done)
      {
        var f := order[k];
        assert order[..k + 1] == order[..k] + [f];
        assert f !in order[..k];
        assert done <= Movers(before, from, to);
        var target := Target(from, to, f);
        if target != f {
          ShiftStep(before, from, to, done, f);
          hash := hash[target := hash[f]];
          hash := hash - {f};
          done := done + {f};
        }
      }
      assert order[..|order|] == order;
      assert done == Movers(before, from, to) by {
        forall f | f in before ensures f in order { assert f in (set g | g in order); }
      }
      DirectoryMoves(before, from, to, token);
    }

    lemma ViewSeparates(from: string, to: string)
      requires Valid() && Free(View(), to) && !Under(from, to) && from != to
      ensures Separate(hash, from, to)
    {
      forall p | Data(p) in hash || Version(p) in hash ensures !Under(to, p) {
        InView(p);
        NotBelow(View(), to, p);
      }
    }
  }

  lemma NotBelow(fs: Files, to: string, p: string)
    requires Free(fs, to) && p in fs
    ensures !Under(to, p)
  {
    assert Under(to, p) ==> p in Subtree(fs, to);
  }

  // ------------------------------------------------------------------ the fields of a moved directory

  /** Where a field belongs once everything below `from` is below `to`. */
  function Target(from: string, to: string, f: Field): Field {
    match f
    case Meta => Meta
    case Data(q) => if Under(from, q) then Data(Moved(from, to, q)) else f
    case Version(q) => if Under(from, q) then Version(Moved(from, to, q)) else f
  }

  /** No field lies below the destination, and the destination is not below the source. */
  ghost predicate Separate(h: Hash, from: string, to: string) {
    && from != to && !Under(from, to)
    && forall p :: Data(p) in h || Version(p) in h ==> !Under(to, p)
  }

  function Movers(h: Hash, from: string, to: string): set<Field> {
    set f | f in h && Target(from, to, f) != f
  }

  /** The hash when the fields of `done` have moved. */
  function Shifted(h: Hash, from: string, to: string, done: set<Field>): Hash {
    (h - done)
    + (map t | t in (set f | f in done :: Target(from, to, f)) && Target(to, from, t) in h :: h[Target(to, from, t)])
  }

  lemma MoverGoes(h: Hash, from: string, to: string, f: Field)
    requires Separate(h, from, to) && f in h && Target(from, to, f) != f
    ensures Target(from, to, f) !in h && Target(to, from, Target(from, to, f)) == f
  {
    MovedUnder(from, to, f.path);
  }

  lemma ShiftNone(h: Hash, from: string, to: string)
    ensures Shifted(h, from, to, {}) == h
  {
  }

  function Targets(from: string, to: string, done: set<Field>): set<Field> {
    set f | f in done :: Target(from, to, f)
  }

  /** Which fields there are on the way, and what they hold. */
  lemma ShiftedIn(h: Hash, from: string, to: string, done: set<Field>, x: Field)
    requires Separate(h, from, to) && done <= Movers(h, from, to)
    ensures x in Shifted(h, from, to, done) <==> (x in h && x !in done) || x in Targets(from, to, done)
    ensures x in Targets(from, to, done) ==> x !in h && Target(to, from, x) in done && Shifted(h, from, to, done)[x] == h[Target(to, from, x)]
    ensures x in h && x !in done ==> Shifted(h, from, to, done)[x] == h[x]
  {
    if x in Targets(from, to, done) {
      var f :| f in done && x == Target(from, to, f);
      MoverGoes(h, from, to, f);
    }
  }

  /** Moving one more field is setting its target and deleting it. */
  lemma ShiftStep(h: Hash, from: string, to: string, done: set<Field>, f: Field)
    requires Separate(h, from, to) && done <= Movers(h, from, to) && f in h && f !in done && Target(from, to, f) != f
    ensures f in Shifted(h, from, to, done)
    ensures Shifted(h, from, to, done + {f}) ==
            Shifted(h, from, to, done)[Target(from, to, f) := Shifted(h, from, to, done)[f]] - {f}
  {
    hide Shifted, Target, Separate;
    var t := Target(from, to, f);
    MoverGoes(h, from, to, f);
    ShiftedIn(h, from, to, done, f);
    var a, b := Shifted(h, from, to, done), Shifted(h, from, to, done + {f});
    assert Targets(from, to, done + {f}) == Targets(from, to, done) + {t};
    var c := a[t := a[f]] - {f};
    forall x ensures (x in b <==> x in c) && (x in b ==> b[x] == c[x]) {
      ShiftedIn(h, from, to, done, x);
      ShiftedIn(h, from, to, done + {f}, x);
    }
  }

  lemma ShiftedAt(h: Hash, from: string, to: string, p: string)
    requires Separate(h, from, to)
    ensures ShiftedField(h, from, to, Data(p)) && ShiftedField(h, from, to, Version(p))
  {
    ShiftedOne(h, from, to, Data(p));
    ShiftedOne(h, from, to, Version(p));
  }

  predicate Below(from: string, f: Field) {
    !f.Meta? && Under(from, f.path)
  }

  /** After the whole loop a field holds what was below the source, or what it held before. */
  predicate ShiftedField(h: Hash, from: string, to: string, f: Field) {
    var s := Shifted(h, from, to, Movers(h, from, to));
    if Below(to, f) && Target(to, from, f) in h then f in s && s[f] == h[Target(to, from, f)]
    else (f in s <==> f in h && !Below(from, f)) && (f in s ==> s[f] == h[f])
  }

  lemma ShiftedOne(h: Hash, from: string, to: string, f: Field)
    requires Separate(h, from, to) && !f.Meta?
    ensures ShiftedField(h, from, to, f)
  {
    var movers := Movers(h, from, to);
    var targets := set g | g in movers :: Target(from, to, g);
    if Below(to, f) {
      MovedUnder(to, from, f.path);
      var g := Target(to, from, f);
      assert Target(from, to, g) == f;
      if g in h {
        assert g != f;
        assert g in movers;
        assert f in targets;
      }
    }
    if f in targets {
      var g :| g in movers && f == Target(from, to, g);
      MovedUnder(from, to, g.path);
      MoverGoes(h, from, to, g);
    }
    if f in h && Below(from, f) { Departs(h, from, to, f); }
  }

  lemma Departs(h: Hash, from: string, to: string, f: Field)
    requires Separate(h, from, to) && f in h && Below(from, f)
    ensures Target(from, to, f) != f
  {
    MovedUnder(from, to, f.path);
  }

  lemma ShiftedPairs(h: Hash, from: string, to: string, token: string -> string)
    requires Separate(h, from, to) && Paired(h, token)
    ensures Paired(Shifted(h, from, to, Movers(h, from, to)), token)
  {
    forall p ensures ShiftedField(h, from, to, Data(p)) && ShiftedField(h, from, to, Version(p)) { ShiftedAt(h, from, to, p); }
  }

  /** The finished loop has renamed the directory. */
  lemma DirectoryMoves(h: Hash, from: string, to: string, token: string -> string)
    requires Paired(h, token) && Separate(h, from, to) && from !in FilesOf(h) && Free(FilesOf(h), to)
    ensures var s := Shifted(h, from, to, Movers(h, from, to));
            Paired(s, token) && FilesOf(s) == Renamed(FilesOf(h), from, to)
  {
    hide FilesOf, Renamed, Shifted, Movers;
    ShiftedPairs(h, from, to, token);
    var s, fs := Shifted(h, from, to, Movers(h, from, to)), FilesOf(h);
    forall p ensures (Data(p) in s <==> p in Renamed(fs, from, to)) && (Data(p) in s ==> s[Data(p)] == Renamed(fs, from, to)[p]) {
      ShiftedAt(h, from, to, p);
      RenamedAt(fs, from, to, p);
      InFiles(h, p);
      if |to| <= |p| { InFiles(h, Moved(to, from, p)); }
    }
    FilesAre(s, Renamed(fs, from, to));
  }

  lemma FileMoves(h: Hash, from: string, to: string, token: string -> string)
    requires Paired(h, token) && Data(from) in h && Data(to) !in h
    ensures var s := h[Data(to) := h[Data(from)]][Version(to) := h[Version(from)]] - {Data(from), Version(from)};
            Paired(s, token) && FilesOf(s) == Renamed(FilesOf(h), from, to)
  {
    var s := h[Data(to) := h[Data(from)]][Version(to) := h[Version(from)]] - {Data(from), Version(from)};
    InFiles(h, from);
    InFiles(h, to);
    forall p ensures Data(p) in s <==> p in Renamed(FilesOf(h), from, to) { InFiles(h, p); }
    forall p | p in Renamed(FilesOf(h), from, to) ensures s[Data(p)] == Renamed(FilesOf(h), from, to)[p] { InFiles(h, p); }
    FilesAre(s, Renamed(FilesOf(h), from, to));
  }
}
