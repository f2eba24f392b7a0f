/** What each workspace script answers and what it leaves, path by path. */
module WorkspaceEffects {
  import opened Paths
  import opened Workspace

  /** Every file but those at `ps` is there with the content it had. */
  ghost predicate SameBut(fs: Files, gs: Files, ps: set<string>) {
    forall q :: q !in ps ==> (q in gs <==> q in fs) && (q in fs ==> gs[q] == fs[q])
  }

  predicate HasBelow(fs: Files, p: string) {
    exists q :: q in fs && Under(p, q)
  }

  /** A file is at the path, above it or below it. */
  predicate Taken(fs: Files, p: string) {
    p in fs || HasBelow(fs, p) || exists q :: q in fs && Under(q, p)
  }

  lemma FreeIffNotTaken(fs: Files, p: string)
    requires Clean(p)
    ensures Free(fs, p) <==> !Taken(fs, p)
  {
    BlockedIff(fs.Keys, p);
    BelowIff(fs, p);
  }

  lemma BelowIff(fs: Files, p: string)
    ensures Subtree(fs, p) == {} <==> !HasBelow(fs, p)
  {
    if HasBelow(fs, p) {
      var q :| q in fs && Under(p, q);
      assert q in Subtree(fs, p);
    }
  }

  lemma CreateEffect(token: string -> string, fs: Files, p: string, data: string)
    ensures var (gs, r) := Apply(token, fs, Create(p, data));
            if p in fs then r.Exists? && gs == fs else r.Ok? && p in gs && gs[p] == data && SameBut(fs, gs, {p})
  {
  }

  /** Content is replaced exactly if the caller's version is the one of what is stored. */
  lemma ReplaceEffect(token: string -> string, fs: Files, p: string, version: string, data: string)
    ensures var (gs, r) := Apply(token, fs, Replace(p, version, data));
            if p !in fs then r.NotExist? && gs == fs
            else if version != token(fs[p]) then r.Mismatch? && gs == fs
            else r.Ok? && p in gs && gs[p] == data && SameBut(fs, gs, {p})
  {
  }

  lemma RemoveEffect(token: string -> string, fs: Files, p: string)
    ensures var (gs, r) := Apply(token, fs, Remove(p));
            if p in fs then r.Ok? && p !in gs && SameBut(fs, gs, {p})
            else gs == fs && (if HasBelow(fs, p) then r.NotEmpty? else r.NotExist?)
  {
    BelowIff(fs, p);
  }

  lemma CopyEffect(token: string -> string, fs: Files, p: string, to: string, version: string)
    requires Clean(to)
    ensures var (gs, r) := Apply(token, fs, Copy(p, to, version));
            if p !in fs then r.NotExist? && gs == fs
            else if version != token(fs[p]) then r.Mismatch? && gs == fs
            else if Taken(fs, to) then r.Exists? && gs == fs
            else r.Ok? && to in gs && gs[to] == fs[p] && SameBut(fs, gs, {to})
  {
    hide Free, Taken;
    FreeIffNotTaken(fs, to);
  }

  /** One file went from `from` to `to`. */
  ghost predicate FileWent(fs: Files, gs: Files, from: string, to: string)
    requires from in fs
  {
    to in gs && gs[to] == fs[from] && from !in gs && SameBut(fs, gs, {from, to})
  }

  /** Everything below `from` went to the same place below `to`, and nothing else changed. */
  ghost predicate DirectoryWent(fs: Files, gs: Files, from: string, to: string) {
    && (forall q :: q in fs && Under(from, q) ==> to + q[|from|..] in gs && gs[to + q[|from|..]] == fs[q] && q !in gs)
    && (forall q :: q in fs && !Under(from, q) ==> q in gs && gs[q] == fs[q])
    && (forall p :: p in gs && p !in fs ==> Under(to, p) && from + p[|to|..] in fs && Under(from, from + p[|to|..]))
  }

  /** A rename is refused exactly into its own subtree, onto a taken destination, or of nothing; otherwise it
      moves the file, or the whole directory. */
  lemma RenameEffect(token: string -> string, fs: Files, from: string, to: string)
    requires Clean(to)
    ensures var (gs, r) := Apply(token, fs, Rename(from, to));
            if Under(from, to) then r.Invalid? && gs == fs
            else if Taken(fs, to) then r.Exists? && gs == fs
            else if from in fs then r.Ok? && FileWent(fs, gs, from, to)
            else if HasBelow(fs, from) then r.Ok? && DirectoryWent(fs, gs, from, to)
            else r.NotExist? && gs == fs
  {
    hide Free, Taken, HasBelow, FileWent, DirectoryWent, Renamed, Subtree;
    FreeIffNotTaken(fs, to);
    BelowIff(fs, from);
    if !Under(from, to) && Free(fs, to) && (from in fs || HasBelow(fs, from)) { RenameWent(fs, from, to); }
  }

  lemma RenameWent(fs: Files, from: string, to: string)
    requires Clean(to) && Free(fs, to) && !Under(from, to) && (from in fs || HasBelow(fs, from))
    ensures from in fs ==> FileWent(fs, Renamed(fs, from, to), from, to)
    ensures from !in fs ==> DirectoryWent(fs, Renamed(fs, from, to), from, to)
  {
    assert from != to by { BelowIff(fs, to); }
    var gs := Renamed(fs, from, to);
    RenameMovesExactly(fs, from, to);
    if from !in fs {
      forall q | q in fs && Under(from, q) ensures to + q[|from|..] in gs && gs[to + q[|from|..]] == fs[q] && q !in gs {
        assert Moved(from, to, q) == to + q[|from|..];
      }
      forall p | p in gs && p !in fs ensures Under(to, p) && from + p[|to|..] in fs && Under(from, from + p[|to|..]) {
        assert Moved(to, from, p) == from + p[|to|..];
        MovedUnder(to, from, p);
      }
    }
  }
}
