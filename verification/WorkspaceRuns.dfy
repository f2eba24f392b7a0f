/** The workspace over whole runs: callers give paths, which are cleaned before any script sees them. */
module WorkspaceRuns {
  import opened Paths
  import opened Workspace

  /** A request whose paths do not leave the workspace, with the paths cleaned. */
  function Cleaned(op: Op): Option<Op> {
    match CleanPath(op.path)
    case None => None
    case Some(p) =>
      if op.Copy? || op.Rename? then
        match CleanPath(op.to)
        case None => None
        case Some(to) => Some(if op.Copy? then Op.Copy(p, to, op.version) else Op.Rename(p, to))
      else if op.Create? then Some(Op.Create(p, op.data))
      else if op.Replace? then Some(Op.Replace(p, op.version, op.data))
      else Some(Op.Remove(p))
  }

  /** A request: refused when a path leaves the workspace. */
  function Step(token: string -> string, fs: Files, op: Op): (Files, Reply) {
    match Cleaned(op) case None => (fs, Invalid) case Some(o) => Apply(token, fs, o)
  }

  function Run(token: string -> string, fs: Files, ops: seq<Op>): Files
    decreases |ops|
  {
    if ops == [] then fs else Run(token, Step(token, fs, ops[0]).0, ops[1..])
  }

  /** Creation is asked for on free paths, or on files that exist and are refused. */
  predicate Allowed(fs: Files, op: Op) {
    Cleaned(op).Some? && Cleaned(op).value.Create? ==> Cleaned(op).value.path in fs || Free(fs, Cleaned(op).value.path)
  }

  predicate AllowedRun(token: string -> string, fs: Files, ops: seq<Op>)
    decreases |ops|
  {
    ops == [] || (Allowed(fs, ops[0]) && AllowedRun(token, Step(token, fs, ops[0]).0, ops[1..]))
  }

  predicate CleanOp(op: Op) {
    Clean(op.path) && (op.Copy? || op.Rename? ==> Clean(op.to))
  }

  lemma CleanedIsClean(op: Op)
    requires Cleaned(op).Some?
    ensures CleanOp(Cleaned(op).value)
  {
    hide CleanPath, Clean;
    CleanPathIsClean(op.path);
    if op.Copy? || op.Rename? { CleanPathIsClean(op.to); }
  }

  lemma RenameKeepsClean(fs: Files, from: string, to: string)
    requires AllClean(fs) && Clean(from) && Clean(to) && Free(fs, to)
    ensures AllClean(Renamed(fs, from, to))
  {
    hide Clean;
    var gs := Renamed(fs, from, to);
    if from !in fs {
      forall p | p in gs ensures Clean(p) {
        RenamedBelow(fs, from, to, p);
        if Under(to, p) {
          var q := Moved(to, from, p);
          MovedUnder(to, from, p);
          MovedClean(from, to, q);
        }
      }
    }
  }

  /** Files keep clean paths, whatever is asked. */
  lemma StepKeepsClean(token: string -> string, fs: Files, op: Op)
    requires AllClean(fs)
    ensures AllClean(Step(token, fs, op).0)
  {
    hide Clean, Cleaned, Renamed, Free;
    if Cleaned(op).Some? {
      CleanedIsClean(op);
      var o := Cleaned(op).value;
      if o.Rename? && Free(fs, o.to) { RenameKeepsClean(fs, o.path, o.to); }
    }
  }

  lemma StepKeepsTree(token: string -> string, fs: Files, op: Op)
    requires Treelike(fs) && Allowed(fs, op)
    ensures Treelike(Step(token, fs, op).0)
  {
    hide Clean, Cleaned, Renamed, Free, Treelike;
    if Cleaned(op).Some? {
      CleanedIsClean(op);
      var o := Cleaned(op).value;
      match o
      case Create(p, data) => if p !in fs { AddKeepsTree(fs, p, data); }
      case Replace(p, _, data) => if p in fs { ReplaceKeepsTree(fs, p, data); }
      case Remove(p) => if p in fs { ReplaceKeepsTree(fs, p, ""); }
      case Copy(p, to, _) => if p in fs && Free(fs, to) { AddKeepsTree(fs, to, fs[p]); }
      case Rename(p, to) => if Free(fs, to) && !Under(p, to) { RenameKeepsTree(fs, p, to); }
    }
  }

  /** From an empty namespace, over every run: paths stay clean, and no file is an ancestor of another. */
  lemma {:induction false} RunKeepsTree(token: string -> string, fs: Files, ops: seq<Op>)
    requires AllClean(fs) && Treelike(fs) && AllowedRun(token, fs, ops)
    ensures AllClean(Run(token, fs, ops)) && Treelike(Run(token, fs, ops))
    decreases |ops|
  {
    hide AllClean, Treelike, Allowed, Step;
    if ops != [] {
      StepKeepsClean(token, fs, ops[0]);
      StepKeepsTree(token, fs, ops[0]);
      RunKeepsTree(token, Step(token, fs, ops[0]).0, ops[1..]);
    }
  }

  /** Every request changes only what it names: a path that a request neither names nor holds below a
      renamed one keeps its content. */
  lemma OthersUntouched(token: string -> string, fs: Files, op: Op, p: string)
    requires p in fs && Cleaned(op).Some?
    requires var o := Cleaned(op).value; p != o.path && (o.Rename? ==> o.path in fs || !Under(o.path, p))
    ensures p in Step(token, fs, op).0 && Step(token, fs, op).0[p] == fs[p]
  {
    hide Cleaned, Renamed;
    CleanedIsClean(op);
    var o := Cleaned(op).value;
    if o.Rename? && Free(fs, o.to) && !Under(o.path, o.to) && Apply(token, fs, o).1.Ok? {
      assert o.path != o.to by { SelfNotFree(fs, o.path); }
      RenameMovesExactly(fs, o.path, o.to);
    }
  }

  lemma SelfNotFree(fs: Files, p: string)
    requires p in fs || Subtree(fs, p) != {}
    ensures !Free(fs, p)
  {
  }
}
