/** Paths as the daemon folds them: unix components, joined and normalized without touching the disk. */
module Paths {
  import opened Prelude

  datatype Component = RootDir | CurDir | ParentDir | Normal(name: string)

  type Path = seq<Component>

  /** The pieces between slashes; `n` slashes give `n + 1` pieces. */
  function SplitSlash(s: string): (r: seq<string>)
    ensures r != []
  {
    if s == [] then [[]]
    else
      var r, c := SplitSlash(s[..|s| - 1]), s[|s| - 1];
      if c == '/' then r + [[]] else r[..|r| - 1] + [r[|r| - 1] + [c]]
  }

  /** Empty pieces and `.` vanish; `..` steps up. */
  function PieceComponents(pieces: seq<string>): Path {
    if pieces == [] then []
    else
      var r, p := PieceComponents(pieces[..|pieces| - 1]), pieces[|pieces| - 1];
      if p == "" || p == "." then r
      else if p == ".." then r + [ParentDir]
      else r + [Normal(p)]
  }

  predicate IsAbsolute(s: string) {
    s != [] && s[0] == '/'
  }

  /** `Path::components`: a leading `.` is kept, every other one is skipped. */
  function Components(s: string): Path {
    var pieces := SplitSlash(s);
    (if IsAbsolute(s) then [RootDir] else if pieces[0] == "." then [CurDir] else []) + PieceComponents(pieces)
  }

  function WithoutCur(p: Path): Path {
    Filter(p, (c: Component) => c != CurDir)
  }

  /** `base.join(raw)`: an absolute `raw` replaces the base. */
  function Join(base: Path, raw: string): Path {
    if IsAbsolute(raw) then Components(raw)
    else if base == [] then Components(raw)
    else base + WithoutCur(Components(raw))
  }

  /** One component folded into a normalized path; `PathBuf::pop` leaves the root alone. */
  function Fold(out: Path, c: Component): Path {
    match c
    case CurDir => out
    case ParentDir => if out == [] || out[|out| - 1] == RootDir then out else out[..|out| - 1]
    case RootDir => [RootDir]
    case Normal(_) => out + [c]
  }

  function FoldAll(out: Path, p: Path): Path {
    if p == [] then out else Fold(FoldAll(out, p[..|p| - 1]), p[|p| - 1])
  }

  method Normalize(p: Path) returns (out: Path)
    ensures out == FoldAll([], p)
  {
    out := [];
    for i := 0 to |p|
      invariant out == FoldAll([], p[..i])
    {
      assert p[..i + 1][..i] == p[..i];
      match p[i] {
        case CurDir =>
        case ParentDir =>
          if out != [] && out[|out| - 1] != RootDir {
            out := out[..|out| - 1];
          }
        case RootDir => out := [RootDir];
        case Normal(_) => out := out + [p[i]];
      }
    }
    assert p[..|p|] == p;
  }

  lemma {:induction false} FoldAllConcat(out: Path, p: Path, q: Path)
    ensures FoldAll(out, p + q) == FoldAll(FoldAll(out, p), q)
  {
    if q == [] {
      assert p + q == p;
    } else {
      var n := |q| - 1;
      FoldAllConcat(out, p, q[..n]);
      assert (p + q)[..|p + q| - 1] == p + q[..n];
    }
  }

  lemma {:induction false} FoldAllIgnoresCur(out: Path, p: Path)
    ensures FoldAll(out, WithoutCur(p)) == FoldAll(out, p)
  {
    if p != [] {
      var n := |p| - 1;
      FoldAllIgnoresCur(out, p[..n]);
      if p[n] != CurDir {
        assert (WithoutCur(p[..n]) + [p[n]])[..|WithoutCur(p[..n])|] == WithoutCur(p[..n]);
      }
    }
  }

  /** A normalized path holds no `.` or `..`, and the root only at its front. */
  ghost predicate Normalized(p: Path) {
    forall i :: 0 <= i < |p| ==> p[i].Normal? || (i == 0 && p[i].RootDir?)
  }

  lemma {:induction false} FoldAllNormalizes(p: Path)
    ensures Normalized(FoldAll([], p))
  {
    if p != [] {
      FoldAllNormalizes(p[..|p| - 1]);
    }
  }

  /** Folding a normalized path changes nothing, so normalizing twice is normalizing once. */
  lemma {:induction false} FoldNormalized(p: Path)
    requires Normalized(p)
    ensures FoldAll([], p) == p
  {
    if p != [] {
      FoldNormalized(p[..|p| - 1]);
      assert p == p[..|p| - 1] + [p[|p| - 1]];
    }
  }

  // ---- what normalizing does ---------------------------------------------------------------

  /** A name and the `..` behind it cancel, wherever they stand. */
  lemma {:induction false} NameThenParent(p: Path, name: string, q: Path)
    ensures FoldAll([], p + [Normal(name), ParentDir] + q) == FoldAll([], p + q)
  {
    var out, pair := FoldAll([], p), [Normal(name), ParentDir];
    FoldAllConcat([], p + pair, q);
    FoldAllConcat([], p, pair);
    FoldAllConcat([], p, q);
    assert pair[..1] == [Normal(name)] && [Normal(name)][..0] == [];
    assert FoldAll(out, [Normal(name)]) == out + [Normal(name)];
    assert FoldAll(out, pair) == (out + [Normal(name)])[..|out|];
  }

  /** `..` at the root stays there, `..` with nothing before it is dropped, a root starts over. */
  lemma {:induction false} ParentAtTheTop(p: Path, q: Path)
    ensures FoldAll([], p + [RootDir, ParentDir] + q) == FoldAll([], [RootDir] + q)
    ensures FoldAll([], p + [RootDir] + q) == FoldAll([], [RootDir] + q)
    ensures FoldAll([], [ParentDir] + q) == FoldAll([], q)
  {
    hide FoldAll;
    FoldAllConcat([], p + [RootDir, ParentDir], q);
    FoldAllConcat([], p, [RootDir, ParentDir]);
    FoldAllConcat([], p + [RootDir], q);
    FoldAllConcat([], p, [RootDir]);
    FoldAllConcat([], [RootDir], q);
    FoldAllConcat([], [ParentDir], q);
    FoldTop(FoldAll([], p));
    FoldTop([]);
  }

  lemma {:induction false} FoldTop(out: Path)
    ensures FoldAll(out, [RootDir]) == [RootDir] && FoldAll(out, [RootDir, ParentDir]) == [RootDir]
    ensures FoldAll([], [ParentDir]) == []
  {
    assert [RootDir, ParentDir][..1] == [RootDir] && [RootDir][..0] == [] && [ParentDir][..0] == [];
  }

  // ---- paths as text -----------------------------------------------------------------------

  /** The pieces joined as one path. */
  function JoinSlash(words: seq<string>): string
    requires words != []
  {
    if |words| == 1 then words[0] else JoinSlash(words[..|words| - 1]) + "/" + words[|words| - 1]
  }

  lemma {:induction false} SplitSlashJoin(a: string, b: string)
    ensures SplitSlash(a + "/" + b) == SplitSlash(a) + SplitSlash(b)
  {
    if b == [] {
      assert a + "/" + b == a + ['/'];
    } else {
      var t, c := b[..|b| - 1], b[|b| - 1];
      SplitSlashJoin(a, t);
      assert b == t + [c];
      Regroup(a + "/", t, [c]);
      JoinOneMore(a + "/" + t, a, t, c);
    }
  }

  lemma {:induction false} JoinOneMore(joined: string, a: string, t: string, c: char)
    requires SplitSlash(joined) == SplitSlash(a) + SplitSlash(t)
    ensures SplitSlash(joined + [c]) == SplitSlash(a) + SplitSlash(t + [c])
  {
    SplitSlashSnoc(joined, c);
    SplitSlashSnoc(t, c);
    hide SplitSlash;
  }

  lemma {:induction false} SplitSlashSnoc(s: string, c: char)
    ensures var r := SplitSlash(s);
            SplitSlash(s + [c]) == if c == '/' then r + [[]] else r[..|r| - 1] + [r[|r| - 1] + [c]]
  {
    assert (s + [c])[..|s|] == s;
  }

  lemma {:induction false} PieceComponentsConcat(a: seq<string>, b: seq<string>)
    ensures PieceComponents(a + b) == PieceComponents(a) + PieceComponents(b)
  {
    if b == [] {
      assert a + b == a;
    } else {
      var n := |b| - 1;
      PieceComponentsConcat(a, b[..n]);
      assert (a + b)[..|a + b| - 1] == a + b[..n];
    }
  }

  // ---- scratch workspaces ------------------------------------------------------------------

  function Names(p: Path): seq<string> {
    if p == [] then []
    else
      var r := Names(p[..|p| - 1]);
      if p[|p| - 1].Normal? then r + [p[|p| - 1].name] else r
  }

  /** The first place where `Claude/scratch-workspaces` occurs at or after `i`. */
  function ScratchRootAt(parts: seq<string>, i: nat): (r: Option<nat>)
    ensures r.Some? ==> i <= r.value && r.value + 2 <= |parts|
    decreases |parts| - i
  {
    if i + 2 > |parts| then None
    else if parts[i] == "Claude" && parts[i + 1] == "scratch-workspaces" then Some(i)
    else ScratchRootAt(parts, i + 1)
  }

  /** The account, org and scratch directory below the scratch root; its digest is what is stored. */
  function ScratchWorkspace(cwd: string): Option<seq<string>> {
    var parts := Names(Components(cwd));
    match ScratchRootAt(parts, 0)
    case None => None
    case Some(at) =>
      if at + 5 > |parts| then None
      else if "scratch-" <= parts[at + 4] then Some(parts[at + 2..at + 5])
      else None
  }

  // ---- what lies in a scratch workspace ----------------------------------------------------

  ghost predicate RootPairAt(names: seq<string>, at: nat) {
    at + 2 <= |names| && names[at] == "Claude" && names[at + 1] == "scratch-workspaces"
  }

  /** `w` is the account, org and `scratch-…` directory right below the first root pair. */
  ghost predicate InWorkspaceAt(names: seq<string>, at: nat, w: seq<string>) {
    && RootPairAt(names, at) && (forall j :: 0 <= j < at ==> !RootPairAt(names, j))
    && at + 5 <= |names| && w == names[at + 2..at + 5] && "scratch-" <= w[2]
  }

  ghost predicate InWorkspace(names: seq<string>, w: seq<string>) {
    exists at: nat :: InWorkspaceAt(names, at, w)
  }

  lemma {:induction false} RootIsFirstPair(names: seq<string>, i: nat)
    ensures match ScratchRootAt(names, i)
            case None => forall j: nat :: i <= j ==> !RootPairAt(names, j)
            case Some(at) => RootPairAt(names, at) && forall j :: i <= j < at ==> !RootPairAt(names, j)
    decreases |names| - i
  {
    if i + 2 <= |names| && !RootPairAt(names, i) { RootIsFirstPair(names, i + 1); }
  }

  /** The workspace of a directory, by nothing but the names on its path. */
  lemma {:induction false} ScratchWorkspaceIff(cwd: string, w: seq<string>)
    ensures ScratchWorkspace(cwd) == Some(w) <==> InWorkspace(Names(Components(cwd)), w)
  {
    var names := Names(Components(cwd));
    RootIsFirstPair(names, 0);
    if ScratchWorkspace(cwd) == Some(w) {
      assert InWorkspaceAt(names, ScratchRootAt(names, 0).value, w);
    }
    if InWorkspace(names, w) {
      var at: nat :| InWorkspaceAt(names, at, w);
      assert ScratchRootAt(names, 0) == Some(at);
    }
  }

  /** A name a directory can have. */
  ghost predicate PlainName(w: string) {
    w != "" && w != "." && w != ".." && '/' !in w
  }

  function TextOf(names: seq<string>): string
    requires names != []
  {
    "/" + JoinSlash(names)
  }

  lemma {:induction false} SplitPlainName(w: string)
    requires '/' !in w
    ensures SplitSlash(w) == [w]
  {
    if w != [] {
      SplitPlainName(w[..|w| - 1]);
      assert w == w[..|w| - 1] + [w[|w| - 1]];
    }
  }

  lemma {:induction false} SplitJoined(names: seq<string>)
    requires names != [] && forall i :: 0 <= i < |names| ==> '/' !in names[i]
    ensures SplitSlash(JoinSlash(names)) == names
  {
    var n := |names| - 1;
    SplitPlainName(names[n]);
    if n > 0 {
      SplitJoined(names[..n]);
      SplitSlashJoin(JoinSlash(names[..n]), names[n]);
    }
  }

  lemma {:induction false} NamesConcat(p: Path, q: Path)
    ensures Names(p + q) == Names(p) + Names(q)
  {
    if q == [] {
      assert p + q == p;
    } else {
      var n := |q| - 1;
      NamesConcat(p, q[..n]);
      assert (p + q)[..|p + q| - 1] == p + q[..n];
    }
  }

  function Normals(names: seq<string>): Path {
    Apply((n: string) => Normal(n), names)
  }

  lemma {:induction false} PlainPieces(names: seq<string>)
    requires forall i :: 0 <= i < |names| ==> PlainName(names[i])
    ensures PieceComponents(names) == Normals(names)
  {
    if names != [] {
      PlainPieces(names[..|names| - 1]);
    }
  }

  lemma {:induction false} NamesOfNormals(names: seq<string>)
    ensures Names(Normals(names)) == names
  {
    if names != [] {
      NamesOfNormals(names[..|names| - 1]);
      assert Normals(names)[..|names| - 1] == Normals(names[..|names| - 1]);
    }
  }

  lemma {:induction false} NamesOfText(s: string)
    ensures Names(Components(s)) == Names(PieceComponents(SplitSlash(s)))
  {
    var rest := PieceComponents(SplitSlash(s));
    var head := if IsAbsolute(s) then [RootDir] else if SplitSlash(s)[0] == "." then [CurDir] else [];
    NamesConcat(head, rest);
    if head != [] { assert head[..0] == []; }
  }

  /** The pieces of a printed path: nothing before the first slash, then its names. */
  lemma {:induction false} PiecesOfText(names: seq<string>)
    requires names != [] && forall i :: 0 <= i < |names| ==> '/' !in names[i]
    ensures SplitSlash(TextOf(names)) == [""] + names
  {
    SplitJoined(names);
    SplitSlashJoin("", JoinSlash(names));
    assert SplitSlash("") == [""];
    hide SplitSlash;
    hide JoinSlash;
    assert "" + "/" + JoinSlash(names) == TextOf(names);
  }

  lemma {:induction false} EmptyPieceFirst(pieces: seq<string>)
    ensures PieceComponents([""] + pieces) == PieceComponents(pieces)
  {
    PieceComponentsConcat([""], pieces);
    assert [""][..0] == [] && PieceComponents([""]) == [];
  }

  /** A printed path reads back as its names below the root, and normalizing leaves it alone. */
  lemma {:induction false} PathReadsBack(names: seq<string>)
    requires names != [] && forall i :: 0 <= i < |names| ==> PlainName(names[i])
    ensures Components(TextOf(names)) == [RootDir] + Normals(names)
    ensures FoldAll([], Components(TextOf(names))) == [RootDir] + Normals(names)
    ensures Names(Components(TextOf(names))) == names
  {
    hide FoldAll;
    hide SplitSlash;
    hide PieceComponents;
    hide Names;
    hide JoinSlash;
    PlainHasNoSlash(names);
    PiecesOfText(names);
    EmptyPieceFirst(names);
    PlainPieces(names);
    FoldNormalized([RootDir] + Normals(names));
    NamesOfText(TextOf(names));
    NamesOfNormals(names);
  }

  lemma {:induction false} PlainHasNoSlash(names: seq<string>)
    requires forall i :: 0 <= i < |names| ==> PlainName(names[i])
    ensures forall i :: 0 <= i < |names| ==> '/' !in names[i]
  {
  }

  /** A directory that lies in a scratch workspace, and everything below it, lies in the same one. */
  lemma {:induction false} BelowIsSameWorkspace(cwd: string, sub: string)
    requires ScratchWorkspace(cwd).Some?
    ensures ScratchWorkspace(cwd + "/" + sub) == ScratchWorkspace(cwd)
  {
    var w, names, below := ScratchWorkspace(cwd).value, Names(Components(cwd)), Names(Components(cwd + "/" + sub));
    NamesBelow(cwd, sub);
    ScratchWorkspaceIff(cwd, w);
    ScratchWorkspaceIff(cwd + "/" + sub, w);
    var at: nat :| InWorkspaceAt(names, at, w);
    assert names <= below;
    assert InWorkspaceAt(below, at, w) by {
      assert below[at + 2..at + 5] == names[at + 2..at + 5];
      forall j | 0 <= j < at ensures !RootPairAt(below, j) { assert !RootPairAt(names, j); }
    }
  }

  lemma {:induction false} NamesBelow(cwd: string, sub: string)
    ensures Names(Components(cwd)) <= Names(Components(cwd + "/" + sub))
  {
    SplitSlashJoin(cwd, sub);
    PieceComponentsConcat(SplitSlash(cwd), SplitSlash(sub));
    NamesOfText(cwd);
    NamesOfText(cwd + "/" + sub);
    NamesConcat(PieceComponents(SplitSlash(cwd)), PieceComponents(SplitSlash(sub)));
  }

  const SCRATCH_ROOT: seq<string> := ["Claude", "scratch-workspaces"]

  /** The directory of account `a`, org `o` and name `d`, wherever the root lies. */
  function ScratchPath(root: seq<string>, a: string, o: string, d: string): seq<string> {
    root + SCRATCH_ROOT + [a, o, d]
  }

  /**
   Below a root that holds no such pair itself, the directory `a/o/d` is a workspace if and only if `d`
   starts with `scratch-`; what is above `d` is in none.
   */
  lemma {:induction false} ScratchDirIff(root: seq<string>, a: string, o: string, d: string)
    requires forall i :: 0 <= i < |ScratchPath(root, a, o, d)| ==> PlainName(ScratchPath(root, a, o, d)[i])
    requires forall j: nat :: !RootPairAt(root, j)
    ensures ScratchWorkspace(TextOf(ScratchPath(root, a, o, d))) == if "scratch-" <= d then Some([a, o, d]) else None
    ensures ScratchWorkspace(TextOf(root + SCRATCH_ROOT + [a, o])) == None
  {
    hide PlainName;
    var all, short := ScratchPath(root, a, o, d), root + SCRATCH_ROOT + [a, o];
    assert short == all[..|short|];
    NamesReadBack(all);
    NamesReadBack(short);
    FirstPairBelow(root, [a, o, d]);
    FirstPairBelow(root, [a, o]);
    assert all[|root| + 2..|root| + 5] == [a, o, d] && all[|root| + 4] == d;
    assert |short| < |root| + 5 <= |all|;
    hide RootPairAt;
    hide TextOf;
    hide Components;
  }

  lemma {:induction false} NamesReadBack(names: seq<string>)
    requires names != [] && forall i :: 0 <= i < |names| ==> PlainName(names[i])
    ensures Names(Components(TextOf(names))) == names
  {
    PathReadsBack(names);
  }

  lemma {:induction false} FirstPairBelow(root: seq<string>, below: seq<string>)
    requires forall j: nat :: !RootPairAt(root, j)
    ensures ScratchRootAt(root + SCRATCH_ROOT + below, 0) == Some(|root|)
  {
    var names := root + SCRATCH_ROOT + below;
    RootIsFirstPair(names, 0);
    assert RootPairAt(names, |root|);
    forall j: nat | j < |root| ensures !RootPairAt(names, j) {
      assert !RootPairAt(root, j);
      if j == |root| - 1 { assert names[j + 1] == "Claude"; }
    }
  }
}
