/** Where a shell command says it worked: `cd` chains, `git -C`, `gh -R`, `gh api repos/...`. */
module BashEvidence {
  import opened Prelude
  import opened Paths
  import opened Shell

  datatype Evidence = PathEvidence(path: Path) | RepoEvidence(repo: string)

  /** The ambient facts a command is read against: the home directory and the repo canonicalizer. */
  datatype Ambient = Ambient(home: Option<Path>, canonical: string -> Option<string>)

  predicate HasShellVariable(raw: string) {
    '$' in raw || '`' in raw
  }

  /** A path as the daemon can know it: absolute, `~`-relative, or relative to a known base. */
  function LocalPath(raw: string, base: Option<Path>, env: Ambient): Option<Path> {
    if raw == "" || HasShellVariable(raw) || raw == "-" then None
    else
      var p := if "~/" <= raw then (if env.home.Some? then Some(Join(env.home.value, raw[2..])) else None)
               else if raw == "~" then env.home
               else if IsAbsolute(raw) then Some(Components(raw))
               else if base.Some? then Some(Join(base.value, raw))
               else None;
      if p.Some? then Some(FoldAll([], p.value)) else None
  }

  /** The value of the first of `flags`: `-R x`, `--repo x` or `--repo=x`. */
  function FlagValue(words: seq<string>, flags: seq<string>, i: nat): Option<string>
    decreases |words| - i
  {
    if i >= |words| then None
    else
      match FlagAt(words, flags, i, 0)
      case None => FlagValue(words, flags, i + 1)
      case Some(found) => found
  }

  function FlagAt(words: seq<string>, flags: seq<string>, i: nat, j: nat): Option<Option<string>>
    requires i < |words|
    decreases |flags| - j
  {
    if j >= |flags| then None
    else if words[i] == flags[j] then Some(if i + 1 < |words| then Some(words[i + 1]) else None)
    else if flags[j] + "=" <= words[i] then Some(Some(words[i][|flags[j]| + 1..]))
    else FlagAt(words, flags, i, j + 1)
  }

  function TrimLeft(s: string): string {
    if s != [] && s[0] == '/' then TrimLeft(s[1..]) else s
  }

  function TrimRight(s: string): string {
    if s != [] && s[|s| - 1] == '/' then TrimRight(s[..|s| - 1]) else s
  }

  predicate RepoName(s: string) {
    s != "" && forall c :: c in s ==>
      'a' <= c <= 'z' || 'A' <= c <= 'Z' || '0' <= c <= '9' || c == '-' || c == '_' || c == '.'
  }

  /** `owner/name` or `host/owner/name`. */
  function GhRepo(spec: string, env: Ambient): Option<string> {
    var parts := SplitSlash(TrimRight(TrimLeft(spec)));
    if |parts| == 2 && RepoName(parts[0]) && RepoName(parts[1]) then
      env.canonical("https://github.com/" + parts[0] + "/" + parts[1])
    else if |parts| == 3 && '.' in parts[0] && RepoName(parts[1]) && RepoName(parts[2]) then
      env.canonical("https://" + parts[0] + "/" + parts[1] + "/" + parts[2])
    else None
  }

  function UpTo(s: string): string {
    if s == [] || s[0] == '/' || s[0] == '?' then [] else [s[0]] + UpTo(s[1..])
  }

  /** `repos/owner/name[/...]`, optionally behind slashes. */
  function GhApiRepo(word: string, env: Ambient): Option<string> {
    var w := TrimLeft(word);
    if !("repos/" <= w) then None
    else
      var rest := w[6..];
      var owner := UpTo(rest);
      if |owner| >= |rest| then None
      else GhRepo(owner + "/" + UpTo(rest[|owner| + 1..]), env)
  }

  function FirstApiRepo(words: seq<string>, i: nat, env: Ambient): Option<string>
    decreases |words| - i
  {
    if i >= |words| then None
    else
      match GhApiRepo(words[i], env)
      case Some(r) => Some(r)
      case None => FirstApiRepo(words, i + 1, env)
  }

  /** What is known while the segments are read in order. */
  datatype Reading = Reading(out: seq<Evidence>, here: Option<Path>, moved: bool)

  function AddRepo(out: seq<Evidence>, r: Option<string>): seq<Evidence> {
    if r.Some? then out + [RepoEvidence(r.value)] else out
  }

  function ReadSegment(r: Reading, words: seq<string>, env: Ambient): Reading {
    if words == [] then r
    else if words[0] == "cd" || words[0] == "pushd" then
      if |words| < 2 then r
      else
        var p := LocalPath(words[1], r.here, env);
        Reading(r.out, p, p.Some?)
    else if words[0] == "git" then
      var dir := FlagValue(words, ["-C"], 0);
      var p := if dir.Some? then LocalPath(dir.value, r.here, env) else None;
      if p.Some? then r.(out := r.out + [PathEvidence(p.value)]) else r
    else if words[0] == "gh" then
      var named := FlagValue(words, ["-R", "--repo"], 0);
      var out := AddRepo(r.out, if named.Some? then GhRepo(named.value, env) else None);
      r.(out := if |words| > 1 && words[1] == "api" then AddRepo(out, FirstApiRepo(words, 2, env)) else out)
    else r
  }

  function ReadSegments(r: Reading, segments: seq<string>, env: Ambient): Reading {
    if segments == [] then r
    else ReadSegment(ReadSegments(r, segments[..|segments| - 1], env), Words(segments[|segments| - 1]), env)
  }

  function Conclude(r: Reading): seq<Evidence> {
    if r.moved && r.here.Some? then r.out + [PathEvidence(r.here.value)] else r.out
  }

  function Evidences(command: string, cwd: Option<string>, env: Ambient): seq<Evidence> {
    var start := Reading([], if cwd.Some? then Some(Components(cwd.value)) else None, false);
    Conclude(ReadSegments(start, Segments(command), env))
  }

  method ReadBash(command: string, cwd: Option<string>, env: Ambient) returns (out: seq<Evidence>)
    ensures out == Evidences(command, cwd, env)
  {
    out := [];
    var here: Option<Path> := if cwd.Some? then Some(Components(cwd.value)) else None;
    var moved := false;
    ghost var start := Reading([], here, false);
    var segments := SplitSegments(command);
    for i := 0 to |segments|
      invariant Reading(out, here, moved) == ReadSegments(start, segments[..i], env)
    {
      assert segments[..i + 1][..i] == segments[..i];
      var words := ShellWords(segments[i]);
      if words != [] {
        if words[0] == "cd" || words[0] == "pushd" {
          if |words| >= 2 {
            here := LocalPath(words[1], here, env);
            moved := here.Some?;
          }
        } else if words[0] == "git" {
          var dir := FlagValue(words, ["-C"], 0);
          if dir.Some? {
            var p := LocalPath(dir.value, here, env);
            if p.Some? {
              out := out + [PathEvidence(p.value)];
            }
          }
        } else if words[0] == "gh" {
          var named := FlagValue(words, ["-R", "--repo"], 0);
          if named.Some? {
            out := AddRepo(out, GhRepo(named.value, env));
          }
          if |words| > 1 && words[1] == "api" {
            out := AddRepo(out, FirstApiRepo(words, 2, env));
          }
        }
      }
    }
    assert segments[..|segments|] == segments;
    if moved && here.Some? {
      out := out + [PathEvidence(here.value)];
    }
  }

  // ---- a chain of relative cds -------------------------------------------------------------

  /** A directory name read as typed: nothing the shell would expand, and not absolute. */
  predicate RelativeWord(w: string) {
    w != "" && !HasShellVariable(w) && w != "-" && w != "~" && !("~/" <= w) && !IsAbsolute(w)
  }

  ghost predicate Ordinary(w: string) {
    RelativeWord(w) && Quoted(w).Kept()
  }

  function Cd(w: string): Command {
    Command(1, [Bare("cd"), Quoted(w)], 1)
  }

  function Cds(words: seq<string>): (r: seq<Command>)
    ensures |r| == |words|
    ensures forall i :: 0 <= i < |words| ==> r[i] == Cd(words[i])
  {
    seq(|words|, i requires 0 <= i < |words| => Cd(words[i]))
  }

  lemma {:induction false} NoCurInPieces(pieces: seq<string>)
    ensures CurDir !in PieceComponents(pieces)
  {
    if pieces != [] { NoCurInPieces(pieces[..|pieces| - 1]); }
  }

  /** The components of a relative word, without `.`. */
  function Steps(w: string): Path {
    PieceComponents(SplitSlash(w))
  }

  lemma {:induction false} RelativeSteps(w: string)
    requires !IsAbsolute(w)
    ensures WithoutCur(Components(w)) == Steps(w)
  {
    NoCurInPieces(SplitSlash(w));
    var p := Components(w);
    FilterAll(Steps(w), (c: Component) => c != CurDir);
    if p != Steps(w) {
      assert p == [CurDir] + Steps(w);
      FilterConcat([CurDir], Steps(w), (c: Component) => c != CurDir);
      assert [CurDir][..0] == [];
    }
  }

  function StepsOf(words: seq<string>): Path {
    if words == [] then [] else StepsOf(words[..|words| - 1]) + Steps(words[|words| - 1])
  }

  lemma {:induction false} JoinedSteps(words: seq<string>)
    requires words != [] && forall i :: 0 <= i < |words| ==> RelativeWord(words[i])
    ensures Steps(JoinSlash(words)) == StepsOf(words)
    ensures !IsAbsolute(JoinSlash(words)) && JoinSlash(words) != ""
  {
    hide Steps;
    hide RelativeWord;
    var n := |words| - 1;
    WordIsRelative(words[n]);
    if n == 0 {
      assert words[..0] == [];
      assert StepsOf(words[..0]) == [];
    } else {
      JoinedSteps(words[..n]);
      JoinedOneMore(JoinSlash(words[..n]), words[n]);
    }
  }

  lemma {:induction false} WordIsRelative(w: string)
    requires RelativeWord(w)
    ensures w != "" && !IsAbsolute(w)
  {
  }

  lemma {:induction false} JoinedOneMore(joined: string, w: string)
    requires !IsAbsolute(joined) && joined != ""
    ensures Steps(joined + "/" + w) == Steps(joined) + Steps(w)
    ensures !IsAbsolute(joined + "/" + w) && joined + "/" + w != ""
  {
    SplitSlashJoin(joined, w);
    PieceComponentsConcat(SplitSlash(joined), SplitSlash(w));
  }

  /** A path that starts at the root keeps starting there. */
  lemma {:induction false} RootStays(out: Path, p: Path)
    requires out != [] && out[0] == RootDir
    ensures FoldAll(out, p) != [] && FoldAll(out, p)[0] == RootDir
  {
    if p != [] { RootStays(out, p[..|p| - 1]); }
  }

  lemma {:induction false} RootStaysFromStart(cwd: string, p: Path)
    requires IsAbsolute(cwd)
    ensures FoldAll([], Components(cwd) + p) != []
  {
    var c := Components(cwd);
    assert c[0] == RootDir;
    assert c + p == [RootDir] + (c[1..] + p);
    FoldAllConcat([], [RootDir], c[1..] + p);
    assert [RootDir][..0] == [];
    RootStays([RootDir], c[1..] + p);
  }

  /** One `cd` moves to the folded directory. */
  lemma {:induction false} OneCd(r: Reading, w: string, env: Ambient)
    requires Ordinary(w) && r.here.Some? && r.here.value != []
    ensures ReadSegment(r, ["cd", w], env) == Reading(r.out, Some(FoldAll([], r.here.value + Steps(w))), true)
  {
    RelativeSteps(w);
  }

  /** Where a chain stands after `words`. */
  function Stand(cwd: string, words: seq<string>): Reading {
    if words == [] then Reading([], Some(Components(cwd)), false)
    else Reading([], Some(FoldAll([], Components(cwd) + StepsOf(words))), true)
  }

  lemma {:induction false} StandSnoc(cwd: string, words: seq<string>, w: string)
    requires IsAbsolute(cwd)
    ensures var r := Stand(cwd, words);
            && r.out == [] && r.here.Some? && r.here.value != []
            && Stand(cwd, words + [w]) == Reading([], Some(FoldAll([], r.here.value + Steps(w))), true)
  {
    var c, before := Components(cwd), StepsOf(words);
    StepsSnoc(words, w);
    assert c != [] && (words == [] ==> before + Steps(w) == Steps(w));
    hide FoldAll;
    hide Components;
    hide StepsOf;
    if words != [] {
      RootStaysFromStart(cwd, before);
      FoldTwice(c + before, Steps(w));
      Regroup(c, before, Steps(w));
    }
  }

  lemma {:induction false} StepsSnoc(words: seq<string>, w: string)
    ensures StepsOf(words + [w]) == StepsOf(words) + Steps(w)
  {
    assert (words + [w])[..|words|] == words;
  }

  lemma {:induction false} StandStep(cwd: string, words: seq<string>, w: string, env: Ambient)
    requires IsAbsolute(cwd) && Ordinary(w)
    ensures ReadSegment(Stand(cwd, words), ["cd", w], env) == Stand(cwd, words + [w])
  {
    StandSnoc(cwd, words, w);
    StepTo(Stand(cwd, words), Stand(cwd, words + [w]), w, env);
  }

  lemma {:induction false} StepTo(r: Reading, next: Reading, w: string, env: Ambient)
    requires Ordinary(w) && r.here.Some? && r.here.value != []
    requires next == Reading(r.out, Some(FoldAll([], r.here.value + Steps(w))), true)
    ensures ReadSegment(r, ["cd", w], env) == next
  {
    OneCd(r, w, env);
  }

  /** Reading `segments` leaves the chain where `words` lead. */
  ghost predicate Follows(cwd: string, words: seq<string>, segments: seq<string>, env: Ambient) {
    ReadSegments(Stand(cwd, []), segments, env) == Stand(cwd, words)
  }

  lemma {:induction false} FollowsStep(cwd: string, words: seq<string>, w: string, segments: seq<string>, env: Ambient)
    requires IsAbsolute(cwd) && Ordinary(w) && Follows(cwd, words, segments, env)
    ensures Follows(cwd, words + [w], segments + [Cd(w).Text()], env)
  {
    CdReads(w);
    StandStep(cwd, words, w, env);
  }

  lemma {:induction false} CdTextsSnoc(words: seq<string>, w: string)
    ensures Texts(Cds(words + [w])) == Texts(Cds(words)) + [Cd(w).Text()]
    ensures Texts(Cds([])) == []
  {
    assert Cds(words + [w]) == Cds(words) + [Cd(w)];
  }

  /** Reading the chain's segments follows it. */
  lemma {:induction false} ChainStands(cwd: string, words: seq<string>, env: Ambient)
    requires IsAbsolute(cwd) && forall i :: 0 <= i < |words| ==> Ordinary(words[i])
    ensures Follows(cwd, words, Texts(Cds(words)), env)
  {
    CdTextsSnoc([], "");
    if words == [] {
    } else {
      var ws, w := words[..|words| - 1], words[|words| - 1];
      assert words == ws + [w];
      assert Ordinary(w);
      CdTextsSnoc(ws, w);
      ChainStands(cwd, ws, env);
      FollowsStep(cwd, ws, w, Texts(Cds(ws)), env);
    }
  }

  /** Folding a folded prefix again changes nothing. */
  lemma {:induction false} FoldTwice(p: Path, q: Path)
    ensures FoldAll([], FoldAll([], p) + q) == FoldAll([], p + q)
  {
    FoldAllNormalizes(p);
    FoldNormalized(FoldAll([], p));
    FoldAllConcat([], FoldAll([], p), q);
    FoldAllConcat([], p, q);
  }

  lemma {:induction false} CdReads(w: string)
    ensures Words(Cd(w).Text()) == ["cd", w]
  {
    WordsRoundTrip(Cd(w).tokens, 1, 1);
  }

  lemma {:induction false} CdsAreSafe(words: seq<string>)
    requires forall i :: 0 <= i < |words| ==> Ordinary(words[i])
    ensures forall i :: 0 <= i < |words| ==> Cds(words)[i].Safe()
  {
  }

  lemma {:induction false} OrdinaryIsWord(w: string)
    requires Ordinary(w)
    ensures RelativeWord(w)
  {
  }

  /** Where the words lead is where the one joined path leads. */
  lemma {:induction false} StandIsJoined(cwd: string, words: seq<string>)
    requires IsAbsolute(cwd) && words != [] && forall i :: 0 <= i < |words| ==> RelativeWord(words[i])
    ensures Stand(cwd, words) == Reading([], Some(FoldAll([], Join(Components(cwd), JoinSlash(words)))), true)
  {
    hide RelativeWord;
    hide FoldAll;
    hide StepsOf;
    hide JoinSlash;
    hide Steps;
    JoinedSteps(words);
    RelativeSteps(JoinSlash(words));
  }

  /**
   A chain of quoted relative `cd`s, under any operators, yields exactly one path: the one the cwd
   joined with all the words at once normalizes to.
   */
  lemma {:induction false} CdChainLandsOnWholePath(cwd: string, words: seq<string>, ops: seq<Op>, env: Ambient)
    requires IsAbsolute(cwd) && |words| == |ops| + 1
    requires forall i :: 0 <= i < |words| ==> Ordinary(words[i])
    ensures Evidences(Script(Cds(words), ops), Some(cwd), env) ==
            [PathEvidence(FoldAll([], Join(Components(cwd), JoinSlash(words))))]
  {
    hide Ordinary;
    hide FoldAll;
    hide Components;
    hide JoinSlash;
    hide Join;
    hide Script;
    hide Cds;
    hide ReadSegments;
    hide Segments;
    CdsAreSafe(words);
    forall i | 0 <= i < |words| ensures RelativeWord(words[i]) { OrdinaryIsWord(words[i]); }
    SegmentsRoundTrip(Cds(words), ops);
    ChainStands(cwd, words, env);
    StandIsJoined(cwd, words);
  }
}
