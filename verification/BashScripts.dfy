/** What whole scripts of `cd`, `git` and `gh` lines say, however they are printed. */
module BashScripts {
  import opened Prelude
  import opened Paths
  import opened Shell
  import opened BashEvidence

  // ---- directories -------------------------------------------------------------------------

  /** A directory as a command names it. */
  datatype Dir = Relative(word: string) | Absolute(path: string) | Home | InHome(rest: string) | Expanded(raw: string)
  {
    function Word(): string {
      match this
      case Relative(w) => w
      case Absolute(p) => p
      case Home => "~"
      case InHome(rest) => "~/" + rest
      case Expanded(raw) => raw
    }

    predicate Ok() {
      match this
      case Relative(w) => RelativeWord(w)
      case Absolute(p) => IsAbsolute(p) && !HasShellVariable(p)
      case Home => true
      case InHome(rest) => !IsAbsolute(rest) && !HasShellVariable(rest)
      case Expanded(raw) => raw == "" || raw == "-" || HasShellVariable(raw)
    }

    /** Where it leads: from a known place, from the root, from a known home, or nowhere known. */
    function From(base: Option<Path>, home: Option<Path>): Option<Path> {
      match this
      case Relative(w) => if base.Some? then Some(FoldAll([], base.value + Steps(w))) else None
      case Absolute(p) => Some(FoldAll([], Components(p)))
      case Home => if home.Some? then Some(FoldAll([], home.value)) else None
      case InHome(rest) => if home.Some? then Some(FoldAll([], home.value + Steps(rest))) else None
      case Expanded(_) => None
    }
  }

  lemma {:induction false} RelativeLeads(base: Path, w: string)
    requires !IsAbsolute(w)
    ensures FoldAll([], Join(base, w)) == FoldAll([], base + Steps(w))
  {
    RelativeSteps(w);
    if base == [] {
      FoldAllIgnoresCur([], Components(w));
      assert base + Steps(w) == Steps(w);
    }
  }

  lemma {:induction false} DirLeads(dir: Dir, base: Option<Path>, env: Ambient)
    requires dir.Ok()
    ensures LocalPath(dir.Word(), base, env) == dir.From(base, env.home)
  {
    match dir
    case Relative(w) => if base.Some? { RelativeLeads(base.value, w); }
    case InHome(rest) =>
      assert dir.Word()[2..] == rest;
      HomeWord(rest);
      if env.home.Some? { RelativeLeads(env.home.value, rest); }
    case _ =>
  }

  lemma {:induction false} HomeWord(rest: string)
    requires !HasShellVariable(rest)
    ensures !HasShellVariable("~/" + rest)
  {
  }

  // ---- flags -------------------------------------------------------------------------------

  /** `-R x` or `-R=x`. */
  function FlagWords(flag: string, joined: bool, value: string): seq<string> {
    if joined then [flag + "=" + value] else [flag, value]
  }

  predicate IsFlag(w: string, flag: string) {
    w == flag || flag + "=" <= w
  }

  predicate NoFlags(words: seq<string>, flags: seq<string>) {
    forall i, j :: 0 <= i < |words| && 0 <= j < |flags| ==> !IsFlag(words[i], flags[j])
  }

  lemma {:induction false} NotAFlagAt(words: seq<string>, flags: seq<string>, i: nat, j: nat)
    requires i < |words| && forall k :: j <= k < |flags| ==> !IsFlag(words[i], flags[k])
    ensures FlagAt(words, flags, i, j) == None
    decreases |flags| - j
  {
    if j < |flags| { NotAFlagAt(words, flags, i, j + 1); }
  }

  lemma {:induction false} SkipNoFlags(words: seq<string>, flags: seq<string>, i: nat, n: nat)
    requires i <= n <= |words| && NoFlags(words[i..n], flags)
    ensures FlagValue(words, flags, i) == FlagValue(words, flags, n)
    decreases n - i
  {
    if i < n {
      var w := words[i..n];
      assert w[0] == words[i] && w[1..] == words[i + 1..n];
      NotAFlagAt(words, flags, i, 0);
      SkipNoFlags(words, flags, i + 1, n);
    }
  }

  lemma {:induction false} NoFlagsAtAll(words: seq<string>, flags: seq<string>)
    requires NoFlags(words, flags)
    ensures FlagValue(words, flags, 0) == None
  {
    assert words[0..|words|] == words;
    SkipNoFlags(words, flags, 0, |words|);
  }

  const GIT_FLAGS: seq<string> := ["-C"]
  const GH_FLAGS: seq<string> := ["-R", "--repo"]

  /** At its own word, the flag is recognized and its value taken. */
  lemma {:induction false} TakenAt(words: seq<string>, flags: seq<string>, n: nat, j: nat, joined: bool, value: string)
    requires j < |flags| && n < |words| && flags[j] != ""
    requires if joined then words[n] == flags[j] + "=" + value else words[n] == flags[j] && n + 1 < |words| && words[n + 1] == value
    ensures FlagAt(words, flags, n, j) == Some(Some(value))
  {
    if joined {
      assert words[n][|flags[j]| + 1..] == value;
      assert words[n] != flags[j];
    }
  }

  lemma {:induction false} FlagHere(words: seq<string>, flags: seq<string>, n: nat, flag: string, joined: bool, value: string)
    requires flags == GIT_FLAGS || flags == GH_FLAGS
    requires flag in flags && n < |words| && FlagWords(flag, joined, value) <= words[n..]
    ensures FlagValue(words, flags, n) == Some(value)
  {
    var f := FlagWords(flag, joined, value);
    assert words[n..][..|f|] == f;
    assert words[n] == f[0] && (!joined ==> words[n + 1] == value);
    if flag == flags[0] {
      TakenAt(words, flags, n, 0, joined, value);
    } else {
      assert flag == "--repo" && words[n][1] == '-' && !IsFlag(words[n], flags[0]);
      TakenAt(words, flags, n, 1, joined, value);
    }
  }

  lemma {:induction false} FlagFound(pre: seq<string>, flags: seq<string>, flag: string, joined: bool, value: string, rest: seq<string>)
    requires flags == GIT_FLAGS || flags == GH_FLAGS
    requires flag in flags && NoFlags(pre, flags)
    ensures FlagValue(pre + FlagWords(flag, joined, value) + rest, flags, 0) == Some(value)
  {
    var words := pre + FlagWords(flag, joined, value) + rest;
    assert words[0..|pre|] == pre;
    SkipNoFlags(words, flags, 0, |pre|);
    assert words[|pre|..] == FlagWords(flag, joined, value) + rest;
    FlagHere(words, flags, |pre|, flag, joined, value);
  }

  // ---- repos -------------------------------------------------------------------------------

  datatype Repo = OnGithub(owner: string, name: string) | OnHost(host: string, owner: string, name: string) {
    predicate Ok() {
      RepoName(owner) && RepoName(name) && (OnHost? ==> '.' in host && '/' !in host)
    }

    function Spec(): string {
      if OnGithub? then owner + "/" + name else host + "/" + owner + "/" + name
    }

    function Url(): string {
      if OnGithub? then "https://github.com/" + owner + "/" + name else "https://" + host + "/" + owner + "/" + name
    }
  }

  function Slashes(n: nat): string {
    seq(n, _ => '/')
  }

  lemma {:induction false} TrimsLeft(n: nat, s: string)
    requires s == "" || s[0] != '/'
    ensures TrimLeft(Slashes(n) + s) == s
  {
    if n == 0 {
      assert Slashes(n) + s == s;
    } else {
      assert (Slashes(n) + s)[1..] == Slashes(n - 1) + s;
      TrimsLeft(n - 1, s);
    }
  }

  lemma {:induction false} TrimsRight(s: string, n: nat)
    requires s == "" || s[|s| - 1] != '/'
    ensures TrimRight(s + Slashes(n)) == s
  {
    if n == 0 {
      assert s + Slashes(n) == s;
    } else {
      var t := s + Slashes(n);
      assert t[..|t| - 1] == s + Slashes(n - 1);
      TrimsRight(s, n - 1);
    }
  }

  lemma {:induction false} RepoNameHasNoSlash(s: string)
    requires RepoName(s)
    ensures '/' !in s && s[0] != '/' && s[|s| - 1] != '/' && '?' !in s
  {
    assert s[0] in s && s[|s| - 1] in s;
  }

  lemma {:induction false} SpecParts(repo: Repo)
    requires repo.Ok()
    ensures SplitSlash(repo.Spec()) == if repo.OnGithub? then [repo.owner, repo.name] else [repo.host, repo.owner, repo.name]
    ensures repo.Spec()[0] != '/' && repo.Spec()[|repo.Spec()| - 1] != '/'
  {
    RepoNameHasNoSlash(repo.owner);
    RepoNameHasNoSlash(repo.name);
    SplitPlainName(repo.owner);
    SplitPlainName(repo.name);
    if repo.OnGithub? {
      SplitSlashJoin(repo.owner, repo.name);
    } else {
      SplitPlainName(repo.host);
      SplitSlashJoin(repo.host, repo.owner);
      SplitSlashJoin(repo.host + "/" + repo.owner, repo.name);
      assert repo.host[0] in repo.host;
    }
    hide SplitSlash;
  }

  /** A repo, with slashes around it or not, reads as its address. */
  lemma {:induction false} SpecReads(repo: Repo, lead: nat, trail: nat, env: Ambient)
    requires repo.Ok()
    ensures GhRepo(Slashes(lead) + repo.Spec() + Slashes(trail), env) == env.canonical(repo.Url())
  {
    var s := repo.Spec();
    SpecParts(repo);
    Regroup(Slashes(lead), s, Slashes(trail));
    assert (s + Slashes(trail))[0] == s[0];
    TrimsLeft(lead, s + Slashes(trail));
    TrimsRight(s, trail);
    hide SplitSlash;
    hide TrimLeft;
    hide TrimRight;
    hide Slashes;
    assert TrimRight(TrimLeft(Slashes(lead) + repo.Spec() + Slashes(trail))) == s;
  }

  /** `repos/owner/name` and whatever follows a slash or a question mark. */
  datatype ApiPath = ApiPath(lead: nat, owner: string, name: string, tail: string) {
    predicate Ok() {
      RepoName(owner) && RepoName(name) && (tail == "" || tail[0] == '/' || tail[0] == '?')
    }

    function Repo(env: Ambient): Option<string> {
      env.canonical(OnGithub(owner, name).Url())
    }

    function Word(): string {
      Slashes(lead) + ("repos/" + owner + "/" + name + tail)
    }
  }

  lemma {:induction false} UpToStops(s: string, tail: string)
    requires '/' !in s && '?' !in s && (tail == "" || tail[0] == '/' || tail[0] == '?')
    ensures UpTo(s + tail) == s
  {
    if s == [] {
      assert s + tail == tail;
    } else {
      assert s[0] in s;
      assert (s + tail)[1..] == s[1..] + tail && s == [s[0]] + s[1..];
      UpToStops(s[1..], tail);
    }
  }

  lemma {:induction false} ApiParts(owner: string, name: string, tail: string)
    requires ApiPath(0, owner, name, tail).Ok()
    ensures var rest := owner + "/" + name + tail;
            UpTo(rest) == owner && |owner| < |rest| && UpTo(rest[|owner| + 1..]) == name
  {
    var after := "/" + name + tail;
    Regroup(owner + "/", name, tail);
    Regroup(owner, "/", name + tail);
    Regroup("/", name, tail);
    RepoNameHasNoSlash(owner);
    RepoNameHasNoSlash(name);
    UpToStops(owner, after);
    UpToStops(name, tail);
    var rest := owner + after;
    assert rest[|owner| + 1..] == name + tail;
  }

  lemma {:induction false} ApiWordReads(path: ApiPath, env: Ambient)
    requires path.Ok()
    ensures "repos/" <= TrimLeft(path.Word())
    ensures GhApiRepo(path.Word(), env) == path.Repo(env)
  {
    hide GhRepo;
    hide UpTo;
    var rest := path.owner + "/" + path.name + path.tail;
    var w := "repos/" + path.owner + "/" + path.name + path.tail;
    assert w == "repos/" + rest && w[6..] == rest && w[0] == 'r';
    TrimsLeft(path.lead, w);
    ApiParts(path.owner, path.name, path.tail);
    var repo := OnGithub(path.owner, path.name);
    SpecReads(repo, 0, 0, env);
    assert Slashes(0) + repo.Spec() + Slashes(0) == path.owner + "/" + path.name;
  }

  /** A word `gh api` does not read as a repo's path. */
  predicate NotApi(w: string) {
    !("repos/" <= TrimLeft(w))
  }

  lemma {:induction false} ApiFound(words: seq<string>, i: nat, n: nat, env: Ambient)
    requires i <= n < |words| && forall k :: i <= k < n ==> NotApi(words[k])
    requires GhApiRepo(words[n], env).Some?
    ensures FirstApiRepo(words, i, env) == GhApiRepo(words[n], env)
    decreases n - i
  {
    if i < n { ApiFound(words, i + 1, n, env); }
  }

  lemma {:induction false} NotApiReadsNothing(w: string, env: Ambient)
    requires NotApi(w)
    ensures GhApiRepo(w, env) == None
  {
  }

  lemma {:induction false} NoApiFound(words: seq<string>, i: nat, env: Ambient)
    requires forall k :: i <= k < |words| ==> GhApiRepo(words[k], env) == None
    ensures FirstApiRepo(words, i, env) == None
    decreases |words| - i
  {
    if i < |words| { NoApiFound(words, i + 1, env); }
  }

  // ---- lines -------------------------------------------------------------------------------

  /** `-R`, `--repo` with a repo, slashes around it or not. */
  datatype Named = Named(long: bool, joined: bool, repo: Repo, lead: nat, trail: nat) {
    function Flag(): string {
      if long then "--repo" else "-R"
    }

    function Value(): string {
      Slashes(lead) + repo.Spec() + Slashes(trail)
    }

    function Words(): seq<string> {
      FlagWords(Flag(), joined, Value())
    }
  }

  datatype Line =
    | Move(verb: string, to: Dir, rest: seq<string>)
    | GitIn(pre: seq<string>, joined: bool, dir: Dir, rest: seq<string>)
    | GhOn(pre: seq<string>, named: Named, rest: seq<string>)
    | GhApi(pre: seq<string>, path: ApiPath, mid: seq<string>, on: Option<Named>, rest: seq<string>)
    | Quiet(words: seq<string>)
  {
    function Words(): seq<string> {
      match this
      case Move(verb, to, rest) => [verb, to.Word()] + rest
      case GitIn(pre, joined, dir, rest) => (["git"] + pre) + FlagWords("-C", joined, dir.Word()) + rest
      case GhOn(pre, named, rest) => (["gh"] + pre) + named.Words() + rest
      case GhApi(pre, path, mid, on, rest) =>
        (["gh", "api"] + (pre + [path.Word()] + mid)) + (if on.Some? then on.value.Words() else []) + rest
      case Quiet(words) => words
    }

    /** What follows the path of an API call. */
    function After(): seq<string>
      requires GhApi?
    {
      mid + (if on.Some? then on.value.Words() else []) + rest
    }

    /** The words say what the line means: no earlier flag, no earlier API path. */
    predicate Ok(env: Ambient) {
      match this
      case Move(verb, to, rest) => (verb == "cd" || verb == "pushd") && to.Ok()
      case GitIn(pre, joined, dir, rest) => NoFlags(pre, GIT_FLAGS) && dir.Ok()
      case GhOn(pre, named, rest) => NoFlags(pre, GH_FLAGS) && (pre != [] ==> pre[0] != "api") && named.repo.Ok()
      case GhApi(pre, path, mid, on, rest) =>
        && path.Ok() && (forall w :: w in pre ==> NotApi(w))
        && (path.Repo(env).None? ==> forall w :: w in After() ==> NotApi(w))
        && NoFlags(pre + [path.Word()] + mid, GH_FLAGS)
        && (if on.Some? then on.value.repo.Ok() else NoFlags(rest, GH_FLAGS))
      case Quiet(words) =>
        && words != []
        && (words[0] == "cd" || words[0] == "pushd" ==> |words| == 1)
        && (words[0] == "git" ==> NoFlags(words, GIT_FLAGS))
        && (words[0] == "gh" ==> NoFlags(words, GH_FLAGS) &&
                                 (|words| > 1 && words[1] == "api" ==> forall i :: 2 <= i < |words| ==> NotApi(words[i])))
    }

    /** Where the line leaves the shell. */
    function Goes(here: Option<Path>, home: Option<Path>): Option<Path> {
      if Move? then to.From(here, home) else here
    }

    /** What the line itself gives away. */
    function Sees(here: Option<Path>, env: Ambient): seq<Evidence> {
      match this
      case GitIn(_, _, dir, _) => SeesPath(dir.From(here, env.home))
      case GhOn(_, named, _) => SeesRepo(env.canonical(named.repo.Url()))
      case GhApi(pre, path, mid, on, _) =>
        (if on.Some? then SeesRepo(env.canonical(on.value.repo.Url())) else []) + SeesRepo(path.Repo(env))
      case _ => []
    }
  }

  function SeesPath(p: Option<Path>): seq<Evidence> {
    if p.Some? then [PathEvidence(p.value)] else []
  }

  function SeesRepo(r: Option<string>): seq<Evidence> {
    if r.Some? then [RepoEvidence(r.value)] else []
  }

  /** Where a script stands, from `start`. */
  function Place(lines: seq<Line>, start: Option<Path>, home: Option<Path>): Option<Path> {
    if lines == [] then start else lines[|lines| - 1].Goes(Place(lines[..|lines| - 1], start, home), home)
  }

  /** Its last move, if it made one, led to a known place. */
  function Arrived(lines: seq<Line>, start: Option<Path>, home: Option<Path>): bool {
    if lines == [] then false
    else if lines[|lines| - 1].Move? then Place(lines, start, home).Some?
    else Arrived(lines[..|lines| - 1], start, home)
  }

  function Seen(lines: seq<Line>, start: Option<Path>, env: Ambient): seq<Evidence> {
    if lines == [] then []
    else
      var r := lines[..|lines| - 1];
      Seen(r, start, env) + lines[|lines| - 1].Sees(Place(r, start, env.home), env)
  }

  /** One line read. */
  ghost predicate ReadsAs(r: Reading, line: Line, env: Ambient) {
    ReadSegment(r, line.Words(), env) ==
    Reading(r.out + line.Sees(r.here, env), line.Goes(r.here, env.home),
            if line.Move? then line.Goes(r.here, env.home).Some? else r.moved)
  }

  lemma {:induction false} MoveReads(r: Reading, line: Line, env: Ambient)
    requires line.Ok(env) && line.Move?
    ensures ReadsAs(r, line, env)
  {
    DirLeads(line.to, r.here, env);
    hide LocalPath;
  }

  lemma {:induction false} GitReads(r: Reading, line: Line, env: Ambient)
    requires line.Ok(env) && line.GitIn?
    ensures ReadsAs(r, line, env)
  {
    DirLeads(line.dir, r.here, env);
    NoFlagsBehind(["git"], line.pre, GIT_FLAGS);
    FlagFound(["git"] + line.pre, GIT_FLAGS, "-C", line.joined, line.dir.Word(), line.rest);
    assert line.Words()[0] == "git";
    hide FlagValue;
    hide LocalPath;
    hide FlagWords;
  }

  lemma {:induction false} NoFlagsBehind(head: seq<string>, words: seq<string>, flags: seq<string>)
    requires flags == GIT_FLAGS || flags == GH_FLAGS
    requires head == ["git"] || head == ["gh"] || head == ["gh", "api"]
    requires NoFlags(words, flags)
    ensures NoFlags(head + words, flags)
  {
    forall i, j | 0 <= i < |head + words| && 0 <= j < |flags| ensures !IsFlag((head + words)[i], flags[j]) {
      assert i < |head| ==> (head + words)[i][0] == 'g' || (head + words)[i][0] == 'a';
      assert i >= |head| ==> (head + words)[i] == words[i - |head|];
      assert flags[j][0] == '-';
    }
  }

  lemma {:induction false} GhOnReads(r: Reading, line: Line, env: Ambient)
    requires line.Ok(env) && line.GhOn?
    ensures ReadsAs(r, line, env)
  {
    var named := line.named;
    NoFlagsBehind(["gh"], line.pre, GH_FLAGS);
    FlagFound(["gh"] + line.pre, GH_FLAGS, named.Flag(), named.joined, named.Value(), line.rest);
    SpecReads(named.repo, named.lead, named.trail, env);
    var words := line.Words();
    assert words[0] == "gh" && (|words| > 1 ==> words[1] != "api") by {
      if line.pre == [] {
        assert words[1] == named.Words()[0];
        assert named.Words()[0][0] == '-';
      } else {
        assert words[1] == line.pre[0];
      }
    }
    hide FlagValue;
    hide GhRepo;
    hide FlagWords;
  }

  lemma {:induction false} ApiReads(words: seq<string>, pre: seq<string>, path: ApiPath, after: seq<string>, env: Ambient)
    requires path.Ok() && (forall w :: w in pre ==> NotApi(w))
    requires path.Repo(env).None? ==> forall w :: w in after ==> NotApi(w)
    requires words == ["gh", "api"] + pre + [path.Word()] + after
    ensures FirstApiRepo(words, 2, env) == path.Repo(env)
  {
    var n := 2 + |pre|;
    ApiWordReads(path, env);
    assert words[n] == path.Word();
    forall k | 2 <= k < n ensures NotApi(words[k]) { assert words[k] == pre[k - 2]; }
    if path.Repo(env).Some? {
      ApiFound(words, 2, n, env);
    } else {
      forall k | 2 <= k < |words| ensures GhApiRepo(words[k], env) == None {
        if k < n { NotApiReadsNothing(words[k], env); }
        if k > n {
          assert words[k] == after[k - n - 1];
          NotApiReadsNothing(words[k], env);
        }
      }
      NoApiFound(words, 2, env);
    }
  }

  lemma {:induction false} GhApiFlag(line: Line, env: Ambient)
    requires line.Ok(env) && line.GhApi?
    ensures FlagValue(line.Words(), GH_FLAGS, 0) == if line.on.Some? then Some(line.on.value.Value()) else None
  {
    var head := line.pre + [line.path.Word()] + line.mid;
    NoFlagsBehind(["gh", "api"], head, GH_FLAGS);
    if line.on.Some? {
      var n := line.on.value;
      FlagFound(["gh", "api"] + head, GH_FLAGS, n.Flag(), n.joined, n.Value(), line.rest);
    } else {
      NoFlagsConcat(["gh", "api"] + head, line.rest, GH_FLAGS);
      assert line.Words() == ["gh", "api"] + head + line.rest;
      NoFlagsAtAll(line.Words(), GH_FLAGS);
    }
  }

  lemma {:induction false} NoFlagsConcat(a: seq<string>, b: seq<string>, flags: seq<string>)
    requires NoFlags(a, flags) && NoFlags(b, flags)
    ensures NoFlags(a + b, flags)
  {
  }

  lemma {:induction false} ApiWords(line: Line)
    requires line.GhApi?
    ensures line.Words() == ["gh", "api"] + line.pre + [line.path.Word()] + line.After()
  {
  }

  lemma {:induction false} GhApiReads(r: Reading, line: Line, env: Ambient)
    requires line.Ok(env) && line.GhApi?
    ensures ReadsAs(r, line, env)
  {
    var words := line.Words();
    GhApiFlag(line, env);
    ApiWords(line);
    ApiReads(words, line.pre, line.path, line.After(), env);
    assert words[0] == "gh" && words[1] == "api";
    if line.on.Some? {
      var n := line.on.value;
      SpecReads(n.repo, n.lead, n.trail, env);
    }
    hide FlagValue;
    hide FirstApiRepo;
    hide GhRepo;
    hide LocalPath;
    hide NoFlags;
    hide NotApi;
    hide FlagWords;
    hide Line.Words;
    hide Line.After;
  }

  lemma {:induction false} QuietReads(r: Reading, line: Line, env: Ambient)
    requires line.Ok(env) && line.Quiet?
    ensures ReadsAs(r, line, env)
  {
    var words := line.words;
    if words[0] == "git" { NoFlagsAtAll(words, GIT_FLAGS); }
    if words[0] == "gh" {
      NoFlagsAtAll(words, GH_FLAGS);
      if |words| > 1 && words[1] == "api" {
        forall k | 2 <= k < |words| ensures GhApiRepo(words[k], env) == None { NotApiReadsNothing(words[k], env); }
        NoApiFound(words, 2, env);
      }
    }
    hide FlagValue;
    hide FirstApiRepo;
  }

  lemma {:induction false} LineReads(r: Reading, line: Line, env: Ambient)
    requires line.Ok(env)
    ensures ReadsAs(r, line, env)
  {
    hide ReadsAs;
    match line
    case Move(_, _, _) => MoveReads(r, line, env);
    case GitIn(_, _, _, _) => GitReads(r, line, env);
    case GhOn(_, _, _) => GhOnReads(r, line, env);
    case GhApi(_, _, _, _, _) => GhApiReads(r, line, env);
    case Quiet(_) => QuietReads(r, line, env);
  }

  // ---- scripts -----------------------------------------------------------------------------

  /** `commands` print these lines, in whatever quoting and spacing keeps their words. */
  ghost predicate Prints(commands: seq<Command>, lines: seq<Line>, env: Ambient) {
    && |commands| == |lines|
    && forall i :: 0 <= i < |lines| ==> PrintsLine(commands[i], lines[i], env)
  }

  ghost predicate PrintsLine(c: Command, line: Line, env: Ambient) {
    c.Safe() && WordsOf(c.tokens) == line.Words() && line.Ok(env)
  }

  lemma {:induction false} PrintedLineReads(r: Reading, c: Command, line: Line, env: Ambient)
    requires PrintsLine(c, line, env)
    ensures ReadSegment(r, Words(c.Text()), env) ==
            Reading(r.out + line.Sees(r.here, env), line.Goes(r.here, env.home),
                    if line.Move? then line.Goes(r.here, env.home).Some? else r.moved)
  {
    WordsRoundTrip(c.tokens, c.before, c.after);
    LineReads(r, line, env);
    hide ReadSegment;
    hide Words;
  }

  ghost function After(lines: seq<Line>, start: Option<Path>, env: Ambient): Reading {
    Reading(Seen(lines, start, env), Place(lines, start, env.home), Arrived(lines, start, env.home))
  }

  lemma {:induction false} LinesRead(commands: seq<Command>, lines: seq<Line>, start: Option<Path>, env: Ambient)
    requires Prints(commands, lines, env)
    ensures ReadSegments(Reading([], start, false), Texts(commands), env) == After(lines, start, env)
  {
    hide ReadSegment;
    hide Words;
    hide PrintsLine;
    hide Line.Sees;
    hide Line.Goes;
    if lines != [] {
      var n := |lines| - 1;
      LinesRead(commands[..n], lines[..n], start, env);
      assert Texts(commands)[..n] == Texts(commands[..n]);
      PrintedLineReads(After(lines[..n], start, env), commands[n], lines[n], env);
    }
  }

  function StartOf(cwd: Option<string>): Option<Path> {
    if cwd.Some? then Some(Components(cwd.value)) else None
  }

  /**
   Reading a printed script yields, in order, what each line gives away at the place the moves before it
   lead to, and last the place itself if the final move led anywhere.
   */
  lemma {:induction false} ScriptsReadBack(commands: seq<Command>, ops: seq<Op>, lines: seq<Line>, cwd: Option<string>, env: Ambient)
    requires |commands| == |ops| + 1 && Prints(commands, lines, env)
    ensures Evidences(Script(commands, ops), cwd, env) ==
            Seen(lines, StartOf(cwd), env) +
            if Arrived(lines, StartOf(cwd), env.home) then SeesPath(Place(lines, StartOf(cwd), env.home)) else []
  {
    hide ReadSegments;
    hide Segments;
    hide Script;
    forall i | 0 <= i < |commands| ensures commands[i].Safe() { assert PrintsLine(commands[i], lines[i], env); }
    SegmentsRoundTrip(commands, ops);
    LinesRead(commands, lines, StartOf(cwd), env);
  }

  // ---- what that says of a chain of cds ----------------------------------------------------

  function Moves(verb: string, words: seq<string>): (r: seq<Line>)
    ensures |r| == |words|
    ensures forall i :: 0 <= i < |words| ==> r[i] == Move(verb, Relative(words[i]), [])
  {
    seq(|words|, i requires 0 <= i < |words| => Move(verb, Relative(words[i]), []))
  }

  lemma {:induction false} OneMoreMove(lines: seq<Line>, verb: string, w: string, start: Option<Path>, env: Ambient)
    ensures var here := Place(lines, start, env.home);
            After(lines + [Move(verb, Relative(w), [])], start, env) ==
            Reading(Seen(lines, start, env), Relative(w).From(here, env.home), here.Some?)
  {
    var line := Move(verb, Relative(w), []);
    var all := lines + [line];
    assert all[..|lines|] == lines && all[|all| - 1] == line;
    hide FoldAll;
    hide Steps;
  }

  lemma {:induction false} MovesStand(verb: string, cwd: string, words: seq<string>, env: Ambient)
    requires IsAbsolute(cwd)
    ensures After(Moves(verb, words), Some(Components(cwd)), env) == Stand(cwd, words)
  {
    hide Components;
    hide FoldAll;
    hide StepsOf;
    hide Steps;
    hide RelativeWord;
    if words != [] {
      var ws, w := words[..|words| - 1], words[|words| - 1];
      assert Moves(verb, words) == Moves(verb, ws) + [Move(verb, Relative(w), [])];
      assert words == ws + [w];
      MovesStand(verb, cwd, ws, env);
      StandSnoc(cwd, ws, w);
      OneMoreMove(Moves(verb, ws), verb, w, Some(Components(cwd)), env);
      hide Stand;
      hide Seen;
      hide Place;
      hide Arrived;
    }
  }

  lemma {:induction false} OneMoreLine(lines: seq<Line>, line: Line, start: Option<Path>, env: Ambient)
    requires !line.Move?
    ensures After(lines + [line], start, env) ==
            After(lines, start, env).(out := Seen(lines, start, env) + line.Sees(Place(lines, start, env.home), env))
  {
    assert (lines + [line])[..|lines|] == lines;
  }

  /**
   After any chain of relative `cd`s or `pushd`s, `git -C dir` yields the cwd joined with all the words and
   the directory at once, and then the chain's own end if there was one.
   */
  lemma {:induction false} GitAfterCds(cwd: string, verb: string, words: seq<string>, git: Line, commands: seq<Command>,
                                       ops: seq<Op>, env: Ambient)
    requires IsAbsolute(cwd) && forall i :: 0 <= i < |words| ==> RelativeWord(words[i])
    requires git.GitIn? && git.dir.Relative? && RelativeWord(git.dir.word)
    requires |commands| == |ops| + 1 && Prints(commands, Moves(verb, words) + [git], env)
    ensures Evidences(Script(commands, ops), Some(cwd), env) ==
            [PathEvidence(FoldAll([], Join(Components(cwd), JoinSlash(words + [git.dir.word]))))] +
            if words == [] then [] else [PathEvidence(FoldAll([], Join(Components(cwd), JoinSlash(words))))]
  {
    hide *;
    ScriptsReadBack(commands, ops, Moves(verb, words) + [git], Some(cwd), env);
    EndOfChain(cwd, verb, words, git, env);
  }

  lemma {:induction false} EndOfChain(cwd: string, verb: string, words: seq<string>, git: Line, env: Ambient)
    requires IsAbsolute(cwd) && forall i :: 0 <= i < |words| ==> RelativeWord(words[i])
    requires git.GitIn? && git.dir.Relative? && RelativeWord(git.dir.word)
    ensures var lines := Moves(verb, words) + [git];
            Seen(lines, StartOf(Some(cwd)), env) +
            (if Arrived(lines, StartOf(Some(cwd)), env.home) then SeesPath(Place(lines, StartOf(Some(cwd)), env.home)) else []) ==
            [PathEvidence(FoldAll([], Join(Components(cwd), JoinSlash(words + [git.dir.word]))))] +
            if words == [] then [] else [PathEvidence(FoldAll([], Join(Components(cwd), JoinSlash(words))))]
  {
    hide Components;
    hide FoldAll;
    hide JoinSlash;
    hide Join;
    hide RelativeWord;
    hide StepsOf;
    hide Steps;
    var w := git.dir.word;
    MovesStand(verb, cwd, words, env);
    OneMoreLine(Moves(verb, words), git, Some(Components(cwd)), env);
    StandSnoc(cwd, words, w);
    StandIsJoined(cwd, words + [w]);
    if words != [] { StandIsJoined(cwd, words); }
    hide Seen;
    hide Place;
    hide Arrived;
  }

  // ---- losing the way ----------------------------------------------------------------------

  predicate IsPath(e: Evidence) {
    e.PathEvidence?
  }

  /** Names no directory that could be known without a place to start from. */
  predicate NeedsAPlace(line: Line) {
    match line
    case Move(_, to, _) => to.Relative? || to.Expanded?
    case GitIn(_, _, dir, _) => dir.Relative? || dir.Expanded?
    case _ => true
  }

  lemma {:induction false} NothingWithoutAPlace(line: Line, env: Ambient)
    requires NeedsAPlace(line)
    ensures line.Goes(None, env.home) == None && Filter(line.Sees(None, env), IsPath) == []
  {
    var sees := line.Sees(None, env);
    forall e | e in sees ensures !IsPath(e) {}
    FilterNone(sees, IsPath);
  }

  lemma {:induction false} OneLineMore(lines: seq<Line>, start: Option<Path>, env: Ambient)
    requires lines != []
    ensures var before, line := lines[..|lines| - 1], lines[|lines| - 1];
            var place := Place(before, start, env.home);
            && Place(lines, start, env.home) == line.Goes(place, env.home)
            && (Arrived(lines, start, env.home) ==> Arrived(before, start, env.home) || Place(lines, start, env.home).Some?)
            && Filter(Seen(lines, start, env), IsPath) ==
               Filter(Seen(before, start, env), IsPath) + Filter(line.Sees(place, env), IsPath)
  {
    var before, line := lines[..|lines| - 1], lines[|lines| - 1];
    FilterConcat(Seen(before, start, env), line.Sees(Place(before, start, env.home), env), IsPath);
  }

  /** Once a `cd` went where only the shell knows, relative directories yield nothing any more. */
  lemma {:induction false} LostStaysLost(lines: seq<Line>, m: nat, start: Option<Path>, env: Ambient)
    requires m < |lines| && lines[m].Move? && lines[m].to.Expanded?
    requires forall i :: m < i < |lines| ==> NeedsAPlace(lines[i])
    ensures Place(lines, start, env.home) == None && !Arrived(lines, start, env.home)
    ensures Filter(Seen(lines, start, env), IsPath) == Filter(Seen(lines[..m], start, env), IsPath)
  {
    var n := |lines| - 1;
    if m == n {
      assert lines[n].Sees(Place(lines[..n], start, env.home), env) == [];
      OneLineMore(lines, start, env);
    } else {
      hide *;
      LostStaysLost(lines[..n], m, start, env);
      assert lines[..n][..m] == lines[..m];
      NothingWithoutAPlace(lines[n], env);
      OneLineMore(lines, start, env);
    }
  }
}
