/** How one model is spelled by the resellers and clouds that serve it, and that every spelling resolves to it. */
module ModelSpellings {
  import opened Prelude
  import opened Pricing

  datatype Region = NoRegion | Us | Eu | Apac | Jp | Au | Ca | Global {
    function Text(): string {
      match this
      case NoRegion => ""
      case Us => "us."
      case Eu => "eu."
      case Apac => "apac."
      case Jp => "jp."
      case Au => "au."
      case Ca => "ca."
      case Global => "global."
    }
  }

  datatype Vendor = NoVendor | Anthropic | Amazon | Meta | Mistral | Ai21 | Cohere | Deepseek {
    function Text(): string {
      match this
      case NoVendor => ""
      case Anthropic => "anthropic."
      case Amazon => "amazon."
      case Meta => "meta."
      case Mistral => "mistral."
      case Ai21 => "ai21."
      case Cohere => "cohere."
      case Deepseek => "deepseek."
    }
  }

  /** A version behind the id: Bedrock's `-v1` or `-v1:0`, Vertex's `@20250929`. */
  datatype Version = Unversioned | Bedrock(major: string) | BedrockMinor(major: string, minor: string) | Vertex(version: string)
  {
    function Text(): string {
      match this
      case Unversioned => ""
      case Bedrock(a) => "-v" + a
      case BedrockMinor(a, b) => "-v" + a + ":" + b
      case Vertex(v) => "@" + v
    }

    predicate Ok() {
      match this
      case Unversioned => true
      case Bedrock(a) => a != "" && IsDigits(a)
      case BedrockMinor(a, b) => a != "" && IsDigits(a) && b != "" && IsDigits(b)
      case Vertex(v) => v != "" && (forall i :: 0 <= i < |v| ==> VertexChar(v[i])) && NoDashV(v)
    }
  }

  predicate NoDashV(s: string) {
    forall i :: 0 <= i < |s| - 1 ==> !(s[i] == '-' && s[i + 1] == 'v')
  }

  /** A model id as a price table spells it: no path, no `@`, no wrapper in front. */
  predicate IsModelId(id: string) {
    && id != "" && '/' !in id && '@' !in id
    && (forall r: Region :: r != NoRegion ==> !(r.Text() <= id))
    && (forall v: Vendor :: v != NoVendor ==> !(v.Text() <= id))
  }

  /** Its own end does not look like a Bedrock version. */
  predicate EndsPlain(id: string) {
    forall i :: 0 <= i < |id| - 1 && id[i] == '-' && id[i + 1] == 'v' ==> !BedrockTail(id[i + 2..])
  }

  // ---- prefixes ----------------------------------------------------------------------------

  lemma {:induction false} FirstFittingDrops(m: string, prefixes: seq<string>, i: nat)
    requires i < |prefixes| && prefixes[i] <= m && forall j :: 0 <= j < i ==> !(prefixes[j] <= m)
    ensures DropPrefix(m, prefixes) == m[|prefixes[i]|..]
  {
    if i > 0 { FirstFittingDrops(m, prefixes[1..], i - 1); }
  }

  lemma {:induction false} NoneFits(m: string, prefixes: seq<string>)
    requires forall j :: 0 <= j < |prefixes| ==> !(prefixes[j] <= m)
    ensures DropPrefix(m, prefixes) == m
  {
    if prefixes != [] {
      assert forall j :: 0 <= j < |prefixes| - 1 ==> prefixes[1..][j] == prefixes[j + 1];
      NoneFits(m, prefixes[1..]);
    }
  }

  /** Two listed prefixes never begin alike. */
  predicate Apart(prefixes: seq<string>) {
    && (forall i :: 0 <= i < |prefixes| ==> |prefixes[i]| > 2)
    && (forall i, j :: 0 <= i < j < |prefixes| ==> prefixes[i][0] != prefixes[j][0] || prefixes[i][1] != prefixes[j][1])
  }

  lemma {:induction false} ListedPrefixDrops(p: string, rest: string, prefixes: seq<string>)
    requires Apart(prefixes) && p in prefixes
    ensures DropPrefix(p + rest, prefixes) == rest
  {
    var i :| 0 <= i < |prefixes| && prefixes[i] == p;
    var m := p + rest;
    assert m[0] == p[0] && m[1] == p[1];
    FirstFittingDrops(m, prefixes, i);
  }

  lemma {:induction false} RegionDrops(r: Region, rest: string)
    requires r == NoRegion ==> forall q: Region :: q != NoRegion ==> !(q.Text() <= rest)
    ensures DropPrefix(r.Text() + rest, REGIONS) == rest
  {
    assert Us.Text() == REGIONS[0] && Eu.Text() == REGIONS[1] && Apac.Text() == REGIONS[2] && Jp.Text() == REGIONS[3];
    assert Au.Text() == REGIONS[4] && Ca.Text() == REGIONS[5] && Global.Text() == REGIONS[6];
    if r == NoRegion {
      assert r.Text() + rest == rest;
      NoneFits(rest, REGIONS);
    } else {
      ListedPrefixDrops(r.Text(), rest, REGIONS);
    }
  }

  lemma {:induction false} VendorDrops(v: Vendor, rest: string)
    requires v == NoVendor ==> forall q: Vendor :: q != NoVendor ==> !(q.Text() <= rest)
    ensures DropPrefix(v.Text() + rest, VENDORS) == rest
  {
    assert Anthropic.Text() == VENDORS[0] && Amazon.Text() == VENDORS[1] && Meta.Text() == VENDORS[2] && Mistral.Text() == VENDORS[3];
    assert Ai21.Text() == VENDORS[4] && Cohere.Text() == VENDORS[5] && Deepseek.Text() == VENDORS[6];
    if v == NoVendor {
      assert v.Text() + rest == rest;
      NoneFits(rest, VENDORS);
    } else {
      ListedPrefixDrops(v.Text(), rest, VENDORS);
    }
  }

  /** A version never completes a prefix the id only begins. */
  lemma {:induction false} VersionAddsNoPrefix(id: string, version: Version, p: string)
    requires '-' !in p && '@' !in p && !(p <= id)
    ensures !(p <= id + version.Text())
  {
    var m := id + version.Text();
    assert |id| < |m| ==> m[|id|] == '-' || m[|id|] == '@';
    assert |id| < |p| ==> p[|id|] in p;
  }

  lemma {:induction false} VendorIsNoRegion(v: Vendor, rest: string, r: Region)
    requires v != NoVendor && r != NoRegion
    ensures !(r.Text() <= v.Text() + rest)
  {
    var m := v.Text() + rest;
    assert m[0] == v.Text()[0] && m[1] == v.Text()[1] && m[2] == v.Text()[2];
  }

  lemma {:induction false} PrefixesArePlain(r: Region, v: Vendor)
    ensures '-' !in r.Text() && '@' !in r.Text() && '/' !in r.Text()
    ensures '-' !in v.Text() && '@' !in v.Text() && '/' !in v.Text()
  {
    RegionIsPlain(r);
    VendorIsPlain(v);
  }

  lemma {:induction false} RegionIsPlain(r: Region)
    ensures '-' !in r.Text() && '@' !in r.Text() && '/' !in r.Text()
  {
  }

  lemma {:induction false} VendorIsPlain(v: Vendor)
    ensures '-' !in v.Text() && '@' !in v.Text() && '/' !in v.Text()
  {
  }

  lemma {:induction false} PrefixesDrop(region: Region, vendor: Vendor, id: string, version: Version)
    requires IsModelId(id)
    ensures DropPrefix(DropPrefix(region.Text() + vendor.Text() + id + version.Text(), REGIONS), VENDORS) ==
            id + version.Text()
  {
    hide DropPrefix;
    var end := id + version.Text();
    Regroup(region.Text() + vendor.Text(), id, version.Text());
    Regroup(region.Text(), vendor.Text(), end);
    forall r: Region | r != NoRegion ensures !(r.Text() <= vendor.Text() + end) {
      PrefixesArePlain(r, vendor);
      VersionAddsNoPrefix(id, version, r.Text());
      if vendor == NoVendor { assert vendor.Text() + end == end; } else { VendorIsNoRegion(vendor, end, r); }
    }
    forall v: Vendor | v != NoVendor ensures !(v.Text() <= end) {
      PrefixesArePlain(region, v);
      VersionAddsNoPrefix(id, version, v.Text());
    }
    RegionDrops(region, vendor.Text() + end);
    VendorDrops(vendor, end);
  }

  // ---- versions ----------------------------------------------------------------------------

  lemma {:induction false} FirstColon(a: string, b: string)
    requires IsDigits(a)
    ensures FirstIndex(a, ':') == |a|
    ensures FirstIndex(a + ":" + b, ':') == |a|
  {
    var s := a + ":" + b;
    assert s[|a|] == ':' && forall i :: 0 <= i < |a| ==> s[i] == a[i];
  }

  lemma {:induction false} BedrockTails(a: string, b: string)
    requires a != "" && IsDigits(a)
    ensures BedrockTail(a)
    ensures b != "" && IsDigits(b) ==> BedrockTail(a + ":" + b)
  {
    FirstColon(a, b);
    var s := a + ":" + b;
    assert s[..|a|] == a && s[|a| + 1..] == b;
  }

  lemma {:induction false} LastDashVIs(id: string, tail: string)
    requires forall i :: 0 <= i < |tail| ==> tail[i] != 'v'
    ensures LastDashV(id + "-v" + tail) == |id|
  {
    var s := id + "-v" + tail;
    var i := LastDashV(s);
    assert s[|id|] == '-' && s[|id| + 1] == 'v';
    assert forall j :: |id| + 2 <= j < |s| ==> s[j] == tail[j - |id| - 2];
    assert |id| <= i;
  }

  lemma {:induction false} BedrockStrips(id: string, tail: string)
    requires BedrockTail(tail) && forall i :: 0 <= i < |tail| ==> tail[i] != 'v'
    ensures StripBedrock(id + "-v" + tail) == id
  {
    LastDashVIs(id, tail);
    var s := id + "-v" + tail;
    assert s[|id| + 2..] == tail && s[..|id|] == id;
  }

  lemma {:induction false} AtIsNoTail(tail: string, at: nat)
    requires at < |tail| && tail[at] == '@'
    ensures !BedrockTail(tail)
  {
    var colon := FirstIndex(tail, ':');
    assert colon < |tail| ==> at != colon;
    assert at < colon < |tail| ==> tail[..colon][at] == '@';
    assert colon < at ==> tail[colon + 1..][at - colon - 1] == '@';
  }

  lemma {:induction false} VertexIsNoBedrock(id: string, v: string)
    requires NoDashV(v)
    ensures StripBedrock(id + "@" + v) == id + "@" + v
  {
    hide BedrockTail;
    hide LastDashV;
    var s := id + "@" + v;
    var i := LastDashV(s);
    DashVIsBeforeAt(id, v, i);
    if i >= 0 {
      assert s[i + 2..][|id| - i - 2] == '@';
      AtIsNoTail(s[i + 2..], |id| - i - 2);
    }
  }

  lemma {:induction false} DashVIsBeforeAt(id: string, v: string, i: int)
    requires NoDashV(v)
    requires var s := id + "@" + v; i >= 0 ==> i + 2 <= |s| && s[i] == '-' && s[i + 1] == 'v'
    ensures i + 1 < |id| || i < 0
  {
    var s := id + "@" + v;
    assert s[|id|] == '@' && forall j :: |id| < j < |s| ==> s[j] == v[j - |id| - 1];
  }

  lemma {:induction false} VertexStrips(id: string, v: string)
    requires v != "" && forall i :: 0 <= i < |v| ==> VertexChar(v[i])
    ensures StripVertex(id + "@" + v) == id
  {
    var s := id + "@" + v;
    assert s[|id|] == '@' && forall j :: |id| < j < |s| ==> s[j] == v[j - |id| - 1];
    assert LastIndex(s, '@') == |id|;
    assert s[..|id|] == id;
  }

  lemma {:induction false} VersionStrips(id: string, version: Version)
    requires '@' !in id && version.Ok() && (version.Unversioned? ==> EndsPlain(id))
    ensures StripVertex(StripBedrock(id + version.Text())) == id
  {
    hide StripBedrock;
    hide BedrockTail;
    hide VertexChar;
    assert StripVertex(id) == id;
    match version
    case Unversioned =>
      assert id + version.Text() == id;
      EndsPlainIsKept(id);
    case Bedrock(a) =>
      BedrockTails(a, "");
      Regroup(id, "-v", a);
      BedrockStrips(id, a);
    case BedrockMinor(a, b) =>
      BedrockTails(a, b);
      Regroup(id, "-v", a + ":" + b);
      assert "-v" + a + ":" + b == "-v" + (a + ":" + b);
      BedrockStrips(id, a + ":" + b);
    case Vertex(v) =>
      Regroup(id, "@", v);
      VertexIsNoBedrock(id, v);
      VertexStrips(id, v);
  }

  lemma {:induction false} EndsPlainIsKept(id: string)
    requires EndsPlain(id)
    ensures StripBedrock(id) == id
  {
  }

  // ---- the path, the case and the blanks ---------------------------------------------------

  lemma {:induction false} PathDrops(path: string, rest: string)
    requires (path == "" || path[|path| - 1] == '/') && '/' !in rest
    ensures AfterSlash(path + rest) == rest
  {
    var m := path + rest;
    assert forall j :: |path| <= j < |m| ==> m[j] == rest[j - |path|] && m[j] in rest;
    assert path != "" ==> m[|path| - 1] == path[|path| - 1] == '/';
    assert forall j :: |path| <= j < |m| ==> m[j] != '/';
    assert m[|path|..] == rest;
  }

  lemma {:induction false} VersionHasNoSlash(version: Version)
    requires version.Ok()
    ensures '/' !in version.Text()
  {
  }

  /** Blanks around a model string and its letters' case do not matter. */
  lemma {:induction false} ObservedTrims(before: string, s: string, after: string)
    requires (forall c :: c in before ==> IsWhitespace(c)) && (forall c :: c in after ==> IsWhitespace(c))
    requires s != "" && !IsWhitespace(s[0]) && !IsWhitespace(s[|s| - 1])
    ensures Observed(before + s + after) == Lower(s)
  {
    hide IsWhitespace;
    Regroup(before, s, after);
    assert (s + after)[0] == s[0];
    TrimsStart(before, s + after);
    TrimsEnd(s, after);
  }

  lemma {:induction false} TrimsStart(before: string, s: string)
    requires (forall c :: c in before ==> IsWhitespace(c)) && s != "" && !IsWhitespace(s[0])
    ensures TrimStart(before + s) == s
  {
    hide IsWhitespace;
    if before == "" {
      assert before + s == s;
    } else {
      assert before[0] in before && (before + s)[1..] == before[1..] + s;
      TrimsStart(before[1..], s);
    }
  }

  lemma {:induction false} TrimsEnd(s: string, after: string)
    requires (forall c :: c in after ==> IsWhitespace(c)) && s != "" && !IsWhitespace(s[|s| - 1])
    ensures TrimEnd(s + after) == s
  {
    hide IsWhitespace;
    if after == "" {
      assert s + after == s;
    } else {
      var m, n := s + after, |after| - 1;
      assert after[n] in after && m[..|m| - 1] == s + after[..n];
      TrimsEnd(s, after[..n]);
    }
  }

  // ---- every spelling ----------------------------------------------------------------------

  function Spelling(path: string, region: Region, vendor: Vendor, id: string, version: Version): string {
    path + (region.Text() + vendor.Text() + id + version.Text())
  }

  predicate Spells(path: string, id: string, version: Version) {
    && (path == "" || path[|path| - 1] == '/')
    && IsModelId(id) && version.Ok() && (version.Unversioned? ==> EndsPlain(id))
  }

  /** Whatever path, region, vendor and version a model string wraps an id in, it normalizes to the id. */
  lemma {:induction false} SpellingsNormalize(raw: string, path: string, region: Region, vendor: Vendor, id: string, version: Version)
    requires Spells(path, id, version) && Observed(raw) == Spelling(path, region, vendor, id, version)
    ensures NormalizeModel(raw) == id
  {
    hide Observed;
    hide AfterSlash;
    hide DropPrefix;
    hide StripBedrock;
    hide StripVertex;
    PrefixesArePlain(region, vendor);
    VersionHasNoSlash(version);
    PathDrops(path, region.Text() + vendor.Text() + id + version.Text());
    PrefixesDrop(region, vendor, id, version);
    VersionStrips(id, version);
  }

  // ---- release pins ------------------------------------------------------------------------

  predicate IsDate(date: string) {
    |date| == 8 && IsDigits(date) && date[0] == '2' && date[1] == '0'
  }

  /** A dated release, the latest one, or both; a plain id has none of its own. */
  lemma {:induction false} PinsAreStripped(base: string, date: string)
    requires base != "" && IsDate(date)
    ensures StripRelease(base + "-" + date) == base
    ensures StripRelease(base + "-" + date + "-latest") == base
    ensures (forall b: string, d: string :: b != "" && IsDate(d) ==> base != b + "-" + d) ==>
              StripRelease(base + "-latest") == base
  {
    var s := base + "-" + date;
    assert s[|base|..] == "-" + date && s[..|base|] == base;
    assert ("-" + date)[1..] == date;
    DatedIsNotLatest(base, date);
    assert DropDate(s) == base;
    LatestDrops(s);
    LatestDrops(base);
    if |base| > 9 && IsDatePin(base[|base| - 9..]) {
      var n := |base| - 9;
      var d := base[n..][1..];
      assert IsDate(d) && base == base[..n] + "-" + d;
    }
  }

  lemma {:induction false} LatestDrops(s: string)
    ensures DropLatest(s + "-latest") == s
  {
    var m := s + "-latest";
    assert m[|s|..] == LATEST && m[..|s|] == s;
  }

  lemma {:induction false} DatedIsNotLatest(base: string, date: string)
    requires IsDate(date)
    ensures DropLatest(base + "-" + date) == base + "-" + date
  {
    var s := base + "-" + date;
    assert s[|s| - 1] == date[7];
    assert LATEST[6] == 't';
  }

  // ---- and resolves ------------------------------------------------------------------------

  /** A spelling the table lacks resolves to the id it wraps, and a pinned id the table lacks to its family. */
  lemma {:induction false} SpellingsResolve(t: Table, raw: string, path: string, region: Region, vendor: Vendor, id: string,
                                            version: Version)
    requires Spells(path, id, version) && Observed(raw) == Spelling(path, region, vendor, id, version)
    ensures Observed(raw) in t ==> ResolveKey(t, raw) == Some(Observed(raw))
    ensures Observed(raw) !in t && id in t ==> ResolveKey(t, raw) == Some(id)
    ensures Observed(raw) !in t && id !in t ==> forall base: string, date: string ::
              base != "" && IsDate(date) && id == base + "-" + date && base in t ==> ResolveKey(t, raw) == Some(base)
  {
    SpellingsNormalize(raw, path, region, vendor, id, version);
    forall base: string, date: string | base != "" && IsDate(date) && id == base + "-" + date ensures StripRelease(id) == base {
      PinsAreStripped(base, date);
    }
    hide Observed;
    hide NormalizeModel;
    hide StripRelease;
  }
}
