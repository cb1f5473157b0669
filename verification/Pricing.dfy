/** Resolving an observed model string to a price, and pruning the table without changing any price. */
module Pricing {
  import opened Prelude

  /** USD per million tokens. */
  datatype PriceEntry = PriceEntry(input: real, output: real, cacheRead: real, cacheWrite: real)

  type Table = map<string, PriceEntry>

  // ---- canonicalizing a model string -------------------------------------------------------

  function TrimStart(s: string): string {
    if s != [] && IsWhitespace(s[0]) then TrimStart(s[1..]) else s
  }

  function TrimEnd(s: string): string {
    if s != [] && IsWhitespace(s[|s| - 1]) then TrimEnd(s[..|s| - 1]) else s
  }

  function Lower(s: string): (r: string)
    ensures |r| == |s|
    ensures forall i :: 0 <= i < |s| ==> r[i] == LowerAscii(s[i])
  {
    seq(|s|, i requires 0 <= i < |s| => LowerAscii(s[i]))
  }

  /** `raw.trim().to_ascii_lowercase()`. */
  function Observed(raw: string): string {
    Lower(TrimEnd(TrimStart(raw)))
  }

  /** The last position of `c`, or -1. */
  function LastIndex(s: string, c: char): (i: int)
    ensures -1 <= i < |s|
    ensures i >= 0 ==> s[i] == c
    ensures forall j :: i < j < |s| ==> s[j] != c
  {
    if s == [] then -1
    else if s[|s| - 1] == c then |s| - 1
    else LastIndex(s[..|s| - 1], c)
  }

  /** The last position of `-v`, or -1. */
  function LastDashV(s: string): (i: int)
    ensures -1 <= i && (i >= 0 ==> i + 2 <= |s| && s[i] == '-' && s[i + 1] == 'v')
    ensures forall j :: i < j < |s| - 1 && 0 <= j ==> !(s[j] == '-' && s[j + 1] == 'v')
  {
    if |s| < 2 then -1
    else if s[|s| - 2] == '-' && s[|s| - 1] == 'v' then |s| - 2
    else LastDashV(s[..|s| - 1])
  }

  function AfterSlash(m: string): string {
    var i := LastIndex(m, '/');
    if i < 0 then m else m[i + 1..]
  }

  /** Drops the first of `prefixes` that fits. */
  function DropPrefix(m: string, prefixes: seq<string>): string {
    if prefixes == [] then m
    else if prefixes[0] <= m then m[|prefixes[0]|..]
    else DropPrefix(m, prefixes[1..])
  }

  const REGIONS: seq<string> := ["us.", "eu.", "apac.", "jp.", "au.", "ca.", "global."]

  const VENDORS: seq<string> := ["anthropic.", "amazon.", "meta.", "mistral.", "ai21.", "cohere.", "deepseek."]

  /** The first position of `c`, or the length. */
  function FirstIndex(s: string, c: char): (i: nat)
    ensures i <= |s|
    ensures i < |s| ==> s[i] == c
    ensures forall j :: 0 <= j < i ==> s[j] != c
  {
    if s == [] || s[0] == c then 0 else 1 + FirstIndex(s[1..], c)
  }

  /** `1` or `1:0`. */
  predicate BedrockTail(tail: string) {
    var colon := FirstIndex(tail, ':');
    if colon == |tail| then tail != "" && IsDigits(tail)
    else 0 < colon && colon + 1 < |tail| && IsDigits(tail[..colon]) && IsDigits(tail[colon + 1..])
  }

  /** Trailing `-v1` or `-v1:0`. */
  function StripBedrock(m: string): string {
    var i := LastDashV(m);
    if i >= 0 && BedrockTail(m[i + 2..]) then m[..i] else m
  }

  predicate VertexChar(c: char) {
    'a' <= c <= 'z' || 'A' <= c <= 'Z' || '0' <= c <= '9' || c == '.' || c == '-'
  }

  /** Trailing `@version`. */
  function StripVertex(m: string): string {
    var i := LastIndex(m, '@');
    if i >= 0 && i + 1 < |m| && (forall j :: i < j < |m| ==> VertexChar(m[j])) then m[..i] else m
  }

  /** Each wrapper peeled in order: path, region, vendor, Bedrock version, Vertex version. */
  function Unwrap(m: string): string {
    StripVertex(StripBedrock(DropPrefix(DropPrefix(AfterSlash(m), REGIONS), VENDORS)))
  }

  function NormalizeModel(raw: string): string {
    Unwrap(Observed(raw))
  }

  const LATEST: string := "-latest"

  /** `strip_suffix("-latest").unwrap_or(id)`. */
  function DropLatest(id: string): string {
    if |id| >= 7 && id[|id| - 7..] == LATEST then id[..|id| - 7] else id
  }

  /** `-20dddddd`. */
  predicate IsDatePin(pin: string) {
    |pin| == 9 && pin[0] == '-' && pin[1] == '2' && pin[2] == '0' && IsDigits(pin[1..])
  }

  function DropDate(s: string): string {
    if |s| > 9 && IsDatePin(s[|s| - 9..]) then s[..|s| - 9] else s
  }

  function StripRelease(id: string): string {
    DropDate(DropLatest(id))
  }

  // ---- the cascade -------------------------------------------------------------------------

  /** `k` is a prefix of `bare` that stops at its end or at a `-`. */
  predicate BoundaryPrefix(k: string, bare: string) {
    k <= bare && (|k| == |bare| || bare[|k|] == '-')
  }

  /** The longest boundary prefix of `bare` of at most `n` characters that is a key. */
  function LongestKey(t: Table, bare: string, n: nat): Option<string>
    requires n <= |bare|
  {
    if (n == |bare| || bare[n] == '-') && bare[..n] in t then Some(bare[..n])
    else if n == 0 then None
    else LongestKey(t, bare, n - 1)
  }

  /** Exact key, normalized key, unpinned key, then the longest boundary prefix. */
  function Cascade(t: Table, exact: string, normalized: string, bare: string): Option<string> {
    if exact in t then Some(exact)
    else if normalized in t then Some(normalized)
    else if bare in t then Some(bare)
    else LongestKey(t, bare, |bare|)
  }

  /** The key a raw model string resolves to. */
  function ResolveKey(t: Table, raw: string): Option<string> {
    Cascade(t, Observed(raw), NormalizeModel(raw), StripRelease(NormalizeModel(raw)))
  }

  lemma {:induction false} LongestKeyIsLongest(t: Table, bare: string, n: nat)
    requires n <= |bare|
    ensures var r := LongestKey(t, bare, n);
            && (r.Some? ==> r.value in t && BoundaryPrefix(r.value, bare) && |r.value| <= n)
            && (forall k :: k in t && BoundaryPrefix(k, bare) && |k| <= n ==> r.Some? && |k| <= |r.value|)
  {
    if (n == |bare| || bare[n] == '-') && bare[..n] in t {
    } else {
      forall k | k in t && BoundaryPrefix(k, bare) && |k| <= n ensures |k| < n { assert k == bare[..|k|]; }
      if n > 0 { LongestKeyIsLongest(t, bare, n - 1); }
    }
  }

  /** Two prefixes of one string with the same length are the same. */
  lemma {:induction false} PrefixesOfOneLength(a: string, b: string, s: string)
    requires a <= s && b <= s && |a| == |b|
    ensures a == b
  {
  }

  /** Step four: the table scanned for its longest boundary prefix of `bare`. */
  method ScanPrefixes(t: Table, bare: string) returns (best: Option<string>)
    ensures best == LongestKey(t, bare, |bare|)
  {
    best := None;
    var todo := t.Keys;
    while todo != {}
      invariant todo <= t.Keys
      invariant best.Some? ==> best.value in t && BoundaryPrefix(best.value, bare)
      invariant forall k :: k in t && k !in todo && BoundaryPrefix(k, bare) ==> best.Some? && |k| <= |best.value|
      decreases todo
    {
      var key :| key in todo;
      todo := todo - {key};
      if !(key <= bare) {
        continue;
      }
      if !(|key| == |bare| || bare[|key|] == '-') {
        continue;
      }
      if best.None? || |key| > |best.value| {
        best := Some(key);
      }
    }
    LongestKeyIsLongest(t, bare, |bare|);
    var l := LongestKey(t, bare, |bare|);
    if best.Some? { PrefixesOfOneLength(l.value, best.value, bare); }
  }

  method Normalize(raw: string) returns (m: string)
    ensures m == NormalizeModel(raw)
  {
    m := Observed(raw);
    m := AfterSlash(m);
    m := DropOne(m, REGIONS);
    m := DropOne(m, VENDORS);
    m := StripBedrock(m);
    m := StripVertex(m);
  }

  /** The first prefix that fits is dropped, and no other. */
  method DropOne(m: string, prefixes: seq<string>) returns (r: string)
    ensures r == DropPrefix(m, prefixes)
  {
    for i := 0 to |prefixes|
      invariant DropPrefix(m, prefixes) == DropPrefix(m, prefixes[i..])
    {
      assert prefixes[i..][1..] == prefixes[i + 1..];
      if prefixes[i] <= m {
        return m[|prefixes[i]|..];
      }
    }
    return m;
  }

  lemma {:induction false} ResolvedIsKey(t: Table, exact: string, normalized: string, bare: string)
    ensures var r := Cascade(t, exact, normalized, bare); r.Some? ==> r.value in t
  {
    LongestKeyIsLongest(t, bare, |bare|);
  }

  /** Lands on a key of the table, if anywhere. */
  method Resolve(t: Table, raw: string) returns (key: Option<string>)
    ensures key == ResolveKey(t, raw) && (key.Some? ==> key.value in t)
  {
    ResolvedIsKey(t, Observed(raw), NormalizeModel(raw), StripRelease(NormalizeModel(raw)));
    var exact := Observed(raw);
    if exact in t {
      return Some(exact);
    }
    var normalized := Normalize(raw);
    if normalized in t {
      return Some(normalized);
    }
    var bare := StripRelease(normalized);
    if bare in t {
      return Some(bare);
    }
    key := ScanPrefixes(t, bare);
  }

  function PriceAt(t: Table, k: Option<string>): Option<PriceEntry> {
    if k.Some? && k.value in t then Some(t[k.value]) else None
  }

  /** What a raw model string costs. */
  function PriceOf(t: Table, raw: string): Option<PriceEntry> {
    PriceAt(t, ResolveKey(t, raw))
  }
}
