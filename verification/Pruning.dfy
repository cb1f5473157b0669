/** Dropping a dated or `-latest` alias from the price table, and exactly when no price changes. */
module Pruning {
  import opened Prelude
  import opened Pricing

  /** The unpinned form of `k` is another key at the same price. */
  ghost predicate Alias(t: Table, k: string, base: string) {
    k in t && base in t && t[k] == t[base] && base != k && StripRelease(k) == base
  }

  /** An alias spelled the way lookups spell keys. */
  ghost predicate Redundant(t: Table, k: string, base: string) {
    Alias(t, k, base) && NormalizeModel(k) == k
  }

  /** No key hides between the pins: `k` without `-latest` is absent or costs the same. */
  ghost predicate NothingBetween(t: Table, k: string) {
    k in t && DropLatest(k) in t ==> t[DropLatest(k)] == t[k]
  }

  // ---- the shape of a pinned key -----------------------------------------------------------

  /** The boundary prefixes of a pinned key longer than its base are the key and the key without `-latest`. */
  lemma {:induction false} BetweenIsMid(k: string, p: string)
    requires BoundaryPrefix(p, k) && |StripRelease(k)| < |p|
    ensures p == k || p == DropLatest(k)
  {
    var m := DropLatest(k);
    if |p| < |k| {
      assert k[|p|] == '-';
      assert forall i :: 0 <= i < |m| ==> m[i] == k[i];
    }
  }

  // ---- normalization only peels ------------------------------------------------------------

  lemma {:induction false} DropPrefixShortens(m: string, prefixes: seq<string>)
    ensures |DropPrefix(m, prefixes)| <= |m|
    ensures |DropPrefix(m, prefixes)| == |m| ==> DropPrefix(m, prefixes) == m
  {
    if prefixes != [] { DropPrefixShortens(m, prefixes[1..]); }
  }

  lemma {:induction false} UnwrapShortens(m: string)
    ensures |Unwrap(m)| <= |m|
    ensures |Unwrap(m)| == |m| ==> Unwrap(m) == m == AfterSlash(m)
    ensures |Unwrap(m)| == |m| ==> m == DropPrefix(m, REGIONS) == DropPrefix(m, VENDORS)
    ensures |Unwrap(m)| == |m| ==> m == StripBedrock(m) == StripVertex(m)
  {
    hide AfterSlash;
    hide DropPrefix;
    hide StripBedrock;
    hide StripVertex;
    var a := AfterSlash(m);
    var b := DropPrefix(a, REGIONS);
    var c := DropPrefix(b, VENDORS);
    SlashShortens(m);
    DropPrefixShortens(a, REGIONS);
    DropPrefixShortens(b, VENDORS);
    StripsShorten(c);
    StripsShorten(StripBedrock(c));
  }

  lemma {:induction false} SlashShortens(m: string)
    ensures |AfterSlash(m)| <= |m| && (|AfterSlash(m)| == |m| ==> AfterSlash(m) == m)
  {
  }

  lemma {:induction false} StripsShorten(m: string)
    ensures |StripBedrock(m)| <= |m| && (|StripBedrock(m)| == |m| ==> StripBedrock(m) == m)
    ensures |StripVertex(m)| <= |m| && (|StripVertex(m)| == |m| ==> StripVertex(m) == m)
  {
  }

  lemma {:induction false} TrimShortens(s: string)
    ensures |TrimStart(s)| <= |s| && (|TrimStart(s)| == |s| ==> TrimStart(s) == s)
    ensures |TrimEnd(s)| <= |s| && (|TrimEnd(s)| == |s| ==> TrimEnd(s) == s)
  {
    if s != [] && IsWhitespace(s[0]) { TrimShortens(s[1..]); }
    if s != [] && IsWhitespace(s[|s| - 1]) { TrimShortens(s[..|s| - 1]); }
  }

  /** A normalized key is its own observed form, and unwrapping leaves it alone. */
  lemma {:induction false} NormalizedIsFixed(k: string)
    requires NormalizeModel(k) == k
    ensures Observed(k) == k && Unwrap(k) == k && TrimStart(k) == k && TrimEnd(k) == k
  {
    TrimShortens(k);
    TrimShortens(TrimStart(k));
    UnwrapShortens(Observed(k));
    assert |Observed(k)| == |TrimEnd(TrimStart(k))|;
  }

  // ---- pruning is safe ---------------------------------------------------------------------

  /** Once the longest match `k` is gone, the next one costs the same. */
  lemma {:induction false} NextBestCostsTheSame(t: Table, k: string, base: string, bare: string)
    requires Alias(t, k, base) && NothingBetween(t, k)
    requires BoundaryPrefix(k, bare)
    requires forall p :: p in t && BoundaryPrefix(p, bare) ==> |p| <= |k|
    ensures PriceAt(t - {k}, LongestKey(t - {k}, bare, |bare|)) == Some(t[k])
  {
    var t' := t - {k};
    LongestKeyIsLongest(t', bare, |bare|);
    assert base in t';
    var r := LongestKey(t', bare, |bare|).value;
    NextBestIs(k, base, r, bare);
  }

  lemma {:induction false} NextBestIs(k: string, base: string, r: string, bare: string)
    requires StripRelease(k) == base && BoundaryPrefix(k, bare) && BoundaryPrefix(base, bare)
    requires BoundaryPrefix(r, bare) && |base| <= |r| <= |k| && r != k
    ensures r == base || r == DropLatest(k)
  {
    if |r| == |base| {
      PrefixesOfOneLength(r, base, bare);
    } else {
      if |r| == |k| { PrefixesOfOneLength(r, k, bare); }
      assert BoundaryPrefix(r, k);
      BetweenIsMid(k, r);
    }
  }

  /** When another key is the longest match, removing `k` leaves it so. */
  lemma {:induction false} OtherBestStays(t: Table, k: string, bare: string)
    requires LongestKey(t, bare, |bare|) != Some(k)
    ensures LongestKey(t - {k}, bare, |bare|) == LongestKey(t, bare, |bare|)
  {
    LongestKeyIsLongest(t, bare, |bare|);
    LongestKeyIsLongest(t - {k}, bare, |bare|);
    var r, r' := LongestKey(t, bare, |bare|), LongestKey(t - {k}, bare, |bare|);
    if r.Some? { PrefixesOfOneLength(r.value, r'.value, bare); }
  }

  lemma {:induction false} CascadeKeepsPrice(t: Table, k: string, base: string, exact: string, normalized: string,
                                             bare: string)
    requires Alias(t, k, base) && NothingBetween(t, k)
    requires exact == k ==> normalized == k
    requires normalized == k ==> bare == base
    ensures PriceAt(t - {k}, Cascade(t - {k}, exact, normalized, bare)) == PriceAt(t, Cascade(t, exact, normalized, bare))
  {
    if exact !in t && normalized !in t {
      LastSteps(t, k, base, bare);
    }
  }

  lemma {:induction false} LastSteps(t: Table, k: string, base: string, bare: string)
    requires Alias(t, k, base) && NothingBetween(t, k)
    ensures bare == k ==> PriceAt(t - {k}, LongestKey(t - {k}, bare, |bare|)) == Some(t[k])
    ensures bare !in t ==>
              PriceAt(t - {k}, LongestKey(t - {k}, bare, |bare|)) == PriceAt(t, LongestKey(t, bare, |bare|))
  {
    LongestKeyIsLongest(t, bare, |bare|);
    if bare == k || LongestKey(t, bare, |bare|) == Some(k) {
      forall p | p in t && BoundaryPrefix(p, bare) ensures |p| <= |k| {}
      NextBestCostsTheSame(t, k, base, bare);
    } else {
      OtherBestStays(t, k, bare);
    }
  }

  /** Pruning a redundant pinned key changes no raw model string's price, at any step of the cascade. */
  lemma {:induction false} PruningKeepsPrices(t: Table, k: string, base: string, raw: string)
    requires Redundant(t, k, base) && NothingBetween(t, k)
    ensures PriceOf(t - {k}, raw) == PriceOf(t, raw)
  {
    if Observed(raw) == k { NormalizedIsFixed(k); }
    CascadeKeepsPrice(t, k, base, Observed(raw), NormalizeModel(raw), StripRelease(NormalizeModel(raw)));
  }

  /** A key with a single pin has nothing between. */
  lemma {:induction false} SinglePinHasNothingBetween(t: Table, k: string, base: string, pin: string)
    requires Alias(t, k, base) && k == base + pin && (pin == LATEST || IsDatePin(pin))
    ensures NothingBetween(t, k)
  {
    if pin == LATEST {
      assert k[|k| - 7..] == LATEST;
      assert DropLatest(k) == base;
    } else {
      assert pin[1..][7] == pin[8] && k[|k| - 1] == pin[8];
      assert k[|k| - 1] != LATEST[6];
    }
  }

  /** The case the table is full of: one dated or `-latest` alias of a family key at the family's price. */
  lemma {:induction false} SinglePinPrunes(t: Table, k: string, base: string, pin: string, raw: string)
    requires Redundant(t, k, base) && k == base + pin && (pin == LATEST || IsDatePin(pin))
    ensures PriceOf(t - {k}, raw) == PriceOf(t, raw)
  {
    SinglePinHasNothingBetween(t, k, base, pin);
    PruningKeepsPrices(t, k, base, raw);
  }

  /** The keys a sync drops: pinned keys whose unpinned form is in the table at the same price. */
  ghost function RedundantKeys(t: Table): set<string> {
    set k | k in t && Alias(t, k, StripRelease(k))
  }

  method DropRedundant(t: Table) returns (pruned: Table)
    ensures pruned == t - RedundantKeys(t)
  {
    var redundant: set<string> := {};
    var todo := t.Keys;
    while todo != {}
      invariant todo <= t.Keys
      invariant forall k :: k in redundant <==> k in RedundantKeys(t) && k !in todo
      decreases todo
    {
      var k :| k in todo;
      todo := todo - {k};
      var base := StripRelease(k);
      if base != k && base in t && t[base] == t[k] {
        redundant := redundant + {k};
      }
    }
    assert redundant == RedundantKeys(t);
    pruned := t - redundant;
  }

  ghost predicate SafeToDrop(t: Table, k: string) {
    Redundant(t, k, StripRelease(k)) && NothingBetween(t, k)
  }

  lemma {:induction false} LongestOf(ks: set<string>) returns (k: string)
    requires ks != {}
    ensures k in ks && forall j :: j in ks ==> |j| <= |k|
    decreases ks
  {
    k :| k in ks;
    if ks != {k} {
      var r := LongestOf(ks - {k});
      if |r| > |k| { k := r; }
    }
  }

  /** Once the longest is gone, the others still have their unpinned forms. */
  lemma {:induction false} OthersStaySafe(t: Table, k: string, j: string)
    requires SafeToDrop(t, k) && SafeToDrop(t, j) && j != k && |j| <= |k|
    ensures SafeToDrop(t - {k}, j)
  {
    BaseIsShorter(j);
    hide StripRelease;
    hide NormalizeModel;
    hide DropLatest;
  }

  lemma {:induction false} BaseIsShorter(j: string)
    ensures StripRelease(j) != j ==> |StripRelease(j)| < |j|
  {
  }

  lemma {:induction false} DroppingKeepsPrices(t: Table, ks: set<string>, raw: string)
    requires forall k :: k in ks ==> SafeToDrop(t, k)
    ensures PriceOf(t - ks, raw) == PriceOf(t, raw)
    decreases ks
  {
    hide PriceOf;
    hide StripRelease;
    hide NormalizeModel;
    hide DropLatest;
    if ks == {} {
      assert t - ks == t;
    } else {
      var k := LongestOf(ks);
      PruningKeepsPrices(t, k, StripRelease(k), raw);
      forall j | j in ks - {k} ensures SafeToDrop(t - {k}, j) { OthersStaySafe(t, k, j); }
      DroppingKeepsPrices(t - {k}, ks - {k}, raw);
      assert t - ks == t - {k} - (ks - {k});
    }
  }

  /** The whole sweep changes no price, chains of aliases included, when nothing hides between any key's pins. */
  lemma {:induction false} SweepKeepsPrices(t: Table, raw: string)
    requires forall k :: k in RedundantKeys(t) ==> NormalizeModel(k) == k && NothingBetween(t, k)
    ensures PriceOf(t - RedundantKeys(t), raw) == PriceOf(t, raw)
  {
    DroppingKeepsPrices(t, RedundantKeys(t), raw);
  }

  // ---- and exactly then --------------------------------------------------------------------

  function Tail(n: nat): string {
    ['-'] + seq(n + 1, _ => 'x')
  }

  /** No key is longer than `n`. */
  lemma {:induction false} KeysAreBounded(keys: set<string>) returns (n: nat)
    ensures forall k :: k in keys ==> |k| <= n
  {
    n := 0;
    var todo := keys;
    while todo != {}
      invariant todo <= keys
      invariant forall k :: k in keys && k !in todo ==> |k| <= n
      decreases todo
    {
      var k :| k in todo;
      todo := todo - {k};
      if |k| > n { n := |k|; }
    }
  }

  /** A longer model string built on a `-latest` key is already canonical. */
  lemma {:induction false} ExtensionIsCanonical(k: string, n: nat)
    requires NormalizeModel(k) == k && DropLatest(k) != k && |k| >= 10
    ensures var raw := k + Tail(n);
            Observed(raw) == raw && NormalizeModel(raw) == raw && StripRelease(raw) == raw
  {
    hide AfterSlash;
    hide DropPrefix;
    hide StripBedrock;
    hide StripVertex;
    hide StripRelease;
    hide Observed;
    NormalizedIsFixed(k);
    UnwrapShortens(k);
    ExtensionObserved(k, n);
    ExtensionKeepsSlash(k, n);
    ExtensionKeepsPrefix(k, n, REGIONS);
    ExtensionKeepsPrefix(k, n, VENDORS);
    ExtensionKeepsBedrock(k, n);
    ExtensionKeepsVertex(k, n);
    ExtensionKeepsRelease(k, n);
  }

  lemma {:induction false} ExtensionKeepsRelease(k: string, n: nat)
    ensures StripRelease(k + Tail(n)) == k + Tail(n)
  {
    var raw := k + Tail(n);
    assert raw[|raw| - 1] == 'x';
  }

  lemma {:induction false} ExtensionObserved(k: string, n: nat)
    requires Observed(k) == k && TrimStart(k) == k && k != []
    requires TrimEnd(TrimStart(k)) == k
    ensures Observed(k + Tail(n)) == k + Tail(n)
  {
    var raw := k + Tail(n);
    TrimShortens(k[1..]);
    assert !IsWhitespace(k[0]);
    assert raw[|raw| - 1] == 'x';
    assert TrimStart(raw) == raw && TrimEnd(raw) == raw;
    forall i | 0 <= i < |raw| ensures LowerAscii(raw[i]) == raw[i] {
      if i < |k| { assert Observed(k)[i] == LowerAscii(k[i]); }
    }
  }

  lemma {:induction false} NoSlashIn(k: string)
    requires AfterSlash(k) == k
    ensures '/' !in k
  {
    assert |AfterSlash(k)| == |k| - (LastIndex(k, '/') + 1);
  }

  lemma {:induction false} TailHasNoSlash(k: string, n: nat)
    requires '/' !in k
    ensures '/' !in k + Tail(n)
  {
    assert '/' !in Tail(n);
  }

  lemma {:induction false} ExtensionKeepsSlash(k: string, n: nat)
    requires AfterSlash(k) == k
    ensures AfterSlash(k + Tail(n)) == k + Tail(n)
  {
    NoSlashIn(k);
    TailHasNoSlash(k, n);
  }

  lemma {:induction false} ExtensionKeepsPrefix(k: string, n: nat, prefixes: seq<string>)
    requires |k| >= 10 && DropPrefix(k, prefixes) == k
    requires forall i :: 0 <= i < |prefixes| ==> 0 < |prefixes[i]| <= 10
    ensures DropPrefix(k + Tail(n), prefixes) == k + Tail(n)
  {
    if prefixes != [] {
      var p := prefixes[0];
      assert p <= k + Tail(n) ==> p <= k;
      ExtensionKeepsPrefix(k, n, prefixes[1..]);
    }
  }

  lemma {:induction false} DashIsNoTail(tail: string, at: nat)
    requires at < |tail| && tail[at] == '-'
    ensures !BedrockTail(tail)
  {
    var colon := FirstIndex(tail, ':');
    assert colon < |tail| ==> at != colon;
    assert at < colon < |tail| ==> tail[..colon][at] == '-';
    assert colon < at ==> tail[colon + 1..][at - colon - 1] == '-';
  }

  lemma {:induction false} ExtensionKeepsBedrock(k: string, n: nat)
    requires StripBedrock(k) == k && DropLatest(k) != k
    ensures StripBedrock(k + Tail(n)) == k + Tail(n)
  {
    var raw := k + Tail(n);
    var i := LastDashV(raw);
    if i >= 0 {
      DashVInside(k, n);
      var tail, at := raw[i + 2..], |k| - i - 2;
      assert tail[at] == '-';
      DashIsNoTail(tail, at);
    }
  }

  lemma {:induction false} DashVInside(k: string, n: nat)
    requires DropLatest(k) != k
    ensures LastDashV(k + Tail(n)) + 2 <= |k|
  {
    var raw := k + Tail(n);
    var i := LastDashV(raw);
    if i >= 0 {
      assert raw[i] == '-' && raw[i + 1] == 'v';
    }
  }

  lemma {:induction false} ExtensionKeepsVertex(k: string, n: nat)
    requires StripVertex(k) == k && DropLatest(k) != k
    ensures StripVertex(k + Tail(n)) == k + Tail(n)
  {
    var raw := k + Tail(n);
    var i := LastIndex(raw, '@');
    if i >= 0 {
      assert raw[i] == '@';
      assert i + 1 < |k|;
      assert LastIndex(k, '@') == i by {
        forall j | i < j < |k| ensures k[j] != '@' { assert raw[j] == k[j]; }
      }
      var j :| i < j < |k| && !VertexChar(k[j]);
      assert raw[j] == k[j];
    }
  }

  /** The longest match of the extension is the pinned key, and without that the key between the pins. */
  lemma {:induction false} ExtensionMatches(t: Table, k: string, n: nat, dropped: set<string>)
    requires k in t && k in dropped && forall p :: p in t ==> |p| <= n
    ensures LongestKey(t, k + Tail(n), |k + Tail(n)|) == Some(k)
    ensures DropLatest(k) in t - dropped ==>
              LongestKey(t - dropped, k + Tail(n), |k + Tail(n)|) == Some(DropLatest(k))
  {
    var raw, mid := k + Tail(n), DropLatest(k);
    assert raw[|k|] == '-' && k <= raw;
    forall p | p in t && BoundaryPrefix(p, raw) ensures BoundaryPrefix(p, k) {
      assert p == raw[..|p|];
    }
    LongestKeyIsLongest(t, raw, |raw|);
    PrefixesOfOneLength(k, LongestKey(t, raw, |raw|).value, raw);
    if mid in t - dropped {
      LongestKeyIsLongest(t - dropped, raw, |raw|);
      var r := LongestKey(t - dropped, raw, |raw|).value;
      if |r| > |StripRelease(k)| {
        BetweenIsMid(k, r);
      } else {
        PrefixesOfOneLength(r, mid, raw);
      }
    }
  }

  /** A double pin makes a long key. */
  lemma {:induction false} DoublePinIsLong(k: string)
    requires StripRelease(k) != DropLatest(k) && DropLatest(k) != k
    ensures |k| >= 10
  {
    assert |DropLatest(k)| > 9;
  }

  /** If a key that stays hides between the pins at another price, some model string's price changes. */
  lemma {:induction false} HiddenKeyChangesAPrice(t: Table, k: string, dropped: set<string>) returns (raw: string)
    requires Redundant(t, k, StripRelease(k)) && !NothingBetween(t, k)
    requires k in dropped && DropLatest(k) !in dropped
    ensures PriceOf(t - dropped, raw) != PriceOf(t, raw)
  {
    var n := KeysAreBounded(t.Keys);
    raw := k + Tail(n);
    DoublePinIsLong(k);
    ExtensionIsCanonical(k, n);
    ExtensionMatches(t, k, n, dropped);
    CascadeDiffers(t, k, dropped, raw);
  }

  lemma {:induction false} CascadeDiffers(t: Table, k: string, dropped: set<string>, raw: string)
    requires k in t && !NothingBetween(t, k) && DropLatest(k) !in dropped
    requires Cascade(t, raw, raw, raw) == Some(k) && Cascade(t - dropped, raw, raw, raw) == Some(DropLatest(k))
    requires Observed(raw) == raw == NormalizeModel(raw) == StripRelease(raw)
    ensures PriceOf(t - dropped, raw) != PriceOf(t, raw)
  {
    assert ResolveKey(t, raw) == Some(k);
    assert ResolveKey(t - dropped, raw) == Some(DropLatest(k));
  }

  /** A redundant key can be dropped without changing any price exactly when nothing hides between its pins. */
  lemma {:induction false} PruneIff(t: Table, k: string)
    requires Redundant(t, k, StripRelease(k))
    ensures (forall raw :: PriceOf(t - {k}, raw) == PriceOf(t, raw)) <==> NothingBetween(t, k)
  {
    hide PriceOf;
    hide StripRelease;
    hide NormalizeModel;
    if NothingBetween(t, k) {
      forall raw ensures PriceOf(t - {k}, raw) == PriceOf(t, raw) { PruningKeepsPrices(t, k, StripRelease(k), raw); }
    } else {
      assert DropLatest(k) != k;
      var raw := HiddenKeyChangesAPrice(t, k, {k});
    }
  }

  lemma {:induction false} DatePinIsNotLatest(k: string)
    requires DropDate(k) != k
    ensures DropLatest(k) == k
  {
    assert k[|k| - 9..][1..][7] == k[|k| - 1];
    assert LATEST[6] == 't';
  }

  /** What hides between the pins of a redundant key is not redundant itself. */
  lemma {:induction false} HiddenKeyStays(t: Table, k: string)
    requires Redundant(t, k, StripRelease(k)) && !NothingBetween(t, k)
    ensures DropLatest(k) !in RedundantKeys(t)
  {
    var mid := DropLatest(k);
    DatePinIsNotLatest(mid);
    assert StripRelease(mid) == StripRelease(k);
  }

  /** The whole sweep changes no price exactly when nothing hides between the pins of any key it drops. */
  lemma {:induction false} SweepIff(t: Table)
    requires forall k :: k in RedundantKeys(t) ==> NormalizeModel(k) == k
    ensures (forall raw :: PriceOf(t - RedundantKeys(t), raw) == PriceOf(t, raw)) <==>
            forall k :: k in RedundantKeys(t) ==> NothingBetween(t, k)
  {
    hide PriceOf;
    if forall k :: k in RedundantKeys(t) ==> NothingBetween(t, k) {
      forall raw ensures PriceOf(t - RedundantKeys(t), raw) == PriceOf(t, raw) { SweepKeepsPrices(t, raw); }
    } else {
      var k :| k in RedundantKeys(t) && !NothingBetween(t, k);
      HiddenKeyStays(t, k);
      var raw := HiddenKeyChangesAPrice(t, k, RedundantKeys(t));
    }
  }
}
