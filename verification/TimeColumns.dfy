/** The one-shot rewrite of the store's text time columns, and how stored text is shown. */
module TimeColumns {
  import opened Prelude
  import opened TextOrder
  import opened Calendar
  import opened Decimal
  import opened StoredAt

  // ---- display -----------------------------------------------------------------------------

  /** The fewest fractional digits that lose nothing. */
  function FewestDigits(nanos: nat, d: nat): (r: nat)
    requires d <= 9
    ensures d <= r <= 9 && nanos % Unit(r) == 0
    decreases 9 - d
  {
    if nanos % Unit(d) == 0 then d else FewestDigits(nanos, d + 1)
  }

  lemma {:induction false} FractionFits(digits: string)
    requires IsDigits(digits)
    ensures FractionNanos(digits) < NANOS
  {
    var w := if |digits| < 9 then |digits| else 9;
    ValueFits(digits[..w]);
    UnitsFill(w);
    ProductBelow(Value(digits[..w]), Pow10(w), Unit(w));
  }

  lemma {:induction false} ProductBelow(a: nat, b: nat, c: nat)
    requires a < b && 1 <= c
    ensures a * c < b * c
  {
  }

  /** What was parsed is a local date-time of the years 0000 to 9999. */
  lemma {:induction false} ParsedIsLocal(raw: string)
    ensures var p := Parse(raw); p.Some? ==> InRange(p.value.local) && -24 * 60 < p.value.offset < 24 * 60
  {
    if Parse(raw).Some? {
      var f, tail := ReadStamp(raw).value, raw[19..];
      if tail[0] == '.' {
        FractionFits(tail[1..][..LeadingDigits(tail[1..])]);
      }
      DayInMonth(f.date);
      ClockOrder(f, f);
    }
  }

  /** Plain RFC 3339 with trailing zeros trimmed; anything else passes through. */
  function DisplayAt(stored: string): string {
    match Parse(stored)
    case None => stored
    case Some(p) =>
      ParsedIsLocal(stored);
      var f := FieldsOf(p.local);
      SpellFields(f, Spelling(p.offset, FewestDigits(f.nanos, 0), p.offset == 0))
  }

  /** What is shown names the same local time and offset as what is stored. */
  lemma {:induction false} DisplayReadsBack(stored: string)
    requires Parse(stored).Some?
    ensures Parse(DisplayAt(stored)) == Parse(stored)
    ensures InstantNamed(DisplayAt(stored)) == InstantNamed(stored)
  {
    ParsedIsLocal(stored);
    var p := Parse(stored).value;
    FieldsAreInstant(p.local);
    LocalReadsBack(p.local, Spelling(p.offset, FewestDigits(FieldsOf(p.local).nanos, 0), p.offset == 0));
  }

  lemma {:induction false} FewestIsFewest(nanos: nat, d: nat, e: nat)
    requires d <= e <= 9 && nanos % Unit(e) == 0
    ensures FewestDigits(nanos, d) <= e
    decreases e - d
  {
    if nanos % Unit(d) != 0 { FewestIsFewest(nanos, d + 1, e); }
  }

  lemma {:induction false} SpellingLength(f: Fields, s: Spelling)
    ensures |SpellFields(f, s)| == 19 + (if s.digits == 0 then 0 else 1 + s.digits) + if s.zulu then 1 else 6
  {
    StampLayout(f, FractionText(f.nanos, s.digits) + OffsetText(s));
    hide StampText;
  }

  /** No spelling of the same local time and offset that loses nothing is shorter than what is shown. */
  lemma {:induction false} DisplayIsShortest(stored: string, s: Spelling)
    requires Parse(stored).Some?
    requires var p := Parse(stored).value;
             && InRange(p.local) && s.offset == p.offset && (s.zulu ==> s.offset == 0)
             && s.digits <= 9 && p.local % NANOS % Unit(s.digits) == 0
    ensures |DisplayAt(stored)| <= |SpellFields(FieldsOf(Parse(stored).value.local), s)|
  {
    ParsedIsLocal(stored);
    var p := Parse(stored).value;
    var f := FieldsOf(p.local);
    FieldsAreInstant(p.local);
    FewestIsFewest(f.nanos, 0, s.digits);
    SpellingLength(f, s);
    SpellingLength(f, Spelling(p.offset, FewestDigits(f.nanos, 0), p.offset == 0));
    hide SpellFields;
    hide Parse;
  }

  /** Displaying and storing again is storing. */
  lemma {:induction false} DisplayKeepsCanonical(t: Instant)
    ensures Canonical(DisplayAt(Text(t))) == Some(Text(t))
  {
    TextReadsBack(t);
    DisplayReadsBack(Text(t));
  }

  // ---- the migration -----------------------------------------------------------------------

  /** A row after the rewrite: text that is not RFC 3339 stays. */
  function Rewritten(row: string): string {
    match Canonical(row)
    case None => row
    case Some(c) => c
  }

  function RewrittenColumn(rows: seq<string>): (r: seq<string>)
    ensures |r| == |rows|
  {
    seq(|rows|, i requires 0 <= i < |rows| => Rewritten(rows[i]))
  }

  function RewrittenColumns(columns: seq<seq<string>>): (r: seq<seq<string>>)
    ensures |r| == |columns|
  {
    seq(|columns|, i requires 0 <= i < |columns| => RewrittenColumn(columns[i]))
  }

  class TimeTables {
    var columns: seq<seq<string>>
    var canonical: bool

    constructor (rows: seq<seq<string>>)
      ensures columns == rows && !canonical
    {
      columns, canonical := rows, false;
    }

    /** Rewrites every time column once; later calls find the flag and leave the rows alone. */
    method NormalizeStoredAt()
      modifies this
      ensures canonical
      ensures columns == if old(canonical) then old(columns) else RewrittenColumns(old(columns))
    {
      if canonical {
        return;
      }
      for c := 0 to |columns|
        invariant |columns| == |old(columns)| && !canonical
        invariant forall i :: 0 <= i < |columns| ==>
                    columns[i] == if i < c then RewrittenColumn(old(columns)[i]) else old(columns)[i]
      {
        var rows := RewriteRows(columns[c]);
        columns := columns[c := rows];
      }
      canonical := true;
    }
  }

  method RewriteRow(raw: string) returns (row: string)
    ensures row == Rewritten(raw)
  {
    var canon := Canonical(raw);
    if canon.None? || canon.value == raw {
      return raw;
    }
    row := canon.value;
  }

  method RewriteRows(rows: seq<string>) returns (out: seq<string>)
    ensures out == RewrittenColumn(rows)
  {
    out := rows;
    for i := 0 to |rows|
      invariant |out| == |rows|
      invariant forall j :: 0 <= j < |rows| ==> out[j] == if j < i then Rewritten(rows[j]) else rows[j]
    {
      hide Rewritten;
      var row := RewriteRow(rows[i]);
      out := out[i := row];
    }
  }

  /** After the rewrite, a text bound selects exactly the rows at or after its instant. */
  lemma {:induction false} BoundSelectsByTime(row: string, bound: Instant)
    requires InstantNamed(row).Some?
    ensures LexLeq(Text(bound), Rewritten(row)) <==> bound <= InstantNamed(row).value
    ensures LexLess(Rewritten(row), Text(bound)) <==> InstantNamed(row).value < bound
  {
    var t := InstantNamed(row).value;
    TextOrderIsTimeOrder(bound, t);
    TextOrderIsTimeOrder(t, bound);
    TextIsInjective(bound, t);
  }

  /** Rewritten rows sort as their instants do. */
  lemma {:induction false} RowsSortByTime(a: string, b: string)
    requires InstantNamed(a).Some? && InstantNamed(b).Some?
    ensures LexLess(Rewritten(a), Rewritten(b)) <==> InstantNamed(a).value < InstantNamed(b).value
    ensures Rewritten(a) == Rewritten(b) <==> InstantNamed(a) == InstantNamed(b)
  {
    TextOrderIsTimeOrder(InstantNamed(a).value, InstantNamed(b).value);
    TextIsInjective(InstantNamed(a).value, InstantNamed(b).value);
  }

  /** The rewrite names the same instants, and a second rewrite would find nothing to do. */
  lemma {:induction false} RewriteIsStable(row: string)
    ensures Rewritten(Rewritten(row)) == Rewritten(row)
    ensures InstantNamed(Rewritten(row)) == InstantNamed(row)
  {
    if Canonical(row).Some? {
      CanonicalIsIdempotent(row);
      TextReadsBack(InstantNamed(row).value);
    }
  }

  const EARLIER: Spelling := Spelling(0, 2, true)
  const LATER: Spelling := Spelling(0, 3, true)

  /** Why the rewrite is needed: in any second, the trimmed `.123Z` sorts before the earlier `.12Z`. */
  lemma {:induction false} TrimmedTextMisorders(t: Instant, u: Instant)
    requires t / NANOS == u / NANOS && t % NANOS == 120_000_000 && u % NANOS == 123_000_000
    ensures t < u && EARLIER.Fits(t) && LATER.Fits(u)
    ensures LexLess(Spell(u, LATER), Spell(t, EARLIER))
  {
    TrimmedFits(t, u);
    FieldsAreInstant(t);
    FieldsAreInstant(u);
    SameStamp(t, u);
    FractionDigits();
    SpellZulu(u, LATER, ".123");
    SpellZulu(t, EARLIER, ".12");
    ShorterFractionSortsLater();
    StampPrefix(FieldsOf(u), FieldsOf(t), ".123" + "Z", ".12" + "Z");
  }

  lemma {:induction false} SpellZulu(t: Instant, s: Spelling, fraction: string)
    requires s.offset == 0 && s.zulu
    requires FractionText(FieldsOf(t).nanos, s.digits) == fraction
    ensures InRange(t + s.offset * MINUTE) && Spell(t, s) == StampText(FieldsOf(t), fraction + "Z")
  {
    hide FieldsOf;
    NoOffset(t, s.offset);
  }

  lemma {:induction false} TrimmedFits(t: Instant, u: Instant)
    requires t % NANOS == 120_000_000 && u % NANOS == 123_000_000
    ensures EARLIER.Fits(t) && LATER.Fits(u)
  {
    Units();
    assert EARLIER.offset * MINUTE == 0 && LATER.offset * MINUTE == 0;
  }

  lemma {:induction false} ShorterFractionSortsLater()
    ensures LexLess(".123" + "Z", ".12" + "Z")
  {
    assert ".123" + "Z" == ".12" + "3Z" && ".12" + "Z" == ".12" + "Z";
    LexFields(".12", ".12", "3Z", "Z");
    LexTrichotomy(".12", ".12");
  }

  lemma {:induction false} Units()
    ensures Unit(3) == 1_000_000 && Unit(2) == 10_000_000
  {
    assert Unit(8) == 10;
    assert Unit(6) == 1000;
    assert Unit(4) == 100_000;
  }

  lemma {:induction false} SameStamp(t: Instant, u: Instant)
    requires t / DAY == u / DAY && t % DAY / NANOS == u % DAY / NANOS
    ensures FieldsOf(t).(nanos := 0) == FieldsOf(u).(nanos := 0)
  {
  }

  lemma {:induction false} FractionDigits()
    ensures FractionText(123_000_000, 3) == ".123" && FractionText(120_000_000, 2) == ".12"
  {
    Units();
    assert Digits(1, 1) == "1" && Digits(12, 2) == "12" && Digits(123, 3) == "123";
  }

  lemma {:induction false} StampPrefix(f: Fields, g: Fields, x: string, y: string)
    requires f.(nanos := 0) == g.(nanos := 0)
    ensures LexLess(StampText(f, x), StampText(g, y)) <==> LexLess(x, y)
  {
    var p := StampText(f, "");
    assert StampText(f, x) == p + x && StampText(g, y) == p + y;
    LexFields(p, p, x, y);
    LexTrichotomy(p, p);
  }
}
