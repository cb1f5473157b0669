/**
 The one form a timestamp takes in a text column: fixed-width UTC with nine fractional digits, so that
 text order is time order. Instants are nanoseconds since 0000-01-01T00:00:00Z, years 0000 to 9999.
 */
module StoredAt {
  import opened Prelude
  import opened TextOrder
  import opened Calendar
  import opened Decimal

  const MINUTE: int := 60_000_000_000
  const DAY: int := 86_400_000_000_000

  predicate InRange(t: int) {
    0 <= t && t / DAY < END_DAY
  }

  type Instant = t: int | 0 <= t && t / DAY < END_DAY witness 0

  datatype Fields = Fields(date: Date, hour: nat, minute: nat, second: nat, nanos: nat) {
    predicate Valid() {
      date.Valid() && hour < 24 && minute < 60 && second < 60 && nanos < NANOS
    }
  }

  function SecondOfDay(f: Fields): int {
    (f.hour * 60 + f.minute) * 60 + f.second
  }

  function InstantOf(f: Fields): int {
    DayNumber(f.date) * DAY + SecondOfDay(f) * NANOS + f.nanos
  }

  /** The clock reading of a second of the day. */
  function ClockAt(second: nat): (c: (nat, nat, nat))
    requires second < 86_400
    ensures c.0 < 24 && c.1 < 60 && c.2 < 60 && (c.0 * 60 + c.1) * 60 + c.2 == second
  {
    var minute := second / 60;
    (minute / 60, minute % 60, second % 60)
  }

  function FieldsOf(t: Instant): (f: Fields)
    ensures f.Valid()
  {
    var r := t % DAY;
    var c := ClockAt(r / NANOS);
    Fields(DateOf(t / DAY), c.0, c.1, c.2, r % NANOS)
  }

  lemma {:induction false} Radix(t: int)
    requires 0 <= t
    ensures t / DAY * DAY + t % DAY / NANOS * NANOS + t % DAY % NANOS == t
    ensures t % DAY % NANOS == t % NANOS
  {
    assert t == DAY * (t / DAY) + t % DAY;
    assert t % DAY == NANOS * (t % DAY / NANOS) + t % DAY % NANOS;
    assert t == NANOS * (86_400 * (t / DAY) + t % DAY / NANOS) + t % DAY % NANOS;
  }

  /** The fields of an instant are that instant. */
  lemma {:induction false} FieldsAreInstant(t: Instant)
    ensures InstantOf(FieldsOf(t)) == t
    ensures FieldsOf(t).nanos == t % NANOS
  {
    Radix(t);
    assert SecondOfDay(FieldsOf(t)) == t % DAY / NANOS;
  }

  predicate ClockLess(a: Fields, b: Fields) {
    a.hour < b.hour || (a.hour == b.hour &&
      (a.minute < b.minute || (a.minute == b.minute &&
        (a.second < b.second || (a.second == b.second && a.nanos < b.nanos)))))
  }

  predicate FieldsLess(a: Fields, b: Fields) {
    DateLess(a.date, b.date) || (a.date == b.date && ClockLess(a, b))
  }

  lemma {:induction false} ClockOrder(a: Fields, b: Fields)
    requires a.Valid() && b.Valid()
    ensures ClockLess(a, b) <==>
            SecondOfDay(a) < SecondOfDay(b) || (SecondOfDay(a) == SecondOfDay(b) && a.nanos < b.nanos)
    ensures 0 <= SecondOfDay(a) < 86_400
    ensures SecondOfDay(a) == SecondOfDay(b) <==> a.hour == b.hour && a.minute == b.minute && a.second == b.second
  {
  }

  /** Mixed radix: days, then seconds, then nanoseconds. */
  lemma {:induction false} RadixOrder(d: int, s: int, n: int, e: int, r: int, m: int)
    requires 0 <= s < 86_400 && 0 <= r < 86_400 && 0 <= n < NANOS && 0 <= m < NANOS
    ensures d * DAY + s * NANOS + n < e * DAY + r * NANOS + m <==>
            d < e || (d == e && (s < r || (s == r && n < m)))
  {
  }

  lemma {:induction false} FieldsOrder(a: Fields, b: Fields)
    requires a.Valid() && b.Valid()
    ensures FieldsLess(a, b) <==> InstantOf(a) < InstantOf(b)
  {
    ClockOrder(a, b);
    ClockOrder(b, a);
    DateOrder(a.date, b.date);
    RadixOrder(DayNumber(a.date), SecondOfDay(a), a.nanos, DayNumber(b.date), SecondOfDay(b), b.nanos);
  }

  // ---- the canonical text ------------------------------------------------------------------

  /** `YYYY-MM-DD`. */
  function DateText(d: Date): string {
    Digits(d.year, 4) + "-" + (Digits(d.month, 2) + "-" + Digits(d.day, 2))
  }

  /** `HH:MM:SS` followed by `rest`. */
  function ClockText(f: Fields, rest: string): string {
    Digits(f.hour, 2) + ":" + (Digits(f.minute, 2) + ":" + (Digits(f.second, 2) + rest))
  }

  function StampText(f: Fields, rest: string): string {
    DateText(f.date) + ("T" + ClockText(f, rest))
  }

  /** `YYYY-MM-DDTHH:MM:SS.fffffffffZ`. */
  function Text(t: Instant): string {
    var f := FieldsOf(t);
    StampText(f, NanosText(f.nanos))
  }

  lemma {:induction false} Powers()
    ensures Pow10(0) == 1 && Pow10(1) == 10 && Pow10(2) == 100 && Pow10(4) == 10000 && Pow10(9) == NANOS
  {
    assert Pow10(3) == 1000;
    assert Pow10(5) == 100000;
    assert Pow10(7) == 10000000;
  }

  lemma {:induction false} DateTextOrder(a: Date, b: Date)
    requires a.Valid() && b.Valid()
    ensures |DateText(a)| == 10
    ensures LexLess(DateText(a), DateText(b)) <==> DateLess(a, b)
    ensures DateText(a) == DateText(b) <==> a == b
  {
    Powers();
    var x, y := Digits(a.month, 2) + "-" + Digits(a.day, 2), Digits(b.month, 2) + "-" + Digits(b.day, 2);
    FieldOrder(a.year, b.year, 4, "-", x, y);
    FieldOrder(a.month, b.month, 2, "-", Digits(a.day, 2), Digits(b.day, 2));
    DigitsOrder(a.day, b.day, 2);
    FieldOrder(b.year, a.year, 4, "-", y, x);
    FieldOrder(b.month, a.month, 2, "-", Digits(b.day, 2), Digits(a.day, 2));
    DigitsOrder(b.day, a.day, 2);
    LexTrichotomy(DateText(a), DateText(b));
  }

  /** The fraction and the `Z`. */
  function NanosText(nanos: nat): string {
    "." + (Digits(nanos, 9) + "Z")
  }

  lemma {:induction false} NanosTextOrder(n: nat, m: nat)
    requires n < NANOS && m < NANOS
    ensures LexLess(NanosText(n), NanosText(m)) <==> n < m
  {
    Powers();
    DigitsOrder(n, m, 9);
    LexFields(Digits(n, 9), Digits(m, 9), "Z", "Z");
    LexTrichotomy("Z", "Z");
    LexFields(".", ".", Digits(n, 9) + "Z", Digits(m, 9) + "Z");
    LexTrichotomy(".", ".");
  }

  lemma {:induction false} ColonOrder(n: nat, m: nat, x: string, y: string)
    requires n < 100 && m < 100
    ensures LexLess(Digits(n, 2) + ":" + x, Digits(m, 2) + ":" + y) <==> n < m || (n == m && LexLess(x, y))
  {
    Powers();
    FieldOrder(n, m, 2, ":", x, y);
  }

  lemma {:induction false} ClockTextOrder(a: Fields, b: Fields)
    requires a.Valid() && b.Valid()
    ensures LexLess(ClockText(a, NanosText(a.nanos)), ClockText(b, NanosText(b.nanos))) <==> ClockLess(a, b)
  {
    Powers();
    NanosTextOrder(a.nanos, b.nanos);
    DigitsOrder(a.second, b.second, 2);
    LexFields(Digits(a.second, 2), Digits(b.second, 2), NanosText(a.nanos), NanosText(b.nanos));
    var x, y := Digits(a.second, 2) + NanosText(a.nanos), Digits(b.second, 2) + NanosText(b.nanos);
    ColonOrder(a.minute, b.minute, x, y);
    ColonOrder(a.hour, b.hour, Digits(a.minute, 2) + ":" + x, Digits(b.minute, 2) + ":" + y);
  }

  /** Text order is time order. */
  lemma {:induction false} TextOrderIsTimeOrder(t: Instant, u: Instant)
    ensures LexLess(Text(t), Text(u)) <==> t < u
  {
    var a, b := FieldsOf(t), FieldsOf(u);
    FieldsAreInstant(t);
    FieldsAreInstant(u);
    FieldsOrder(a, b);
    DateTextOrder(a.date, b.date);
    ClockTextOrder(a, b);
    var x, y := ClockText(a, NanosText(a.nanos)), ClockText(b, NanosText(b.nanos));
    LexFields("T", "T", x, y);
    LexTrichotomy("T", "T");
    LexFields(DateText(a.date), DateText(b.date), "T" + x, "T" + y);
  }

  lemma {:induction false} TextIsInjective(t: Instant, u: Instant)
    ensures Text(t) == Text(u) <==> t == u
  {
    TextOrderIsTimeOrder(t, u);
    TextOrderIsTimeOrder(u, t);
    LexTrichotomy(Text(t), Text(u));
  }

  // ---- reading RFC 3339 --------------------------------------------------------------------

  /** A local date-time and its offset from UTC, in minutes. */
  datatype Parsed = Parsed(local: int, offset: int) {
    function Utc(): int {
      local - offset * MINUTE
    }
  }

  function ReadDigits(s: string, i: nat, w: nat): Option<nat> {
    if i + w <= |s| && IsDigits(s[i..i + w]) then Some(Value(s[i..i + w])) else None
  }

  predicate SeparatorsFit(s: string)
    requires |s| >= 19
  {
    s[4] == '-' && s[7] == '-' && (s[10] == 'T' || s[10] == 't') && s[13] == ':' && s[16] == ':'
  }

  /** The first nineteen characters. */
  function ReadStamp(s: string): Option<Fields> {
    if |s| < 19 || !SeparatorsFit(s) then None
    else
      var y, mo, d := ReadDigits(s, 0, 4), ReadDigits(s, 5, 2), ReadDigits(s, 8, 2);
      var h, mi, se := ReadDigits(s, 11, 2), ReadDigits(s, 14, 2), ReadDigits(s, 17, 2);
      if y.None? || mo.None? || d.None? || h.None? || mi.None? || se.None? then None
      else
        var f := Fields(Date(y.value, mo.value, d.value), h.value, mi.value, se.value, 0);
        if f.Valid() then Some(f) else None
  }

  /** How many digits `s` starts with. */
  function LeadingDigits(s: string): (n: nat)
    ensures n <= |s| && IsDigits(s[..n])
    ensures n < |s| ==> !('0' <= s[n] <= '9')
  {
    if s != [] && '0' <= s[0] <= '9' then 1 + LeadingDigits(s[1..]) else 0
  }

  /** The first nine fractional digits, as nanoseconds. */
  function FractionNanos(digits: string): nat
    requires IsDigits(digits)
  {
    var w := if |digits| < 9 then |digits| else 9;
    Value(digits[..w]) * Unit(w)
  }

  function ReadOffset(s: string): Option<int> {
    if s == "Z" || s == "z" then Some(0)
    else if |s| == 6 && (s[0] == '+' || s[0] == '-') && s[3] == ':' then
      var h, m := ReadDigits(s, 1, 2), ReadDigits(s, 4, 2);
      if h.None? || m.None? || h.value > 23 || m.value > 59 then None
      else Some(if s[0] == '+' then h.value * 60 + m.value else -(h.value * 60 + m.value))
    else None
  }

  /** Optional fraction, then the offset. */
  function ReadTail(s: string): Option<(nat, int)> {
    if s != [] && s[0] == '.' then
      var n := LeadingDigits(s[1..]);
      var off := ReadOffset(s[1 + n..]);
      if n == 0 || off.None? then None else Some((FractionNanos(s[1..][..n]), off.value))
    else
      var off := ReadOffset(s);
      if off.None? then None else Some((0, off.value))
  }

  function Parse(raw: string): Option<Parsed> {
    match ReadStamp(raw)
    case None => None
    case Some(f) =>
      match ReadTail(raw[19..])
      case None => None
      case Some(tail) => Some(Parsed(InstantOf(f) + tail.0, tail.1))
  }

  /** The instant a text names, if it is RFC 3339 and its UTC year is 0000 to 9999. */
  function InstantNamed(raw: string): Option<Instant> {
    match Parse(raw)
    case None => None
    case Some(p) => if InRange(p.Utc()) then Some(p.Utc()) else None
  }

  function Canonical(raw: string): Option<string> {
    match InstantNamed(raw)
    case None => None
    case Some(t) => Some(Text(t))
  }

  // ---- any spelling of an instant ----------------------------------------------------------

  /** The nanoseconds in one unit of the last of `digits` fractional digits. */
  function Unit(digits: nat): (u: nat)
    ensures u >= 1
    decreases 9 - digits
  {
    if digits >= 9 then 1 else 10 * Unit(digits + 1)
  }

  /** How an instant is written: minutes east of UTC, fractional digits, `Z` or a signed offset. */
  datatype Spelling = Spelling(offset: int, digits: nat, zulu: bool) {
    ghost predicate Fits(t: Instant) {
      && -24 * 60 < offset < 24 * 60
      && InRange(t + offset * MINUTE)
      && digits <= 9 && (t + offset * MINUTE) % NANOS % Unit(digits) == 0
      && (zulu ==> offset == 0)
    }
  }

  function Abs(x: int): nat {
    if x < 0 then -x else x
  }

  function OffsetText(s: Spelling): string {
    if s.zulu then "Z"
    else [if s.offset < 0 then '-' else '+'] + (Digits(Abs(s.offset) / 60, 2) + ":" + Digits(Abs(s.offset) % 60, 2))
  }

  /** The first `digits` fractional digits, as a number. */
  function Scaled(nanos: nat, digits: nat): nat {
    Quotient(nanos, Unit(digits))
  }

  function Quotient(n: nat, u: nat): nat
    requires u >= 1
  {
    n / u
  }

  function FractionText(nanos: nat, digits: nat): string {
    if digits == 0 then "" else "." + Digits(Scaled(nanos, digits), digits)
  }

  /** Local fields, as many fractional digits as asked for, and the offset. */
  function SpellFields(f: Fields, s: Spelling): string {
    StampText(f, FractionText(f.nanos, s.digits) + OffsetText(s))
  }

  function Spell(t: Instant, s: Spelling): string
    requires InRange(t + s.offset * MINUTE)
  {
    SpellFields(FieldsOf(t + s.offset * MINUTE), s)
  }

  lemma {:induction false} ReadDigitsBack(s: string, i: nat, w: nat, n: nat)
    requires i + w <= |s| && s[i..i + w] == Digits(n, w) && n < Pow10(w)
    ensures ReadDigits(s, i, w) == Some(n)
  {
    DigitsValue(n, w);
  }

  lemma {:induction false} StampLayout(f: Fields, rest: string)
    ensures var s := StampText(f, rest);
            && |s| == 19 + |rest| && SeparatorsFit(s) && s[19..] == rest
            && s[0..4] == Digits(f.date.year, 4) && s[5..7] == Digits(f.date.month, 2)
            && s[8..10] == Digits(f.date.day, 2) && s[11..13] == Digits(f.hour, 2)
            && s[14..16] == Digits(f.minute, 2) && s[17..19] == Digits(f.second, 2)
  {
    var s := StampText(f, rest);
    var c := ClockText(f, rest);
    assert s[..10] == DateText(f.date) && s[11..] == c;
    assert s[0..4] == DateText(f.date)[0..4] && s[5..7] == DateText(f.date)[5..7] && s[8..10] == DateText(f.date)[8..10];
    assert s[11..13] == c[0..2] && s[14..16] == c[3..5] && s[17..19] == c[6..8] && s[19..] == c[8..];
    assert s[13] == c[2] && s[16] == c[5];
  }

  lemma {:induction false} ReadStampBack(f: Fields, rest: string)
    requires f.Valid()
    ensures ReadStamp(StampText(f, rest)) == Some(f.(nanos := 0))
    ensures StampText(f, rest)[19..] == rest
  {
    hide StampText;
    hide Digits;
    hide ReadDigits;
    var s := StampText(f, rest);
    StampLayout(f, rest);
    Powers();
    ReadDigitsBack(s, 0, 4, f.date.year);
    ReadDigitsBack(s, 5, 2, f.date.month);
    ReadDigitsBack(s, 8, 2, f.date.day);
    ReadDigitsBack(s, 11, 2, f.hour);
    ReadDigitsBack(s, 14, 2, f.minute);
    ReadDigitsBack(s, 17, 2, f.second);
  }

  lemma {:induction false} ReadOffsetBack(s: Spelling)
    requires -24 * 60 < s.offset < 24 * 60 && (s.zulu ==> s.offset == 0)
    ensures ReadOffset(OffsetText(s)) == Some(s.offset)
    ensures OffsetText(s) != [] && OffsetText(s)[0] != '.' && !('0' <= OffsetText(s)[0] <= '9')
  {
    if !s.zulu {
      var o := OffsetText(s);
      Powers();
      assert o[1..3] == Digits(Abs(s.offset) / 60, 2) && o[4..6] == Digits(Abs(s.offset) % 60, 2);
      ReadDigitsBack(o, 1, 2, Abs(s.offset) / 60);
      ReadDigitsBack(o, 4, 2, Abs(s.offset) % 60);
    }
  }

  lemma {:induction false} LeadingDigitsEnd(d: string, rest: string)
    requires IsDigits(d) && (rest == [] || !('0' <= rest[0] <= '9'))
    ensures LeadingDigits(d + rest) == |d|
  {
    if d == [] {
      assert d + rest == rest;
    } else {
      assert (d + rest)[1..] == d[1..] + rest;
      LeadingDigitsEnd(d[1..], rest);
    }
  }

  lemma {:induction false} UnitsFill(d: nat)
    requires d <= 9
    ensures Pow10(d) * Unit(d) == NANOS
    decreases 9 - d
  {
    if d == 9 {
      Powers();
    } else {
      UnitsFill(d + 1);
      assert Pow10(d + 1) * Unit(d + 1) == Pow10(d) * (10 * Unit(d + 1));
    }
  }

  lemma {:induction false} DividesBelow(n: nat, p: nat, q: nat)
    requires 0 < q && n < p * q && n % q == 0
    ensures n / q < p && n / q * q == n
  {
    assert n == n / q * q + n % q;
    assert n / q * q < p * q;
  }

  /** A fraction of `d` digits that loses nothing holds the nanoseconds. */
  lemma {:induction false} FractionIsExact(nanos: nat, d: nat)
    requires nanos < NANOS && d <= 9 && nanos % Unit(d) == 0
    ensures FractionNanos(Digits(Scaled(nanos, d), d)) == nanos
    ensures d == 0 ==> nanos == 0
  {
    UnitsFill(d);
    DividesBelow(nanos, Pow10(d), Unit(d));
    FractionReadsBack(nanos, d);
    if d == 0 { Powers(); }
  }

  lemma {:induction false} ReadTailBack(nanos: nat, s: Spelling)
    requires -24 * 60 < s.offset < 24 * 60 && (s.zulu ==> s.offset == 0)
    requires nanos < NANOS && s.digits <= 9 && nanos % Unit(s.digits) == 0
    ensures ReadTail(FractionText(nanos, s.digits) + OffsetText(s)) == Some((nanos, s.offset))
  {
    ReadOffsetBack(s);
    FractionIsExact(nanos, s.digits);
    TailInParts(nanos, s.digits, OffsetText(s), s.offset);
  }

  lemma {:induction false} TailInParts(nanos: nat, d: nat, o: string, offset: int)
    requires d == 0 ==> nanos == 0
    requires FractionNanos(Digits(Scaled(nanos, d), d)) == nanos
    requires o != [] && o[0] != '.' && !('0' <= o[0] <= '9') && ReadOffset(o) == Some(offset)
    ensures ReadTail(FractionText(nanos, d) + o) == Some((nanos, offset))
  {
    if d == 0 {
      assert "" + o == o;
      NoFraction(o);
    } else {
      DottedFraction(Digits(Scaled(nanos, d), d), o);
    }
  }

  lemma {:induction false} NoFraction(o: string)
    requires o != [] && o[0] != '.' && ReadOffset(o).Some?
    ensures ReadTail(o) == Some((0, ReadOffset(o).value))
  {
  }

  lemma {:induction false} DottedFraction(digits: string, o: string)
    requires digits != [] && IsDigits(digits)
    requires o != [] && !('0' <= o[0] <= '9') && ReadOffset(o).Some?
    ensures ReadTail("." + digits + o) == Some((FractionNanos(digits), ReadOffset(o).value))
  {
    var s := "." + digits + o;
    assert s[1..] == digits + o;
    LeadingDigitsEnd(digits, o);
    assert s[1..][..|digits|] == digits && s[1 + |digits|..] == o;
  }

  lemma {:induction false} FractionReadsBack(nanos: nat, d: nat)
    requires d <= 9 && Scaled(nanos, d) < Pow10(d) && Scaled(nanos, d) * Unit(d) == nanos
    ensures FractionNanos(Digits(Scaled(nanos, d), d)) == nanos
  {
    var digits := Digits(Scaled(nanos, d), d);
    assert digits[..d] == digits;
    DigitsValue(Scaled(nanos, d), d);
  }

  /** Whatever offset and however many fractional digits it is written with, the instant reads back exactly. */
  lemma {:induction false} SpellingsReadBack(t: Instant, s: Spelling)
    requires s.Fits(t)
    ensures Parse(Spell(t, s)) == Some(Parsed(t + s.offset * MINUTE, s.offset))
    ensures InstantNamed(Spell(t, s)) == Some(t)
  {
    hide Parse;
    hide SpellFields;
    hide FieldsOf;
    LocalReadsBack(t + s.offset * MINUTE, s);
    UtcOf(t, s.offset);
    NamedIfParsed(Spell(t, s), t, Parsed(t + s.offset * MINUTE, s.offset));
  }

  lemma {:induction false} NamedIfParsed(raw: string, t: Instant, p: Parsed)
    requires Parse(raw) == Some(p) && p.Utc() == t
    ensures InstantNamed(raw) == Some(t)
  {
    hide Parse;
  }

  lemma {:induction false} UtcOf(t: int, offset: int)
    ensures Parsed(t + offset * MINUTE, offset).Utc() == t
  {
  }

  /** The local part and the offset of a spelling. */
  lemma {:induction false} LocalReadsBack(local: Instant, s: Spelling)
    requires -24 * 60 < s.offset < 24 * 60 && (s.zulu ==> s.offset == 0)
    requires s.digits <= 9 && local % NANOS % Unit(s.digits) == 0
    ensures Parse(SpellFields(FieldsOf(local), s)) == Some(Parsed(local, s.offset))
  {
    var f := FieldsOf(local);
    FieldsAreInstant(local);
    var tail := FractionText(f.nanos, s.digits) + OffsetText(s);
    ReadStampBack(f, tail);
    ReadTailBack(f.nanos, s);
    ParsedInParts(StampText(f, tail), f, s.offset);
  }

  lemma {:induction false} ParsedInParts(raw: string, f: Fields, offset: int)
    requires ReadStamp(raw) == Some(f.(nanos := 0))
    requires ReadTail(raw[19..]) == Some((f.nanos, offset))
    ensures Parse(raw) == Some(Parsed(InstantOf(f), offset))
  {
  }

  const CANONICAL: Spelling := Spelling(0, 9, true)

  lemma {:induction false} NineDigits(nanos: nat, d: nat)
    requires d == 9
    ensures FractionText(nanos, d) == "." + Digits(nanos, d)
  {
    assert nanos / 1 == nanos;
  }

  lemma {:induction false} CanonicalFields(f: Fields, s: Spelling)
    requires s.digits == 9 && s.zulu
    ensures SpellFields(f, s) == StampText(f, NanosText(f.nanos))
  {
    NineDigits(f.nanos, s.digits);
    assert "." + Digits(f.nanos, s.digits) + "Z" == "." + (Digits(f.nanos, s.digits) + "Z");
  }

  lemma {:induction false} NoOffset(t: int, offset: int)
    requires offset == 0
    ensures t + offset * MINUTE == t
  {
  }

  lemma {:induction false} NoRemainder(n: int, d: nat)
    requires d == 9
    ensures n % Unit(d) == 0
  {
  }

  lemma {:induction false} TextIsASpelling(t: Instant)
    ensures CANONICAL.Fits(t) && Text(t) == Spell(t, CANONICAL)
  {
    hide FieldsOf;
    hide Digits;
    hide DateText;
    var s := CANONICAL;
    NoOffset(t, s.offset);
    NoRemainder(t % NANOS, s.digits);
    CanonicalFields(FieldsOf(t), s);
  }

  /** Parsing the canonical text gives the instant back to the nanosecond. */
  lemma {:induction false} TextReadsBack(t: Instant)
    ensures InstantNamed(Text(t)) == Some(t)
  {
    TextIsASpelling(t);
    SpellingsReadBack(t, CANONICAL);
  }

  /** Every spelling of one instant has the same canonical text. */
  lemma {:induction false} SpellingsAgree(t: Instant, s: Spelling, r: Spelling)
    requires s.Fits(t) && r.Fits(t)
    ensures Canonical(Spell(t, s)) == Canonical(Spell(t, r)) == Some(Text(t))
  {
    SpellingsReadBack(t, s);
    SpellingsReadBack(t, r);
  }

  /** Canonicalizing twice is canonicalizing once. */
  lemma {:induction false} CanonicalIsIdempotent(raw: string)
    requires Canonical(raw).Some?
    ensures Canonical(Canonical(raw).value) == Canonical(raw)
  {
    TextReadsBack(InstantNamed(raw).value);
  }
}
