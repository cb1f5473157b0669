/** Exactly which texts are read as timestamps: section 5.6 of RFC 3339 without leap seconds. */
module Rfc3339 {
  import opened Prelude
  import opened Calendar
  import opened Decimal
  import opened StoredAt

  datatype Zone = Zulu(lower: bool) | Numeric(west: bool, hours: nat, minutes: nat) {
    predicate Ok() {
      Numeric? ==> hours < 24 && minutes < 60
    }

    function Text(): string {
      match this
      case Zulu(lower) => if lower then "z" else "Z"
      case Numeric(west, h, m) => (if west then "-" else "+") + (Digits(h, 2) + (":" + Digits(m, 2)))
    }

    function Minutes(): int {
      match this
      case Zulu(_) => 0
      case Numeric(west, h, m) => if west then -(h * 60 + m) else h * 60 + m
    }
  }

  /** A timestamp as written: its fields, the case of its `T`, its fraction's digits, its zone. */
  datatype Stamp = Stamp(fields: Fields, lowerT: bool, fraction: string, zone: Zone) {
    predicate Ok() {
      fields.Valid() && fields.nanos == 0 && IsDigits(fraction) && zone.Ok()
    }

    function Rest(): string {
      (if fraction == "" then "" else "." + fraction) + zone.Text()
    }

    function Text(): string {
      DateText(fields.date) + ((if lowerT then "t" else "T") + ClockText(fields, Rest()))
    }

    /** Digits past the ninth are dropped. */
    function Names(): Parsed
      requires Ok()
    {
      Parsed(InstantOf(fields) + FractionNanos(fraction), zone.Minutes())
    }
  }

  lemma {:induction false} ValueDigits(s: string)
    requires IsDigits(s)
    ensures Digits(Value(s), |s|) == s
  {
    if s != [] {
      var n := |s| - 1;
      ValueDigits(s[..n]);
      assert Value(s) / 10 == Value(s[..n]);
      assert DigitChar(Value(s) % 10) == s[n];
    }
  }

  lemma {:induction false} DigitsAt(s: string, i: nat, w: nat)
    requires ReadDigits(s, i, w).Some?
    ensures i + w <= |s| && s[i..i + w] == Digits(ReadDigits(s, i, w).value, w)
    ensures ReadDigits(s, i, w).value < Pow10(w)
  {
    ValueDigits(s[i..i + w]);
    ValueFits(s[i..i + w]);
  }

  // ---- zones -------------------------------------------------------------------------------

  lemma {:induction false} ZoneReads(z: Zone)
    requires z.Ok()
    ensures ReadOffset(z.Text()) == Some(z.Minutes())
    ensures z.Text() != [] && z.Text()[0] != '.' && !('0' <= z.Text()[0] <= '9')
  {
    if z.Numeric? {
      var o := z.Text();
      Powers();
      assert o[1..3] == Digits(z.hours, 2) && o[4..6] == Digits(z.minutes, 2);
      ReadDigitsBack(o, 1, 2, z.hours);
      ReadDigitsBack(o, 4, 2, z.minutes);
    }
  }

  lemma {:induction false} ZoneOf(s: string) returns (z: Zone)
    requires ReadOffset(s).Some?
    ensures z.Ok() && z.Text() == s
  {
    if s == "Z" || s == "z" {
      z := Zulu(s == "z");
    } else {
      DigitsAt(s, 1, 2);
      DigitsAt(s, 4, 2);
      SixCut(s);
      hide Digits;
      hide ReadDigits;
      z := Numeric(s[0] == '-', ReadDigits(s, 1, 2).value, ReadDigits(s, 4, 2).value);
    }
  }

  lemma {:induction false} SixCut(s: string)
    requires |s| == 6 && (s[0] == '+' || s[0] == '-') && s[3] == ':'
    ensures s == (if s[0] == '-' then "-" else "+") + (s[1..3] + (":" + s[4..6]))
  {
  }

  // ---- the tail ----------------------------------------------------------------------------

  lemma {:induction false} TailReads(st: Stamp)
    requires st.Ok()
    ensures ReadTail(st.Rest()) == Some((FractionNanos(st.fraction), st.zone.Minutes()))
  {
    var z := st.zone.Text();
    ZoneReads(st.zone);
    if st.fraction == "" {
      assert st.Rest() == z;
      NoFraction(z);
    } else {
      DottedFraction(st.fraction, z);
    }
  }

  lemma {:induction false} TailOf(s: string) returns (fraction: string, z: Zone)
    requires ReadTail(s).Some?
    ensures IsDigits(fraction) && z.Ok() && s == (if fraction == "" then "" else "." + fraction) + z.Text()
  {
    if s != [] && s[0] == '.' {
      var n := LeadingDigits(s[1..]);
      fraction := s[1..][..n];
      z := ZoneOf(s[1 + n..]);
      assert s == ["."[0]] + fraction + s[1 + n..];
    } else {
      fraction := "";
      z := ZoneOf(s);
    }
  }

  // ---- the first nineteen characters -------------------------------------------------------

  lemma {:induction false} OneCharApart(s: string, u: string, k: nat)
    requires |s| == |u| && k < |s| && s[..k] == u[..k] && s[k + 1..] == u[k + 1..]
    ensures forall i, j :: 0 <= i <= j <= k ==> s[i..j] == u[i..j]
    ensures forall i, j :: k < i <= j <= |s| ==> s[i..j] == u[i..j]
    ensures forall i :: 0 <= i < |s| && i != k ==> s[i] == u[i]
  {
    forall i | 0 <= i < k ensures s[i] == u[i] { assert s[..k][i] == u[..k][i]; }
    forall i | k < i < |s| ensures s[i] == u[i] { assert s[k + 1..][i - k - 1] == u[k + 1..][i - k - 1]; }
  }

  lemma {:induction false} LikeUpper(st: Stamp)
    ensures var s, u := st.Text(), StampText(st.fields, st.Rest());
            && |s| == |u| && |u| >= 11 && s[..10] == u[..10] && s[11..] == u[11..]
            && s[10] == if st.lowerT then 't' else 'T'
  {
    hide ClockText;
    assert |DateText(st.fields.date)| == 10;
  }

  lemma {:induction false} HeadLayout(st: Stamp)
    ensures var s := st.Text();
            && |s| == 19 + |st.Rest()| && SeparatorsFit(s) && s[19..] == st.Rest()
            && s[0..4] == Digits(st.fields.date.year, 4) && s[5..7] == Digits(st.fields.date.month, 2)
            && s[8..10] == Digits(st.fields.date.day, 2) && s[11..13] == Digits(st.fields.hour, 2)
            && s[14..16] == Digits(st.fields.minute, 2) && s[17..19] == Digits(st.fields.second, 2)
  {
    hide *;
    var s, u := st.Text(), StampText(st.fields, st.Rest());
    StampLayout(st.fields, st.Rest());
    LikeUpper(st);
    OneCharApart(s, u, 10);
    SameSeparators(s, u);
    assert s[19..] == s[19..|s|] && u[19..] == u[19..|u|];
  }

  lemma {:induction false} SameSeparators(s: string, u: string)
    requires |s| == |u| && |u| >= 19 && SeparatorsFit(u) && (s[10] == 'T' || s[10] == 't')
    requires forall i :: 0 <= i < |s| && i != 10 ==> s[i] == u[i]
    ensures SeparatorsFit(s)
  {
  }

  lemma {:induction false} HeadReads(st: Stamp)
    requires st.Ok()
    ensures ReadStamp(st.Text()) == Some(st.fields) && |st.Text()| >= 19 && st.Text()[19..] == st.Rest()
  {
    hide Digits;
    hide ReadDigits;
    HeadLayout(st);
    Powers();
    var s, f := st.Text(), st.fields;
    ReadDigitsBack(s, 0, 4, f.date.year);
    ReadDigitsBack(s, 5, 2, f.date.month);
    ReadDigitsBack(s, 8, 2, f.date.day);
    ReadDigitsBack(s, 11, 2, f.hour);
    ReadDigitsBack(s, 14, 2, f.minute);
    ReadDigitsBack(s, 17, 2, f.second);
  }

  lemma {:induction false} NineteenCut(s: string)
    requires |s| >= 19 && SeparatorsFit(s)
    ensures s[..10] == s[0..4] + "-" + (s[5..7] + "-" + s[8..10])
    ensures s[11..] == s[11..13] + ":" + (s[14..16] + ":" + (s[17..19] + s[19..]))
    ensures s == s[..10] + ((if s[10] == 't' then "t" else "T") + s[11..])
  {
  }

  lemma {:induction false} FieldsRead(raw: string)
    requires ReadStamp(raw).Some?
    ensures var f := ReadStamp(raw).value;
            && |raw| >= 19 && SeparatorsFit(raw) && f.Valid() && f.nanos == 0
            && raw[0..4] == Digits(f.date.year, 4) && raw[5..7] == Digits(f.date.month, 2)
            && raw[8..10] == Digits(f.date.day, 2) && raw[11..13] == Digits(f.hour, 2)
            && raw[14..16] == Digits(f.minute, 2) && raw[17..19] == Digits(f.second, 2)
  {
    DigitsAt(raw, 0, 4);
    DigitsAt(raw, 5, 2);
    DigitsAt(raw, 8, 2);
    DigitsAt(raw, 11, 2);
    DigitsAt(raw, 14, 2);
    DigitsAt(raw, 17, 2);
    hide Digits;
    hide ReadDigits;
    hide SeparatorsFit;
  }

  lemma {:induction false} HeadOf(raw: string)
    requires ReadStamp(raw).Some?
    ensures var f := ReadStamp(raw).value;
            && f.Valid() && f.nanos == 0 && |raw| >= 19
            && raw == DateText(f.date) + ((if raw[10] == 't' then "t" else "T") + ClockText(f, raw[19..]))
  {
    FieldsRead(raw);
    NineteenCut(raw);
    hide *;
    hide Digits;
    TextInParts(ReadStamp(raw).value, raw[19..]);
  }

  lemma {:induction false} TextInParts(f: Fields, rest: string)
    ensures DateText(f.date) == Digits(f.date.year, 4) + "-" + (Digits(f.date.month, 2) + "-" + Digits(f.date.day, 2))
    ensures ClockText(f, rest) == Digits(f.hour, 2) + ":" + (Digits(f.minute, 2) + ":" + (Digits(f.second, 2) + rest))
  {
  }

  // ---- the grammar -------------------------------------------------------------------------

  lemma {:induction false} ParseInParts(raw: string, f: Fields, nanos: nat, offset: int)
    requires ReadStamp(raw) == Some(f) && |raw| >= 19 && ReadTail(raw[19..]) == Some((nanos, offset))
    ensures Parse(raw) == Some(Parsed(InstantOf(f) + nanos, offset))
  {
    hide ReadStamp;
    hide ReadTail;
    hide InstantOf;
  }

  lemma {:induction false} NamesInParts(st: Stamp)
    requires st.Ok()
    ensures IsDigits(st.fraction)
    ensures st.Names() == Parsed(InstantOf(st.fields) + FractionNanos(st.fraction), st.zone.Minutes())
  {
  }

  lemma {:induction false} StampParses(st: Stamp)
    requires st.Ok()
    ensures Parse(st.Text()) == Some(st.Names())
  {
    hide *;
    HeadReads(st);
    TailReads(st);
    NamesInParts(st);
    ParseInParts(st.Text(), st.fields, FractionNanos(st.fraction), st.zone.Minutes());
  }

  lemma {:induction false} ParsedIsStamp(raw: string) returns (st: Stamp)
    requires Parse(raw).Some?
    ensures st.Ok() && raw == st.Text()
  {
    HeadOf(raw);
    var fraction, z := TailOf(raw[19..]);
    hide ReadStamp;
    hide ReadTail;
    hide ClockText;
    hide DateText;
    st := Stamp(ReadStamp(raw).value, raw[10] == 't', fraction, z);
    assert st.Rest() == raw[19..];
  }

  /** A text is read as a timestamp if and only if it is one, and then as the one it is. */
  lemma {:induction false} ParsesIff(raw: string, p: Parsed)
    ensures Parse(raw) == Some(p) <==> exists st: Stamp :: st.Ok() && raw == st.Text() && p == st.Names()
  {
    forall st: Stamp | st.Ok() && raw == st.Text() ensures Parse(raw) == Some(st.Names()) { StampParses(st); }
    if Parse(raw) == Some(p) {
      var st := ParsedIsStamp(raw);
    }
    hide Parse;
  }
}
