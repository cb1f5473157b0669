/** What a transcript's turns add up to in the token table: every billed turn once, in its own columns. */
module TranscriptTokens {
  import opened Prelude
  import opened TokenTable
  import opened Transcript
  import TimeColumns

  // ---- rows in the table -------------------------------------------------------------------

  ghost predicate DistinctIds(rows: seq<TokenRow>) {
    forall i, j :: 0 <= i < j < |rows| ==> rows[i].id != rows[j].id
  }

  lemma {:induction false} DistinctRowsAllGoIn(rows: seq<TokenRow>)
    requires DistinctIds(rows)
    ensures InsertAll([], rows) == rows
  {
    if rows != [] {
      var n := |rows| - 1;
      DistinctRowsAllGoIn(rows[..n]);
      assert rows == rows[..n] + [rows[n]];
      forall i | 0 <= i < n ensures rows[..n][i].id != rows[n].id {}
    }
  }

  lemma {:induction false} ParsedIdsDiffer(lines: seq<Transcript.Line>)
    requires IdIsBase(lines)
    ensures DistinctIds(Parsed(lines))
  {
    if lines != [] {
      var t, l := lines[..|lines| - 1], lines[|lines| - 1];
      ParsedIdsDiffer(t);
      ParsedBases(t);
      if l.Some? && l.value.base !in Bases(t) {
        var before := Parsed(t);
        assert l.value.rows == [l.value.rows[0]];
        forall i | 0 <= i < |before| ensures before[i].id != l.value.base { assert before[i].id in Ids(before); }
      }
    }
  }

  lemma {:induction false} DaySumConcat(a: seq<TokenRow>, b: seq<TokenRow>, day: string, session: string, c: Column)
    ensures DaySum(a + b, day, session, c) == DaySum(a, day, session, c) + DaySum(b, day, session, c)
  {
    if b == [] {
      assert a + b == a;
    } else {
      var n := |b| - 1;
      DaySumConcat(a, b[..n], day, session, c);
      assert (a + b)[..|a + b| - 1] == a + b[..n];
    }
  }

  lemma {:induction false} DaySumOne(r: TokenRow, day: string, session: string, c: Column)
    ensures DaySum([r], day, session, c) == if OnDay(r, day, session) then c.Of(r) else 0
  {
    assert [r][..0] == [];
  }

  // ---- Claude turns ------------------------------------------------------------------------

  /** An assistant turn that reports usage and can be told apart from others. */
  predicate Billed(line: ClaudeLine) {
    line.ClaudeLine? && line.kind == Some("assistant") && line.message.Some? && line.message.value.usage.Some? && line.uuid.Some?
  }

  /** What the turn reports; absent figures are zero, and a turn without a model is priced as `unknown`. */
  function Reports(line: ClaudeLine, price: (string, Usage) -> nat, c: Column): nat
    requires Billed(line)
  {
    var m := line.message.value;
    match c
    case Input => if m.usage.value.input.Some? then m.usage.value.input.value else 0
    case Output => if m.usage.value.output.Some? then m.usage.value.output.value else 0
    case Cost => price(if m.model.Some? then m.model.value else "unknown", m.usage.value)
  }

  function TurnDay(line: ClaudeLine): string
    requires line.ClaudeLine?
  {
    DayOfText(TimeColumns.Rewritten(if line.timestamp.Some? then line.timestamp.value else ""))
  }

  /** No earlier billed turn of the file has the same uuid. */
  predicate IsNewTurn(file: seq<ClaudeLine>, i: nat)
    requires i < |file|
  {
    Billed(file[i]) && forall j :: 0 <= j < i && Billed(file[j]) ==> file[j].uuid != file[i].uuid
  }

  /** The figures of the new turns of one day, added up. */
  function TurnSum(file: seq<ClaudeLine>, day: string, price: (string, Usage) -> nat, c: Column): nat {
    if file == [] then 0
    else
      var n := |file| - 1;
      TurnSum(file[..n], day, price, c) +
      if IsNewTurn(file, n) && TurnDay(file[n]) == day then Reports(file[n], price, c) else 0
  }

  lemma {:induction false} BilledRecord(line: ClaudeLine, session: string, price: (string, Usage) -> nat, day: string, c: Column)
    ensures ClaudeRecord(line, session, price).Some? <==> Billed(line)
    ensures Billed(line) ==>
              var r := ClaudeRecord(line, session, price).value;
              && Some(r.base) == line.uuid
              && DaySum(r.rows, day, session, c) == if TurnDay(line) == day then Reports(line, price, c) else 0
  {
    if Billed(line) {
      var r := ClaudeRecord(line, session, price).value;
      assert r.rows == [r.rows[0]];
      DaySumOne(r.rows[0], day, session, c);
    }
  }

  lemma {:induction false} SeenBases(file: seq<ClaudeLine>, session: string, price: (string, Usage) -> nat, uuid: string)
    ensures uuid in Bases(ClaudeLines(file, session, price)) <==>
            exists j :: 0 <= j < |file| && Billed(file[j]) && file[j].uuid == Some(uuid)
  {
    if file != [] {
      var n := |file| - 1;
      SeenBases(file[..n], session, price, uuid);
      BilledRecord(file[n], session, price, "", Input);
      assert ClaudeLines(file, session, price)[..n] == ClaudeLines(file[..n], session, price);
      assert forall j :: 0 <= j < n ==> file[..n][j] == file[j];
      hide ClaudeRecord;
    }
  }

  lemma {:induction false} NewTurnIff(file: seq<ClaudeLine>, session: string, price: (string, Usage) -> nat)
    requires file != []
    ensures var n := |file| - 1;
            IsNewTurn(file, n) <==>
            Billed(file[n]) && file[n].uuid.value !in Bases(ClaudeLines(file[..n], session, price))
  {
    var n := |file| - 1;
    assert forall j :: 0 <= j < n ==> file[..n][j] == file[j];
    if Billed(file[n]) { SeenBases(file[..n], session, price, file[n].uuid.value); }
    hide Bases;
  }

  lemma {:induction false} ParsedOneMore(lines: seq<Transcript.Line>, day: string, session: string, c: Column)
    requires lines != []
    ensures var n, l := |lines| - 1, lines[|lines| - 1];
            DaySum(Parsed(lines), day, session, c) == DaySum(Parsed(lines[..n]), day, session, c) +
            if l.Some? && l.value.base !in Bases(lines[..n]) then DaySum(l.value.rows, day, session, c) else 0
  {
    var n, l := |lines| - 1, lines[|lines| - 1];
    if l.Some? { DaySumConcat(Parsed(lines[..n]), l.value.rows, day, session, c); }
    hide DaySum;
  }

  lemma {:induction false} ParsedTurns(file: seq<ClaudeLine>, session: string, price: (string, Usage) -> nat, day: string, c: Column)
    ensures DaySum(Parsed(ClaudeLines(file, session, price)), day, session, c) == TurnSum(file, day, price, c)
  {
    if file != [] {
      var n, lines := |file| - 1, ClaudeLines(file, session, price);
      ParsedTurns(file[..n], session, price, day, c);
      assert lines[..n] == ClaudeLines(file[..n], session, price);
      ParsedOneMore(lines, day, session, c);
      BilledRecord(file[n], session, price, day, c);
      NewTurnIff(file, session, price);
      hide ClaudeRecord;
      hide Parsed;
      hide Bases;
      hide IsNewTurn;
      hide Billed;
      hide Reports;
      hide TurnDay;
      hide DaySum;
    }
  }

  /**
   Every billed turn counts once, on its day and in each column, however often its record repeats and
   however the capture passes overlap.
   */
  lemma {:induction false} TurnsAreCountedOnce(file: seq<ClaudeLine>, session: string, price: (string, Usage) -> nat,
                                               slices: seq<Slice>, day: string, c: Column)
    requires Within(slices, |file|) && Covers(slices, |file|)
    ensures DaySum(Captured([], ClaudeLines(file, session, price), slices), day, session, c) == TurnSum(file, day, price, c)
  {
    ClaudeCaptureIsOnePass([], file, session, price, slices);
    ParsedIdsDiffer(ClaudeLines(file, session, price));
    DistinctRowsAllGoIn(Parsed(ClaudeLines(file, session, price)));
    ParsedTurns(file, session, price, day, c);
    hide Parsed;
    hide InsertAll;
    hide DaySum;
    hide Captured;
  }

  // ---- grok turns --------------------------------------------------------------------------

  /** A turn's figures for one model: cache reads are not input, and never make it negative. */
  function GrokReports(u: GrokUsage, price: GrokUsage -> nat, c: Column): nat {
    match c
    case Input => if u.input > u.cacheRead then u.input - u.cacheRead else 0
    case Output => u.output
    case Cost => price(u)
  }

  function GrokModelsSum(models: seq<GrokUsage>, price: GrokUsage -> nat, c: Column): nat {
    if models == [] then 0 else GrokModelsSum(models[..|models| - 1], price, c) + GrokReports(models[|models| - 1], price, c)
  }

  /** The turn as a whole, under the name `grok`, when it lists no models; else each model's share. */
  function GrokTurnSum(line: GrokLine, price: GrokUsage -> nat, c: Column): nat
    requires line.GrokTurn? && line.usage.Some?
  {
    if line.models == [] then GrokReports(line.usage.value.(model := "grok"), price, c)
    else GrokModelsSum(line.models, price, c)
  }

  function GrokRows(base: string, at: string, session: string, models: seq<GrokUsage>, price: GrokUsage -> nat): (r: seq<TokenRow>)
    ensures |r| == |models|
  {
    seq(|models|, i requires 0 <= i < |models| => GrokRow(base + ":" + models[i].model, at, session, models[i], price))
  }

  lemma {:induction false} GrokRowsSum(base: string, at: string, session: string, models: seq<GrokUsage>, price: GrokUsage -> nat,
                                       c: Column)
    ensures DaySum(GrokRows(base, at, session, models, price), DayOfText(TimeColumns.Rewritten(at)), session, c) ==
            GrokModelsSum(models, price, c)
  {
    if models != [] {
      var n, rows := |models| - 1, GrokRows(base, at, session, models, price);
      GrokRowsSum(base, at, session, models[..n], price, c);
      assert rows[..n] == GrokRows(base, at, session, models[..n], price);
    }
  }

  /** A turn is stored if it reports usage and can be told apart, and its rows hold what it reports on its day. */
  lemma {:induction false} GrokRecordHolds(line: GrokLine, session: string, price: GrokUsage -> nat, c: Column)
    ensures GrokRecord(line, session, price).Some? <==>
            line.GrokTurn? && line.usage.Some? && (line.eventId.Some? || (line.promptId.Some? && line.seconds.Some?))
    ensures GrokRecord(line, session, price).Some? ==>
              DaySum(GrokRecord(line, session, price).value.rows, DayOfText(TimeColumns.Rewritten(line.at)), session, c) ==
              GrokTurnSum(line, price, c)
  {
    if line.GrokTurn? && line.usage.Some? && GrokBase(line).Some? {
      var base := GrokBase(line).value;
      GrokRowsSum(base, line.at, session, line.models, price, c);
      var whole := line.usage.value.(model := "grok");
      DaySumOne(GrokRow(base, line.at, session, whole, price), DayOfText(TimeColumns.Rewritten(line.at)), session, c);
    }
  }

  /** Turns are told apart by event id, else by prompt and second: seconds in digits keep the pair readable. */
  lemma {:induction false} GrokBasesDiffer(a: GrokLine, b: GrokLine)
    requires a.GrokTurn? && b.GrokTurn? && GrokBase(a).Some? && GrokBase(b).Some?
    requires a.eventId.None? && b.eventId.None?
    requires IsDigits(a.seconds.value) && IsDigits(b.seconds.value)
    ensures GrokBase(a) == GrokBase(b) <==> a.promptId == b.promptId && a.seconds == b.seconds
  {
    if GrokBase(a) == GrokBase(b) {
      DigitsBehindColon("grok:" + a.promptId.value, a.seconds.value, "grok:" + b.promptId.value, b.seconds.value);
      var p, q := "grok:" + a.promptId.value, "grok:" + b.promptId.value;
      assert p[5..] == a.promptId.value && q[5..] == b.promptId.value;
    }
  }

  lemma {:induction false} DigitsBehindColon(p: string, x: string, q: string, y: string)
    requires p + ":" + x == q + ":" + y && IsDigits(x) && IsDigits(y)
    ensures p == q && x == y
  {
    var s := p + ":" + x;
    assert s[|p|] == ':' && s[|q|] == ':';
    assert s[..|p|] == p && s[..|q|] == q && s[|p| + 1..] == x && s[|q| + 1..] == y;
  }
}
