/**
 Token capture from transcripts. A parse keeps the first record of each base id; the table keeps the
 first row of each stored id. Transcripts grow and are captured in overlapping passes over whole lines.
 */
module Transcript {
  import opened Prelude
  import opened TokenTable
  import EventStore
  import TimeColumns

  /** A usage record of a transcript: what it is de-duplicated by, and the rows it stores. */
  datatype Record = Record(base: string, rows: seq<TokenRow>)

  /** A decoded line: most lines carry no usage. */
  type Line = Option<Record>

  // ---- the two formats ---------------------------------------------------------------------

  function Count(n: Option<nat>): nat {
    if n.Some? then n.value else 0
  }

  datatype Usage = Usage(input: Option<nat>, output: Option<nat>)

  datatype Message = Message(model: Option<string>, usage: Option<Usage>)

  datatype ClaudeLine =
    | NotJson
    | ClaudeLine(kind: Option<string>, uuid: Option<string>, timestamp: Option<string>, message: Option<Message>)

  /** An assistant turn with usage and a uuid; its one row is stored under that uuid. */
  function ClaudeRecord(line: ClaudeLine, session: string, price: (string, Usage) -> nat): (r: Line)
    ensures r.Some? ==> |r.value.rows| == 1 && r.value.rows[0].id == r.value.base
  {
    if line.NotJson? || line.kind != Some("assistant") || line.message.None? || line.message.value.usage.None?
       || line.uuid.None?
    then None
    else
      var model := if line.message.value.model.Some? then line.message.value.model.value else "unknown";
      var usage, at := line.message.value.usage.value, if line.timestamp.Some? then line.timestamp.value else "";
      Some(Record(line.uuid.value,
                  [TokenRow(line.uuid.value, TimeColumns.Rewritten(at), session, Count(usage.input),
                            Count(usage.output), price(model, usage))]))
  }

  /** One model's share of a grok turn; `input` includes cache reads. */
  datatype GrokUsage = GrokUsage(model: string, input: nat, cacheRead: nat, output: nat)

  datatype GrokLine =
    | NotATurn
    | GrokTurn(eventId: Option<string>, promptId: Option<string>, seconds: Option<string>, at: string,
               usage: Option<GrokUsage>, models: seq<GrokUsage>)

  function GrokBase(line: GrokLine): Option<string>
    requires line.GrokTurn?
  {
    if line.eventId.Some? then line.eventId
    else if line.promptId.Some? && line.seconds.Some? then Some("grok:" + line.promptId.value + ":" + line.seconds.value)
    else None
  }

  function GrokRow(id: string, at: string, session: string, u: GrokUsage, price: GrokUsage -> nat): TokenRow {
    TokenRow(id, TimeColumns.Rewritten(at), session, if u.input >= u.cacheRead then u.input - u.cacheRead else 0, u.output, price(u))
  }

  /** De-duplicated by the base id, stored as `base:model` where the turn lists models. */
  function GrokRecord(line: GrokLine, session: string, price: GrokUsage -> nat): Line {
    if line.NotATurn? || line.usage.None? || GrokBase(line).None? then None
    else
      var base := GrokBase(line).value;
      Some(Record(base,
                  if line.models == [] then [GrokRow(base, line.at, session, line.usage.value.(model := "grok"), price)]
                  else seq(|line.models|, i requires 0 <= i < |line.models| =>
                             GrokRow(base + ":" + line.models[i].model, line.at, session, line.models[i], price))))
  }

  // ---- one parse ---------------------------------------------------------------------------

  function Bases(lines: seq<Line>): set<string> {
    if lines == [] then {}
    else
      var l := lines[|lines| - 1];
      Bases(lines[..|lines| - 1]) + if l.Some? then {l.value.base} else {}
  }

  /** The rows of the first record of each base. */
  function Parsed(lines: seq<Line>): seq<TokenRow> {
    if lines == [] then []
    else
      var before, l := lines[..|lines| - 1], lines[|lines| - 1];
      if l.None? || l.value.base in Bases(before) then Parsed(before) else Parsed(before) + l.value.rows
  }

  method Parse(lines: seq<Line>) returns (out: seq<TokenRow>)
    ensures out == Parsed(lines)
  {
    var seen: set<string> := {};
    out := [];
    for i := 0 to |lines|
      invariant seen == Bases(lines[..i]) && out == Parsed(lines[..i])
    {
      assert lines[..i + 1][..i] == lines[..i];
      if lines[i].None? || lines[i].value.base in seen {
        continue;
      }
      seen := seen + {lines[i].value.base};
      out := out + lines[i].value.rows;
    }
    assert lines[..|lines|] == lines;
  }

  // ---- the table ---------------------------------------------------------------------------

  function Ids(rows: seq<TokenRow>): set<string> {
    set i | 0 <= i < |rows| :: rows[i].id
  }

  function InsertAll(t: seq<TokenRow>, rows: seq<TokenRow>): seq<TokenRow> {
    if rows == [] then t else InsertOrIgnore(InsertAll(t, rows[..|rows| - 1]), rows[|rows| - 1])
  }

  /** One capture pass over a slice of the transcript. */
  method CapturePass(store: EventStore.Store, lines: seq<Line>)
    modifies store
    ensures store.tokens == InsertAll(old(store.tokens), Parsed(lines))
    ensures store.events == old(store.events) && store.rollup == old(store.rollup)
  {
    var rows := Parse(lines);
    for i := 0 to |rows|
      invariant store.tokens == InsertAll(old(store.tokens), rows[..i])
      invariant store.events == old(store.events) && store.rollup == old(store.rollup)
    {
      assert rows[..i + 1][..i] == rows[..i];
      store.UpsertTokenUsage(rows[i]);
      assert store.tokens == store.Contents().tokens;
    }
    assert rows[..|rows|] == rows;
  }

  lemma {:induction false} IdsConcat(a: seq<TokenRow>, b: seq<TokenRow>)
    ensures Ids(a + b) == Ids(a) + Ids(b)
  {
    var c := a + b;
    assert forall i :: 0 <= i < |a| ==> c[i] == a[i];
    assert forall i :: 0 <= i < |b| ==> c[|a| + i] == b[i];
    forall x | x in Ids(a) + Ids(b) ensures x in Ids(c) {
      if x in Ids(a) {
        var i :| 0 <= i < |a| && a[i].id == x;
        assert c[i].id == x;
      } else {
        var i :| 0 <= i < |b| && b[i].id == x;
        assert c[|a| + i].id == x;
      }
    }
  }

  lemma {:induction false} InsertAllConcat(t: seq<TokenRow>, a: seq<TokenRow>, b: seq<TokenRow>)
    ensures InsertAll(t, a + b) == InsertAll(InsertAll(t, a), b)
  {
    if b == [] {
      assert a + b == a;
    } else {
      InsertAllConcat(t, a, b[..|b| - 1]);
      assert (a + b)[..|a + b| - 1] == a + b[..|b| - 1];
    }
  }

  lemma {:induction false} InsertIds(t: seq<TokenRow>, r: TokenRow)
    ensures Ids(InsertOrIgnore(t, r)) == Ids(t) + {r.id}
  {
    IdsConcat(t, [r]);
    assert Ids([r]) == {r.id} by { assert [r][0] == r; }
    if HasId(t, r.id) {
      var i :| 0 <= i < |t| && t[i].id == r.id;
      assert r.id in Ids(t);
    }
  }

  lemma {:induction false} InsertAllIds(t: seq<TokenRow>, rows: seq<TokenRow>)
    ensures Ids(InsertAll(t, rows)) == Ids(t) + Ids(rows)
  {
    if rows != [] {
      var n := |rows| - 1;
      InsertAllIds(t, rows[..n]);
      InsertIds(InsertAll(t, rows[..n]), rows[n]);
      IdsConcat(rows[..n], [rows[n]]);
      assert Ids([rows[n]]) == {rows[n].id} by { assert [rows[n]][0] == rows[n]; }
      assert rows == rows[..n] + [rows[n]];
    }
  }

  lemma {:induction false} KnownRowsChangeNothing(t: seq<TokenRow>, rows: seq<TokenRow>)
    requires Ids(rows) <= Ids(t)
    ensures InsertAll(t, rows) == t
  {
    if rows != [] {
      var n := |rows| - 1;
      IdsConcat(rows[..n], [rows[n]]);
      assert rows == rows[..n] + [rows[n]];
      assert rows[n].id in Ids(rows);
      KnownRowsChangeNothing(t, rows[..n]);
      var i :| 0 <= i < |t| && t[i].id == rows[n].id;
    }
  }

  // ---- every record, repeats included ------------------------------------------------------

  function AllRows(lines: seq<Line>): seq<TokenRow> {
    if lines == [] then []
    else
      var l := lines[|lines| - 1];
      AllRows(lines[..|lines| - 1]) + if l.Some? then l.value.rows else []
  }

  lemma {:induction false} AllRowsConcat(a: seq<Line>, b: seq<Line>)
    ensures AllRows(a + b) == AllRows(a) + AllRows(b)
  {
    if b == [] {
      assert a + b == a;
    } else {
      var t, l := b[..|b| - 1], b[|b| - 1];
      AllRowsConcat(a, t);
      assert (a + b)[..|a + b| - 1] == a + t;
      Regroup(AllRows(a), AllRows(t), if l.Some? then l.value.rows else []);
    }
  }

  lemma {:induction false} BasesConcat(a: seq<Line>, b: seq<Line>)
    ensures Bases(a + b) == Bases(a) + Bases(b)
  {
    if b == [] {
      assert a + b == a;
    } else {
      BasesConcat(a, b[..|b| - 1]);
      assert (a + b)[..|a + b| - 1] == a + b[..|b| - 1];
    }
  }

  lemma {:induction false} ParsedAreRows(lines: seq<Line>)
    ensures Ids(Parsed(lines)) <= Ids(AllRows(lines))
  {
    if lines != [] {
      var t, l := lines[..|lines| - 1], lines[|lines| - 1];
      ParsedAreRows(t);
      if l.Some? {
        IdsConcat(AllRows(t), l.value.rows);
        IdsConcat(Parsed(t), l.value.rows);
      } else {
        assert AllRows(t) + [] == AllRows(t);
      }
    }
  }

  /** A record whose base was seen before stores nothing that was not stored before. */
  ghost predicate RepeatAddsNothing(lines: seq<Line>, j: nat)
    requires j < |lines|
  {
    lines[j].Some? && lines[j].value.base in Bases(lines[..j]) ==> Ids(lines[j].value.rows) <= Ids(Parsed(lines[..j]))
  }

  ghost predicate RepeatsAddNothing(lines: seq<Line>) {
    forall j :: 0 <= j < |lines| ==> RepeatAddsNothing(lines, j)
  }

  lemma {:induction false} RowsSnoc(lines: seq<Line>, a: nat, b: nat)
    requires a <= b < |lines|
    ensures AllRows(lines[a..b + 1]) == AllRows(lines[a..b]) + if lines[b].Some? then lines[b].value.rows else []
    ensures Parsed(lines[a..b + 1]) == Parsed(lines[a..b]) +
            if lines[b].None? || lines[b].value.base in Bases(lines[a..b]) then [] else lines[b].value.rows
  {
    assert lines[a..b + 1][..b - a] == lines[a..b];
  }

  /** Where repeats add nothing, parsing a slice stores what all its records would, given what came before it. */
  lemma {:induction false} SliceStoresAll(t: seq<TokenRow>, lines: seq<Line>, a: nat, b: nat)
    requires a <= b <= |lines| && RepeatsAddNothing(lines)
    requires Ids(AllRows(lines[..a])) <= Ids(t)
    ensures InsertAll(t, Parsed(lines[a..b])) == InsertAll(t, AllRows(lines[a..b]))
  {
    if a == b {
      assert lines[a..b] == [];
    } else {
      var j := b - 1;
      SliceStoresAll(t, lines, a, j);
      RowsSnoc(lines, a, j);
      SliceOneMore(t, lines, a, j);
    }
  }

  lemma {:induction false} SliceOneMore(t: seq<TokenRow>, lines: seq<Line>, a: nat, j: nat)
    requires a <= j < |lines| && RepeatsAddNothing(lines)
    requires Ids(AllRows(lines[..a])) <= Ids(t)
    requires InsertAll(t, Parsed(lines[a..j])) == InsertAll(t, AllRows(lines[a..j]))
    ensures InsertAll(t, Parsed(lines[a..j + 1])) == InsertAll(t, AllRows(lines[a..j + 1]))
  {
    RowsSnoc(lines, a, j);
    if lines[j].Some? {
      var rows := lines[j].value.rows;
      InsertAllConcat(t, AllRows(lines[a..j]), rows);
      if lines[j].value.base in Bases(lines[a..j]) {
        RepeatIsKnown(t, lines, a, j);
        KnownRowsChangeNothing(InsertAll(t, AllRows(lines[a..j])), rows);
        assert Parsed(lines[a..j]) + [] == Parsed(lines[a..j]);
      } else {
        InsertAllConcat(t, Parsed(lines[a..j]), rows);
      }
    } else {
      assert Parsed(lines[a..j]) + [] == Parsed(lines[a..j]) && AllRows(lines[a..j]) + [] == AllRows(lines[a..j]);
    }
  }

  lemma {:induction false} RepeatIsKnown(t: seq<TokenRow>, lines: seq<Line>, a: nat, j: nat)
    requires a <= j < |lines| && RepeatAddsNothing(lines, j)
    requires Ids(AllRows(lines[..a])) <= Ids(t)
    requires lines[j].Some? && lines[j].value.base in Bases(lines[a..j])
    ensures Ids(lines[j].value.rows) <= Ids(InsertAll(t, AllRows(lines[a..j])))
  {
    assert lines[..j] == lines[..a] + lines[a..j];
    BasesConcat(lines[..a], lines[a..j]);
    ParsedAreRows(lines[..j]);
    AllRowsConcat(lines[..a], lines[a..j]);
    IdsConcat(AllRows(lines[..a]), AllRows(lines[a..j]));
    InsertAllIds(t, AllRows(lines[a..j]));
  }

  // ---- passes ------------------------------------------------------------------------------

  /** A pass reads the lines `[from, to)`. */
  datatype Slice = Slice(from: nat, to: nat)

  function Reached(slices: seq<Slice>): nat {
    if slices == [] then 0
    else
      var r, s := Reached(slices[..|slices| - 1]), slices[|slices| - 1];
      if s.to > r then s.to else r
  }

  /** Each pass starts no later than where the earlier ones ended; passes may overlap and repeat. */
  ghost predicate NoHole(slices: seq<Slice>) {
    slices == [] ||
    var t, s := slices[..|slices| - 1], slices[|slices| - 1];
    NoHole(t) && s.from <= Reached(t) && s.from <= s.to
  }

  ghost predicate Covers(slices: seq<Slice>, n: nat) {
    NoHole(slices) && Reached(slices) == n
  }

  function Captured(t: seq<TokenRow>, lines: seq<Line>, slices: seq<Slice>): seq<TokenRow>
    requires forall i :: 0 <= i < |slices| ==> slices[i].from <= slices[i].to <= |lines|
  {
    if slices == [] then t
    else
      var s := slices[|slices| - 1];
      InsertAll(Captured(t, lines, slices[..|slices| - 1]), Parsed(lines[s.from..s.to]))
  }

  lemma {:induction false} PassExtends(t: seq<TokenRow>, lines: seq<Line>, m: nat, s: Slice)
    requires RepeatsAddNothing(lines) && m <= |lines| && s.from <= m && s.from <= s.to <= |lines|
    ensures InsertAll(InsertAll(t, AllRows(lines[..m])), Parsed(lines[s.from..s.to])) ==
            InsertAll(t, AllRows(lines[..if s.to > m then s.to else m]))
  {
    var u, a, b := InsertAll(t, AllRows(lines[..m])), s.from, s.to;
    assert lines[..m] == lines[..a] + lines[a..m];
    AllRowsConcat(lines[..a], lines[a..m]);
    IdsConcat(AllRows(lines[..a]), AllRows(lines[a..m]));
    InsertAllIds(t, AllRows(lines[..m]));
    SliceStoresAll(u, lines, a, b);
    if b <= m {
      assert lines[a..m] == lines[a..b] + lines[b..m];
      AllRowsConcat(lines[a..b], lines[b..m]);
      IdsConcat(AllRows(lines[a..b]), AllRows(lines[b..m]));
      KnownRowsChangeNothing(u, AllRows(lines[a..b]));
    } else {
      PassGoesFurther(t, lines, m, a, b);
    }
  }

  lemma {:induction false} PassGoesFurther(t: seq<TokenRow>, lines: seq<Line>, m: nat, a: nat, b: nat)
    requires a <= m < b <= |lines|
    requires Ids(AllRows(lines[a..m])) <= Ids(InsertAll(t, AllRows(lines[..m])))
    ensures InsertAll(InsertAll(t, AllRows(lines[..m])), AllRows(lines[a..b])) == InsertAll(t, AllRows(lines[..b]))
  {
    assert lines[a..b] == lines[a..m] + lines[m..b] && lines[..b] == lines[..m] + lines[m..b];
    AllRowsConcat(lines[a..m], lines[m..b]);
    AllRowsConcat(lines[..m], lines[m..b]);
    InsertOverlap(t, AllRows(lines[..m]), AllRows(lines[a..m]), AllRows(lines[m..b]));
  }

  lemma {:induction false} InsertOverlap(t: seq<TokenRow>, before: seq<TokenRow>, again: seq<TokenRow>, more: seq<TokenRow>)
    requires Ids(again) <= Ids(InsertAll(t, before))
    ensures InsertAll(InsertAll(t, before), again + more) == InsertAll(t, before + more)
  {
    InsertAllConcat(InsertAll(t, before), again, more);
    KnownRowsChangeNothing(InsertAll(t, before), again);
    InsertAllConcat(t, before, more);
  }

  lemma {:induction false} ReachedIn(slices: seq<Slice>, n: nat)
    requires forall i :: 0 <= i < |slices| ==> slices[i].to <= n
    ensures Reached(slices) <= n
  {
    if slices != [] { ReachedIn(slices[..|slices| - 1], n); }
  }

  ghost predicate Within(slices: seq<Slice>, n: nat) {
    forall i :: 0 <= i < |slices| ==> slices[i].from <= slices[i].to <= n
  }

  lemma {:induction false} CapturedIsAll(t: seq<TokenRow>, lines: seq<Line>, slices: seq<Slice>)
    requires RepeatsAddNothing(lines) && Within(slices, |lines|) && NoHole(slices)
    ensures Reached(slices) <= |lines| && Captured(t, lines, slices) == InsertAll(t, AllRows(lines[..Reached(slices)]))
  {
    ReachedIn(slices, |lines|);
    if slices == [] {
      assert AllRows(lines[..0]) == [];
    } else {
      var before, s := slices[..|slices| - 1], slices[|slices| - 1];
      CapturedIsAll(t, lines, before);
      PassExtends(t, lines, Reached(before), s);
    }
  }

  lemma {:induction false} OnePassIsAll(t: seq<TokenRow>, lines: seq<Line>)
    requires RepeatsAddNothing(lines)
    ensures InsertAll(t, Parsed(lines)) == InsertAll(t, AllRows(lines))
  {
    assert lines[..0] == [] && lines[0..|lines|] == lines;
    assert Ids(AllRows([])) == {};
    SliceStoresAll(t, lines, 0, |lines|);
  }

  /** Incremental capture leaves the rows of one parse of the whole file, where repeats add nothing. */
  lemma {:induction false} IncrementalIsOnePass(t: seq<TokenRow>, lines: seq<Line>, slices: seq<Slice>)
    requires RepeatsAddNothing(lines) && Within(slices, |lines|) && Covers(slices, |lines|)
    ensures Captured(t, lines, slices) == InsertAll(t, Parsed(lines))
  {
    CapturedIsAll(t, lines, slices);
    OnePassIsAll(t, lines);
    assert lines[..|lines|] == lines;
  }

  // ---- Claude transcripts ------------------------------------------------------------------

  /** Every record stores one row, under its own base id. */
  ghost predicate IdIsBase(lines: seq<Line>) {
    forall i :: 0 <= i < |lines| && lines[i].Some? ==>
      |lines[i].value.rows| == 1 && lines[i].value.rows[0].id == lines[i].value.base
  }

  function ClaudeLines(lines: seq<ClaudeLine>, session: string, price: (string, Usage) -> nat): (r: seq<Line>)
    ensures |r| == |lines|
  {
    seq(|lines|, i requires 0 <= i < |lines| => ClaudeRecord(lines[i], session, price))
  }

  lemma {:induction false} ParsedBases(lines: seq<Line>)
    requires IdIsBase(lines)
    ensures Ids(Parsed(lines)) == Bases(lines)
  {
    if lines != [] {
      var t, l := lines[..|lines| - 1], lines[|lines| - 1];
      ParsedBases(t);
      if l.Some? {
        IdsConcat(Parsed(t), l.value.rows);
        assert l.value.rows == [l.value.rows[0]];
        assert Ids(l.value.rows) == {l.value.base};
      }
    }
  }

  lemma {:induction false} ClaudeRepeatsAddNothing(lines: seq<Line>)
    requires IdIsBase(lines)
    ensures RepeatsAddNothing(lines)
  {
    forall j | 0 <= j < |lines| ensures RepeatAddsNothing(lines, j) {
      ParsedBases(lines[..j]);
      if lines[j].Some? {
        assert lines[j].value.rows == [lines[j].value.rows[0]];
        assert Ids(lines[j].value.rows) == {lines[j].value.base};
      }
    }
  }

  /**
   Claude transcripts: any overlapping line-boundary passes that start at the top and leave no hole
   give the rows of one pass, whatever the table held before.
   */
  lemma {:induction false} ClaudeCaptureIsOnePass(t: seq<TokenRow>, file: seq<ClaudeLine>, session: string,
                                                  price: (string, Usage) -> nat, slices: seq<Slice>)
    requires Within(slices, |file|) && Covers(slices, |file|)
    ensures var lines := ClaudeLines(file, session, price);
            Captured(t, lines, slices) == InsertAll(t, Parsed(lines))
  {
    var lines := ClaudeLines(file, session, price);
    ClaudeRepeatsAddNothing(lines);
    IncrementalIsOnePass(t, lines, slices);
  }

  /** `lines[i]` is the first record of its base, and `r` its row. */
  ghost predicate IsFirst(lines: seq<Line>, i: nat, r: TokenRow)
    requires i < |lines|
  {
    lines[i].Some? && r in lines[i].value.rows && lines[i].value.base !in Bases(lines[..i])
  }

  /** The first occurrence wins: a parse returns exactly the rows of the first record of each base. */
  lemma {:induction false} FirstOccurrenceWins(lines: seq<Line>, r: TokenRow)
    ensures r in Parsed(lines) <==> exists i :: 0 <= i < |lines| && IsFirst(lines, i, r)
  {
    if lines != [] {
      var t, n := lines[..|lines| - 1], |lines| - 1;
      FirstOccurrenceWins(t, r);
      forall i | 0 <= i < n ensures IsFirst(t, i, r) <==> IsFirst(lines, i, r) {
        assert t[..i] == lines[..i];
      }
      assert r in Parsed(lines) <==> r in Parsed(t) || IsFirst(lines, n, r);
    }
  }

  // ---- grok transcripts --------------------------------------------------------------------

  /** Whatever the passes so far, the table holds the rows of one parse of the file so far. */
  ghost predicate KeepsUp(lines: seq<Line>) {
    forall n: nat, slices: seq<Slice> :: n <= |lines| && Within(slices, n) && Covers(slices, n) ==>
      CapturedSame(lines[..n], slices)
  }

  ghost predicate CapturedSame(lines: seq<Line>, slices: seq<Slice>)
    requires Within(slices, |lines|)
  {
    Captured([], lines, slices) == InsertAll([], Parsed(lines))
  }

  lemma {:induction false} RepeatsInPrefix(lines: seq<Line>, n: nat)
    requires RepeatsAddNothing(lines) && n <= |lines|
    ensures RepeatsAddNothing(lines[..n])
  {
    forall j | 0 <= j < n ensures RepeatAddsNothing(lines[..n], j) {
      assert lines[..n][..j] == lines[..j];
      assert RepeatAddsNothing(lines, j);
    }
  }

  lemma {:induction false} TwoSlices(j: nat)
    ensures var slices := [Slice(0, j), Slice(j, j + 1)];
            Within(slices, j + 1) && Covers(slices, j + 1)
  {
    var slices := [Slice(0, j), Slice(j, j + 1)];
    assert slices[..1] == [Slice(0, j)] && slices[..1][..0] == [];
    assert Reached(slices[..1]) == j && NoHole(slices[..1]);
  }

  lemma {:induction false} RepeatIsSkipped(lines: seq<Line>, j: nat)
    requires j < |lines| && lines[j].Some? && lines[j].value.base in Bases(lines[..j])
    ensures Parsed(lines[..j + 1]) == Parsed(lines[..j])
  {
    assert lines[..j + 1][..j] == lines[..j];
  }

  /** A pass that starts at a repeat that stores something new leaves a row one parse would not. */
  lemma {:induction false} CutAtRepeat(lines: seq<Line>, j: nat)
    requires j < |lines| && !RepeatAddsNothing(lines, j)
    ensures var slices := [Slice(0, j), Slice(j, j + 1)];
            Within(slices, j + 1) && Covers(slices, j + 1) && !CapturedSame(lines[..j + 1], slices)
  {
    var slices, file, rows := [Slice(0, j), Slice(j, j + 1)], lines[..j + 1], lines[j].value.rows;
    TwoSlices(j);
    RepeatIsSkipped(lines, j);
    assert file[0..j] == lines[..j] && file[j..j + 1] == [lines[j]];
    OneRecord(lines[j]);
    CapturedInTwo(file, slices, j);
    NewIdShows(Parsed(lines[..j]), rows);
  }

  lemma {:induction false} NewIdShows(before: seq<TokenRow>, rows: seq<TokenRow>)
    requires !(Ids(rows) <= Ids(before))
    ensures InsertAll(InsertAll([], before), rows) != InsertAll([], before)
  {
    InsertAllIds(InsertAll([], before), rows);
    InsertAllIds([], before);
    assert Ids([]) == {};
  }

  lemma {:induction false} OneRecord(l: Line)
    requires l.Some?
    ensures Parsed([l]) == l.value.rows
  {
    assert [l][..0] == [];
    assert [] + l.value.rows == l.value.rows;
  }

  lemma {:induction false} CapturedInTwo(file: seq<Line>, slices: seq<Slice>, j: nat)
    requires slices == [Slice(0, j), Slice(j, j + 1)] && |file| == j + 1
    ensures Captured([], file, slices) == InsertAll(InsertAll([], Parsed(file[0..j])), Parsed(file[j..j + 1]))
  {
    assert slices[..1] == [Slice(0, j)] && slices[..1][..0] == [];
    assert Captured([], file, slices[..1]) == InsertAll([], Parsed(file[0..j]));
  }

  /**
   Capture in passes keeps up with the file exactly when no record under a base seen before stores a
   new id. Claude records never do; a grok record does when it names a model its base had not named.
   */
  lemma {:induction false} CaptureKeepsUpIff(lines: seq<Line>)
    ensures KeepsUp(lines) <==> RepeatsAddNothing(lines)
  {
    if RepeatsAddNothing(lines) {
      forall n: nat, slices: seq<Slice> | n <= |lines| && Within(slices, n) && Covers(slices, n)
        ensures CapturedSame(lines[..n], slices)
      {
        RepeatsInPrefix(lines, n);
        IncrementalIsOnePass([], lines[..n], slices);
      }
    }
    if KeepsUp(lines) {
      forall j | 0 <= j < |lines| ensures RepeatAddsNothing(lines, j) {
        if !RepeatAddsNothing(lines, j) {
          CutAtRepeat(lines, j);
        }
      }
    }
  }

  lemma {:induction false} TwoUnderOneBase(base: string, first: seq<TokenRow>, r: TokenRow)
    requires r.id !in Ids(first)
    ensures !KeepsUp([Some(Record(base, first)), Some(Record(base, [r]))])
  {
    var lines := [Some(Record(base, first)), Some(Record(base, [r]))];
    assert lines[..1] == [lines[0]] && [lines[0]][..0] == [];
    OneRecord(lines[0]);
    assert base in Bases(lines[..1]);
    assert [r][0] == r && r.id in Ids([r]);
    assert !RepeatAddsNothing(lines, 1);
    CaptureKeepsUpIff(lines);
  }

  function OneModelTurn(eventId: string, model: string): GrokLine {
    GrokTurn(Some(eventId), None, None, "", Some(GrokUsage(model, 1, 0, 1)), [GrokUsage(model, 1, 0, 1)])
  }

  lemma {:induction false} OneModelRecord(eventId: string, model: string, session: string, price: GrokUsage -> nat)
    ensures var r := GrokRecord(OneModelTurn(eventId, model), session, price);
            r.Some? && r.value.base == eventId && |r.value.rows| == 1 && r.value.rows[0].id == eventId + ":" + model
  {
  }

  /** Two grok records under one event id that name different models are such a file. */
  lemma {:induction false} GrokCanFallBehind(eventId: string, m: string, n: string, session: string, price: GrokUsage -> nat)
    requires m != n
    ensures !KeepsUp([GrokRecord(OneModelTurn(eventId, m), session, price), GrokRecord(OneModelTurn(eventId, n), session, price)])
  {
    hide GrokRecord;
    OneModelRecord(eventId, m, session, price);
    OneModelRecord(eventId, n, session, price);
    var a := GrokRecord(OneModelTurn(eventId, m), session, price).value;
    var b := GrokRecord(OneModelTurn(eventId, n), session, price).value;
    assert (eventId + ":" + m)[|eventId| + 1..] == m && (eventId + ":" + n)[|eventId| + 1..] == n;
    assert b.rows == [b.rows[0]];
    TwoUnderOneBase(eventId, a.rows, b.rows[0]);
  }
}
