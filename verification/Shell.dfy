/** The quote-aware command splitter and word parser, and why printing and reading undo each other. */
module Shell {
  import opened Prelude

  predicate IsQuote(c: char) {
    c == '\'' || c == '"'
  }

  predicate IsSeparator(c: char) {
    c == ';' || c == '\n' || c == '|' || c == '&'
  }

  predicate Blank(s: string) {
    forall c :: c in s ==> IsWhitespace(c)
  }

  /** How many characters a separator at the front of `s` takes: `&&` and `||` are one separator. */
  function SeparatorWidth(s: string): (n: nat)
    requires s != []
    ensures 1 <= n <= |s|
  {
    if (s[0] == '|' || s[0] == '&') && |s| > 1 && s[1] == s[0] then 2 else 1
  }

  /** The segments still to come when `cur` has been read and `quote` is open. */
  function SplitFrom(s: string, cur: string, quote: Option<char>): seq<string>
    decreases |s|
  {
    if s == [] then [cur]
    else
      var c := s[0];
      if quote.Some? then SplitFrom(s[1..], cur + [c], if c == quote.value then None else quote)
      else if IsQuote(c) then SplitFrom(s[1..], cur + [c], Some(c))
      else if IsSeparator(c) then [cur] + SplitFrom(s[SeparatorWidth(s)..], [], None)
      else SplitFrom(s[1..], cur + [c], None)
  }

  const NONBLANK: string -> bool := (s: string) => !Blank(s)

  method SplitSegments(command: string) returns (out: seq<string>)
    ensures out == Filter(SplitFrom(command, [], None), NONBLANK)
  {
    var all: seq<string> := [];
    var cur: string := [];
    var quote: Option<char> := None;
    var i := 0;
    while i < |command|
      invariant 0 <= i <= |command|
      invariant all + SplitFrom(command[i..], cur, quote) == SplitFrom(command, [], None)
    {
      var rest := command[i..];
      assert rest[1..] == command[i + 1..];
      var c := command[i];
      if quote.Some? && c == quote.value {
        quote := None;
        cur := cur + [c];
        i := i + 1;
      } else if quote.Some? {
        cur := cur + [c];
        i := i + 1;
      } else if IsQuote(c) {
        quote := Some(c);
        cur := cur + [c];
        i := i + 1;
      } else if IsSeparator(c) {
        var width := SeparatorWidth(rest);
        assert rest[width..] == command[i + width..];
        all := all + [cur];
        cur := [];
        i := i + width;
      } else {
        cur := cur + [c];
        i := i + 1;
      }
    }
    all := all + [cur];
    out := Filter(all, NONBLANK);
  }

  /** The words still to come when `cur` has been read. */
  function WordsFrom(s: string, cur: string, inWord: bool, quote: Option<char>): seq<string>
    decreases |s|
  {
    if s == [] then (if inWord then [cur] else [])
    else
      var c := s[0];
      if quote.Some? && c == quote.value then WordsFrom(s[1..], cur, inWord, None)
      else if quote == Some('\'') then WordsFrom(s[1..], cur + [c], inWord, quote)
      else if c == '\\' then
        if |s| > 1 then WordsFrom(s[2..], cur + [s[1]], true, quote) else WordsFrom([], cur, true, quote)
      else if quote.Some? then WordsFrom(s[1..], cur + [c], inWord, quote)
      else if IsQuote(c) then WordsFrom(s[1..], cur, true, Some(c))
      else if IsWhitespace(c) then
        if inWord then [cur] + WordsFrom(s[1..], [], false, None) else WordsFrom(s[1..], cur, false, None)
      else WordsFrom(s[1..], cur + [c], true, None)
  }

  method ShellWords(segment: string) returns (out: seq<string>)
    ensures out == WordsFrom(segment, [], false, None)
  {
    out := [];
    var cur: string := [];
    var inWord := false;
    var quote: Option<char> := None;
    var i := 0;
    while i < |segment|
      invariant 0 <= i <= |segment|
      invariant out + WordsFrom(segment[i..], cur, inWord, quote) == WordsFrom(segment, [], false, None)
    {
      var c := segment[i];
      ghost var rest := segment[i..];
      assert rest[1..] == segment[i + 1..];
      if quote.Some? && c == quote.value {
        quote := None;
      } else if quote == Some('\'') {
        cur := cur + [c];
      } else if c == '\\' {
        if i + 1 < |segment| {
          assert rest[2..] == segment[i + 2..];
          cur := cur + [segment[i + 1]];
          i := i + 1;
        }
        inWord := true;
      } else if quote.Some? {
        cur := cur + [c];
      } else if IsQuote(c) {
        quote := Some(c);
        inWord := true;
      } else if IsWhitespace(c) {
        if inWord {
          out := out + [cur];
          cur := [];
          inWord := false;
        }
      } else {
        cur := cur + [c];
        inWord := true;
      }
      i := i + 1;
    }
    assert segment[i..] == [];
    if inWord {
      out := out + [cur];
    }
  }

  function Words(segment: string): seq<string> {
    WordsFrom(segment, [], false, None)
  }

  function Segments(command: string): seq<string> {
    Filter(SplitFrom(command, [], None), NONBLANK)
  }

  // ---- printing ----------------------------------------------------------------------------

  /** A single quote inside single quotes: close, an escaped quote, open again. */
  const ESCAPED: string := ['\'', '\\', '\'', '\'']

  function EscapeChar(c: char): string {
    if c == '\'' then ESCAPED else [c]
  }

  function Escape(w: string): string {
    if w == [] then [] else EscapeChar(w[0]) + Escape(w[1..])
  }

  function QuoteOf(c: char): nat {
    if c == '\'' then 1 else 0
  }

  /** How many single quotes `w` holds. */
  function Quotes(w: string): nat {
    if w == [] then 0 else QuoteOf(w[0]) + Quotes(w[1..])
  }

  const SEPARATOR: char -> bool := (c: char) => IsSeparator(c)
  const DOUBLE: char -> bool := (c: char) => c == '"'

  /** Every such character has an even number of single quotes before it, `n` of them ahead of `w`. */
  ghost predicate Inside(w: string, n: nat, such: char -> bool) {
    forall i :: 0 <= i < |w| && such(w[i]) ==> (n + Quotes(w[..i])) % 2 == 0
  }

  /** Where the splitter stands after `n` escaped quotes: inside, or outside without noticing. */
  function Side(n: nat): Option<char> {
    if n % 2 == 0 then Some('\'') else None
  }

  lemma {:induction false} InsideStep(w: string, n: nat, such: char -> bool)
    requires w != []
    ensures Inside(w, n, such) <==> (such(w[0]) ==> n % 2 == 0) && Inside(w[1..], n + QuoteOf(w[0]), such)
  {
    var v := w[1..];
    assert w[..0] == [];
    forall i | 0 <= i < |v| ensures v[i] == w[i + 1] && Quotes(w[..i + 1]) == QuoteOf(w[0]) + Quotes(v[..i]) {
      assert w[..i + 1][1..] == v[..i];
    }
    if Inside(w, n, such) {
      forall i | 0 <= i < |v| && such(v[i]) ensures (n + QuoteOf(w[0]) + Quotes(v[..i])) % 2 == 0 {
        assert such(w[i + 1]);
      }
    }
  }

  /** Inside double quotes, a double quote or a backslash goes behind a backslash. */
  function EscapeDouble(w: string): string {
    if w == [] then [] else (if w[0] == '"' || w[0] == '\\' then ['\\', w[0]] else [w[0]]) + EscapeDouble(w[1..])
  }

  /** Every character behind a backslash. */
  function Slash(w: string): string {
    if w == [] then [] else ['\\', w[0]] + Slash(w[1..])
  }

  /** A word as typed: bare, in single quotes, in double quotes, or backslashed throughout. */
  datatype Token = Bare(word: string) | Quoted(word: string) | Double(word: string) | Slashed(word: string) {
    function Text(): string {
      match this
      case Bare(w) => w
      case Quoted(w) => ['\''] + Escape(w) + ['\'']
      case Double(w) => ['"'] + EscapeDouble(w) + ['"']
      case Slashed(w) => Slash(w)
    }

    /** A word without quotes must be there, and a bare one survive as it is. */
    predicate Printable() {
      match this
      case Bare(w) => w != [] && forall c :: c in w ==> Plain(c)
      case Slashed(w) => w != []
      case _ => true
    }

    /** It must not look to the splitter, which knows no backslash, as if it left its quotes or opened some. */
    ghost predicate Kept() {
      match this
      case Bare(_) => true
      case Quoted(w) => Quotes(w) % 2 == 0 && Inside(w, 0, DOUBLE) && Inside(w, 0, SEPARATOR)
      case Double(w) => '"' !in w
      case Slashed(w) => forall c :: c in w ==> !IsQuote(c) && !IsSeparator(c)
    }
  }

  predicate Plain(c: char) {
    !IsWhitespace(c) && !IsQuote(c) && !IsSeparator(c) && c != '\\'
  }

  function CommandText(tokens: seq<Token>): string {
    if tokens == [] then []
    else if |tokens| == 1 then tokens[0].Text()
    else tokens[0].Text() + [' '] + CommandText(tokens[1..])
  }

  function WordsOf(tokens: seq<Token>): seq<string> {
    Apply((t: Token) => t.word, tokens)
  }

  predicate AllPrintable(tokens: seq<Token>) {
    forall i :: 0 <= i < |tokens| ==> tokens[i].Printable()
  }

  ghost predicate AllKept(tokens: seq<Token>) {
    forall i :: 0 <= i < |tokens| ==> tokens[i].Kept()
  }

  function Spaces(n: nat): string {
    seq(n, _ => ' ')
  }

  // ---- reading words back ------------------------------------------------------------------

  /** `'\''` inside single quotes reads as one quote. */
  lemma {:induction false} ReadEscapedQuote(tail: string, cur: string)
    ensures WordsFrom(['\'', '\\', '\'', '\''] + tail, cur, true, Some('\'')) ==
            WordsFrom(tail, cur + ['\''], true, Some('\''))
  {
    var s, s1, s2 := ['\'', '\\', '\'', '\''] + tail, ['\\', '\'', '\''] + tail, ['\''] + tail;
    assert s[1..] == s1 && s1[2..] == s2 && s2[1..] == tail;
    assert WordsFrom(s, cur, true, Some('\'')) == WordsFrom(s1, cur, true, None);
    assert WordsFrom(s1, cur, true, None) == WordsFrom(s2, cur + ['\''], true, None);
  }

  lemma {:induction false} ReadQuotedChar(c: char, tail: string, cur: string)
    requires c != '\''
    ensures WordsFrom([c] + tail, cur, true, Some('\'')) == WordsFrom(tail, cur + [c], true, Some('\''))
  {
    assert ([c] + tail)[1..] == tail;
  }

  lemma {:induction false} ReadCloseQuote(rest: string, cur: string)
    ensures WordsFrom(['\''] + rest, cur, true, Some('\'')) == WordsFrom(rest, cur, true, None)
  {
    assert (['\''] + rest)[1..] == rest;
  }

  lemma {:induction false} ReadEscaped(w: string, rest: string, cur: string)
    ensures WordsFrom(Escape(w) + ['\''] + rest, cur, true, Some('\'')) == WordsFrom(rest, cur + w, true, None)
  {
    hide WordsFrom;
    if w == [] {
      ReadCloseQuote(rest, cur);
      assert Escape(w) + ['\''] + rest == ['\''] + rest && cur + w == cur;
    } else {
      var c, e := w[0], Escape(w[1..]);
      var tail, head := e + ['\''] + rest, EscapeChar(c);
      Regroup(head, e, ['\'']);
      Regroup(head, e + ['\''], rest);
      ReadEscaped(w[1..], rest, cur + [c]);
      if c == '\'' { ReadEscapedQuote(tail, cur); } else { ReadQuotedChar(c, tail, cur); }
      assert w == [c] + w[1..];
      Regroup(cur, [c], w[1..]);
    }
  }

  lemma {:induction false} ReadBare(w: string, rest: string, cur: string)
    requires forall c :: c in w ==> Plain(c)
    ensures w != [] ==> WordsFrom(w + rest, cur, true, None) == WordsFrom(rest, cur + w, true, None)
    ensures w != [] ==> WordsFrom(w + rest, cur, false, None) == WordsFrom(rest, cur + w, true, None)
  {
    if w != [] {
      assert w[0] in w;
      assert (w + rest)[1..] == w[1..] + rest;
      assert cur + w == cur + [w[0]] + w[1..];
      if |w| > 1 {
        assert forall c :: c in w[1..] ==> c in w;
        ReadBare(w[1..], rest, cur + [w[0]]);
      } else {
        assert w[1..] + rest == rest;
        assert cur + [w[0]] == cur + w;
      }
    }
  }

  lemma {:induction false} ReadDoubleChar(c: char, tail: string, cur: string)
    ensures c != '"' && c != '\\' ==> WordsFrom([c] + tail, cur, true, Some('"')) == WordsFrom(tail, cur + [c], true, Some('"'))
    ensures WordsFrom(['\\', c] + tail, cur, true, Some('"')) == WordsFrom(tail, cur + [c], true, Some('"'))
  {
    assert ([c] + tail)[1..] == tail;
    assert (['\\', c] + tail)[2..] == tail;
  }

  lemma {:induction false} ReadDouble(w: string, rest: string, cur: string)
    ensures WordsFrom(EscapeDouble(w) + ['"'] + rest, cur, true, Some('"')) == WordsFrom(rest, cur + w, true, None)
  {
    if w == [] {
      assert EscapeDouble(w) + ['"'] + rest == ['"'] + rest && (['"'] + rest)[1..] == rest && cur + w == cur;
    } else {
      hide WordsFrom;
      var c, e := w[0], EscapeDouble(w[1..]);
      var head := if c == '"' || c == '\\' then ['\\', c] else [c];
      Regroup(head, e, ['"']);
      Regroup(head, e + ['"'], rest);
      ReadDouble(w[1..], rest, cur + [c]);
      ReadDoubleChar(c, e + ['"'] + rest, cur);
      assert w == [c] + w[1..];
      Regroup(cur, [c], w[1..]);
    }
  }

  lemma {:induction false} ReadSlashedChar(c: char, tail: string, cur: string, inWord: bool)
    ensures WordsFrom(['\\', c] + tail, cur, inWord, None) == WordsFrom(tail, cur + [c], true, None)
  {
    assert (['\\', c] + tail)[2..] == tail;
  }

  lemma {:induction false} ReadSlashed(w: string, rest: string, cur: string, inWord: bool)
    requires w != [] || inWord
    ensures WordsFrom(Slash(w) + rest, cur, inWord, None) == WordsFrom(rest, cur + w, true, None)
  {
    hide WordsFrom;
    if w == [] {
      assert Slash(w) + rest == rest && cur + w == cur;
    } else {
      var c, e := w[0], Slash(w[1..]);
      Regroup(['\\', c], e, rest);
      ReadSlashedChar(c, e + rest, cur, inWord);
      ReadSlashed(w[1..], rest, cur + [c], true);
      assert w == [c] + w[1..];
      Regroup(cur, [c], w[1..]);
    }
  }

  lemma {:induction false} OpenWord(q: char, rest: string)
    requires IsQuote(q)
    ensures WordsFrom([q] + rest, [], false, None) == WordsFrom(rest, [], true, Some(q))
  {
    assert ([q] + rest)[1..] == rest;
  }

  lemma {:induction false} ReadToken(t: Token, rest: string)
    requires t.Printable()
    ensures WordsFrom(t.Text() + rest, [], false, None) == WordsFrom(rest, t.word, true, None)
  {
    assert [] + t.word == t.word;
    hide WordsFrom;
    match t
    case Bare(w) => ReadBare(w, rest, []);
    case Quoted(w) =>
      Regroup(['\''], Escape(w), ['\'']);
      Regroup(['\''], Escape(w) + ['\''], rest);
      OpenWord('\'', Escape(w) + ['\''] + rest);
      ReadEscaped(w, rest, []);
    case Double(w) =>
      Regroup(['"'], EscapeDouble(w), ['"']);
      Regroup(['"'], EscapeDouble(w) + ['"'], rest);
      OpenWord('"', EscapeDouble(w) + ['"'] + rest);
      ReadDouble(w, rest, []);
    case Slashed(w) => ReadSlashed(w, rest, [], false);
  }

  lemma {:induction false} ReadSpaces(n: nat, rest: string)
    ensures WordsFrom(Spaces(n) + rest, [], false, None) == WordsFrom(rest, [], false, None)
  {
    if n == 0 {
      assert Spaces(n) + rest == rest;
    } else {
      ReadSpaces(n - 1, rest);
      assert (Spaces(n) + rest)[1..] == Spaces(n - 1) + rest;
    }
  }

  /** Any words at all, in any mix of quoting styles, come back from their printed form. */
  lemma {:induction false} WordsRoundTrip(tokens: seq<Token>, before: nat, after: nat)
    requires AllPrintable(tokens)
    ensures Words(Spaces(before) + CommandText(tokens) + Spaces(after)) == WordsOf(tokens)
  {
    assert Spaces(before) + CommandText(tokens) + Spaces(after) == Spaces(before) + (CommandText(tokens) + Spaces(after));
    ReadSpaces(before, CommandText(tokens) + Spaces(after));
    ReadCommand(tokens, after);
  }

  lemma {:induction false} ReadCommand(tokens: seq<Token>, after: nat)
    requires AllPrintable(tokens)
    ensures WordsFrom(CommandText(tokens) + Spaces(after), [], false, None) == WordsOf(tokens)
  {
    if tokens == [] {
      assert CommandText(tokens) + Spaces(after) == Spaces(after) + [];
      ReadSpaces(after, []);
    } else {
      var t, ts := tokens[0], tokens[1..];
      assert WordsOf(tokens) == [t.word] + WordsOf(ts);
      if ts == [] {
        ReadToken(t, Spaces(after));
        ReadTail(t.word, after);
      } else {
        ReadCommand(ts, after);
        ReadFirstToken(t, CommandText(ts), Spaces(after));
        hide WordsFrom;
      }
    }
  }

  lemma {:induction false} ReadFirstToken(t: Token, more: string, rest: string)
    requires t.Printable()
    ensures WordsFrom(t.Text() + [' '] + more + rest, [], false, None) ==
            [t.word] + WordsFrom(more + rest, [], false, None)
  {
    Regroup(t.Text() + [' '], more, rest);
    Regroup(t.Text(), [' '], more + rest);
    ReadToken(t, [' '] + (more + rest));
    assert ([' '] + (more + rest))[1..] == more + rest;
  }

  lemma {:induction false} ReadTail(w: string, after: nat)
    ensures WordsFrom(Spaces(after), w, true, None) == [w]
  {
    if after > 0 {
      assert Spaces(after)[1..] == Spaces(after - 1);
      assert Spaces(after - 1) + [] == Spaces(after - 1);
      ReadSpaces(after - 1, []);
    }
  }

  // ---- splitting back ----------------------------------------------------------------------

  datatype Op = AndAnd | OrOr | Semi | Pipe | Amp | Newline {
    function Text(): string {
      match this
      case AndAnd => "&&"
      case OrOr => "||"
      case Semi => ";"
      case Pipe => "|"
      case Amp => "&"
      case Newline => "\n"
    }
  }

  /** A command with the blanks around it. */
  datatype Command = Command(before: nat, tokens: seq<Token>, after: nat) {
    function Text(): string {
      Spaces(before) + CommandText(tokens) + Spaces(after)
    }

    /** The splitter takes every word of it in one piece and closes every quote it opens. */
    ghost predicate Safe() {
      tokens != [] && AllPrintable(tokens) && AllKept(tokens)
    }
  }

  /** Commands joined by operators, `ops[i]` after command `i`. */
  function Script(commands: seq<Command>, ops: seq<Op>): string
    requires |commands| == |ops| + 1
  {
    if ops == [] then commands[0].Text()
    else commands[0].Text() + ops[0].Text() + Script(commands[1..], ops[1..])
  }

  lemma {:induction false} SplitPlain(w: string, rest: string, cur: string)
    requires forall c :: c in w ==> !IsQuote(c) && !IsSeparator(c)
    ensures SplitFrom(w + rest, cur, None) == SplitFrom(rest, cur + w, None)
  {
    if w == [] {
      assert w + rest == rest && cur + w == cur;
    } else {
      assert w[0] in w;
      assert (w + rest)[1..] == w[1..] + rest;
      assert cur + w == cur + [w[0]] + w[1..];
      assert forall c :: c in w[1..] ==> c in w;
      SplitPlain(w[1..], rest, cur + [w[0]]);
    }
  }

  lemma {:induction false} OpenQuote(rest: string, cur: string)
    ensures SplitFrom(['\''] + rest, cur, None) == SplitFrom(rest, cur + ['\''], Some('\''))
  {
    assert (['\''] + rest)[1..] == rest;
  }

  /** The splitter knows no backslash: each escaped quote takes it out of the quotes or back in. */
  lemma {:induction false} SplitEscapedQuote(n: nat, rest: string, cur: string)
    ensures SplitFrom(ESCAPED + rest, cur, Side(n)) == SplitFrom(rest, cur + ESCAPED, Side(n + 1))
  {
    var s, s1, s2, s3 := ESCAPED + rest, ['\\', '\'', '\''] + rest, ['\'', '\''] + rest, ['\''] + rest;
    assert s[1..] == s1 && s1[1..] == s2 && s2[1..] == s3 && s3[1..] == rest;
    assert cur + ['\''] + ['\\'] + ['\''] + ['\''] == cur + ESCAPED;
    var q := if n % 2 == 0 then None else Some('\'');
    assert SplitFrom(s, cur, Side(n)) == SplitFrom(s1, cur + ['\''], q);
    assert SplitFrom(s1, cur + ['\''], q) == SplitFrom(s2, cur + ['\''] + ['\\'], q);
    assert SplitFrom(s2, cur + ['\''] + ['\\'], q) == SplitFrom(s3, cur + ['\''] + ['\\'] + ['\''], Side(n));
  }

  lemma {:induction false} SplitKeptChar(c: char, n: nat, rest: string, cur: string)
    requires c != '\'' && (n % 2 == 0 || (c != '"' && !IsSeparator(c)))
    ensures SplitFrom([c] + rest, cur, Side(n)) == SplitFrom(rest, cur + [c], Side(n))
  {
    assert ([c] + rest)[1..] == rest;
  }

  lemma {:induction false} SplitOneChar(c: char, n: nat, rest: string, cur: string)
    requires n % 2 == 0 || (c != '"' && !IsSeparator(c))
    ensures SplitFrom(EscapeChar(c) + rest, cur, Side(n)) == SplitFrom(rest, cur + EscapeChar(c), Side(n + QuoteOf(c)))
  {
    if c == '\'' { SplitEscapedQuote(n, rest, cur); } else { SplitKeptChar(c, n, rest, cur); }
  }

  /** The splitter reads a word through when nothing that would cut or quote stands outside. */
  lemma {:induction false} SplitKept(w: string, n: nat, rest: string, cur: string)
    requires Inside(w, n, DOUBLE) && Inside(w, n, SEPARATOR)
    ensures SplitFrom(Escape(w) + rest, cur, Side(n)) == SplitFrom(rest, cur + Escape(w), Side(n + Quotes(w)))
  {
    hide SplitFrom;
    if w == [] {
      assert Escape(w) + rest == rest && cur + Escape(w) == cur;
    } else {
      var c, e := w[0], Escape(w[1..]);
      InsideStep(w, n, DOUBLE);
      InsideStep(w, n, SEPARATOR);
      SplitKept(w[1..], n + QuoteOf(c), rest, cur + EscapeChar(c));
      SplitOneChar(c, n, e + rest, cur);
      Regroup(EscapeChar(c), e, rest);
      Regroup(cur, EscapeChar(c), e);
    }
  }

  lemma {:induction false} SplitIsSome(s: string, cur: string, quote: Option<char>)
    ensures SplitFrom(s, cur, quote) != []
    decreases |s|
  {
    if s != [] {
      var next := if quote.Some? then (if s[0] == quote.value then None else quote)
                  else if IsQuote(s[0]) then Some(s[0]) else None;
      SplitIsSome(s[1..], cur + [s[0]], next);
    }
  }

  lemma {:induction false} SplitCut(c: char, rest: string, cur: string)
    requires IsSeparator(c)
    ensures |SplitFrom([c] + rest, cur, None)| >= 2
  {
    var s := [c] + rest;
    SplitIsSome(s[SeparatorWidth(s)..], [], None);
  }

  /** A separator outside cuts the word. */
  lemma {:induction false} SplitBreaks(w: string, n: nat, rest: string, cur: string)
    requires Inside(w, n, DOUBLE) && !Inside(w, n, SEPARATOR)
    ensures |SplitFrom(Escape(w) + rest, cur, Side(n))| >= 2
  {
    hide SplitFrom;
    var c, e := w[0], Escape(w[1..]);
    InsideStep(w, n, DOUBLE);
    InsideStep(w, n, SEPARATOR);
    Regroup(EscapeChar(c), e, rest);
    if n % 2 == 1 && IsSeparator(c) {
      SplitCut(c, e + rest, cur);
    } else {
      SplitBreaks(w[1..], n + QuoteOf(c), rest, cur + EscapeChar(c));
      SplitOneChar(c, n, e + rest, cur);
    }
  }

  lemma {:induction false} SplitLastQuote(cur: string, quote: Option<char>)
    requires quote in {None, Some('\'')}
    ensures SplitFrom(['\''], cur, quote) == [cur + ['\'']]
  {
    assert ['\''][1..] == [];
  }

  /**
   A quoted word whose double quotes all stand inside comes through the splitter in one piece, if and only
   if every separator in it stands inside too: an even number of single quotes before it.
   */
  lemma {:induction false} QuotedStaysWholeIff(w: string)
    requires Inside(w, 0, DOUBLE)
    ensures |SplitFrom(Quoted(w).Text(), [], None)| == 1 <==> Inside(w, 0, SEPARATOR)
  {
    hide SplitFrom;
    Regroup(['\''], Escape(w), ['\'']);
    OpenQuote(Escape(w) + ['\''], []);
    assert [] + ['\''] == ['\''];
    if Inside(w, 0, SEPARATOR) {
      SplitKept(w, 0, ['\''], ['\'']);
      SplitLastQuote(['\''] + Escape(w), Side(Quotes(w)));
    } else {
      SplitBreaks(w, 0, ['\''], ['\'']);
    }
  }

  lemma {:induction false} SplitInDouble(w: string, rest: string, cur: string)
    requires '"' !in w
    ensures SplitFrom(EscapeDouble(w) + ['"'] + rest, cur, Some('"')) == SplitFrom(rest, cur + (EscapeDouble(w) + ['"']), None)
  {
    var e := EscapeDouble(w);
    Regroup(e, ['"'], rest);
    if w == [] {
      assert ['"'] + rest == e + (['"'] + rest) && (['"'] + rest)[1..] == rest && e + ['"'] == ['"'];
    } else {
      var c, more := w[0], EscapeDouble(w[1..]);
      assert c in w;
      var head := if c == '\\' then ['\\', c] else [c];
      SplitInDouble(w[1..], rest, cur + head);
      SplitDoubleHead(head, more + ['"'] + rest, cur);
      hide SplitFrom;
      Regroup(head, more, ['"']);
      Regroup(head, more + ['"'], rest);
      Regroup(cur, head, more + ['"']);
    }
  }

  lemma {:induction false} SplitDoubleHead(head: string, rest: string, cur: string)
    requires '"' !in head && 0 < |head| <= 2
    ensures SplitFrom(head + rest, cur, Some('"')) == SplitFrom(rest, cur + head, Some('"'))
  {
    var s := head + rest;
    assert head[0] in head && s[1..] == head[1..] + rest;
    if |head| == 1 {
      assert s[1..] == rest && cur + head == cur + [head[0]];
    } else {
      assert head[1] in head && s[1..][1..] == rest && cur + head == cur + [head[0]] + [head[1]];
    }
  }

  lemma {:induction false} SplitDouble(w: string, rest: string, cur: string)
    requires '"' !in w
    ensures SplitFrom(Double(w).Text() + rest, cur, None) == SplitFrom(rest, cur + Double(w).Text(), None)
  {
    var e := EscapeDouble(w);
    Regroup(['"'], e, ['"']);
    Regroup(['"'], e + ['"'], rest);
    Regroup(cur, ['"'], e + ['"']);
    assert (['"'] + (e + ['"'] + rest))[1..] == e + ['"'] + rest;
    SplitInDouble(w, rest, cur + ['"']);
  }

  lemma {:induction false} SlashIsPlain(w: string)
    requires forall c :: c in w ==> !IsQuote(c) && !IsSeparator(c)
    ensures forall c :: c in Slash(w) ==> !IsQuote(c) && !IsSeparator(c)
  {
    if w != [] {
      assert w[0] in w && forall c :: c in w[1..] ==> c in w;
      SlashIsPlain(w[1..]);
    }
  }

  lemma {:induction false} SplitToken(t: Token, rest: string, cur: string)
    requires t.Printable() && t.Kept()
    ensures SplitFrom(t.Text() + rest, cur, None) == SplitFrom(rest, cur + t.Text(), None)
  {
    match t
    case Bare(w) => SplitPlain(w, rest, cur);
    case Quoted(w) => SplitQuotedToken(w, rest, cur);
    case Double(w) => SplitDouble(w, rest, cur);
    case Slashed(w) =>
      SlashIsPlain(w);
      SplitPlain(Slash(w), rest, cur);
  }

  lemma {:induction false} CloseQuote(rest: string, cur: string)
    ensures SplitFrom(['\''] + rest, cur, Some('\'')) == SplitFrom(rest, cur + ['\''], None)
  {
    assert (['\''] + rest)[1..] == rest;
  }

  lemma {:induction false} SplitQuotedToken(w: string, rest: string, cur: string)
    requires Quoted(w).Kept()
    ensures SplitFrom(Quoted(w).Text() + rest, cur, None) == SplitFrom(rest, cur + Quoted(w).Text(), None)
  {
    hide SplitFrom;
    var e := Escape(w);
    OpenQuote(e + (['\''] + rest), cur);
    SplitKept(w, 0, ['\''] + rest, cur + ['\'']);
    CloseQuote(rest, cur + ['\''] + e);
    Regroup(['\''] + e, ['\''], rest);
    Regroup(['\''], e, ['\''] + rest);
    Regroup(cur, ['\''], e);
    Regroup(cur, ['\''] + e, ['\'']);
  }

  lemma {:induction false} SplitSpace(rest: string, cur: string)
    ensures SplitFrom([' '] + rest, cur, None) == SplitFrom(rest, cur + [' '], None)
  {
    assert ([' '] + rest)[1..] == rest;
  }

  lemma {:induction false} SplitTokens(tokens: seq<Token>, rest: string, cur: string)
    requires AllPrintable(tokens) && AllKept(tokens)
    ensures SplitFrom(CommandText(tokens) + rest, cur, None) == SplitFrom(rest, cur + CommandText(tokens), None)
  {
    if tokens == [] {
      assert CommandText(tokens) + rest == rest && cur + CommandText(tokens) == cur;
    } else if |tokens| == 1 {
      SplitToken(tokens[0], rest, cur);
    } else {
      SplitTokens(tokens[1..], rest, cur + tokens[0].Text() + [' ']);
      SplitFirstToken(tokens[0], CommandText(tokens[1..]), rest, cur);
    }
  }

  lemma {:induction false} SplitFirstToken(t: Token, more: string, rest: string, cur: string)
    requires t.Printable() && t.Kept()
    requires SplitFrom(more + rest, cur + t.Text() + [' '], None) == SplitFrom(rest, cur + t.Text() + [' '] + more, None)
    ensures SplitFrom(t.Text() + [' '] + more + rest, cur, None) == SplitFrom(rest, cur + (t.Text() + [' '] + more), None)
  {
    hide SplitFrom;
    var w := t.Text();
    Regroup(w + [' '], more, rest);
    Regroup(w, [' '], more + rest);
    SplitToken(t, [' '] + (more + rest), cur);
    SplitSpace(more + rest, cur + w);
    Regroup(cur, w + [' '], more);
    Regroup(cur, w, [' ']);
  }

  lemma {:induction false} SplitSpaces(n: nat, rest: string, cur: string)
    ensures SplitFrom(Spaces(n) + rest, cur, None) == SplitFrom(rest, cur + Spaces(n), None)
  {
    SplitPlain(Spaces(n), rest, cur);
  }

  lemma {:induction false} SplitCommand(c: Command, rest: string)
    requires c.Safe()
    ensures SplitFrom(c.Text() + rest, [], None) == SplitFrom(rest, c.Text(), None)
  {
    hide SplitFrom;
    var b, m, a := Spaces(c.before), CommandText(c.tokens), Spaces(c.after);
    Regroup(b + m, a, rest);
    Regroup(b, m, a + rest);
    SplitSpaces(c.before, m + (a + rest), []);
    assert [] + b == b;
    SplitTokens(c.tokens, a + rest, b);
    SplitSpaces(c.after, rest, b + m);
  }

  /** What follows an operator never extends it. */
  lemma {:induction false} SplitOp(op: Op, rest: string, cur: string)
    requires rest != [] && !IsSeparator(rest[0])
    ensures SplitFrom(op.Text() + rest, cur, None) == [cur] + SplitFrom(rest, [], None)
  {
    var s := op.Text() + rest;
    assert s[|op.Text()|..] == rest;
  }

  lemma {:induction false} CommandStarts(c: Command)
    requires c.Safe()
    ensures c.Text() != [] && !IsSeparator(c.Text()[0]) && !Blank(c.Text())
  {
    var t := c.tokens[0];
    assert t.Text() != [] && !IsWhitespace(t.Text()[0]) && !IsSeparator(t.Text()[0]) by {
      if t.Bare? { assert t.word[0] in t.word; }
    }
    assert CommandText(c.tokens)[0] == t.Text()[0];
    assert c.Text()[c.before] == t.Text()[0];
    assert c.Text()[c.before] in c.Text();
  }

  function Texts(commands: seq<Command>): seq<string> {
    Apply((c: Command) => c.Text(), commands)
  }

  /** The segments of a printed script are its commands' texts, for every mix of operators and blanks. */
  lemma {:induction false} SegmentsRoundTrip(commands: seq<Command>, ops: seq<Op>)
    requires |commands| == |ops| + 1
    requires forall i :: 0 <= i < |commands| ==> commands[i].Safe()
    ensures SplitFrom(Script(commands, ops), [], None) == Texts(commands)
    ensures Segments(Script(commands, ops)) == Texts(commands)
  {
    SplitScript(commands, ops);
    forall t | t in Texts(commands) ensures !Blank(t) {
      var i :| 0 <= i < |commands| && Texts(commands)[i] == t;
      CommandStarts(commands[i]);
    }
    FilterAll(Texts(commands), NONBLANK);
  }

  lemma {:induction false} ScriptStarts(commands: seq<Command>, ops: seq<Op>)
    requires |commands| == |ops| + 1 && commands[0].Safe()
    ensures Script(commands, ops) != [] && !IsSeparator(Script(commands, ops)[0])
  {
    CommandStarts(commands[0]);
  }

  lemma {:induction false} SplitScript(commands: seq<Command>, ops: seq<Op>)
    requires |commands| == |ops| + 1
    requires forall i :: 0 <= i < |commands| ==> commands[i].Safe()
    ensures SplitFrom(Script(commands, ops), [], None) == Texts(commands)
  {
    if ops == [] {
      LastCommand(commands[0]);
      TextsHead(commands);
      assert Texts(commands[1..]) == [];
    } else {
      SplitScript(commands[1..], ops[1..]);
      ScriptStarts(commands[1..], ops[1..]);
      FirstCommand(commands[0], ops[0], Script(commands[1..], ops[1..]));
      TextsHead(commands);
    }
  }

  lemma {:induction false} LastCommand(c: Command)
    requires c.Safe()
    ensures SplitFrom(c.Text(), [], None) == [c.Text()]
  {
    SplitCommand(c, []);
    assert c.Text() + [] == c.Text();
  }

  lemma {:induction false} FirstCommand(c: Command, op: Op, rest: string)
    requires c.Safe() && rest != [] && !IsSeparator(rest[0])
    ensures SplitFrom(c.Text() + op.Text() + rest, [], None) == [c.Text()] + SplitFrom(rest, [], None)
  {
    hide SplitFrom;
    Regroup(c.Text(), op.Text(), rest);
    SplitCommand(c, op.Text() + rest);
    SplitOp(op, rest, c.Text());
  }

  lemma {:induction false} TextsHead(commands: seq<Command>)
    requires commands != []
    ensures Texts(commands) == [commands[0].Text()] + Texts(commands[1..])
  {
  }

  /** Reading a printed script gives back every word of every command. */
  lemma {:induction false} ShellRoundTrip(commands: seq<Command>, ops: seq<Op>)
    requires |commands| == |ops| + 1
    requires forall i :: 0 <= i < |commands| ==> commands[i].Safe()
    ensures Apply(Words, Segments(Script(commands, ops))) ==
            Apply((c: Command) => WordsOf(c.tokens), commands)
  {
    SegmentsRoundTrip(commands, ops);
    var s := Segments(Script(commands, ops));
    forall i | 0 <= i < |commands| ensures Words(s[i]) == WordsOf(commands[i].tokens) {
      WordsRoundTrip(commands[i].tokens, commands[i].before, commands[i].after);
    }
  }

  /** One that reads back but is cut: the separator stands behind a single quote. */
  lemma {:induction false} QuotesInsideWordsSplit()
    ensures var t := Quoted("';");
            t.Printable() && Words(t.Text()) == ["';"] && |SplitFrom(t.Text(), [], None)| != 1
  {
    hide SplitFrom;
    hide WordsFrom;
    var t := Quoted("';");
    WordsRoundTrip([t], 0, 0);
    assert Spaces(0) + CommandText([t]) + Spaces(0) == t.Text();
    assert t.word[..1] == ['\''] && ['\''][1..] == [];
    assert t.word[1] == ';' && SEPARATOR(t.word[1]);
    QuotedStaysWholeIff(t.word);
  }
}
