/** The token usage rows of one store: first insert wins, and nothing but a nuke removes a row. */
module TokenTable {

  /** `at` is the row's time text as stored, RFC 3339 or not. */
  datatype TokenRow = TokenRow(id: string, at: string, session: string, input: nat, output: nat, cost: nat)

  datatype Column = Input | Output | Cost {
    function Of(r: TokenRow): nat {
      match this
      case Input => r.input
      case Output => r.output
      case Cost => r.cost
    }
  }

  predicate HasId(rows: seq<TokenRow>, id: string) {
    exists i :: 0 <= i < |rows| && rows[i].id == id
  }

  /** `INSERT … ON CONFLICT(id) DO NOTHING`. */
  function InsertOrIgnore(rows: seq<TokenRow>, row: TokenRow): (r: seq<TokenRow>)
    ensures rows <= r
  {
    if HasId(rows, row.id) then rows else rows + [row]
  }

  /** `substr(at, 1, 10)`. */
  function DayOfText(at: string): string {
    if |at| <= 10 then at else at[..10]
  }

  predicate OnDay(r: TokenRow, day: string, session: string) {
    r.session == session && DayOfText(r.at) == day
  }

  /** What one session's rows of one day add up to in a column. */
  function DaySum(rows: seq<TokenRow>, day: string, session: string, c: Column): nat {
    if rows == [] then 0
    else
      var r := rows[|rows| - 1];
      DaySum(rows[..|rows| - 1], day, session, c) + if OnDay(r, day, session) then c.Of(r) else 0
  }

  /** What all of one session's rows add up to in a column. */
  function SessionSum(rows: seq<TokenRow>, session: string, c: Column): nat {
    if rows == [] then 0
    else
      var r := rows[|rows| - 1];
      SessionSum(rows[..|rows| - 1], session, c) + if r.session == session then c.Of(r) else 0
  }

  predicate LiveDay(rows: seq<TokenRow>, day: string, session: string) {
    exists i :: 0 <= i < |rows| && OnDay(rows[i], day, session)
  }

  lemma {:induction false} NoRowsNoTokens(rows: seq<TokenRow>, day: string, session: string, c: Column)
    requires !LiveDay(rows, day, session)
    ensures DaySum(rows, day, session, c) == 0
  {
    if rows != [] {
      var t := rows[..|rows| - 1];
      assert !OnDay(rows[|rows| - 1], day, session);
      forall i | 0 <= i < |t| ensures !OnDay(t[i], day, session) { assert t[i] == rows[i]; }
      NoRowsNoTokens(t, day, session, c);
    }
  }

}
