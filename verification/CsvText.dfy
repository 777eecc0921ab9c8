/** What csv_parse makes of text that was not printed by the writer: unquoted fields, blanks, and stray quotes. */
module CsvText {
  import opened Basics
  import opened CsvSpec

  /** A field as it may stand in a file: without quotes around it, or in quotes with blanks around them. */
  datatype Cell = Raw(text: Bytes) | InQuotes(left: Bytes, value: Bytes, right: Bytes)

  /** The characters have one meaning each; delimiter and blank may coincide. */
  predicate Distinguished(cfg: Config, nl: byte) {
    Compatible(cfg, nl) && !cfg.isTerm(cfg.delim) && !cfg.isSpace(nl)
  }

  predicate IsBlank(cfg: Config, s: Bytes) {
    forall i :: 0 <= i < |s| ==> cfg.isSpace(s[i]) && s[i] != cfg.delim && !cfg.isTerm(s[i])
  }

  /** s without the blanks at its start. */
  function TrimLeft(cfg: Config, s: Bytes): Bytes {
    if |s| == 0 then []
    else
      var rest := TrimLeft(cfg, s[..|s| - 1]);
      if rest == [] && cfg.isSpace(s[|s| - 1]) then [] else rest + [s[|s| - 1]]
  }

  /** How many blanks s ends with. */
  function Trailing(cfg: Config, s: Bytes): (n: nat)
    ensures n <= |s|
  {
    if |s| == 0 || !cfg.isSpace(s[|s| - 1]) then 0 else Trailing(cfg, s[..|s| - 1]) + 1
  }

  function Trim(cfg: Config, s: Bytes): Bytes {
    var t := TrimLeft(cfg, s);
    t[..|t| - Trailing(cfg, t)]
  }

  ghost predicate AllSpace(cfg: Config, s: Bytes) {
    forall i :: 0 <= i < |s| ==> cfg.isSpace(s[i])
  }

  lemma {:induction false} TrimLeftIs(cfg: Config, s: Bytes)
    ensures var t := TrimLeft(cfg, s);
      && |t| <= |s| && s[|s| - |t|..] == t && AllSpace(cfg, s[..|s| - |t|])
      && (t != [] ==> !cfg.isSpace(t[0]))
  {
    if |s| > 0 {
      var n := |s| - 1;
      TrimLeftIs(cfg, s[..n]);
      var t := TrimLeft(cfg, s[..n]);
      assert s == s[..n] + [s[n]];
      if t != [] || !cfg.isSpace(s[n]) {
        assert s[..n][..n - |t|] == s[..n - |t|];
        assert s[n - |t|..] == s[..n][n - |t|..] + [s[n]];
      }
    }
  }

  lemma {:induction false} TrailingIs(cfg: Config, s: Bytes)
    ensures var n := |s| - Trailing(cfg, s); AllSpace(cfg, s[n..]) && (n > 0 ==> !cfg.isSpace(s[n - 1]))
  {
    if |s| > 0 && cfg.isSpace(s[|s| - 1]) {
      TrailingIs(cfg, s[..|s| - 1]);
      var n := |s| - Trailing(cfg, s);
      assert s[n..] == s[..|s| - 1][n..] + [s[|s| - 1]];
    }
  }

  // t is s without its first blanks, and m how much of it is left without its last ones.
  ghost predicate Trimmed(cfg: Config, s: Bytes, t: Bytes, m: nat) {
    && |t| <= |s| && s[|s| - |t|..] == t && AllSpace(cfg, s[..|s| - |t|]) && (t != [] ==> !cfg.isSpace(t[0]))
    && m <= |t| && AllSpace(cfg, t[m..]) && (m > 0 ==> !cfg.isSpace(t[m - 1]))
  }

  lemma {:induction false} TrimIsTrimmed(cfg: Config, s: Bytes) returns (t: Bytes, m: nat)
    ensures Trimmed(cfg, s, t, m) && Trim(cfg, s) == t[..m]
  {
    TrimLeftIs(cfg, s);
    t := TrimLeft(cfg, s);
    TrailingIs(cfg, t);
    m := |t| - Trailing(cfg, t);
  }

  /** Trimming takes away blanks from both ends, all of them, and nothing else. */
  lemma {:induction false} TrimIs(cfg: Config, s: Bytes) returns (left: Bytes, right: Bytes)
    ensures s == left + Trim(cfg, s) + right && AllSpace(cfg, left) && AllSpace(cfg, right)
    ensures var t := Trim(cfg, s); |t| > 0 ==> !cfg.isSpace(t[0]) && !cfg.isSpace(t[|t| - 1])
  {
    var t, m := TrimIsTrimmed(cfg, s);
    left, right := s[..|s| - |t|], t[m..];
    assert s == left + t && t == t[..m] + right;
  }

  lemma TrimIsEmpty(cfg: Config, s: Bytes)
    ensures Trim(cfg, s) == [] <==> TrimLeft(cfg, s) == []
    ensures Trim(cfg, s) == [] <==> AllSpace(cfg, s)
  {
    TrimLeftIs(cfg, s);
    var t := TrimLeft(cfg, s);
    TrailingIs(cfg, t);
    if t == [] {
      assert s[..|s|] == s;
    } else {
      assert s[|s| - |t|] == t[0];
    }
  }

  /**
   * Quotes in an unquoted field stand behind other text, as its first character but for blanks would open a quoted
   * field; no delimiter and no row end is in it.
   */
  predicate CellOk(cfg: Config, cell: Cell) {
    match cell
    case Raw(text) =>
      && (forall i :: 0 <= i < |text| ==> text[i] != cfg.delim && !cfg.isTerm(text[i]))
      && (TrimLeft(cfg, text) != [] ==> TrimLeft(cfg, text)[0] != cfg.quote)
    case InQuotes(left, _, right) => IsBlank(cfg, left) && IsBlank(cfg, right)
  }

  function CellText(cfg: Config, cell: Cell): Bytes {
    match cell
    case Raw(text) => text
    case InQuotes(left, value, right) => left + Quoted(value, cfg.quote) + right
  }

  /** The field that is given away: trimmed if it is not in quotes, as it was written if it is. */
  function CellEvent(cfg: Config, cell: Cell): Event {
    match cell
    case Raw(text) => FieldEvent(cfg, false, Trim(cfg, text))
    case InQuotes(_, value, _) => Field(value)
  }

  /** A quote inside an unquoted field. */
  predicate StrayQuote(cfg: Config, cell: Cell) {
    cell.Raw? && cfg.quote in cell.text
  }

  // The state behind the text of a cell.
  function After(cfg: Config, st: St, cell: Cell): St {
    match cell
    case Raw(text) =>
      var t := TrimLeft(cfg, text);
      if t == [] then st else St(FieldBegun, false, Trailing(cfg, t), t, st.out)
    case InQuotes(_, value, right) => St(MightHaveEnded, true, |right|, value + [cfg.quote] + right, st.out)
  }

  predicate Between(st: St) { st.Ok() && (st.pstate == RowNotBegun || st.pstate == FieldNotBegun) }

  lemma TrimGrows(cfg: Config, text: Bytes, c: byte)
    ensures TrimLeft(cfg, text + [c])
            == if TrimLeft(cfg, text) == [] && cfg.isSpace(c) then [] else TrimLeft(cfg, text) + [c]
    ensures var t := TrimLeft(cfg, text);
            Trailing(cfg, t + [c]) == if cfg.isSpace(c) then Trailing(cfg, t) + 1 else 0
  {
    assert (text + [c])[..|text|] == text;
    assert (TrimLeft(cfg, text) + [c])[..|TrimLeft(cfg, text)|] == TrimLeft(cfg, text);
  }

  // One more character of an unquoted field.
  lemma StepRaw(cfg: Config, nl: byte, st: St, text: Bytes, c: byte)
    requires Distinguished(cfg, nl) && Between(st) && After(cfg, st, Raw(text)).Ok()
    requires c != cfg.delim && !cfg.isTerm(c) && (TrimLeft(cfg, text) == [] ==> c != cfg.quote)
    ensures After(cfg, st, Raw(text + [c])).Ok()
    ensures Step(cfg, After(cfg, st, Raw(text)), c)
            == if cfg.strict && c == cfg.quote then None else Some(After(cfg, st, Raw(text + [c])))
  {
    TrimGrows(cfg, text, c);
    assert Trailing(cfg, []) == 0;
  }

  lemma CellOkFront(cfg: Config, text: Bytes, c: byte)
    requires CellOk(cfg, Raw(text + [c]))
    ensures CellOk(cfg, Raw(text)) && c != cfg.delim && !cfg.isTerm(c)
    ensures !cfg.isSpace(c) && TrimLeft(cfg, text) == [] ==> c != cfg.quote
  {
    TrimGrows(cfg, text, c);
    var whole := text + [c];
    assert whole[|text|] == c && forall i :: 0 <= i < |text| ==> text[i] == whole[i];
  }

  lemma {:induction false} FeedRaw(cfg: Config, nl: byte, st: St, text: Bytes)
    requires Distinguished(cfg, nl) && Between(st) && CellOk(cfg, Raw(text))
    ensures After(cfg, st, Raw(text)).Ok()
    ensures Feed(cfg, st, text)
            == if cfg.strict && cfg.quote in text then None else Some(After(cfg, st, Raw(text)))
  {
    if |text| > 0 {
      var front, c := text[..|text| - 1], text[|text| - 1];
      assert text == front + [c];
      CellOkFront(cfg, front, c);
      FeedRaw(cfg, nl, st, front);
      StepRaw(cfg, nl, st, front, c);
      FeedOne(cfg, st, front, c);
    }
  }

  lemma {:induction false} FeedBlank(cfg: Config, st: St, s: Bytes)
    requires Between(st) && IsBlank(cfg, s)
    ensures Feed(cfg, st, s) == Some(st)
  {
    if |s| > 0 {
      FeedBlank(cfg, st, s[..|s| - 1]);
    }
  }

  lemma {:induction false} FeedBlankBehind(cfg: Config, nl: byte, value: Bytes, out: seq<Event>, s: Bytes)
    requires Compatible(cfg, nl) && IsBlank(cfg, s)
    ensures Feed(cfg, Behind(cfg, value, out), s)
            == Some(St(MightHaveEnded, true, |s|, value + [cfg.quote] + s, out))
  {
    if |s| > 0 {
      FeedBlankBehind(cfg, nl, value, out, s[..|s| - 1]);
      assert value + [cfg.quote] + s == value + [cfg.quote] + s[..|s| - 1] + [s[|s| - 1]];
    } else {
      assert value + [cfg.quote] + s == value + [cfg.quote];
    }
  }

  lemma FeedCell(cfg: Config, nl: byte, st: St, cell: Cell)
    requires Distinguished(cfg, nl) && Between(st) && CellOk(cfg, cell)
    ensures After(cfg, st, cell).Ok()
    ensures Feed(cfg, st, CellText(cfg, cell))
            == if cfg.strict && StrayQuote(cfg, cell) then None else Some(After(cfg, st, cell))
  {
    match cell
    case Raw(text) => FeedRaw(cfg, nl, st, text);
    case InQuotes(left, value, right) =>
      FeedBlank(cfg, st, left);
      FeedInPieces(cfg, st, left, Quoted(value, cfg.quote));
      FeedQuoted(cfg, nl, st, value);
      FeedInPieces(cfg, st, left + Quoted(value, cfg.quote), right);
      FeedBlankBehind(cfg, nl, value, st.out, right);
  }

  // A delimiter gives the field away, and so does a row end unless nothing of the row has been seen.
  lemma StepAfter(cfg: Config, nl: byte, st: St, cell: Cell)
    requires Distinguished(cfg, nl) && Between(st) && CellOk(cfg, cell) && After(cfg, st, cell).Ok()
    ensures Step(cfg, After(cfg, st, cell), cfg.delim)
            == Some(St(FieldNotBegun, false, 0, [], st.out + [CellEvent(cfg, cell)]))
    ensures After(cfg, st, cell).pstate != RowNotBegun ==>
      Step(cfg, After(cfg, st, cell), nl)
      == Some(St(RowNotBegun, false, 0, [], st.out + [CellEvent(cfg, cell)] + [Row(nl)]))
    ensures After(cfg, st, cell).pstate == RowNotBegun ==>
      Step(cfg, After(cfg, st, cell), nl) == Some(st.(out := st.out + if cfg.repallNl then [Row(nl)] else []))
  {
    match cell
    case Raw(text) =>
      assert Trailing(cfg, []) == 0;
      assert st.out + [] == st.out;
    case InQuotes(left, value, right) => assert (value + [cfg.quote] + right)[..|value|] == value;
  }

  // ---- rows -----------------------------------------------------------------------------------------------

  function RowText(cfg: Config, row: seq<Cell>): Bytes {
    if |row| == 0 then []
    else if |row| == 1 then CellText(cfg, row[0])
    else RowText(cfg, row[..|row| - 1]) + [cfg.delim] + CellText(cfg, row[|row| - 1])
  }

  function CellEvents(cfg: Config, row: seq<Cell>): seq<Event> {
    if |row| == 0 then [] else CellEvents(cfg, row[..|row| - 1]) + [CellEvent(cfg, row[|row| - 1])]
  }

  /** Nothing but blanks is in the row. */
  predicate BlankLine(cfg: Config, row: seq<Cell>) {
    |row| == 1 && row[0].Raw? && Trim(cfg, row[0].text) == []
  }

  function RowEvents(cfg: Config, row: seq<Cell>, c: int): seq<Event> {
    if BlankLine(cfg, row) then if cfg.repallNl then [Row(c)] else []
    else CellEvents(cfg, row) + [Row(c)]
  }

  ghost predicate RowOk(cfg: Config, row: seq<Cell>) {
    |row| > 0 && forall i {:trigger CellOk(cfg, row[i])} :: 0 <= i < |row| ==> CellOk(cfg, row[i])
  }

  /** What strict mode does not accept. */
  ghost predicate Stray(cfg: Config, row: seq<Cell>) {
    exists i :: 0 <= i < |row| && StrayQuote(cfg, row[i])
  }

  // The state before the last cell of a row.
  function BeforeLast(cfg: Config, st: St, row: seq<Cell>): St
    requires |row| > 0
  {
    if |row| == 1 then st else St(FieldNotBegun, false, 0, [], st.out + CellEvents(cfg, row[..|row| - 1]))
  }

  lemma {:induction false} FeedCells(cfg: Config, nl: byte, st: St, row: seq<Cell>)
    requires Distinguished(cfg, nl) && st.Ok() && st.pstate == RowNotBegun && RowOk(cfg, row)
    ensures After(cfg, BeforeLast(cfg, st, row), row[|row| - 1]).Ok()
    ensures Feed(cfg, st, RowText(cfg, row))
            == if cfg.strict && Stray(cfg, row) then None
               else Some(After(cfg, BeforeLast(cfg, st, row), row[|row| - 1]))
  {
    var n := |row| - 1;
    assert CellOk(cfg, row[n]);
    FeedCell(cfg, nl, BeforeLast(cfg, st, row), row[n]);
    if n > 0 {
      var front := row[..n];
      forall i | 0 <= i < n ensures CellOk(cfg, front[i]) { assert CellOk(cfg, row[i]); }
      FeedCells(cfg, nl, st, front);
      StrayInFront(cfg, row);
      var before := BeforeLast(cfg, st, front);
      StepAfter(cfg, nl, before, front[n - 1]);
      FeedOne(cfg, st, RowText(cfg, front), cfg.delim);
      FeedInPieces(cfg, st, RowText(cfg, front) + [cfg.delim], CellText(cfg, row[n]));
      EventsGrow(cfg, st, front);
    }
  }

  lemma StrayInFront(cfg: Config, row: seq<Cell>)
    requires |row| > 0
    ensures Stray(cfg, row) <==> Stray(cfg, row[..|row| - 1]) || StrayQuote(cfg, row[|row| - 1])
  {
    var n := |row| - 1;
    if Stray(cfg, row) {
      var i :| 0 <= i < |row| && StrayQuote(cfg, row[i]);
      assert i < n ==> StrayQuote(cfg, row[..n][i]);
    }
    if Stray(cfg, row[..n]) {
      var i :| 0 <= i < n && StrayQuote(cfg, row[..n][i]);
      assert StrayQuote(cfg, row[i]);
    }
  }

  lemma EventsGrow(cfg: Config, st: St, row: seq<Cell>)
    requires |row| > 0
    ensures BeforeLast(cfg, st, row).out + [CellEvent(cfg, row[|row| - 1])] == st.out + CellEvents(cfg, row)
  {
    if |row| == 1 {
      assert row[..0] == [];
    }
  }

  /**
   * A row of any cells, ended by nl: every field is given away, trimmed if it is not in quotes, and then the end of
   * the row; a line of blanks is no row, or with CSV_REPALL_NL a row without fields. In strict mode the row is
   * refused exactly if a quote is inside an unquoted field; otherwise such a quote belongs to the field.
   */
  lemma FeedTextRow(cfg: Config, nl: byte, st: St, row: seq<Cell>)
    requires Distinguished(cfg, nl) && st.Ok() && st.pstate == RowNotBegun && RowOk(cfg, row)
    ensures Feed(cfg, st, RowText(cfg, row) + [nl])
            == if cfg.strict && Stray(cfg, row) then None else Some(st.(out := st.out + RowEvents(cfg, row, nl)))
  {
    FeedCells(cfg, nl, st, row);
    FeedOne(cfg, st, RowText(cfg, row), nl);
    EndRow(cfg, nl, st, row);
  }

  // The row end behind the last cell.
  lemma EndRow(cfg: Config, nl: byte, st: St, row: seq<Cell>)
    requires Distinguished(cfg, nl) && st.Ok() && st.pstate == RowNotBegun && |row| > 0
    requires CellOk(cfg, row[|row| - 1]) && After(cfg, BeforeLast(cfg, st, row), row[|row| - 1]).Ok()
    ensures Step(cfg, After(cfg, BeforeLast(cfg, st, row), row[|row| - 1]), nl)
            == Some(st.(out := st.out + RowEvents(cfg, row, nl)))
  {
    StepAfter(cfg, nl, BeforeLast(cfg, st, row), row[|row| - 1]);
    EventsGrow(cfg, st, row);
    BlankLineIs(cfg, st, row);
    assert st.out + CellEvents(cfg, row) + [Row(nl)] == st.out + (CellEvents(cfg, row) + [Row(nl)]);
  }

  lemma BlankLineIs(cfg: Config, st: St, row: seq<Cell>)
    requires st.Ok() && st.pstate == RowNotBegun && |row| > 0
    ensures BlankLine(cfg, row) <==> After(cfg, BeforeLast(cfg, st, row), row[|row| - 1]).pstate == RowNotBegun
  {
    if |row| == 1 && row[0].Raw? {
      TrimIsEmpty(cfg, row[0].text);
    }
  }

  /** The same row at the end of the input, without its row end. */
  lemma TextRowAtFini(cfg: Config, nl: byte, st: St, row: seq<Cell>)
    requires Distinguished(cfg, nl) && st.Ok() && st.pstate == RowNotBegun && RowOk(cfg, row)
    requires !cfg.strict || !Stray(cfg, row)
    ensures var r := Feed(cfg, st, RowText(cfg, row));
            && r.Some?
            && Fini(cfg, r.value)
               == Some(st.(out := st.out + if BlankLine(cfg, row) then [] else CellEvents(cfg, row) + [Row(-1)]))
  {
    FeedCells(cfg, nl, st, row);
    FiniRow(cfg, nl, st, row);
  }

  lemma FiniRow(cfg: Config, nl: byte, st: St, row: seq<Cell>)
    requires Distinguished(cfg, nl) && st.Ok() && st.pstate == RowNotBegun && |row| > 0
    requires CellOk(cfg, row[|row| - 1]) && After(cfg, BeforeLast(cfg, st, row), row[|row| - 1]).Ok()
    ensures Fini(cfg, After(cfg, BeforeLast(cfg, st, row), row[|row| - 1]))
            == Some(st.(out := st.out + if BlankLine(cfg, row) then [] else CellEvents(cfg, row) + [Row(-1)]))
  {
    EventsGrow(cfg, st, row);
    BlankLineIs(cfg, st, row);
    FiniAfter(cfg, BeforeLast(cfg, st, row), row[|row| - 1]);
    assert st.out + CellEvents(cfg, row) + [Row(-1)] == st.out + (CellEvents(cfg, row) + [Row(-1)]);
    assert st.out + [] == st.out;
  }

  lemma FiniAfter(cfg: Config, st: St, cell: Cell)
    requires Between(st) && After(cfg, st, cell).Ok()
    ensures After(cfg, st, cell).pstate != RowNotBegun ==>
      Fini(cfg, After(cfg, st, cell))
      == Some(St(RowNotBegun, false, 0, [], st.out + [CellEvent(cfg, cell)] + [Row(-1)]))
    ensures After(cfg, st, cell).pstate == RowNotBegun ==> Fini(cfg, After(cfg, st, cell)) == Some(st)
  {
    match cell
    case Raw(text) => assert Trailing(cfg, []) == 0;
    case InQuotes(left, value, right) => assert (value + [cfg.quote] + right)[..|value|] == value;
  }

  /** A quoted field that the input does not close: csv_fini refuses it if both strict options are set. */
  lemma UnclosedAtFini(cfg: Config, nl: byte, st: St, left: Bytes, value: Bytes)
    requires Distinguished(cfg, nl) && Between(st) && IsBlank(cfg, left)
    ensures var r := Feed(cfg, st, left + [cfg.quote] + Escape(value, cfg.quote));
            && r.Some?
            && Fini(cfg, r.value) == if cfg.strict && cfg.strictFini then None
                                     else Some(St(RowNotBegun, false, 0, [], st.out + [Field(value)] + [Row(-1)]))
  {
    FeedBlank(cfg, st, left);
    FeedOne(cfg, st, left, cfg.quote);
    FeedInPieces(cfg, st, left + [cfg.quote], Escape(value, cfg.quote));
    FeedEscaped(cfg, nl, value, st.out);
  }

  // ---- whole files ----------------------------------------------------------------------------------------------

  function FileText(cfg: Config, rows: seq<seq<Cell>>, nl: byte): Bytes {
    if |rows| == 0 then [] else FileText(cfg, rows[..|rows| - 1], nl) + (RowText(cfg, rows[|rows| - 1]) + [nl])
  }

  function FileEvents(cfg: Config, rows: seq<seq<Cell>>, nl: byte): seq<Event> {
    if |rows| == 0 then [] else FileEvents(cfg, rows[..|rows| - 1], nl) + RowEvents(cfg, rows[|rows| - 1], nl)
  }

  ghost predicate FileOk(cfg: Config, rows: seq<seq<Cell>>) {
    forall i {:trigger RowOk(cfg, rows[i])} :: 0 <= i < |rows| ==> RowOk(cfg, rows[i])
  }

  ghost predicate StrayInFile(cfg: Config, rows: seq<seq<Cell>>) {
    exists i :: 0 <= i < |rows| && Stray(cfg, rows[i])
  }

  /** The same for whole files. */
  lemma {:induction false} FeedFile(cfg: Config, nl: byte, rows: seq<seq<Cell>>)
    requires Distinguished(cfg, nl) && FileOk(cfg, rows)
    ensures Feed(cfg, INITIAL, FileText(cfg, rows, nl))
            == if cfg.strict && StrayInFile(cfg, rows) then None
               else Some(INITIAL.(out := FileEvents(cfg, rows, nl)))
  {
    if |rows| > 0 {
      var front, row := rows[..|rows| - 1], rows[|rows| - 1];
      assert RowOk(cfg, row);
      forall i | 0 <= i < |front| ensures RowOk(cfg, front[i]) { assert RowOk(cfg, rows[i]); }
      FeedFile(cfg, nl, front);
      StrayFront(cfg, rows);
      FeedInPieces(cfg, INITIAL, FileText(cfg, front, nl), RowText(cfg, row) + [nl]);
      FeedTextRow(cfg, nl, INITIAL.(out := FileEvents(cfg, front, nl)), row);
    }
  }

  lemma StrayFront(cfg: Config, rows: seq<seq<Cell>>)
    requires |rows| > 0
    ensures StrayInFile(cfg, rows) <==> StrayInFile(cfg, rows[..|rows| - 1]) || Stray(cfg, rows[|rows| - 1])
  {
    var n := |rows| - 1;
    if StrayInFile(cfg, rows[..n]) {
      var i :| 0 <= i < n && Stray(cfg, rows[..n][i]);
      assert Stray(cfg, rows[i]);
    }
    if StrayInFile(cfg, rows) {
      var i :| 0 <= i < |rows| && Stray(cfg, rows[i]);
      assert i < n ==> Stray(cfg, rows[..n][i]);
    }
  }

  // ---- text behind a closing quote ----------------------------------------------------------------------------------

  /**
   * What follows a closing quote and any blanks. A delimiter or row end gives the value away without the blanks. In
   * strict mode anything else is refused, but for a quote without blanks, which is one quote of the value. Otherwise
   * the closing quote and the blanks belong to the value: another quote closes it again, other text goes on inside.
   */
  lemma BehindClosingQuote(cfg: Config, nl: byte, value: Bytes, out: seq<Event>, blanks: Bytes, c: byte)
    requires Compatible(cfg, nl) && IsBlank(cfg, blanks) && !IsBlank(cfg, [c])
    ensures var r := Feed(cfg, Behind(cfg, value, out), blanks + [c]);
            var longer := value + [cfg.quote] + blanks;
            if c == cfg.delim then r == Some(St(FieldNotBegun, false, 0, [], out + [Field(value)]))
            else if cfg.isTerm(c) then r == Some(St(RowNotBegun, false, 0, [], out + [Field(value)] + [Row(c)]))
            else if c == cfg.quote && blanks == [] then r == Some(Inside(value + [c], out))
            else if cfg.strict then r == None
            else if c == cfg.quote then r == Some(Behind(cfg, longer, out))
            else r == Some(Inside(longer + [c], out))
  {
    FeedBlankBehind(cfg, nl, value, out, blanks);
    FeedOne(cfg, Behind(cfg, value, out), blanks, c);
    assert [c][0] == c;
    assert (value + [cfg.quote] + blanks)[..|value|] == value;
    assert value + [cfg.quote] + [] == value + [cfg.quote];
  }
}
