/** What lib/libcsv/libcsv.c does with each character of its input, and the writer's output. */
module CsvSpec {
  import opened Basics

  /** The options and characters of a parser. */
  datatype Config = Config(strict: bool, repallNl: bool, strictFini: bool, appendNull: bool, emptyIsNull: bool,
                           quote: byte, delim: byte, isSpace: byte -> bool, isTerm: byte -> bool)

  datatype PState = RowNotBegun | FieldNotBegun | FieldBegun | MightHaveEnded

  /** The calls of the two callbacks: a field, the null pointer in place of an empty one, or the end of a row. */
  datatype Event = Field(value: Bytes) | NullField | Row(c: int)

  /** The parser between two characters: entry is the part of the buffer in use. */
  datatype St = St(pstate: PState, quoted: bool, spaces: nat, entry: Bytes, out: seq<Event>) {
    predicate Ok() {
      match pstate
      case RowNotBegun => !quoted && spaces == 0 && entry == []
      case FieldNotBegun => !quoted && spaces == 0 && entry == []
      case FieldBegun => if quoted then spaces == 0 else spaces <= |entry|
      case MightHaveEnded => quoted && spaces + 1 <= |entry|
    }
  }

  function FieldEvent(cfg: Config, quoted: bool, value: Bytes): Event {
    if cfg.emptyIsNull && !quoted && value == [] then NullField else Field(value)
  }

  function SubmitField(cfg: Config, st: St): St
    requires st.quoted || st.spaces <= |st.entry|
  {
    var value := if st.quoted then st.entry else st.entry[..|st.entry| - st.spaces];
    St(FieldNotBegun, false, 0, [], st.out + [FieldEvent(cfg, st.quoted, value)])
  }

  function SubmitRow(st: St, c: int): St {
    St(RowNotBegun, false, 0, [], st.out + [Row(c)])
  }

  /** The entry without the spaces after the closing quote and without that quote. */
  function Closed(st: St): St
    requires st.Ok() && st.pstate == MightHaveEnded
  {
    st.(entry := st.entry[..|st.entry| - st.spaces - 1])
  }

  /** One character; None is a parse error in strict mode. */
  function Step(cfg: Config, st: St, c: byte): Option<St>
    requires st.Ok()
  {
    match st.pstate
    case FieldBegun =>
      if c == cfg.quote then
        if st.quoted then Some(st.(entry := st.entry + [c], pstate := MightHaveEnded))
        else if cfg.strict then None
        else Some(st.(entry := st.entry + [c], spaces := 0))
      else if c == cfg.delim then
        Some(if st.quoted then st.(entry := st.entry + [c]) else SubmitField(cfg, st))
      else if cfg.isTerm(c) then
        Some(if st.quoted then st.(entry := st.entry + [c]) else SubmitRow(SubmitField(cfg, st), c))
      else if !st.quoted && cfg.isSpace(c) then
        Some(st.(entry := st.entry + [c], spaces := st.spaces + 1))
      else
        Some(st.(entry := st.entry + [c], spaces := 0))
    case MightHaveEnded =>
      if c == cfg.delim then
        Some(SubmitField(cfg, Closed(st)))
      else if cfg.isTerm(c) then
        Some(SubmitRow(SubmitField(cfg, Closed(st)), c))
      else if cfg.isSpace(c) then
        Some(st.(entry := st.entry + [c], spaces := st.spaces + 1))
      else if c == cfg.quote then
        if st.spaces > 0 then
          if cfg.strict then None else Some(st.(spaces := 0, entry := st.entry + [c]))
        else Some(st.(pstate := FieldBegun))
      else if cfg.strict then None
      else Some(st.(pstate := FieldBegun, spaces := 0, entry := st.entry + [c]))
    case _ =>
      if cfg.isSpace(c) && c != cfg.delim then Some(st)
      else if cfg.isTerm(c) then
        if st.pstate == FieldNotBegun then Some(SubmitRow(SubmitField(cfg, st), c))
        else if cfg.repallNl then Some(SubmitRow(st, c))
        else Some(st)
      else if c == cfg.delim then Some(SubmitField(cfg, st))
      else if c == cfg.quote then Some(st.(pstate := FieldBegun, quoted := true))
      else Some(st.(pstate := FieldBegun, quoted := false, entry := st.entry + [c]))
  }

  lemma StepKeeps(cfg: Config, st: St, c: byte)
    requires st.Ok()
    ensures Step(cfg, st, c).Some? ==> Step(cfg, st, c).value.Ok()
    ensures Step(cfg, st, c).Some? ==> |Step(cfg, st, c).value.entry| <= |st.entry| + 1
  {
  }

  /** The whole of an input, up to the first error. */
  function Feed(cfg: Config, st: St, s: Bytes): (r: Option<St>)
    requires st.Ok()
    ensures r.Some? ==> r.value.Ok()
  {
    if |s| == 0 then Some(st)
    else match Feed(cfg, st, s[..|s| - 1])
         case None => None
         case Some(st') =>
           StepKeeps(cfg, st', s[|s| - 1]);
           Step(cfg, st', s[|s| - 1])
  }

  /** Parsing in pieces is parsing the whole. */
  lemma {:induction false} FeedInPieces(cfg: Config, st: St, a: Bytes, b: Bytes)
    requires st.Ok()
    ensures Feed(cfg, st, a + b) == match Feed(cfg, st, a) case None => None case Some(st') => Feed(cfg, st', b)
  {
    if |b| == 0 {
      assert a + b == a;
    } else {
      assert (a + b)[..|a + b| - 1] == a + b[..|b| - 1];
      FeedInPieces(cfg, st, a, b[..|b| - 1]);
    }
  }

  /** csv_fini; None is an unterminated quoted field where that is an error. */
  function Fini(cfg: Config, st: St): Option<St>
    requires st.Ok()
  {
    if st.pstate == FieldBegun && st.quoted && cfg.strict && cfg.strictFini then None
    else if st.pstate == RowNotBegun then Some(st)
    else Some(SubmitRow(SubmitField(cfg, if st.pstate == MightHaveEnded then Closed(st) else st), -1))
  }

  // ---- the writer ----------------------------------------------------------------------------------

  function Escape(s: Bytes, quote: byte): Bytes {
    if |s| == 0 then []
    else Escape(s[..|s| - 1], quote) + if s[|s| - 1] == quote then [quote, quote] else [s[|s| - 1]]
  }

  /** A field as the writer prints it. */
  function Quoted(s: Bytes, quote: byte): Bytes {
    [quote] + Escape(s, quote) + [quote]
  }

  function Quotes(s: Bytes, quote: byte): nat {
    if |s| == 0 then 0 else Quotes(s[..|s| - 1], quote) + if s[|s| - 1] == quote then 1 else 0
  }

  lemma {:induction false} QuotedLength(s: Bytes, quote: byte)
    ensures |Quoted(s, quote)| == |s| + 2 + Quotes(s, quote) && |Escape(s, quote)| == |s| + Quotes(s, quote)
  {
    if |s| > 0 {
      QuotedLength(s[..|s| - 1], quote);
    }
  }

  // ---- the round trip --------------------------------------------------------------------------------

  function PrintRow(cfg: Config, row: seq<Bytes>): Bytes {
    if |row| == 0 then []
    else if |row| == 1 then Quoted(row[0], cfg.quote)
    else PrintRow(cfg, row[..|row| - 1]) + [cfg.delim] + Quoted(row[|row| - 1], cfg.quote)
  }

  function Print(cfg: Config, rows: seq<seq<Bytes>>, nl: byte): Bytes {
    if |rows| == 0 then []
    else Print(cfg, rows[..|rows| - 1], nl) + PrintRow(cfg, rows[|rows| - 1]) + [nl]
  }

  function Fields(row: seq<Bytes>): seq<Event> {
    if |row| == 0 then [] else Fields(row[..|row| - 1]) + [Field(row[|row| - 1])]
  }

  function Events(rows: seq<seq<Bytes>>, nl: byte): seq<Event> {
    if |rows| == 0 then []
    else Events(rows[..|rows| - 1], nl) + Fields(rows[|rows| - 1]) + [Row(nl)]
  }

  /** The quote is told from delimiter, row end and blank; nl ends rows and is not the delimiter. */
  predicate Compatible(cfg: Config, nl: byte) {
    && cfg.quote != cfg.delim && !cfg.isTerm(cfg.quote) && !cfg.isSpace(cfg.quote)
    && cfg.isTerm(nl) && nl != cfg.delim
  }

  // The state inside a quoted field of which value was read, and the one after its closing quote.
  function Inside(value: Bytes, out: seq<Event>): St { St(FieldBegun, true, 0, value, out) }
  function Behind(cfg: Config, value: Bytes, out: seq<Event>): St
  {
    St(MightHaveEnded, true, 0, value + [cfg.quote], out)
  }

  lemma FeedOne(cfg: Config, st: St, a: Bytes, c: byte)
    requires st.Ok()
    ensures Feed(cfg, st, a + [c]) == match Feed(cfg, st, a) case None => None case Some(mid) => Step(cfg, mid, c)
  {
    assert (a + [c])[..|a + [c]| - 1] == a;
  }

  lemma {:induction false} FeedEscaped(cfg: Config, nl: byte, value: Bytes, out: seq<Event>)
    requires Compatible(cfg, nl)
    ensures Feed(cfg, Inside([], out), Escape(value, cfg.quote)) == Some(Inside(value, out))
  {
    if |value| > 0 {
      var n := |value| - 1;
      var q := cfg.quote;
      FeedEscaped(cfg, nl, value[..n], out);
      assert value == value[..n] + [value[n]];
      if value[n] == q {
        FeedOne(cfg, Inside([], out), Escape(value[..n], q), q);
        FeedOne(cfg, Inside([], out), Escape(value[..n], q) + [q], q);
        assert Escape(value, q) == Escape(value[..n], q) + [q] + [q];
      } else {
        FeedOne(cfg, Inside([], out), Escape(value[..n], q), value[n]);
      }
    }
  }

  /** A printed field at the start of a row or after a delimiter is read back, up to its closing quote. */
  lemma FeedQuoted(cfg: Config, nl: byte, st: St, value: Bytes)
    requires Compatible(cfg, nl) && st.Ok() && (st.pstate == RowNotBegun || st.pstate == FieldNotBegun)
    ensures Feed(cfg, st, Quoted(value, cfg.quote)) == Some(Behind(cfg, value, st.out))
  {
    var q := cfg.quote;
    var e := Escape(value, q);
    FeedOne(cfg, st, [], q);
    assert [] + [q] == [q];
    assert Feed(cfg, st, [q]) == Some(Inside([], st.out));
    FeedInPieces(cfg, st, [q], e);
    FeedEscaped(cfg, nl, value, st.out);
    FeedOne(cfg, st, [q] + e, q);
  }

  // A closing quote and a delimiter or a row end give the field away.
  lemma StepBehind(cfg: Config, nl: byte, value: Bytes, out: seq<Event>)
    requires Compatible(cfg, nl)
    ensures Step(cfg, Behind(cfg, value, out), cfg.delim) == Some(St(FieldNotBegun, false, 0, [], out + [Field(value)]))
    ensures Step(cfg, Behind(cfg, value, out), nl)
            == Some(St(RowNotBegun, false, 0, [], out + [Field(value)] + [Row(nl)]))
  {
    assert (value + [cfg.quote])[..|value|] == value;
  }

  lemma SliceTwice<T>(s: seq<T>, a: nat, b: nat)
    requires b <= a <= |s|
    ensures s[..a][..b] == s[..b]
  {
  }

  lemma {:induction false} FeedRow(cfg: Config, nl: byte, st: St, row: seq<Bytes>)
    requires Compatible(cfg, nl) && st.Ok() && st.pstate == RowNotBegun && |row| > 0
    ensures Feed(cfg, st, PrintRow(cfg, row)) == Some(Behind(cfg, row[|row| - 1], st.out + Fields(row[..|row| - 1])))
  {
    var n := |row| - 1;
    if n == 0 {
      FeedQuoted(cfg, nl, st, row[0]);
      assert st.out + Fields(row[..0]) == st.out;
    } else {
      FeedRow(cfg, nl, st, row[..n]);
      SliceTwice(row, n, n - 1);
      FeedNextField(cfg, nl, st, row, n, PrintRow(cfg, row[..n]), st.out + Fields(row[..n - 1]));
      FieldsGrow(st.out, row, n);
    }
  }

  // An input in three parts: a, one character c, and b.
  lemma FeedThen(cfg: Config, st: St, a: Bytes, c: byte, b: Bytes, mid: St, after: St)
    requires st.Ok() && Feed(cfg, st, a) == Some(mid) && mid.Ok() && Step(cfg, mid, c) == Some(after) && after.Ok()
    ensures Feed(cfg, st, a + [c] + b) == Feed(cfg, after, b)
  {
    FeedOne(cfg, st, a, c);
    FeedInPieces(cfg, st, a + [c], b);
  }

  lemma FieldsGrow(out: seq<Event>, row: seq<Bytes>, n: nat)
    requires 0 < n <= |row|
    ensures out + Fields(row[..n]) == out + Fields(row[..n - 1]) + [Field(row[n - 1])]
  {
    SliceTwice(row, n, n - 1);
  }

  lemma FeedNextField(cfg: Config, nl: byte, st: St, row: seq<Bytes>, n: nat, printed: Bytes, out: seq<Event>)
    requires Compatible(cfg, nl) && st.Ok() && 0 < n < |row|
    requires Feed(cfg, st, printed) == Some(Behind(cfg, row[n - 1], out))
    ensures Feed(cfg, st, printed + [cfg.delim] + Quoted(row[n], cfg.quote))
            == Some(Behind(cfg, row[n], out + [Field(row[n - 1])]))
  {
    var after := St(FieldNotBegun, false, 0, [], out + [Field(row[n - 1])]);
    StepBehind(cfg, nl, row[n - 1], out);
    FeedThen(cfg, st, printed, cfg.delim, Quoted(row[n], cfg.quote), Behind(cfg, row[n - 1], out), after);
    FeedQuoted(cfg, nl, after, row[n]);
  }

  ghost predicate NonEmptyRows(rows: seq<seq<Bytes>>) {
    forall i :: 0 <= i < |rows| ==> |rows[i]| > 0
  }

  const INITIAL := St(RowNotBegun, false, 0, [], [])

  lemma {:induction false} FeedPrinted(cfg: Config, nl: byte, rows: seq<seq<Bytes>>)
    requires Compatible(cfg, nl) && NonEmptyRows(rows)
    ensures Feed(cfg, INITIAL, Print(cfg, rows, nl)) == Some(INITIAL.(out := Events(rows, nl)))
  {
    if |rows| > 0 {
      var n := |rows| - 1;
      FeedPrinted(cfg, nl, rows[..n]);
      FeedPrintedRow(cfg, nl, rows);
    }
  }

  lemma FeedPrintedRow(cfg: Config, nl: byte, rows: seq<seq<Bytes>>)
    requires Compatible(cfg, nl) && |rows| > 0 && |rows[|rows| - 1]| > 0
    requires Feed(cfg, INITIAL, Print(cfg, rows[..|rows| - 1], nl))
             == Some(INITIAL.(out := Events(rows[..|rows| - 1], nl)))
    ensures Feed(cfg, INITIAL, Print(cfg, rows, nl)) == Some(INITIAL.(out := Events(rows, nl)))
  {
    var n := |rows| - 1;
    var row := rows[n];
    var before := Print(cfg, rows[..n], nl);
    var st := INITIAL.(out := Events(rows[..n], nl));
    FeedInPieces(cfg, INITIAL, before, PrintRow(cfg, row));
    FeedRow(cfg, nl, st, row);
    FeedOne(cfg, INITIAL, before + PrintRow(cfg, row), nl);
    StepBehind(cfg, nl, row[|row| - 1], st.out + Fields(row[..|row| - 1]));
    assert st.out + Fields(row[..|row| - 1]) + [Field(row[|row| - 1])] == st.out + Fields(row);
  }

  ghost predicate RoundTrip(cfg: Config, nl: byte, rows: seq<seq<Bytes>>) {
    Feed(cfg, INITIAL, Print(cfg, rows, nl)) == Some(INITIAL.(out := Events(rows, nl)))
  }

  lemma FeedTwo(cfg: Config, st: St, c: byte, d: byte)
    requires st.Ok()
    ensures Step(cfg, st, c).None? ==> Feed(cfg, st, [c, d]) == None
    ensures Step(cfg, st, c).Some? ==>
      Step(cfg, st, c).value.Ok() && Feed(cfg, st, [c, d]) == Step(cfg, Step(cfg, st, c).value, d)
  {
    StepKeeps(cfg, st, c);
    FeedOne(cfg, st, [], c);
    FeedOne(cfg, st, [c], d);
    assert [] + [c] == [c] && [c] + [d] == [c, d];
  }

  // What two quotes at the start do if the quote is also something else.
  lemma ClashingQuotes(cfg: Config, nl: byte)
    requires cfg.quote == cfg.delim || cfg.isTerm(cfg.quote) || cfg.isSpace(cfg.quote)
    ensures var r := Feed(cfg, INITIAL, [cfg.quote, cfg.quote]);
            && r.Some?
            && (r.value == INITIAL || (r.value.pstate == RowNotBegun && |r.value.out| > 0 && r.value.out[0].Row?)
                || (r.value.pstate == FieldNotBegun && |r.value.out| == 2 && !r.value.out[1].Row?))
  {
    FeedTwo(cfg, INITIAL, cfg.quote, cfg.quote);
  }

  lemma ClashLosesRowEnd(cfg: Config, st: St, nl: byte)
    requires st.Ok()
    requires st == INITIAL || (st.pstate == RowNotBegun && |st.out| > 0 && st.out[0].Row?)
             || (st.pstate == FieldNotBegun && |st.out| == 2 && !st.out[1].Row?)
    ensures Step(cfg, st, nl) != Some(INITIAL.(out := [Field([]), Row(nl)]))
  {
    var r := Step(cfg, st, nl);
    assert r.Some? ==> st.out <= r.value.out && |r.value.out| <= |st.out| + 2;
    assert st == INITIAL && r.Some? ==> |r.value.out| <= 1;
  }

  lemma ClashingRowEnd(cfg: Config, nl: byte)
    requires !cfg.isTerm(nl) || nl == cfg.delim
    ensures Step(cfg, Behind(cfg, [], []), nl) != Some(INITIAL.(out := [Field([]), Row(nl)]))
  {
  }

  /** One row with one empty field is not read back if the characters clash. */
  lemma ClashLosesEmptyField(cfg: Config, nl: byte)
    requires !Compatible(cfg, nl)
    ensures !RoundTrip(cfg, nl, [[[]]])
  {
    var q := cfg.quote;
    var empty: Bytes := [];
    var rows: seq<seq<Bytes>> := [[empty]];
    assert rows[..0] == [] && Escape(empty, q) == [];
    assert Print(cfg, rows, nl) == [q, q] + [nl];
    assert Events(rows, nl) == [Field(empty), Row(nl)] by { assert Fields([empty]) == [Field(empty)]; }
    if q == cfg.delim || cfg.isTerm(q) || cfg.isSpace(q) {
      ClashingQuotes(cfg, nl);
      FeedOne(cfg, INITIAL, [q, q], nl);
      ClashLosesRowEnd(cfg, Feed(cfg, INITIAL, [q, q]).value, nl);
    } else {
      FeedOne(cfg, INITIAL, [], q);
      FeedOne(cfg, INITIAL, [q], q);
      assert [] + [q] == [q] && [q] + [q] == [q, q] && empty + [q] == [q];
      assert Feed(cfg, INITIAL, [q, q]) == Some(Behind(cfg, empty, []));
      FeedOne(cfg, INITIAL, [q, q], nl);
      ClashingRowEnd(cfg, nl);
    }
  }

  /**
   * Every list of non-empty rows of any bytes, printed with quotes, is read back as it was, strict or not,
   * exactly if quote, delimiter, row end and blanks do not clash.
   */
  lemma RoundTripIffCompatible(cfg: Config, nl: byte)
    ensures Compatible(cfg, nl) <==> forall rows :: NonEmptyRows(rows) ==> RoundTrip(cfg, nl, rows)
  {
    if Compatible(cfg, nl) {
      forall rows | NonEmptyRows(rows) ensures RoundTrip(cfg, nl, rows) { FeedPrinted(cfg, nl, rows); }
    } else {
      ClashLosesEmptyField(cfg, nl);
      var rows: seq<seq<Bytes>> := [[[]]];
      assert NonEmptyRows(rows) && !RoundTrip(cfg, nl, rows);
    }
  }

  /** A last row without its row end is given away by csv_fini. */
  lemma LastRowAtFini(cfg: Config, nl: byte, rows: seq<seq<Bytes>>, row: seq<Bytes>)
    requires Compatible(cfg, nl) && NonEmptyRows(rows) && |row| > 0
    ensures var r := Feed(cfg, INITIAL, Print(cfg, rows, nl) + PrintRow(cfg, row));
            && r.Some?
            && Fini(cfg, r.value) == Some(INITIAL.(out := Events(rows, nl) + Fields(row) + [Row(-1)]))
  {
    var n := |row| - 1;
    var st := INITIAL.(out := Events(rows, nl));
    FeedPrinted(cfg, nl, rows);
    FeedInPieces(cfg, INITIAL, Print(cfg, rows, nl), PrintRow(cfg, row));
    FeedRow(cfg, nl, st, row);
    assert (row[n] + [cfg.quote])[..|row[n]|] == row[n];
    assert st.out + Fields(row[..n]) + [Field(row[n])] == st.out + Fields(row);
  }
}
