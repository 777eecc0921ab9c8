/** The parser and writer of lib/libcsv/libcsv.c, with their buffers, against CsvSpec. */
module Csv {
  import opened Basics
  import opened CsvSpec

  const SIZE_MAX := 0xFFFF_FFFF_FFFF_FFFF

  const CSV_SUCCESS := 0
  const CSV_EPARSE := 1
  const CSV_ENOMEM := 2
  const CSV_ETOOBIG := 3

  /** What csv_increase_buffer tries to add first, and after k refusals. */
  function ToAdd(blk: nat, size: nat): int {
    if size >= SIZE_MAX - blk then SIZE_MAX - size else blk
  }

  function Halved(n: int, k: nat): int {
    if k == 0 then n else Halved(n, k - 1) / 2
  }

  /** Each attempt was for half as much more as the one before. */
  ghost predicate Tried(size: nat, add: int, no: seq<nat>) {
    forall j :: 0 <= j < |no| ==> no[j] == size + Halved(add, j)
  }

  /** The loop around realloc: what can be added in the end, and the sizes refused before. */
  method Attempts(size: nat, add: nat) returns (toAdd: nat, no: seq<nat>)
    requires add > 0
    ensures toAdd == Halved(add, |no|) && Tried(size, add, no)
    ensures toAdd <= add && (toAdd == 0 ==> |no| > 0 && no[|no| - 1] == size + 1)
  {
    toAdd, no := add, [];
    var got: bool := *;
    while !got
      invariant 0 < toAdd <= add && toAdd == Halved(add, |no|) && Tried(size, add, no)
      decreases toAdd
    {
      no := no + [size + toAdd];
      toAdd := toAdd / 2;
      if toAdd == 0 {
        return;
      }
      got := *;
    }
  }

  class Parser {
    const cfg: Config
    const blkSize: nat
    var entryBuf: array?<byte>
    var pstate: PState
    var quoted: bool
    var spaces: nat
    var entryPos: nat
    var entrySize: nat
    var status: int
    /** The callbacks made so far. */
    var out: seq<Event>
    /** The sizes that realloc has refused so far. */
    var refused: seq<nat>

    ghost predicate BufferOk()
      reads this, entryBuf
    {
      if entryBuf == null then entrySize == 0 && entryPos == 0 && pstate == RowNotBegun
      else entryBuf.Length == entrySize && entryPos + (if cfg.appendNull then 1 else 0) <= entrySize <= SIZE_MAX
    }

    ghost function S(): St
      reads this, entryBuf
      requires BufferOk()
    {
      St(pstate, quoted, spaces, if entryBuf == null then [] else entryBuf[..entryPos], out)
    }

    ghost predicate Valid()
      reads this, entryBuf
    {
      blkSize <= SIZE_MAX && BufferOk() && S().Ok()
    }

    /** No room for another character, and no larger buffer to be had: too big already, or just refused by realloc. */
    ghost predicate OutOfMemory(before: nat)
      reads this
    {
      && (entryBuf == null || entryPos + (if cfg.appendNull then 1 else 0) == entrySize)
      && if status == CSV_ETOOBIG then blkSize == 0 || entrySize == SIZE_MAX
         else status == CSV_ENOMEM && |refused| > before && refused[|refused| - 1] == entrySize + 1
    }

    constructor (c: Config, blk: nat)
      requires blk <= SIZE_MAX
      ensures Valid() && cfg == c && blkSize == blk && S() == INITIAL && status == CSV_SUCCESS && entryBuf == null
      ensures refused == []
    {
      cfg, blkSize := c, blk;
      entryBuf := null;
      pstate, quoted, spaces, entryPos, entrySize, status := RowNotBegun, false, 0, 0, 0, CSV_SUCCESS;
      out, refused := [], [];
    }

    /**
     * A larger buffer with the same contents: by the block size or as much of it as SIZE_MAX allows, halved as often as
     * realloc refuses it. It fails only if there is nothing to add, or if realloc refused even one byte more.
     */
    method IncreaseBuffer() returns (ok: bool, ghost no: seq<nat>)
      requires Valid()
      modifies this
      ensures Valid() && S() == old(S()) && refused == old(refused) + no
      ensures Tried(old(entrySize), ToAdd(blkSize, old(entrySize)), no)
      ensures ok ==> fresh(entryBuf) && status == old(status)
                     && old(entrySize) < entrySize == old(entrySize) + Halved(ToAdd(blkSize, old(entrySize)), |no|)
      ensures !ok ==> entryBuf == old(entryBuf) && entrySize == old(entrySize)
      ensures !ok ==> if ToAdd(blkSize, entrySize) == 0 then no == [] && status == CSV_ETOOBIG
                      else no != [] && no[|no| - 1] == entrySize + 1 && status == CSV_ENOMEM
    {
      no := [];
      var toAdd := blkSize;
      if entrySize >= SIZE_MAX - toAdd {
        toAdd := SIZE_MAX - entrySize;
      }
      if toAdd == 0 {
        ok, status := false, CSV_ETOOBIG;
        return;
      }
      var sizes;
      toAdd, sizes := Attempts(entrySize, toAdd);
      no := sizes;
      refused := refused + sizes;
      if toAdd == 0 {
        ok, status := false, CSV_ENOMEM;
        return;
      }
      entryBuf := Realloc(entryBuf, entrySize, entrySize + toAdd);
      entrySize := entrySize + toAdd;
      ok := true;
    }

    // One case of the switch of csv_parse each; false is a parse error, which leaves the state alone.

    method CharInField(c: byte) returns (ok: bool)
      requires Valid() && pstate == FieldBegun && entryBuf != null
               && entryPos < entrySize - (if cfg.appendNull then 1 else 0)
      modifies this, entryBuf
      ensures Valid() && entryBuf == old(entryBuf) && entrySize == old(entrySize) && status == old(status)
      ensures refused == old(refused)
      ensures Step(cfg, old(S()), c) == if ok then Some(S()) else None
      ensures !ok ==> S() == old(S())
    {
      ok := true;
      if c == cfg.quote {
        if quoted {
          SubmitChar(c);
          pstate := MightHaveEnded;
        } else {
          if cfg.strict {
            return false;
          }
          SubmitChar(c);
          spaces := 0;
        }
      } else if c == cfg.delim {
        if quoted {
          SubmitChar(c);
        } else {
          SubmitField();
        }
      } else if cfg.isTerm(c) {
        if !quoted {
          SubmitField();
          SubmitRow(c);
        } else {
          SubmitChar(c);
        }
      } else if !quoted && cfg.isSpace(c) {
        SubmitChar(c);
        spaces := spaces + 1;
      } else {
        SubmitChar(c);
        spaces := 0;
      }
    }

    method CharAfterQuote(c: byte) returns (ok: bool)
      requires Valid() && pstate == MightHaveEnded && entryBuf != null
               && entryPos < entrySize - (if cfg.appendNull then 1 else 0)
      modifies this, entryBuf
      ensures Valid() && entryBuf == old(entryBuf) && entrySize == old(entrySize) && status == old(status)
      ensures refused == old(refused)
      ensures Step(cfg, old(S()), c) == if ok then Some(S()) else None
      ensures !ok ==> S() == old(S())
    {
      ok := true;
      if c == cfg.delim {
        DropClosingQuote();
        SubmitField();
      } else if cfg.isTerm(c) {
        DropClosingQuote();
        SubmitField();
        SubmitRow(c);
      } else if cfg.isSpace(c) {
        SubmitChar(c);
        spaces := spaces + 1;
      } else if c == cfg.quote {
        if spaces > 0 {
          if cfg.strict {
            return false;
          }
          spaces := 0;
          SubmitChar(c);
        } else {
          pstate := FieldBegun;
        }
      } else {
        if cfg.strict {
          return false;
        }
        pstate := FieldBegun;
        spaces := 0;
        SubmitChar(c);
      }
    }

    method CharBetween(c: byte) returns (ok: bool)
      requires Valid() && (pstate == RowNotBegun || pstate == FieldNotBegun) && entryBuf != null
               && entryPos < entrySize - (if cfg.appendNull then 1 else 0)
      modifies this, entryBuf
      ensures Valid() && entryBuf == old(entryBuf) && entrySize == old(entrySize) && status == old(status)
      ensures refused == old(refused)
      ensures Step(cfg, old(S()), c) == if ok then Some(S()) else None
      ensures !ok ==> S() == old(S())
    {
      ok := true;
      if cfg.isSpace(c) && c != cfg.delim {
      } else if cfg.isTerm(c) {
        if pstate == FieldNotBegun {
          SubmitField();
          SubmitRow(c);
        } else if cfg.repallNl {
          SubmitRow(c);
        }
      } else if c == cfg.delim {
        SubmitField();
      } else if c == cfg.quote {
        pstate := FieldBegun;
        quoted := true;
      } else {
        pstate := FieldBegun;
        quoted := false;
        SubmitChar(c);
      }
    }

    method Char(c: byte) returns (ok: bool)
      requires Valid() && entryBuf != null && entryPos < entrySize - (if cfg.appendNull then 1 else 0)
      modifies this, entryBuf
      ensures Valid() && entryBuf == old(entryBuf) && entrySize == old(entrySize) && status == old(status)
      ensures refused == old(refused)
      ensures Step(cfg, old(S()), c) == if ok then Some(S()) else None
      ensures !ok ==> S() == old(S())
    {
      match pstate {
        case FieldBegun => ok := CharInField(c);
        case MightHaveEnded => ok := CharAfterQuote(c);
        case _ => ok := CharBetween(c);
      }
    }

    method DropClosingQuote()
      requires Valid() && pstate == MightHaveEnded
      modifies this
      ensures BufferOk() && entryBuf == old(entryBuf) && entrySize == old(entrySize) && status == old(status)
      ensures refused == old(refused)
      ensures S() == Closed(old(S()))
    {
      ghost var entry := entryBuf[..entryPos];
      entryPos := entryPos - (spaces + 1);
      assert entryBuf[..entryPos] == entry[..entryPos];
    }

    method SubmitChar(c: byte)
      requires BufferOk() && entryBuf != null && entryPos < entrySize - (if cfg.appendNull then 1 else 0)
      modifies this, entryBuf
      ensures BufferOk() && entryBuf == old(entryBuf) && entrySize == old(entrySize) && status == old(status)
      ensures refused == old(refused)
      ensures S() == old(S()).(entry := old(S()).entry + [c])
    {
      entryBuf[entryPos] := c;
      entryPos := entryPos + 1;
    }

    /** Gives the entry to the first callback, as the field's value or as the null pointer. */
    method SubmitField()
      requires BufferOk() && entryBuf != null && (quoted || spaces <= entryPos)
      modifies this, entryBuf
      ensures BufferOk() && entryBuf == old(entryBuf) && entrySize == old(entrySize) && status == old(status)
      ensures refused == old(refused)
      ensures S() == CsvSpec.SubmitField(cfg, old(S()))
    {
      ghost var entry := entryBuf[..entryPos];
      if !quoted {
        entryPos := entryPos - spaces;
      }
      assert entryBuf[..entryPos] == entry[..entryPos];
      if cfg.appendNull {
        entryBuf[entryPos] := 0;
      }
      assert entryBuf[..entryPos] == entry[..entryPos];
      if cfg.emptyIsNull && !quoted && entryPos == 0 {
        out := out + [NullField];
      } else {
        out := out + [Field(entryBuf[..entryPos])];
      }
      pstate := FieldNotBegun;
      entryPos, quoted, spaces := 0, false, 0;
    }

    method SubmitRow(c: int)
      requires BufferOk() && entryBuf != null
      modifies this
      ensures BufferOk() && entryBuf == old(entryBuf) && entrySize == old(entrySize) && status == old(status)
      ensures refused == old(refused)
      ensures S() == CsvSpec.SubmitRow(old(S()), c)
    {
      out := out + [Row(c)];
      pstate := RowNotBegun;
      entryPos, quoted, spaces := 0, false, 0;
    }

    /**
     * csv_parse: the state afterwards is the old one fed with the characters taken; it stops short only for a
     * parse error of the next character or for want of memory.
     */
    method Parse(s: Bytes) returns (pos: nat)
      requires Valid()
      modifies this, entryBuf
      ensures Valid() && pos <= |s| && Feed(cfg, old(S()), s[..pos]) == Some(S())
      ensures pos == |s| ==> status == old(status)
      ensures pos < |s| ==> if status == CSV_EPARSE then Feed(cfg, old(S()), s[..pos + 1]) == None
                            else OutOfMemory(|old(refused)|)
      ensures entryBuf == old(entryBuf) || fresh(entryBuf)
    {
      ghost var start := S();
      pos := 0;
      if entryBuf == null && pos < |s| {
        var ok, no := IncreaseBuffer();
        if !ok {
          return;
        }
      }
      while pos < |s|
        invariant Valid() && pos <= |s| && status == old(status) && (|s| > 0 ==> entryBuf != null)
        invariant (entryBuf == old(entryBuf) || fresh(entryBuf)) && |refused| >= |old(refused)|
        invariant Feed(cfg, start, s[..pos]) == Some(S())
      {
        FeedNext(cfg, start, s, pos);
        var took := Take(s[pos]);
        if !took {
          return;
        }
        pos := pos + 1;
      }
    }

    /** Takes one character if there is memory for it and it is no error. */
    method Take(c: byte) returns (took: bool)
      requires Valid() && entryBuf != null
      modifies this, entryBuf
      ensures Valid() && entryBuf != null && (entryBuf == old(entryBuf) || fresh(entryBuf))
      ensures if took then Step(cfg, old(S()), c) == Some(S()) && status == old(status)
              else S() == old(S()) && if status == CSV_EPARSE then Step(cfg, old(S()), c) == None
                                      else OutOfMemory(|old(refused)|)
      ensures |refused| >= |old(refused)|
    {
      if entryPos == (if cfg.appendNull then entrySize - 1 else entrySize) {
        ghost var no;
        took, no := IncreaseBuffer();
        if !took {
          return;
        }
      }
      took := Char(c);
      if !took {
        status := CSV_EPARSE;
      }
    }

    method Finish() returns (r: int)
      requires Valid()
      modifies this, entryBuf
      ensures Valid() && entryBuf == old(entryBuf)
      ensures match Fini(cfg, old(S()))
              case None => r == -1 && status == CSV_EPARSE && S() == old(S())
              case Some(st) => r == 0 && status == CSV_SUCCESS && S() == st
    {
      if pstate == FieldBegun && quoted && cfg.strict && cfg.strictFini {
        status := CSV_EPARSE;
        return -1;
      }
      if pstate == MightHaveEnded {
        DropClosingQuote();
      }
      if pstate != RowNotBegun {
        SubmitField();
        SubmitRow(-1);
      }
      assert entryPos == 0;
      spaces, quoted, entryPos, status := 0, false, 0, CSV_SUCCESS;
      pstate := RowNotBegun;
      return 0;
    }
  }

  lemma FeedNext(cfg: Config, start: St, s: Bytes, pos: nat)
    requires start.Ok() && pos < |s| && Feed(cfg, start, s[..pos]).Some?
    ensures Feed(cfg, start, s[..pos + 1]) == Step(cfg, Feed(cfg, start, s[..pos]).value, s[pos])
  {
    FeedOne(cfg, start, s[..pos], s[pos]);
    assert s[..pos] + [s[pos]] == s[..pos + 1];
  }

  method Realloc(old_buf: array?<byte>, n: nat, size: nat) returns (vp: array<byte>)
    requires n <= size && (old_buf != null ==> old_buf.Length == n) && (old_buf == null ==> n == 0)
    ensures fresh(vp) && vp.Length == size
    ensures old_buf != null ==> vp[..n] == old_buf[..]
  {
    vp := new byte[size](_ => 0);
    var i := 0;
    while i < n
      invariant 0 <= i <= n
      invariant old_buf != null ==> vp[..i] == old_buf[..i]
    {
      vp[i] := old_buf[i];
      i := i + 1;
    }
  }

  // ---- the writer ------------------------------------------------------------------------------------

  // The printed field up to the first i bytes of s.
  function Opening(s: Bytes, i: nat, quote: byte): Bytes
    requires i <= |s|
  {
    [quote] + Escape(s[..i], quote)
  }

  lemma OpeningNext(s: Bytes, i: nat, quote: byte)
    requires i < |s|
    ensures Opening(s, i + 1, quote)
            == (if s[i] == quote then Opening(s, i, quote) + [quote] else Opening(s, i, quote)) + [s[i]]
  {
    assert s[..i + 1][..i] == s[..i];
  }

  // What write2 has done so far: text is what is printed, chars its length and cdest the number of bytes in dest.
  ghost predicate Printed(text: Bytes, chars: nat, cdest: nat, size: nat) {
    chars == Min(|text|, SIZE_MAX) && cdest == Min(|text|, size)
  }

  // The first cdest bytes are printed text, the others as they were.
  ghost predicate Written(bytes: Bytes, was: Bytes, text: Bytes, cdest: nat) {
    |bytes| == |was| && cdest <= |text| && cdest <= |bytes| && bytes[..cdest] == text[..cdest]
        && bytes[cdest..] == was[cdest..]
  }

  method Emit(dest: array?<byte>, size: nat, chars: nat, cdest: nat, c: byte, ghost text: Bytes, ghost was: Bytes)
      returns (chars': nat, cdest': nat)
    requires size <= SIZE_MAX && (if dest == null then size == 0 else size <= dest.Length)
    requires Printed(text, chars, cdest, size) && (dest != null ==> Written(dest[..], was, text, cdest))
    modifies dest
    ensures Printed(text + [c], chars', cdest', size) && (dest != null ==> Written(dest[..], was, text + [c], cdest'))
  {
    chars', cdest' := chars, cdest;
    if size > chars {
      dest[cdest'] := c;
      cdest' := cdest' + 1;
    }
    if chars < SIZE_MAX {
      chars' := chars + 1;
    }
  }

  /**
   * csv_write2: the length of the printed field, no more than SIZE_MAX; as much of it as fits is written to
   * dest, and nothing behind.
   */
  method Write2(dest: array?<byte>, size: nat, src: Option<Bytes>, quote: byte) returns (chars: nat)
    requires size <= SIZE_MAX && (dest != null ==> size <= dest.Length)
    modifies dest
    ensures src == None ==> chars == 0 && (dest != null ==> dest[..] == old(dest[..]))
    ensures src.Some? ==> chars == Min(|src.value| + 2 + Quotes(src.value, quote), SIZE_MAX)
    ensures src.Some? && dest != null ==>
              var n := Min(size, |Quoted(src.value, quote)|);
              dest[..n] == Quoted(src.value, quote)[..n] && dest[n..] == old(dest[..])[n..]
  {
    chars := 0;
    if src == None {
      return;
    }
    var csrc := src.value;
    var destSize := if dest == null then 0 else size;
    ghost var text: Bytes := [];
    ghost var was: Bytes := if dest == null then [] else dest[..];
    var cdest: nat := 0;
    chars, cdest := Emit(dest, destSize, chars, cdest, quote, text, was);
    text := [] + [quote];
    assert text == Opening(csrc, 0, quote);
    var i := 0;
    while i < |csrc|
      invariant 0 <= i <= |csrc| && text == Opening(csrc, i, quote)
      invariant Printed(text, chars, cdest, destSize) && (dest != null ==> Written(dest[..], was, text, cdest))
    {
      OpeningNext(csrc, i, quote);
      if csrc[i] == quote {
        chars, cdest := Emit(dest, destSize, chars, cdest, quote, text, was);
        text := text + [quote];
      }
      chars, cdest := Emit(dest, destSize, chars, cdest, csrc[i], text, was);
      text := text + [csrc[i]];
      i := i + 1;
    }
    assert csrc[..i] == csrc;
    chars, cdest := Emit(dest, destSize, chars, cdest, quote, text, was);
    QuotedLength(csrc, quote);
    assert text + [quote] == Quoted(csrc, quote);
  }
}
