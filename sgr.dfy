/** Reading back the text `generate_gradient_text` exports. A row is a run
    of cells, each the SGR direct-colour foreground sequence
    `ESC[38;2;R;G;Bm` (the SGR control function of ECMA-48, section 8.3.117,
    with parameter 38 in the ITU-T T.416 direct-colour form `2;R;G;B`)
    followed by one character, and ends with the reset `ESC[0m`; rows are
    separated by single newlines. Decoding the exported text gives back
    exactly the rows of coloured cells it was made from, so the export
    loses nothing and adds nothing. */
module Sgr {
  import opened Strings
  import opened Gradient

  /** The part of `s` before the first `d` and the part after it; None when
      `d` does not occur. */
  function Until(s: string, d: char): (r: Option<(string, string)>)
    ensures r.Some? ==> s == r.value.0 + [d] + r.value.1 && d !in r.value.0
    ensures r.None? ==> d !in s
  {
    if s == [] then None
    else if s[0] == d then Some(([], s[1..]))
    else
      match Until(s[1..], d)
      case None => None
      case Some(p) =>
        assert s == [s[0]] + s[1..];
        Some(([s[0]] + p.0, p.1))
  }

  /** The first occurrence of `d` is found, whatever follows it. */
  lemma {:induction false} UntilFirst(a: string, d: char, b: string)
    requires d !in a
    ensures Until(a + [d] + b, d) == Some((a, b))
  {
    if a == [] {
      assert (a + [d] + b)[1..] == b;
    } else {
      assert (a + [d] + b)[1..] == a[1..] + [d] + b;
      UntilFirst(a[1..], d, b);
      assert [a[0]] + a[1..] == a;
    }
  }

  /** Reads one cell off the front of `s`: the three decimal channels of
      the direct-colour sequence and the character after it. */
  function DecodeCell(s: string): (r: Option<(Cell, string)>)
    ensures r.Some? ==> |r.value.1| < |s|
  {
    if !(ForegroundIntro <= s) then None
    else
      match Until(s[|ForegroundIntro|..], ';')
      case None => None
      case Some(p1) =>
        match Until(p1.1, ';')
        case None => None
        case Some(p2) =>
          match Until(p2.1, 'm')
          case None => None
          case Some(p3) =>
            if p3.1 == [] then None
            else
              match (ParseInt(p1.0), ParseInt(p2.0), ParseInt(p3.0))
              case (Some(red), Some(green), Some(blue)) => Some(((p3.1[0], Rgb(red, green, blue)), p3.1[1..]))
              case _ => None
  }

  /** Reads the cells of one row and the reset that ends it. */
  function DecodeLine(s: string): (r: Option<(seq<Cell>, string)>)
    ensures r.Some? ==> |r.value.1| < |s|
    decreases |s|
  {
    if Reset <= s then Some(([], s[|Reset|..]))
    else
      match DecodeCell(s)
      case None => None
      case Some(p) =>
        match DecodeLine(p.1)
        case None => None
        case Some(q) => Some(([p.0] + q.0, q.1))
  }

  /** Reads one or more rows separated by single newlines, up to the end. */
  function DecodeLines(s: string): Option<seq<seq<Cell>>>
    decreases |s|
  {
    match DecodeLine(s)
    case None => None
    case Some(p) =>
      if p.1 == [] then Some([p.0])
      else if p.1[0] == '\n' then
        match DecodeLines(p.1[1..])
        case None => None
        case Some(rows) => Some([p.0] + rows)
      else None
  }

  /** Reads a whole exported text; the empty text holds no rows. */
  function Decode(s: string): Option<seq<seq<Cell>>>
  {
    if s == [] then Some([]) else DecodeLines(s)
  }

  /** `ansi_truecolor` is read back as the colour and the character it was
      given, whatever follows. */
  lemma DecodeCellRoundTrip(c: Rgb, ch: char, rest: string)
    ensures DecodeCell(AnsiTruecolor(c, ch) + rest) == Some(((ch, c), rest))
  {
    var rs, gs, bs := IntToString(c.r), IntToString(c.g), IntToString(c.b);
    CellLayout(c, ch, rest);
    IntToStringChars(c.r, ';');
    IntToStringChars(c.g, ';');
    IntToStringChars(c.b, 'm');
    ParseIntRoundTrip(c.r);
    ParseIntRoundTrip(c.g);
    ParseIntRoundTrip(c.b);
    DecodeFields(rs, gs, bs, ch, rest);
  }

  /** The fields of a cell's sequence, each followed by its delimiter. */
  lemma CellLayout(c: Rgb, ch: char, rest: string)
    ensures AnsiTruecolor(c, ch) + rest ==
            ForegroundIntro + (IntToString(c.r) + [';'] + (IntToString(c.g) + [';'] + (IntToString(c.b) + ['m'] + ([ch] + rest))))
  {
    Regroup(ForegroundIntro, IntToString(c.r), IntToString(c.g), IntToString(c.b), [ch] + rest);
  }

  lemma Regroup(intro: string, rs: string, gs: string, bs: string, tail: string)
    ensures intro + rs + [';'] + gs + [';'] + bs + ['m'] + tail == intro + (rs + [';'] + (gs + [';'] + (bs + ['m'] + tail)))
  {
  }

  /** A cell whose three fields hold no delimiter is read field by field. */
  lemma DecodeFields(rs: string, gs: string, bs: string, ch: char, rest: string)
    requires ';' !in rs && ';' !in gs && 'm' !in bs
    requires ParseInt(rs).Some? && ParseInt(gs).Some? && ParseInt(bs).Some?
    ensures DecodeCell(ForegroundIntro + (rs + [';'] + (gs + [';'] + (bs + ['m'] + ([ch] + rest))))) ==
            Some(((ch, Rgb(ParseInt(rs).value, ParseInt(gs).value, ParseInt(bs).value)), rest))
  {
    var tail3 := [ch] + rest;
    var tail2 := bs + ['m'] + tail3;
    var tail1 := gs + [';'] + tail2;
    var s := ForegroundIntro + (rs + [';'] + tail1);
    assert s[|ForegroundIntro|..] == rs + [';'] + tail1;
    UntilFirst(rs, ';', tail1);
    UntilFirst(gs, ';', tail2);
    UntilFirst(bs, 'm', tail3);
    assert tail3[1..] == rest;
  }

  lemma Reassociate(a: string, b: string, c: string, d: string)
    ensures (a + b) + c + d == a + (b + c + d)
  {
  }

  /** A cell never starts the way the reset does. */
  lemma CellIsNotReset(c: Rgb, ch: char, tail: string)
    ensures !(Reset <= AnsiTruecolor(c, ch) + tail)
  {
    var s := AnsiTruecolor(c, ch) + tail;
    assert s[2] == '3' && Reset[2] == '0';
  }

  /** An encoded row is read back as its cells, whatever follows it. */
  lemma DecodeLineRoundTrip(row: seq<Cell>, rest: string)
    ensures DecodeLine(EncodeLine(row) + rest) == Some((row, rest))
  {
    var codes := CellCodes(row);
    forall x, tail | 0 <= x < |row|
      ensures DecodeCell(codes[x] + tail) == Some((row[x], tail)) && !(Reset <= codes[x] + tail)
    {
      DecodeCellRoundTrip(row[x].1, row[x].0, tail);
      CellIsNotReset(row[x].1, row[x].0, tail);
    }
    DecodeCodes(codes, row, 0, rest);
    assert codes[0..] == codes && row[0..] == row;
  }

  /** Cell codes that each read back as their cell, whatever follows them,
      concatenated from code `k` on and closed by the reset, read back as
      those cells. */
  lemma {:induction false} DecodeCodes(codes: seq<string>, row: seq<Cell>, k: int, rest: string)
    requires |codes| == |row| && 0 <= k <= |row|
    requires forall x, tail :: 0 <= x < |row| ==>
               DecodeCell(codes[x] + tail) == Some((row[x], tail)) && !(Reset <= codes[x] + tail)
    ensures DecodeLine(Concat(codes[k..]) + Reset + rest) == Some((row[k..], rest))
    decreases |row| - k
  {
    if k == |row| {
      assert codes[k..] == [] && row[k..] == [];
      DecodeReset(rest);
    } else {
      var tail := Concat(codes[k + 1..]) + Reset + rest;
      ConcatFrom(codes, k);
      Reassociate(codes[k], Concat(codes[k + 1..]), Reset, rest);
      DecodeCodes(codes, row, k + 1, rest);
      CodeReads(codes, row, k, tail);
      DecodeNextCell(codes[k] + tail, row[k], tail, row[k + 1..], rest);
      SliceCons(row, k);
    }
  }

  lemma CodeReads(codes: seq<string>, row: seq<Cell>, k: int, tail: string)
    requires |codes| == |row| && 0 <= k < |row|
    requires forall x, tail :: 0 <= x < |row| ==>
               DecodeCell(codes[x] + tail) == Some((row[x], tail)) && !(Reset <= codes[x] + tail)
    ensures DecodeCell(codes[k] + tail) == Some((row[k], tail)) && !(Reset <= codes[k] + tail)
  {
  }

  lemma ConcatFrom(parts: seq<string>, k: int)
    requires 0 <= k < |parts|
    ensures Concat(parts[k..]) == parts[k] + Concat(parts[k + 1..])
  {
    assert parts[k..][1..] == parts[k + 1..];
  }

  /** The reset closes a row without cells. */
  lemma DecodeReset(rest: string)
    ensures DecodeLine([] + Reset + rest) == Some(([], rest))
  {
    assert [] + Reset + rest == Reset + rest;
    assert (Reset + rest)[|Reset|..] == rest;
  }

  /** A row that does not start with the reset is its first cell followed
      by the rest of the row. */
  lemma DecodeNextCell(s: string, cell: Cell, tail: string, cells: seq<Cell>, rest: string)
    requires !(Reset <= s) && DecodeCell(s) == Some((cell, tail))
    requires DecodeLine(tail) == Some((cells, rest))
    ensures DecodeLine(s) == Some(([cell] + cells, rest))
  {
  }

  /** Lines that each read back as a row, whatever follows them, joined by
      newlines from line `k` on, read back as those rows. */
  lemma {:induction false} DecodeJoined(lines: seq<string>, rows: seq<seq<Cell>>, k: int)
    requires |lines| == |rows| && 0 <= k < |rows|
    requires forall y, rest :: 0 <= y < |rows| ==> DecodeLine(lines[y] + rest) == Some((rows[y], rest))
    ensures DecodeLines(Join(lines[k..], '\n')) == Some(rows[k..])
    decreases |rows| - k
  {
    var s := Join(lines[k..], '\n');
    JoinFrom(lines, k, '\n');
    SliceCons(rows, k);
    if k == |rows| - 1 {
      DecodeLastLine(s, rows[k]);
      assert rows[k..] == [rows[k]];
    } else {
      var tail := Join(lines[k + 1..], '\n');
      DecodeJoined(lines, rows, k + 1);
      DecodeNextLine(s, rows[k], tail, rows[k + 1..]);
    }
  }

  /** The pieces from `k` on, joined: piece `k`, then the separator and the
      rest when there is more. */
  lemma JoinFrom(parts: seq<string>, k: int, sep: char)
    requires 0 <= k < |parts|
    ensures k == |parts| - 1 ==> Join(parts[k..], sep) == parts[k] + []
    ensures k < |parts| - 1 ==> Join(parts[k..], sep) == parts[k] + ([sep] + Join(parts[k + 1..], sep))
  {
    assert parts[k..][1..] == parts[k + 1..];
  }

  lemma SliceCons<T>(s: seq<T>, k: int)
    requires 0 <= k < |s|
    ensures s[k..] == [s[k]] + s[k + 1..]
  {
  }

  /** A row that takes up the whole text is the only row. */
  lemma DecodeLastLine(s: string, row: seq<Cell>)
    requires DecodeLine(s) == Some((row, []))
    ensures DecodeLines(s) == Some([row])
  {
  }

  /** A row followed by a newline is the first of the rows. */
  lemma DecodeNextLine(s: string, row: seq<Cell>, tail: string, rows: seq<seq<Cell>>)
    requires DecodeLine(s) == Some((row, ['\n'] + tail))
    requires DecodeLines(tail) == Some(rows)
    ensures DecodeLines(s) == Some([row] + rows)
  {
    assert (['\n'] + tail)[1..] == tail;
  }

  /** Decoding undoes encoding: the exported text holds exactly the rows of
      coloured cells, one per line, each closed by a reset, separated by
      single newlines and with no newline after the last. */
  lemma DecodeEncode(rows: seq<seq<Cell>>)
    ensures Decode(Encode(rows)) == Some(rows)
  {
    if |rows| == 0 {
      assert EncodedLines(rows) == [];
    } else {
      var lines := EncodedLines(rows);
      forall y, rest | 0 <= y < |rows|
        ensures DecodeLine(lines[y] + rest) == Some((rows[y], rest))
      {
        DecodeLineRoundTrip(rows[y], rest);
      }
      DecodeJoined(lines, rows, 0);
      assert lines[0..] == lines && rows[0..] == rows;
      JoinHasFirst(lines, '\n');
      assert lines[0] == EncodeLine(rows[0]);
    }
  }

  lemma JoinHasFirst(parts: seq<string>, sep: char)
    requires |parts| > 0
    ensures parts[0] <= Join(parts, sep)
  {
  }

  /** What `generate_gradient_text` exports reads back as the coloured cells
      of the lines: the characters of each line, less a final newline, in
      order, each with the colour of its position. */
  lemma GradientTextDecodes(lines: seq<string>, colorList: seq<string>, direction: string)
    requires GradientText(lines, colorList, direction).Ok?
    ensures ParseAll(colorList).Ok? && |ParseAll(colorList).value| >= 2
    ensures Decode(GradientText(lines, colorList, direction).value) ==
            Some(KernelCells(lines, ParseAll(colorList).value, direction))
  {
    DecodeEncode(KernelCells(lines, ParseAll(colorList).value, direction));
  }
}
