/** The window of the gradient tool: the colour-list tokeniser behind the
    colour entry, the live preview that `Generate` draws into the output
    pane, and the `Export` handler that produces the ANSI text. The widgets
    are reduced to what the handlers read and write: the text box, the
    colour entry and the direction box are strings, and the output pane is
    the sequence of insertions made into it. */
module Gui {
  import opened Strings
  import opened Gradient
  import opened Sgr

  // ---------------------------------------------------------------------
  // The colour-list tokeniser

  /** The loop state of the tokeniser: the tokens so far, the pending
      numeric group (each digit part followed by a comma) and how many digit
      parts it holds. */
  datatype Scan = Scan(tokens: seq<string>, temp: string, nums: int)

  const Start: Scan := Scan([], "", 0)

  const IncompleteRgb: string := "Incomplete RGB color (expected R,G,B)."

  /** One iteration of the tokeniser over a raw comma-separated part:
      blank parts are skipped, the others are stripped and handled by
      `StepPart`. */
  function Step(st: Scan, raw: string): Scan
  {
    var part := Strip(raw);
    if part == [] then st else StepPart(st, part)
  }

  /** A digit part joins the pending group, and the third one closes it
      into an `R,G,B` token; any other part drops a pending group and
      becomes a token of its own. */
  function StepPart(st: Scan, part: string): Scan
  {
    if IsDigits(part) then
      var temp := st.temp + part + ",";
      if st.nums + 1 == 3 then Scan(st.tokens + [RStrip(temp, {','})], "", 0)
      else Scan(st.tokens, temp, st.nums + 1)
    else
      var st' := if st.temp != [] then Scan(st.tokens, "", 0) else st;
      Scan(st'.tokens + [part], st'.temp, st'.nums)
  }

  function Run(st: Scan, parts: seq<string>): Scan
    decreases |parts|
  {
    if parts == [] then st else Run(Step(st, parts[0]), parts[1..])
  }

  /** The same loop over parts that are already stripped and non-blank. */
  function RunParts(st: Scan, ps: seq<string>): Scan
    decreases |ps|
  {
    if ps == [] then st else RunParts(StepPart(st, ps[0]), ps[1..])
  }

  /** The tokeniser's final state on the colour entry. */
  function Tokenize(entry: string): Scan
  {
    Run(Start, Split(entry, ','))
  }

  /** What `_parse_colors` returns: an error for a numeric group left
      incomplete at the end, otherwise every token parsed, or the error of
      the first token that is not a colour. */
  function ColorsFromEntry(entry: string): Result<seq<Rgb>>
  {
    var st := Tokenize(entry);
    if st.temp != [] then Err(IncompleteRgb) else ParseAll(st.tokens)
  }

  /** `_parse_colors` on the text of the colour entry. */
  method ParseColors(entry: string) returns (r: Result<seq<Rgb>>)
    ensures r == ColorsFromEntry(entry)
  {
    var colorTokens, temp := ScanParts(Split(entry, ','));
    if temp != [] {
      return Err(IncompleteRgb);
    }
    r := ParseAll(colorTokens);
  }

  /** The loop of `_parse_colors` over the comma-separated parts: it ends in
      the state `Run` describes. */
  method ScanParts(parts: seq<string>) returns (colorTokens: seq<string>, temp: string)
    ensures (var st := Run(Start, parts); colorTokens == st.tokens && temp == st.temp)
  {
    colorTokens, temp := [], "";
    var nums := 0;
    ghost var target := Run(Start, parts);
    for i := 0 to |parts|
      invariant Run(Scan(colorTokens, temp, nums), parts[i..]) == target
    {
      RunUnfold(Scan(colorTokens, temp, nums), parts, i);
      var part := Strip(parts[i]);
      if part == [] {
        continue;
      }
      colorTokens, temp, nums := Absorb(colorTokens, temp, nums, part);
    }
    assert parts[|parts|..] == [];
  }

  /** The body of the tokeniser's loop for a stripped, non-blank part. */
  method Absorb(colorTokens: seq<string>, temp: string, nums: int, part: string)
    returns (colorTokens': seq<string>, temp': string, nums': int)
    ensures Scan(colorTokens', temp', nums') == StepPart(Scan(colorTokens, temp, nums), part)
  {
    colorTokens', temp', nums' := colorTokens, temp, nums;
    if IsDigits(part) {
      temp' := temp' + part + ",";
      nums' := nums' + 1;
      if nums' == 3 {
        colorTokens' := colorTokens' + [RStrip(temp', {','})];
        temp', nums' := "", 0;
      }
    } else {
      if temp' != [] {
        temp', nums' := "", 0;
      }
      colorTokens' := colorTokens' + [part];
    }
  }

  /** One turn of the tokeniser's loop. */
  lemma RunUnfold(st: Scan, parts: seq<string>, i: int)
    requires 0 <= i < |parts|
    ensures Run(st, parts[i..]) == Run(Step(st, parts[i]), parts[i + 1..])
  {
    assert parts[i..][1..] == parts[i + 1..];
  }

  // ---------------------------------------------------------------------
  // A reference grouping of the colour list

  /** `[c.strip() for c in parts if c.strip()]`: the parts stripped, blank
      ones dropped. */
  function Cleaned(parts: seq<string>): seq<string>
    decreases |parts|
  {
    if parts == [] then []
    else
      var p := Strip(parts[0]);
      if p == [] then Cleaned(parts[1..]) else [p] + Cleaned(parts[1..])
  }

  /** How a cleaned colour list groups, read left to right: a name is a
      token; three digit parts in a row are one `R,G,B` token; one or two
      digit parts followed by a name are dropped; one or two digit parts at
      the end leave the list incomplete. */
  function Grouping(ps: seq<string>): (seq<string>, bool)
  {
    if ps == [] then ([], false)
    else if !IsDigits(ps[0]) then
      var g := Grouping(ps[1..]);
      ([ps[0]] + g.0, g.1)
    else if |ps| == 1 then ([], true)
    else if !IsDigits(ps[1]) then Grouping(ps[1..])
    else if |ps| == 2 then ([], true)
    else if !IsDigits(ps[2]) then Grouping(ps[2..])
    else
      var g := Grouping(ps[3..]);
      ([Join(ps[..3], ',')] + g.0, g.1)
  }

  /** The tokeniser groups the colour list as `Grouping` describes, and
      leaves a partial group pending exactly when the list is incomplete. */
  lemma TokenizeMatchesGrouping(entry: string)
    ensures var g := Grouping(Cleaned(Split(entry, ',')));
            Tokenize(entry).tokens == g.0 && (Tokenize(entry).temp != [] <==> g.1)
  {
    RunCleaned(Start, Split(entry, ','));
    RunGrouping(Cleaned(Split(entry, ',')));
  }

  /** Blank parts and surrounding whitespace do not matter to the tokeniser. */
  lemma {:induction false} RunCleaned(st: Scan, parts: seq<string>)
    ensures Run(st, parts) == RunParts(st, Cleaned(parts))
    decreases |parts|
  {
    if parts != [] {
      var p := Strip(parts[0]);
      RunCleaned(Step(st, parts[0]), parts[1..]);
      if p != [] {
        var c := [p] + Cleaned(parts[1..]);
        assert c[0] == p && c[1..] == Cleaned(parts[1..]);
      }
    }
  }

  /** Tokens already emitted stay in front of everything emitted later. */
  lemma {:induction false} RunKeepsTokens(tokens: seq<string>, temp: string, nums: int, ps: seq<string>)
    ensures var a := RunParts(Scan(tokens, temp, nums), ps);
            var b := RunParts(Scan([], temp, nums), ps);
            a == Scan(tokens + b.tokens, b.temp, b.nums)
    decreases |ps|
  {
    if ps != [] {
      var s2 := StepPart(Scan([], temp, nums), ps[0]);
      StepKeepsTokens(tokens, temp, nums, ps[0]);
      RunKeepsTokens(tokens + s2.tokens, s2.temp, s2.nums, ps[1..]);
      RunKeepsTokens(s2.tokens, s2.temp, s2.nums, ps[1..]);
      var rest := RunParts(Scan([], s2.temp, s2.nums), ps[1..]);
      assert (tokens + s2.tokens) + rest.tokens == tokens + (s2.tokens + rest.tokens);
    }
  }

  /** One step emits the same tokens whatever was emitted before. */
  lemma StepKeepsTokens(tokens: seq<string>, temp: string, nums: int, part: string)
    ensures var s2 := StepPart(Scan([], temp, nums), part);
            StepPart(Scan(tokens, temp, nums), part) == Scan(tokens + s2.tokens, s2.temp, s2.nums)
  {
    assert tokens + [] == tokens;
  }

  /** The third digit part in a row closes the group into one token. */
  lemma StepThird(a: string, b: string, c: string)
    requires IsDigits(a) && IsDigits(b) && IsDigits(c)
    ensures StepPart(Scan([], a + "," + b + ",", 2), c) == Scan([Join([a, b, c], ',')], "", 0)
  {
    RStripOne(a + "," + b + "," + c, ',');
    Join3(a, b, c, ',');
    assert a + "," + b + "," + c + "," == a + "," + b + "," + c + [','];
  }

  lemma {:induction false} RunGrouping(ps: seq<string>)
    ensures RunParts(Start, ps).tokens == Grouping(ps).0
    ensures RunParts(Start, ps).temp != [] <==> Grouping(ps).1
    decreases |ps|, 0
  {
    if ps == [] {
      return;
    }
    var a := ps[0];
    if !IsDigits(a) {
      assert StepPart(Start, a) == Scan([a], "", 0);
      RunFrom([a], ps[1..]);
      return;
    }
    var s1 := Scan([], a + ",", 1);
    assert StepPart(Start, a) == s1;
    assert RunParts(Start, ps) == RunParts(s1, ps[1..]);
    if |ps| == 1 {
      return;
    }
    var b := ps[1];
    assert ps[1..][0] == b && ps[1..][1..] == ps[2..];
    if !IsDigits(b) {
      assert StepPart(s1, b) == Scan([b], "", 0);
      assert RunParts(Start, ps) == RunParts(Scan([b], "", 0), ps[2..]);
      RunFrom([b], ps[2..]);
      assert Grouping(ps) == Grouping(ps[1..]);
      return;
    }
    var s2 := Scan([], a + "," + b + ",", 2);
    assert StepPart(s1, b) == s2;
    assert RunParts(Start, ps) == RunParts(s2, ps[2..]);
    if |ps| == 2 {
      return;
    }
    var c := ps[2];
    assert ps[2..][0] == c && ps[2..][1..] == ps[3..];
    if !IsDigits(c) {
      assert StepPart(s2, c) == Scan([c], "", 0);
      assert RunParts(Start, ps) == RunParts(Scan([c], "", 0), ps[3..]);
      RunFrom([c], ps[3..]);
      assert Grouping(ps) == Grouping(ps[2..]);
      return;
    }
    assert ps[..3] == [a, b, c];
    StepThird(a, b, c);
    assert RunParts(Start, ps) == RunParts(Scan([Join(ps[..3], ',')], "", 0), ps[3..]);
    RunFrom([Join(ps[..3], ',')], ps[3..]);
  }

  /** After emitting `tokens` with nothing pending, the run goes on as a
      fresh run over the rest. */
  lemma RunFrom(tokens: seq<string>, ps: seq<string>)
    ensures RunParts(Scan(tokens, "", 0), ps).tokens == tokens + Grouping(ps).0
    ensures RunParts(Scan(tokens, "", 0), ps).temp != [] <==> Grouping(ps).1
    decreases |ps|, 1
  {
    RunKeepsTokens(tokens, "", 0, ps);
    RunGrouping(ps);
  }

  /** A list of names, none of them a number, is taken part for part. */
  lemma {:induction false} GroupingNames(ps: seq<string>)
    requires forall i :: 0 <= i < |ps| ==> !IsDigits(ps[i])
    ensures Grouping(ps) == (ps, false)
  {
    if ps != [] {
      GroupingNames(ps[1..]);
      assert [ps[0]] + ps[1..] == ps;
    }
  }

  /** Parts that neither start nor end with whitespace come through the
      cleaning unchanged. */
  lemma {:induction false} CleanedPlain(parts: seq<string>)
    requires forall i :: 0 <= i < |parts| ==> parts[i] != [] && parts[i][0] !in Whitespace
    requires forall i :: 0 <= i < |parts| ==> parts[i][|parts[i]| - 1] !in Whitespace
    ensures Cleaned(parts) == parts
    decreases |parts|
  {
    if parts != [] {
      var p := parts[0];
      StripPlain(p);
      CleanedPlain(parts[1..]);
      assert [p] + parts[1..] == parts;
    }
  }

  /** Stripping leaves a string that has no whitespace at either end. */
  lemma StripPlain(p: string)
    requires p != [] && p[0] !in Whitespace && p[|p| - 1] !in Whitespace
    ensures Strip(p) == p
  {
    assert RStrip(p, Whitespace) == p;
    assert LStrip(p, Whitespace) == p;
  }

  /** A colour-list part as a user types it: no comma inside, no
      whitespace at either end, not empty. */
  predicate Plain(p: string)
  {
    p != [] && ',' !in p && p[0] !in Whitespace && p[|p| - 1] !in Whitespace
  }

  /** The entry as typed from plain parts: `Cleaned(Split(...))` gives the
      parts back. */
  lemma PlainParts(parts: seq<string>)
    requires |parts| >= 1
    requires forall i :: 0 <= i < |parts| ==> Plain(parts[i])
    ensures Cleaned(Split(Join(parts, ','), ',')) == parts
  {
    SplitJoin(parts, ',');
    CleanedPlain(parts);
  }

  /** `"red,0,255,0,blue"` and every entry of that shape: a name, three
      numbers, a name give the tokens name, `R,G,B`, name. */
  lemma TokenizeNameTripleName(n1: string, a: string, b: string, c: string, n2: string)
    requires Plain(n1) && Plain(a) && Plain(b) && Plain(c) && Plain(n2)
    requires !IsDigits(n1) && IsDigits(a) && IsDigits(b) && IsDigits(c) && !IsDigits(n2)
    ensures Tokenize(Join([n1, a, b, c, n2], ',')).tokens == [n1, Join([a, b, c], ','), n2]
    ensures Tokenize(Join([n1, a, b, c, n2], ',')).temp == []
  {
    var ps := [n1, a, b, c, n2];
    PlainParts(ps);
    GroupingNameTripleName(n1, a, b, c, n2);
    TokenizeMatchesGrouping(Join(ps, ','));
  }

  lemma GroupingNameTripleName(n1: string, a: string, b: string, c: string, n2: string)
    requires !IsDigits(n1) && IsDigits(a) && IsDigits(b) && IsDigits(c) && !IsDigits(n2)
    ensures Grouping([n1, a, b, c, n2]) == ([n1, Join([a, b, c], ','), n2], false)
  {
    var ps := [n1, a, b, c, n2];
    assert ps[1..] == [a, b, c, n2];
    assert ps[1..][..3] == [a, b, c];
    assert ps[1..][3..] == [n2];
    assert [n2][1..] == [] && [n2] + [] == [n2];
    assert Grouping([n2]) == ([n2], false);
    assert Grouping(ps[1..]) == ([Join([a, b, c], ',')] + [n2], false);
    assert [n1] + ([Join([a, b, c], ',')] + [n2]) == [n1, Join([a, b, c], ','), n2];
  }

  /** `"0,255,blue"`: numbers cut short by a name are dropped. */
  lemma TokenizeDropsCutGroup(a: string, b: string, n: string)
    requires Plain(a) && Plain(b) && Plain(n)
    requires IsDigits(a) && IsDigits(b) && !IsDigits(n)
    ensures Tokenize(Join([a, b, n], ',')).tokens == [n]
    ensures Tokenize(Join([a, b, n], ',')).temp == []
  {
    var ps := [a, b, n];
    PlainParts(ps);
    GroupingCutGroup(a, b, n);
    TokenizeMatchesGrouping(Join(ps, ','));
  }

  lemma GroupingCutGroup(a: string, b: string, n: string)
    requires IsDigits(a) && IsDigits(b) && !IsDigits(n)
    ensures Grouping([a, b, n]) == ([n], false)
  {
    assert [a, b, n][2..] == [n];
    assert [n][1..] == [] && [n] + [] == [n];
    assert Grouping([n]) == ([n], false);
    assert Grouping([a, b, n]) == Grouping([n]);
  }

  /** `"0,blue"`: a single number cut short by a name is dropped too. */
  lemma TokenizeDropsCutNumber(a: string, n: string)
    requires Plain(a) && Plain(n)
    requires IsDigits(a) && !IsDigits(n)
    ensures Tokenize(Join([a, n], ',')).tokens == [n]
    ensures Tokenize(Join([a, n], ',')).temp == []
  {
    var ps := [a, n];
    PlainParts(ps);
    GroupingCutNumber(a, n);
    TokenizeMatchesGrouping(Join(ps, ','));
  }

  lemma GroupingCutNumber(a: string, n: string)
    requires IsDigits(a) && !IsDigits(n)
    ensures Grouping([a, n]) == ([n], false)
  {
    assert [a, n][1..] == [n];
    assert [n][1..] == [] && [n] + [] == [n];
    assert Grouping([n]) == ([n], false);
  }

  /** `"red,100,200"`: numbers left over at the end make the whole list an
      error, whatever came before. */
  lemma ColorsRejectTrailingGroup(n: string, a: string, b: string)
    requires Plain(n) && Plain(a) && Plain(b)
    requires !IsDigits(n) && IsDigits(a) && IsDigits(b)
    ensures ColorsFromEntry(Join([n, a, b], ',')) == Err(IncompleteRgb)
  {
    var ps := [n, a, b];
    PlainParts(ps);
    TokenizeMatchesGrouping(Join(ps, ','));
    assert ps[1..] == [a, b];
  }

  /** `"red,100"`: a single number left over at the end is an incomplete
      group as well. */
  lemma ColorsRejectTrailingNumber(n: string, a: string)
    requires Plain(n) && Plain(a)
    requires !IsDigits(n) && IsDigits(a)
    ensures ColorsFromEntry(Join([n, a], ',')) == Err(IncompleteRgb)
  {
    var ps := [n, a];
    PlainParts(ps);
    TokenizeMatchesGrouping(Join(ps, ','));
    assert ps[1..] == [a];
  }

  /** The tokeniser reports an incomplete group exactly when the cleaned
      list ends in one or two numbers not closed into a triple. */
  lemma IncompleteIffTrailingGroup(entry: string)
    ensures ColorsFromEntry(entry) == Err(IncompleteRgb) <==> Grouping(Cleaned(Split(entry, ','))).1
  {
    TokenizeMatchesGrouping(entry);
    ParseAllNotIncomplete(Tokenize(entry).tokens);
  }

  /** A colour that fails to parse is reported as invalid, never as an
      incomplete group. */
  lemma ParseAllNotIncomplete(tokens: seq<string>)
    ensures ParseAll(tokens) != Err(IncompleteRgb)
  {
    if ParseAll(tokens).Err? {
      ParseAllFirstError(tokens);
      var m := ParseAll(tokens).msg;
      var i :| FirstBad(tokens, i) && ParseColor(tokens[i]) == Err(m);
      ParseColorMeaning(tokens[i]);
      InvalidIsNotIncomplete(Lower(tokens[i]));
    }
  }

  lemma InvalidIsNotIncomplete(x: string)
    ensures InvalidColor + x != IncompleteRgb
  {
    assert (InvalidColor + x)[2] == 'v' && IncompleteRgb[2] == 'c';
  }

  // ---------------------------------------------------------------------
  // The preview colour of one character

  /** `colors[i]` with Python's negative indexing. */
  function PyIndex(colors: seq<Rgb>, i: int): Rgb
    requires -|colors| <= i < |colors|
  {
    if i < 0 then colors[|colors| + i] else colors[i]
  }

  /** The colour `generate` gives the character at (x, y): the segment is
      `int(t * (len - 1))` capped at `len - 2`, so with a single stop it is
      -1 and both ends of the blend index that stop from the back. */
  function PreviewColor(x: int, y: int, w: int, h: int, direction: string, colors: seq<Rgb>): Rgb
    requires 0 <= x < w && 0 <= y < h
    requires |colors| >= 1
  {
    var t := Param(x, y, w, h, direction);
    var scaled := t * (|colors| - 1) as real;
    NonNegativeProduct(t, |colors| - 1);
    var seg0 := Trunc(scaled);
    var seg := if seg0 <= |colors| - 2 then seg0 else |colors| - 2;
    var localT := scaled - seg as real;
    var c1, c2 := PyIndex(colors, seg), PyIndex(colors, seg + 1);
    Rgb(Lerp(c1.r, c2.r, localT), Lerp(c1.g, c2.g, localT), Lerp(c1.b, c2.b, localT))
  }

  lemma NonNegativeProduct(t: real, n: int)
    requires 0.0 <= t && 0 <= n
    ensures 0.0 <= t * n as real
  {
  }

  /** With two or more stops the preview colours every character exactly as
      the exported text does: `t` is never negative, so `int` is `floor`,
      and `len - 2` is `n - 1`. */
  lemma PreviewMatchesKernel(x: int, y: int, w: int, h: int, direction: string, colors: seq<Rgb>)
    requires 0 <= x < w && 0 <= y < h
    requires |colors| >= 2
    ensures PreviewColor(x, y, w, h, direction, colors) == PositionColor(x, y, w, h, direction, colors)
  {
    var t := Param(x, y, w, h, direction);
    var scaled := t * (|colors| - 1) as real;
    NonNegativeProduct(t, |colors| - 1);
    assert Trunc(scaled) == scaled.Floor;
  }

  /** With a single stop the preview does not fail: every character gets
      that stop's colour. */
  lemma PreviewSingleStop(x: int, y: int, w: int, h: int, direction: string, colors: seq<Rgb>)
    requires 0 <= x < w && 0 <= y < h
    requires |colors| == 1
    ensures PreviewColor(x, y, w, h, direction, colors) == colors[0]
  {
    var t := Param(x, y, w, h, direction);
    assert t * (|colors| - 1) as real == 0.0;
    var c := colors[0];
    LerpEnds(c.r, c.r);
    LerpEnds(c.g, c.g);
    LerpEnds(c.b, c.b);
  }

  /** With 8-bit stops every preview colour is 8-bit, so its foreground is
      `#RRGGBB`: `#` and exactly six hexadecimal digits. */
  lemma PreviewForeground(x: int, y: int, w: int, h: int, direction: string, colors: seq<Rgb>)
    requires 0 <= x < w && 0 <= y < h
    requires |colors| >= 1
    requires forall i :: 0 <= i < |colors| ==> InByteRange(colors[i])
    ensures var c := PreviewColor(x, y, w, h, direction, colors);
            InByteRange(c) && |HexColor(c)| == 7 && HexColor(c)[0] == '#' &&
            forall i :: 1 <= i < 7 ==> HexColor(c)[i] in DigitChars
  {
    var c := PreviewColor(x, y, w, h, direction, colors);
    if |colors| == 1 {
      PreviewSingleStop(x, y, w, h, direction, colors);
    } else {
      PreviewMatchesKernel(x, y, w, h, direction, colors);
      BlendInByteRange(colors, Param(x, y, w, h, direction));
    }
    HexColorBytes(c);
  }

  // ---------------------------------------------------------------------
  // What the preview pane receives

  /** One insertion into the output pane: a character with the tag that
      styles it and the tag's foreground colour, or the newline after a
      line. */
  datatype PreviewEvent = Styled(ch: char, tag: string, foreground: string) | Newline

  /** `f"c_{r}_{g}_{b}"` */
  function TagName(c: Rgb): string
  {
    "c_" + IntToString(c.r) + "_" + IntToString(c.g) + "_" + IntToString(c.b)
  }

  /** `f"#{r:02x}{g:02x}{b:02x}"` */
  function HexColor(c: Rgb): string
  {
    "#" + Hex2(c.r) + Hex2(c.g) + Hex2(c.b)
  }

  /** A tag name is the four `_`-separated fields `c`, R, G and B. */
  lemma TagNameFields(c: Rgb)
    ensures Split(TagName(c), '_') == ["c", IntToString(c.r), IntToString(c.g), IntToString(c.b)]
  {
    var rs, gs, bs := IntToString(c.r), IntToString(c.g), IntToString(c.b);
    var parts := ["c", rs, gs, bs];
    JoinFour(rs, gs, bs);
    IntToStringChars(c.r, '_');
    IntToStringChars(c.g, '_');
    IntToStringChars(c.b, '_');
    SplitJoin(parts, '_');
  }

  lemma JoinFour(rs: string, gs: string, bs: string)
    ensures Join(["c", rs, gs, bs], '_') == "c_" + rs + "_" + gs + "_" + bs
  {
    var parts := ["c", rs, gs, bs];
    Join3(rs, gs, bs, '_');
    assert parts[1..] == [rs, gs, bs];
    assert Join(parts, '_') == "c" + ['_'] + Join([rs, gs, bs], '_');
  }

  /** Different colours get different tags, so one tag never styles two
      colours. */
  lemma TagNameInjective(c1: Rgb, c2: Rgb)
    requires TagName(c1) == TagName(c2)
    ensures c1 == c2
  {
    TagNameFields(c1);
    TagNameFields(c2);
    ParseIntRoundTrip(c1.r);
    ParseIntRoundTrip(c1.g);
    ParseIntRoundTrip(c1.b);
    ParseIntRoundTrip(c2.r);
    ParseIntRoundTrip(c2.g);
    ParseIntRoundTrip(c2.b);
  }

  /** For 8-bit channels the foreground is `#` and six hexadecimal digits,
      two per channel, that read back as the channels. */
  lemma HexColorBytes(c: Rgb)
    requires InByteRange(c)
    ensures var s := HexColor(c);
            |s| == 7 && s[0] == '#' &&
            ValueOf(s[1..3], 16) == c.r && ValueOf(s[3..5], 16) == c.g && ValueOf(s[5..7], 16) == c.b &&
            forall i :: 1 <= i < 7 ==> s[i] in DigitChars
  {
    Hex2Byte(c.r);
    Hex2Byte(c.g);
    Hex2Byte(c.b);
    var s := HexColor(c);
    assert s[1..3] == Hex2(c.r);
    assert s[3..5] == Hex2(c.g);
    assert s[5..7] == Hex2(c.b);
    HexFields(Hex2(c.r), Hex2(c.g), Hex2(c.b));
  }

  /** `#` and three two-digit fields: every character after the `#` is a
      digit of one of the fields. */
  lemma HexFields(a: string, b: string, c: string)
    requires |a| == 2 && |b| == 2 && |c| == 2
    requires forall i :: 0 <= i < 2 ==> a[i] in DigitChars && b[i] in DigitChars && c[i] in DigitChars
    ensures forall i :: 1 <= i < 7 ==> ("#" + a + b + c)[i] in DigitChars
  {
  }

  /** The insertions for one line's cells, in order. */
  function RowEvents(row: seq<Cell>): seq<PreviewEvent>
  {
    seq(|row|, x requires 0 <= x < |row| => Styled(row[x].0, TagName(row[x].1), HexColor(row[x].1)))
  }

  /** The insertions for a block of lines: each line's cells, then a newline,
      the last line included. */
  function EventsOf(rows: seq<seq<Cell>>): seq<PreviewEvent>
    decreases |rows|
  {
    if rows == [] then [] else EventsOf(rows[..|rows| - 1]) + RowEvents(rows[|rows| - 1]) + [Newline]
  }

  /** Line `y` of the preview: its characters, each with its preview colour. */
  function PreviewRow(lines: seq<string>, y: int, colors: seq<Rgb>, direction: string): seq<Cell>
    requires 0 <= y < |lines|
    requires |colors| >= 1
  {
    var line := lines[y];
    seq(|line|, x requires 0 <= x < |line| =>
      (line[x], PreviewColor(x, y, Width(lines), |lines|, direction, colors)))
  }

  function PreviewCells(lines: seq<string>, colors: seq<Rgb>, direction: string): seq<seq<Cell>>
    requires |colors| >= 1
  {
    seq(|lines|, y requires 0 <= y < |lines| => PreviewRow(lines, y, colors, direction))
  }

  /** For lines without newlines and two or more stops, the preview's cells
      are the cells `generate_gradient_text` colours. */
  lemma PreviewCellsMatchKernel(lines: seq<string>, colors: seq<Rgb>, direction: string)
    requires |colors| >= 2
    requires forall y :: 0 <= y < |lines| ==> '\n' !in lines[y]
    ensures PreviewCells(lines, colors, direction) == KernelCells(lines, colors, direction)
  {
    forall y | 0 <= y < |lines|
      ensures PreviewRow(lines, y, colors, direction) == KernelRow(lines, y, colors, direction)
    {
      var line := lines[y];
      assert DropNewline(line) == line by {
        if |line| > 0 {
          assert line[|line| - 1] in line;
        }
      }
      forall x | 0 <= x < |line|
        ensures PreviewColor(x, y, Width(lines), |lines|, direction, colors) ==
                PositionColor(x, y, Width(lines), |lines|, direction, colors)
      {
        PreviewMatchesKernel(x, y, Width(lines), |lines|, direction, colors);
      }
    }
  }

  /** The characters the pane shows for a run of insertions. */
  function Shown(events: seq<PreviewEvent>): string
  {
    seq(|events|, i requires 0 <= i < |events| => if events[i].Styled? then events[i].ch else '\n')
  }

  function RowText(row: seq<Cell>): string
  {
    seq(|row|, x requires 0 <= x < |row| => row[x].0)
  }

  function Texts(rows: seq<seq<Cell>>): seq<string>
  {
    seq(|rows|, y requires 0 <= y < |rows| => RowText(rows[y]))
  }

  /** Every line followed by a newline. */
  function LinesText(lines: seq<string>): string
    decreases |lines|
  {
    if lines == [] then [] else LinesText(lines[..|lines| - 1]) + lines[|lines| - 1] + "\n"
  }

  lemma ShownAppend(a: seq<PreviewEvent>, b: seq<PreviewEvent>)
    ensures Shown(a + b) == Shown(a) + Shown(b)
  {
    assert forall i :: 0 <= i < |b| ==> (a + b)[|a| + i] == b[i];
  }

  /** The pane shows each row's characters followed by a newline. */
  lemma {:induction false} ShownEvents(rows: seq<seq<Cell>>)
    ensures Shown(EventsOf(rows)) == LinesText(Texts(rows))
    decreases |rows|
  {
    if rows != [] {
      var n := |rows|;
      var front := rows[..n - 1];
      ShownEvents(front);
      ShownAppend(EventsOf(front) + RowEvents(rows[n - 1]), [Newline]);
      ShownAppend(EventsOf(front), RowEvents(rows[n - 1]));
      assert Shown(RowEvents(rows[n - 1])) == RowText(rows[n - 1]);
      assert Texts(rows)[..n - 1] == Texts(front);
      assert Shown([Newline]) == "\n";
    }
  }

  lemma {:induction false} LinesTextJoin(lines: seq<string>)
    requires |lines| >= 1
    ensures LinesText(lines) == Join(lines, '\n') + "\n"
    decreases |lines|
  {
    var n := |lines|;
    var front := lines[..n - 1];
    if n == 1 {
      assert LinesText(front) == [];
    } else {
      LinesTextJoin(front);
      JoinSnoc(front, lines[n - 1], '\n');
      assert front + [lines[n - 1]] == lines;
    }
  }

  // ---------------------------------------------------------------------
  // The text box

  /** `raw_text.splitlines()` for a text with no trailing newline: the
      pieces between newlines, none for the empty text. */
  function TextLines(raw: string): (lines: seq<string>)
    ensures forall y :: 0 <= y < |lines| ==> '\n' !in lines[y]
    ensures raw != [] ==> Join(lines, '\n') == raw && |lines| >= 1
  {
    if raw == [] then [] else SplitPieces(raw, '\n'); Split(raw, '\n')
  }

  /** The preview shows exactly the text, followed by one newline. */
  lemma PreviewShowsText(raw: string, colors: seq<Rgb>, direction: string)
    requires raw != []
    requires |colors| >= 1
    ensures Shown(EventsOf(PreviewCells(TextLines(raw), colors, direction))) == raw + "\n"
  {
    var lines := TextLines(raw);
    var cells := PreviewCells(lines, colors, direction);
    ShownEvents(cells);
    assert Texts(cells) == lines by {
      forall y | 0 <= y < |lines| ensures RowText(cells[y]) == lines[y] {
      }
    }
    LinesTextJoin(lines);
  }

  /** `get("1.0", "end").rstrip("\n")` is blank exactly when the text box
      holds nothing but whitespace. */
  lemma BlankText(text: string)
    ensures Strip(RStrip(text, {'\n'})) == [] <==> forall i :: 0 <= i < |text| ==> text[i] in Whitespace
  {
    var raw := RStrip(text, {'\n'});
    StripEmptyIffBlank(raw);
    assert '\n' in Whitespace;
    if Strip(raw) == [] {
      forall i | 0 <= i < |text| ensures text[i] in Whitespace {
        if i < |raw| {
          assert text[i] == raw[i];
        }
      }
    } else {
      var k :| 0 <= k < |raw| && raw[k] !in Whitespace;
      assert text[k] == raw[k];
    }
  }

  // ---------------------------------------------------------------------
  // The Generate and Export handlers

  /** A message box: a warning or an error with its text. */
  datatype Notice = Warning(text: string) | Error(text: string)

  const EmptyText: string := "Text is empty."

  /** What `generate` does: refuse with a message box, return silently, or
      redraw the preview with the given insertions. */
  datatype Outcome = Refused(notice: Notice) | Silent | Drawn(events: seq<PreviewEvent>)

  /** `generate`: a blank text is refused before the colours are read; a
      colour list the tokeniser rejects is refused with its error; an empty
      colour list returns silently; otherwise the preview is redrawn. */
  function GenerateResult(text: string, entry: string, direction: string): Outcome
  {
    GenerateOutcome(text, ColorsFromEntry(entry), direction)
  }

  /** The outcome of `generate` once `_parse_colors` has returned `parsed`. */
  function GenerateOutcome(text: string, parsed: Result<seq<Rgb>>, direction: string): Outcome
  {
    var raw := RStrip(text, {'\n'});
    if Strip(raw) == [] then Refused(Warning(EmptyText))
    else
      match parsed
      case Err(m) => Refused(Error(m))
      case Ok(colors) =>
        if |colors| == 0 then Silent
        else Drawn(EventsOf(PreviewCells(TextLines(raw), colors, direction)))
  }

  /** `generate` warns that the text is empty exactly when it holds nothing
      but whitespace, whatever the colours. */
  lemma GenerateWarnsIffBlank(text: string, parsed: Result<seq<Rgb>>, direction: string)
    ensures GenerateOutcome(text, parsed, direction) == Refused(Warning(EmptyText)) <==>
            forall i :: 0 <= i < |text| ==> text[i] in Whitespace
  {
    BlankText(text);
    if Strip(RStrip(text, {'\n'})) == [] {
      BlankRefused(text, parsed, direction);
    } else {
      assert GenerateOutcome(text, parsed, direction) != Refused(Warning(EmptyText));
    }
  }

  /** What `export` does up to the file dialog: refuse with a message box,
      or produce the ANSI text to save. */
  datatype ExportOutcome = Exported(ansi: string) | Notified(notice: Notice)

  /** `export`: a blank text is refused; the colour list is split on plain
      commas, stripped and cleared of blanks, with no regrouping of numbers;
      an error of `generate_gradient_text` is shown; otherwise its text is
      what gets saved. */
  function ExportResult(text: string, entry: string, direction: string): (r: ExportOutcome)
    ensures r == Notified(Warning(EmptyText)) <==> forall i :: 0 <= i < |text| ==> text[i] in Whitespace
  {
    var raw := RStrip(text, {'\n'});
    BlankText(text);
    if Strip(raw) == [] then Notified(Warning(EmptyText))
    else
      match GradientText(TextLines(raw), Cleaned(Split(entry, ',')), direction)
      case Err(m) => Notified(Error(m))
      case Ok(ansi) => Exported(ansi)
  }

  /** Whatever the colours, a blank text is refused with a warning. */
  lemma BlankRefused(text: string, parsed: Result<seq<Rgb>>, direction: string)
    requires Strip(RStrip(text, {'\n'})) == []
    ensures GenerateOutcome(text, parsed, direction) == Refused(Warning(EmptyText))
  {
  }

  /** `export` as far as the text to save: everything after it (the file
      dialog and the write) is not part of this model. */
  method Export(text: string, entry: string, direction: string) returns (r: ExportOutcome)
    ensures r == ExportResult(text, entry, direction)
  {
    var raw := RStrip(text, {'\n'});
    if Strip(raw) == [] {
      return Notified(Warning(EmptyText));
    }
    var colors := Cleaned(Split(entry, ','));
    var lines := TextLines(raw);
    var ansi := GenerateGradientText(lines, colors, direction);
    if ansi.Err? {
      return Notified(Error(ansi.msg));
    }
    r := Exported(ansi.value);
  }

  /** The main window's state: the text box, the colour entry, the
      direction box and what the output pane holds. */
  class GradientGui {
    var textInput: string
    var colorEntry: string
    var direction: string
    var preview: seq<PreviewEvent>

    /** The window as it opens: an empty text box, the colours `red,blue`,
        the diagonal direction and an empty output pane. */
    constructor ()
      ensures textInput == [] && colorEntry == "red,blue" && direction == "diagonal" && preview == []
    {
      textInput := [];
      colorEntry := "red,blue";
      direction := "diagonal";
      preview := [];
    }

    /** `generate`: the pane is cleared and redrawn character by character,
        or left as it was when the handler refuses or returns early. */
    method Generate() returns (notice: Option<Notice>)
      modifies this`preview
      ensures var r := GenerateOutcome(old(textInput), ColorsFromEntry(old(colorEntry)), old(direction));
              (r.Refused? ==> notice == Some(r.notice) && preview == old(preview)) &&
              (r.Silent? ==> notice == None && preview == old(preview)) &&
              (r.Drawn? ==> notice == None && preview == r.events)
    {
      notice := Handle(ColorsFromEntry(colorEntry));
    }

    /** The body of `generate`, with `expected` standing for what
        `_parse_colors` returns on the colour entry. */
    method Handle(ghost expected: Result<seq<Rgb>>) returns (notice: Option<Notice>)
      requires expected == ColorsFromEntry(colorEntry)
      modifies this`preview
      ensures var r := GenerateOutcome(old(textInput), expected, old(direction));
              (r.Refused? ==> notice == Some(r.notice) && preview == old(preview)) &&
              (r.Silent? ==> notice == None && preview == old(preview)) &&
              (r.Drawn? ==> notice == None && preview == r.events)
    {
      var raw := RStrip(textInput, {'\n'});
      if Strip(raw) == [] {
        BlankRefused(textInput, expected, direction);
        return Some(Warning(EmptyText));
      }
      var parsed := ParseColors(colorEntry);
      notice := Respond(raw, parsed);
    }

    /** The rest of `generate` once the text is known not to be blank and
        `_parse_colors` has returned `parsed`. */
    method Respond(raw: string, parsed: Result<seq<Rgb>>) returns (notice: Option<Notice>)
      requires raw == RStrip(textInput, {'\n'}) && Strip(raw) != []
      modifies this`preview
      ensures var r := GenerateOutcome(old(textInput), parsed, old(direction));
              (r.Refused? ==> notice == Some(r.notice) && preview == old(preview)) &&
              (r.Silent? ==> notice == None && preview == old(preview)) &&
              (r.Drawn? ==> notice == None && preview == r.events)
    {
      if parsed.Err? {
        return Some(Error(parsed.msg));
      }
      var colors := parsed.value;
      if |colors| == 0 {
        return None;
      }
      Draw(TextLines(raw), colors);
      notice := None;
    }

    /** The drawing loops of `generate`: the pane is cleared, then every
        character is inserted with its tag, and a newline after every line. */
    method Draw(lines: seq<string>, colors: seq<Rgb>)
      requires |colors| >= 1
      modifies this`preview
      ensures preview == EventsOf(PreviewCells(lines, colors, direction))
    {
      var h := |lines|;
      var w := Width(lines);
      ghost var rows := PreviewCells(lines, colors, direction);
      preview := [];
      for y := 0 to |lines|
        invariant preview == EventsOf(rows[..y])
      {
        var line := lines[y];
        ghost var row := PreviewRow(lines, y, colors, direction);
        assert rows[y] == row;
        ghost var events := RowEvents(row);
        for x := 0 to |line|
          invariant preview == EventsOf(rows[..y]) + events[..x]
        {
          var c := PreviewColor(x, y, w, h, direction, colors);
          assert row[x] == (line[x], c);
          assert events[x] == Styled(line[x], TagName(c), HexColor(c));
          PrefixExtend(events, x);
          preview := preview + [Styled(line[x], TagName(c), HexColor(c))];
        }
        assert events[..|line|] == events;
        assert rows[..y + 1][..y] == rows[..y];
        preview := preview + [Newline];
      }
      assert rows[..|lines|] == rows;
    }
  }

  // ---------------------------------------------------------------------
  // The two paths compared

  /** A lone number is never a colour. */
  lemma NumberIsNotColor(s: string)
    ensures IsDigits(s) ==> ParseColor(s).Err?
  {
    if IsDigits(s) {
      ParseColorRejectsLoneNumber(s);
    }
  }

  /** Export does not regroup numbers: an entry such as `255,0,0,blue` that
      the preview accepts is rejected by export with an invalid-colour error
      as soon as any cleaned part is a number. */
  lemma ExportRejectsNumbers(text: string, entry: string, direction: string, i: int)
    requires exists j :: 0 <= j < |text| && text[j] !in Whitespace
    requires 0 <= i < |Cleaned(Split(entry, ','))| && IsDigits(Cleaned(Split(entry, ','))[i])
    ensures var r := ExportResult(text, entry, direction);
            r.Notified? && r.notice.Error? && InvalidColor <= r.notice.text
  {
    var raw := RStrip(text, {'\n'});
    BlankText(text);
    assert Strip(raw) != [];
    var ps := Cleaned(Split(entry, ','));
    NumbersRejected(ps, i);
    assert GradientText(TextLines(raw), ps, direction) == Err(ParseAll(ps).msg);
  }

  /** A colour list holding a number does not parse, with an invalid-colour
      message. */
  lemma NumbersRejected(ps: seq<string>, i: int)
    requires 0 <= i < |ps| && IsDigits(ps[i])
    ensures ParseAll(ps).Err? && InvalidColor <= ParseAll(ps).msg
  {
    NumberIsNotColor(ps[i]);
    ParseAllMeaning(ps);
    var m := ParseAll(ps).msg;
    var k :| FirstBad(ps, k) && ParseColor(ps[k]) == Err(m);
    assert m == InvalidColor + Lower(ps[k]);
  }

  /** When both handlers succeed on the same window, the exported text reads
      back as exactly the cells the preview draws: same characters, same
      colours, same lines. */
  lemma PreviewMatchesExport(text: string, entry: string, direction: string)
    requires GenerateResult(text, entry, direction).Drawn?
    requires ExportResult(text, entry, direction).Exported?
    ensures ColorsFromEntry(entry).Ok? && |ColorsFromEntry(entry).value| >= 2
    ensures var cells := PreviewCells(TextLines(RStrip(text, {'\n'})), ColorsFromEntry(entry).value, direction);
            Decode(ExportResult(text, entry, direction).ansi) == Some(cells) &&
            GenerateResult(text, entry, direction).events == EventsOf(cells)
  {
    var raw := RStrip(text, {'\n'});
    var lines := TextLines(raw);
    var ps := Cleaned(Split(entry, ','));
    GradientTextDecodes(lines, ps, direction);
    ParseAllMeaning(ps);
    forall j | 0 <= j < |ps| ensures !IsDigits(ps[j]) {
      NumberIsNotColor(ps[j]);
    }
    GroupingNames(ps);
    TokenizeMatchesGrouping(entry);
    var colors := ParseAll(ps).value;
    assert ColorsFromEntry(entry) == Ok(colors);
    PreviewCellsMatchKernel(lines, colors, direction);
  }

  /** A non-blank text with a colour list that holds nothing but commas and
      whitespace leaves the preview untouched without a message, and only
      such a list does. */
  lemma SilentIffNoColors(text: string, entry: string, direction: string)
    requires exists j :: 0 <= j < |text| && text[j] !in Whitespace
    ensures GenerateResult(text, entry, direction) == Silent <==> Cleaned(Split(entry, ',')) == []
  {
    var ps := Cleaned(Split(entry, ','));
    BlankText(text);
    SilentOutcome(text, ColorsFromEntry(entry), direction);
    TokenizeMatchesGrouping(entry);
    GroupingEmpty(ps);
    ParseAllNothing(Tokenize(entry).tokens);
  }

  /** `generate` returns early without a message exactly when the text is not
      blank and the colour list parsed to nothing. */
  lemma SilentOutcome(text: string, parsed: Result<seq<Rgb>>, direction: string)
    requires Strip(RStrip(text, {'\n'})) != []
    ensures GenerateOutcome(text, parsed, direction) == Silent <==> parsed == Ok([])
  {
  }

  /** Only the empty token list parses to the empty colour list. */
  lemma ParseAllNothing(tokens: seq<string>)
    ensures ParseAll(tokens) == Ok([]) <==> tokens == []
  {
  }

  /** Only the empty list groups into no tokens and nothing pending. */
  lemma GroupingEmpty(ps: seq<string>)
    ensures Grouping(ps) == ([], false) <==> ps == []
  {
    if |ps| >= 2 {
      assert ps[1..][0] == ps[1];
    }
    if |ps| >= 3 {
      assert ps[2..][0] == ps[2];
    }
  }
}
