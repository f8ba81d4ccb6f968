/** The gradient kernel (gradient.py): the colour presets, `parse_color`,
    `lerp`, `ansi_truecolor`, and `generate_gradient_text`, which maps every
    character of a block of lines to a colour blended between two adjacent
    stops and serialises the block as text carrying ANSI direct-colour
    escape sequences.

    Python floats are modelled as exact `real`s; `int(...)` on a float is
    `Trunc` (toward zero) and `math.floor` is `.Floor`. */
module Gradient {
  import opened Strings

  /** A colour. The channels are whatever integers the caller supplied:
      nothing clamps them to 0..255. */
  datatype Rgb = Rgb(r: int, g: int, b: int)

  /** A value, or the message of the `ValueError` raised instead. */
  datatype Result<T> = Ok(value: T) | Err(msg: string)

  /** A character together with the colour it is drawn in. */
  type Cell = (char, Rgb)

  predicate InByteRange(c: Rgb)
  {
    0 <= c.r <= 255 && 0 <= c.g <= 255 && 0 <= c.b <= 255
  }

  /** The named colours, keyed by their lower-case names. */
  const Presets: map<string, Rgb> := map[
    "red" := Rgb(255, 0, 0),
    "yellow" := Rgb(255, 255, 0),
    "green" := Rgb(37, 196, 104),
    "lime" := Rgb(0, 255, 0),
    "blue" := Rgb(0, 0, 255),
    "cyan" := Rgb(0, 255, 255),
    "grey" := Rgb(186, 191, 188),
    "gray" := Rgb(186, 191, 188),
    "white" := Rgb(255, 255, 255),
    "pink" := Rgb(255, 0, 230),
    "purple" := Rgb(162, 0, 255)
  ]

  const InvalidColor: string := "Invalid color: "
  const TooFewColors: string := "At least two colors required for gradient."

  // ---------------------------------------------------------------------
  // Escape sequences

  /** ESC, ASCII 27. */
  const Esc: char := 27 as char

  /** SGR 0: back to the default rendition. */
  const Reset: string := [Esc] + "[0m"

  /** `ansi_truecolor`: the SGR direct-colour foreground sequence
      `ESC[38;2;R;G;Bm` for the colour, followed by the character. */
  function AnsiTruecolor(c: Rgb, ch: char): string
  {
    ForegroundIntro + IntToString(c.r) + ";" + IntToString(c.g) + ";" + IntToString(c.b) + "m" + [ch]
  }

  /** What opens every direct-colour foreground sequence: ESC, `[`, then the
      parameters `38;2;`. */
  const ForegroundIntro: string := [Esc] + "[38;2;"

  // ---------------------------------------------------------------------
  // Colour tokens

  /** `parse_color`: the token is lower-cased; a preset name gives the
      preset, anything else must split on commas into exactly three
      integers, taken as they are. Any other token is rejected with a
      message naming the lower-cased token. */
  function ParseColor(s: string): Result<Rgb>
  {
    var l := Lower(s);
    if l in Presets then Ok(Presets[l])
    else
      var fields := Split(l, ',');
      if |fields| == 3 && ParseInt(fields[0]).Some? && ParseInt(fields[1]).Some? && ParseInt(fields[2]).Some?
      then Ok(Rgb(ParseInt(fields[0]).value, ParseInt(fields[1]).value, ParseInt(fields[2]).value))
      else Err(InvalidColor + l)
  }

  /** The shape `map(int, s.split(","))` unpacks into three values. */
  predicate IsIntTriple(s: string)
  {
    var fields := Split(s, ',');
    |fields| == 3 && forall i :: 0 <= i < 3 ==> ParseInt(fields[i]).Some?
  }

  /** A preset name, in any case, gives the preset; otherwise the token is
      a colour exactly when its lower-cased form unpacks into three
      integers, and a rejected token is named lower-cased in the message. */
  lemma ParseColorMeaning(s: string)
    ensures var r := ParseColor(s);
            (Lower(s) in Presets ==> r == Ok(Presets[Lower(s)])) &&
            (r.Err? <==> Lower(s) !in Presets && !IsIntTriple(Lower(s))) &&
            (r.Err? ==> r.msg == InvalidColor + Lower(s))
  {
  }

  /** The canonical "R,G,B" text of a colour. */
  function FormatRgb(c: Rgb): string
  {
    Join([IntToString(c.r), IntToString(c.g), IntToString(c.b)], ',')
  }

  lemma LowerIdempotent(s: string)
    ensures Lower(Lower(s)) == Lower(s)
  {
  }

  /** Case does not matter to `parse_color`. */
  lemma ParseColorIgnoresCase(s: string)
    ensures ParseColor(s) == ParseColor(Lower(s))
  {
    LowerIdempotent(s);
  }

  /** A string without upper-case letters is its own lower-case form. */
  lemma LowerKeeps(s: string)
    requires forall c :: 'A' <= c <= 'Z' ==> c !in s
    ensures Lower(s) == s
  {
    forall i | 0 <= i < |s| ensures Lower(s)[i] == s[i] {
      assert s[i] in s;
    }
  }

  /** Every preset name is a non-empty word of lower-case letters. */
  lemma PresetNamesAreWords()
    ensures forall k :: k in Presets ==> IsWord(k)
  {
    forall k | k in Presets ensures IsWord(k) {
      assert k in {"red", "yellow", "green", "lime", "blue", "cyan", "grey", "gray", "white", "pink", "purple"};
    }
  }

  predicate IsWord(k: string)
  {
    k != [] && forall i :: 0 <= i < |k| ==> 'a' <= k[i] <= 'z'
  }

  lemma PresetNamesHaveNoComma()
    ensures forall k :: k in Presets ==> ',' !in k
  {
    PresetNamesAreWords();
  }

  lemma PresetNamesAreNotNumbers()
    ensures forall k :: k in Presets ==> !IsDigits(k)
  {
    PresetNamesAreWords();
    forall k | k in Presets ensures !IsDigits(k) {
      assert 'a' <= k[0] <= 'z';
    }
  }

  /** Every colour, written as "R,G,B", is read back by `parse_color` as itself. */
  lemma ParseColorFormatRgb(c: Rgb)
    ensures ParseColor(FormatRgb(c)) == Ok(c)
  {
    var parts := [IntToString(c.r), IntToString(c.g), IntToString(c.b)];
    var f := FormatRgb(c);
    Join3(parts[0], parts[1], parts[2], ',');
    forall ch | 'A' <= ch <= 'Z' ensures ch !in f {
      IntToStringChars(c.r, ch);
      IntToStringChars(c.g, ch);
      IntToStringChars(c.b, ch);
    }
    LowerKeeps(f);
    PresetNamesHaveNoComma();
    assert f[|parts[0]|] == ',';
    forall i | 0 <= i < 3 ensures ',' !in parts[i] {
      IntToStringChars(c.r, ',');
      IntToStringChars(c.g, ',');
      IntToStringChars(c.b, ',');
    }
    SplitJoin(parts, ',');
    ParseIntRoundTrip(c.r);
    ParseIntRoundTrip(c.g);
    ParseIntRoundTrip(c.b);
  }

  /** Three runs of decimal digits joined by commas read as the three
      (non-negative) numbers they spell. */
  lemma ParseColorDigitTriple(a: string, b: string, c: string)
    requires IsDigits(a) && IsDigits(b) && IsDigits(c)
    ensures ParseColor(Join([a, b, c], ',')) == Ok(Rgb(ValueOf(a, 10), ValueOf(b, 10), ValueOf(c, 10)))
  {
    var parts := [a, b, c];
    var f := Join(parts, ',');
    Join3(a, b, c, ',');
    forall ch | 'A' <= ch <= 'Z' ensures ch !in f {
      DigitsExclude(a, ch);
      DigitsExclude(b, ch);
      DigitsExclude(c, ch);
    }
    LowerKeeps(f);
    PresetNamesHaveNoComma();
    assert f[|a|] == ',';
    forall i | 0 <= i < 3 ensures ',' !in parts[i] {
      DigitsExclude(parts[i], ',');
    }
    SplitJoin(parts, ',');
  }

  lemma DigitsExclude(s: string, c: char)
    requires IsDigits(s) && !IsDigit(c)
    ensures c !in s
  {
    assert forall i :: 0 <= i < |s| ==> s[i] != c;
  }

  /** A lone number is not a colour: it is neither a preset nor three fields. */
  lemma ParseColorRejectsLoneNumber(s: string)
    requires IsDigits(s)
    ensures ParseColor(s) == Err(InvalidColor + s)
  {
    forall ch | 'A' <= ch <= 'Z' ensures ch !in s {
      DigitsExclude(s, ch);
    }
    LowerKeeps(s);
    PresetNamesAreNotNumbers();
    DigitsExclude(s, ',');
    SplitNoSeparator(s, ',');
  }

  /** `[parse_color(c) for c in tokens]`: the colours in token order, or
      the error of the first token that is not a colour. */
  function ParseAll(tokens: seq<string>): Result<seq<Rgb>>
  {
    if tokens == [] then Ok([])
    else
      match ParseColor(tokens[0])
      case Err(m) => Err(m)
      case Ok(c) =>
        match ParseAll(tokens[1..])
        case Err(m) => Err(m)
        case Ok(cs) => Ok([c] + cs)
  }

  /** The list parses exactly when every token does; the colours are the
      tokens' colours, in order; otherwise the error is that of the first
      token `parse_color` rejects. */
  lemma ParseAllMeaning(tokens: seq<string>)
    ensures var r := ParseAll(tokens);
            (r.Ok? <==> forall i :: 0 <= i < |tokens| ==> ParseColor(tokens[i]).Ok?) &&
            (r.Ok? ==> |r.value| == |tokens| &&
                       forall i {:trigger ParseColor(tokens[i])} :: 0 <= i < |tokens| ==> ParseColor(tokens[i]) == Ok(r.value[i])) &&
            (r.Err? ==> exists i :: FirstBad(tokens, i) && ParseColor(tokens[i]) == Err(r.msg))
  {
    ParseAllColors(tokens);
    ParseAllFirstError(tokens);
  }

  /** The Ok half: exactly when every token parses, and then to the tokens'
      colours in order. */
  lemma {:induction false} ParseAllColors(tokens: seq<string>)
    ensures var r := ParseAll(tokens);
            (r.Ok? <==> forall i :: 0 <= i < |tokens| ==> ParseColor(tokens[i]).Ok?) &&
            (r.Ok? ==> |r.value| == |tokens| &&
                       forall i {:trigger ParseColor(tokens[i])} :: 0 <= i < |tokens| ==> ParseColor(tokens[i]) == Ok(r.value[i]))
  {
    if tokens != [] {
      ParseAllColors(tokens[1..]);
      TailIndex(tokens);
      if ParseColor(tokens[0]).Ok? && ParseAll(tokens[1..]).Ok? {
        var r := ParseAll(tokens);
        assert r.value == [ParseColor(tokens[0]).value] + ParseAll(tokens[1..]).value;
      }
    }
  }

  lemma TailIndex<T>(s: seq<T>)
    requires s != []
    ensures forall i :: 1 <= i < |s| ==> s[i] == s[1..][i - 1]
  {
  }

  /** The Err half: the message is that of the first rejected token. */
  lemma {:induction false} ParseAllFirstError(tokens: seq<string>)
    ensures var r := ParseAll(tokens);
            r.Err? ==> exists i :: FirstBad(tokens, i) && ParseColor(tokens[i]) == Err(r.msg)
  {
    if tokens != [] {
      ParseAllFirstError(tokens[1..]);
      match ParseColor(tokens[0])
      case Err(m) =>
        assert FirstBad(tokens, 0);
      case Ok(c) =>
        match ParseAll(tokens[1..])
        case Err(m) =>
          var i :| FirstBad(tokens[1..], i) && ParseColor(tokens[1..][i]) == Err(m);
          FirstBadShift(tokens, i);
        case Ok(cs) =>
    }
  }

  /** Token `i` is the first one `parse_color` rejects. */
  predicate FirstBad(tokens: seq<string>, i: int)
  {
    0 <= i < |tokens| && ParseColor(tokens[i]).Err? &&
    forall j :: 0 <= j < i ==> ParseColor(tokens[j]).Ok?
  }

  lemma FirstBadShift(tokens: seq<string>, i: int)
    requires |tokens| > 0 && ParseColor(tokens[0]).Ok?
    requires FirstBad(tokens[1..], i)
    ensures FirstBad(tokens, i + 1)
  {
    forall j | 0 <= j < i + 1 ensures ParseColor(tokens[j]).Ok? {
      if j > 0 {
        assert tokens[j] == tokens[1..][j - 1];
      }
    }
  }

  // ---------------------------------------------------------------------
  // Interpolation

  /** Python's `int(v)` on a float: truncation toward zero. */
  function Trunc(v: real): (i: int)
    ensures 0.0 <= v ==> i as real <= v < i as real + 1.0
    ensures v < 0.0 ==> i as real - 1.0 < v <= i as real
  {
    if v >= 0.0 then v.Floor else -((-v).Floor)
  }

  /** `lerp(a, b, t)`: the point a fraction `t` of the way from `a` to `b`,
      truncated toward zero. */
  function Lerp(a: int, b: int, t: real): int
  {
    Trunc(a as real + (b - a) as real * t)
  }

  lemma LerpEnds(a: int, b: int)
    ensures Lerp(a, b, 0.0) == a
    ensures Lerp(a, b, 1.0) == b
  {
  }

  /** For `t` in [0, 1] the result stays between the two end points. */
  lemma LerpBetween(a: int, b: int, t: real)
    requires 0.0 <= t <= 1.0
    ensures Within(a, b, Lerp(a, b, t))
  {
    var v := a as real + (b - a) as real * t;
    if a <= b {
      Rising(a, b, t);
      TruncWithin(a, b, v);
    } else {
      Falling(a, b, t);
      TruncWithin(b, a, v);
    }
  }

  lemma Rising(a: int, b: int, t: real)
    requires 0.0 <= t <= 1.0 && a <= b
    ensures a as real <= a as real + (b - a) as real * t <= b as real
  {
    MulUnit((b - a) as real, t);
  }

  lemma Falling(a: int, b: int, t: real)
    requires 0.0 <= t <= 1.0 && b < a
    ensures b as real <= a as real + (b - a) as real * t <= a as real
  {
    MulUnit((a - b) as real, t);
    assert (b - a) as real * t == -((a - b) as real * t);
  }

  lemma MulUnit(d: real, t: real)
    requires 0.0 <= t <= 1.0 && 0.0 <= d
    ensures 0.0 <= d * t <= d
  {
  }

  lemma TruncWithin(lo: int, hi: int, v: real)
    requires lo as real <= v <= hi as real
    ensures lo <= Trunc(v) <= hi
  {
  }

  // ---------------------------------------------------------------------
  // Position to parameter

  /** `max(1, d - 1)`: the divisor that spreads positions 0..d-1 over [0, 1];
      never zero. */
  function Span(d: int): (s: int)
    ensures s >= 1
    ensures d >= 2 ==> s == d - 1
  {
    if 1 < d - 1 then d - 1 else 1
  }

  /** The gradient parameter `t` of column `x`, row `y` in a block `w`
      characters wide and `h` lines high. Any direction other than
      "horizontal" and "vertical" is diagonal. Inside the block `t` lies in
      [0, 1]. */
  function Param(x: int, y: int, w: int, h: int, direction: string): (t: real)
    ensures 0 <= x < w && 0 <= y < h ==> 0.0 <= t <= 1.0
  {
    var tx := x as real / Span(w) as real;
    var ty := y as real / Span(h) as real;
    UnitFraction(x, w);
    UnitFraction(y, h);
    if direction == "horizontal" then tx
    else if direction == "vertical" then ty
    else (tx + ty) / 2.0
  }

  lemma UnitFraction(x: int, d: int)
    ensures 0 <= x < d ==> 0.0 <= x as real / Span(d) as real <= 1.0
  {
    if 0 <= x < d {
      var s := Span(d) as real;
      assert x as real <= s;
      assert x as real / s <= s / s;
    }
  }

  /** A block of one character (or one column and one line) gets `t = 0`
      in every direction: nothing is divided by zero. */
  lemma ParamSingleCell(direction: string)
    ensures Param(0, 0, 1, 1, direction) == 0.0
  {
  }

  /** Any direction string other than "horizontal" and "vertical" behaves as
      "diagonal": the mean of the horizontal and vertical parameters. */
  lemma ParamOtherIsDiagonal(x: int, y: int, w: int, h: int, direction: string)
    requires direction != "horizontal" && direction != "vertical"
    ensures Param(x, y, w, h, direction) == Param(x, y, w, h, "diagonal")
    ensures Param(x, y, w, h, direction) ==
            (Param(x, y, w, h, "horizontal") + Param(x, y, w, h, "vertical")) / 2.0
  {
  }

  /** Horizontally, the first column is at `t = 0` and the last one of a
      block at least two wide at `t = 1`. */
  lemma ParamHorizontalEnds(y: int, w: int, h: int)
    requires w >= 2
    ensures Param(0, y, w, h, "horizontal") == 0.0
    ensures Param(w - 1, y, w, h, "horizontal") == 1.0
  {
  }

  // ---------------------------------------------------------------------
  // Segment selection and blending

  /** `seg = min(floor(t * n), n - 1)` and `local_t = t * n - seg`: for `t`
      in [0, 1] and at least one segment, `seg` is a segment index and
      `local_t` a fraction, which reaches 1 only at `t = 1`. */
  function Segment(t: real, n: int): (s: (int, real))
    ensures s.0 as real + s.1 == t * n as real
    ensures n >= 1 && 0.0 <= t <= 1.0 ==> 0 <= s.0 <= n - 1 && 0.0 <= s.1 <= 1.0
    ensures n >= 1 && 0.0 <= t <= 1.0 && s.1 == 1.0 ==> t == 1.0
  {
    var x := t * n as real;
    var f := x.Floor;
    var seg := if f <= n - 1 then f else n - 1;
    ClampedSegment(t, n);
    (seg, x - seg as real)
  }

  lemma ClampedSegment(t: real, n: int)
    ensures var x := t * n as real;
            var seg := if x.Floor <= n - 1 then x.Floor else n - 1;
            n >= 1 && 0.0 <= t <= 1.0 ==>
              0 <= seg <= n - 1 && 0.0 <= x - seg as real <= 1.0 && (x - seg as real == 1.0 ==> t == 1.0)
  {
    if n >= 1 && 0.0 <= t <= 1.0 {
      var x := t * n as real;
      ScaledUnit(t, n);
      SegmentOf(x, n);
      if x == n as real {
        WholeScale(t, n);
      }
    }
  }

  /** For `0 <= x <= n`, clamping `floor(x)` to `n - 1` gives an index in
      `[0, n - 1]` at most 1 below `x`, and exactly 1 below only at `x = n`. */
  lemma SegmentOf(x: real, n: int)
    requires n >= 1 && 0.0 <= x <= n as real
    ensures var seg := if x.Floor <= n - 1 then x.Floor else n - 1;
            0 <= seg <= n - 1 && 0.0 <= x - seg as real <= 1.0 &&
            (x - seg as real == 1.0 ==> x == n as real)
  {
  }

  lemma WholeScale(t: real, n: int)
    requires n >= 1 && t * n as real == n as real
    ensures t == 1.0
  {
    assert (t - 1.0) * n as real == 0.0;
  }

  lemma ScaledUnit(t: real, n: int)
    ensures n >= 1 && 0.0 <= t <= 1.0 ==> 0.0 <= t * n as real <= n as real
  {
    if n >= 1 && 0.0 <= t <= 1.0 {
      MulUnit(n as real, t);
      assert t * n as real == n as real * t;
    }
  }

  /** The colour at parameter `t` of the gradient through `stops`: each
      channel blended between the two stops that bound `t`'s segment. */
  function Blend(stops: seq<Rgb>, t: real): Rgb
    requires |stops| >= 2
    requires 0.0 <= t <= 1.0
  {
    var s := Segment(t, |stops| - 1);
    var c1, c2 := stops[s.0], stops[s.0 + 1];
    Rgb(Lerp(c1.r, c2.r, s.1), Lerp(c1.g, c2.g, s.1), Lerp(c1.b, c2.b, s.1))
  }

  /** At `t = k/n` the gradient is exactly stop `k`: the first stop at
      `t = 0`, the last at `t = 1`, and the stop itself, not a blend, on
      every segment boundary. */
  lemma BlendAtStop(stops: seq<Rgb>, k: int)
    requires |stops| >= 2
    requires 0 <= k < |stops|
    ensures var n := |stops| - 1;
            0.0 <= k as real / n as real <= 1.0 &&
            Blend(stops, k as real / n as real) == stops[k]
  {
    var n := |stops| - 1;
    var t := k as real / n as real;
    assert t * n as real == k as real;
    assert 0.0 <= t <= 1.0 by { UnitFraction(k, n + 1); }
    var s := Segment(t, n);
    assert (t * n as real).Floor == k;
    if k < n {
      assert s.0 == k && s.1 == 0.0;
    } else {
      assert s.0 == n - 1 && s.1 == 1.0;
    }
  }

  /** Every channel of a blended colour lies between the same channel of the
      two adjacent stops that bound `t`'s segment. */
  lemma BlendBetweenStops(stops: seq<Rgb>, t: real)
    requires |stops| >= 2
    requires 0.0 <= t <= 1.0
    ensures var k := Segment(t, |stops| - 1).0;
            0 <= k < |stops| - 1 &&
            Between(stops[k], stops[k + 1], Blend(stops, t))
  {
    var s := Segment(t, |stops| - 1);
    var c1, c2 := stops[s.0], stops[s.0 + 1];
    LerpBetween(c1.r, c2.r, s.1);
    LerpBetween(c1.g, c2.g, s.1);
    LerpBetween(c1.b, c2.b, s.1);
  }

  /** `c` lies, channel by channel, between `a` and `b`. */
  predicate Between(a: Rgb, b: Rgb, c: Rgb)
  {
    Within(a.r, b.r, c.r) && Within(a.g, b.g, c.g) && Within(a.b, b.b, c.b)
  }

  predicate Within(a: int, b: int, x: int)
  {
    (a <= x <= b) || (b <= x <= a)
  }

  /** Stops with 8-bit channels only ever produce 8-bit colours. */
  lemma BlendInByteRange(stops: seq<Rgb>, t: real)
    requires |stops| >= 2
    requires 0.0 <= t <= 1.0
    requires forall i :: 0 <= i < |stops| ==> InByteRange(stops[i])
    ensures InByteRange(Blend(stops, t))
  {
    BlendBetweenStops(stops, t);
  }

  /** The colour of the character at (x, y): the gradient parameter of the
      position, then the blend at that parameter. */
  function PositionColor(x: int, y: int, w: int, h: int, direction: string, stops: seq<Rgb>): Rgb
    requires 0 <= x < w && 0 <= y < h
    requires |stops| >= 2
  {
    Blend(stops, Param(x, y, w, h, direction))
  }

  // ---------------------------------------------------------------------
  // generate_gradient_text

  /** `max(len(l) for l in lines)`, 0 for no lines: the block's width. */
  function Width(lines: seq<string>): (w: nat)
    ensures forall i :: 0 <= i < |lines| ==> |lines[i]| <= w
    ensures |lines| == 0 ==> w == 0
    ensures |lines| > 0 ==> exists i :: 0 <= i < |lines| && |lines[i]| == w
  {
    if |lines| == 0 then 0
    else
      var rest := Width(lines[1..]);
      assert forall i :: 1 <= i < |lines| ==> lines[i] == lines[1..][i - 1];
      if |lines[0]| >= rest then |lines[0]| else rest
  }

  /** `line[:-1] if line.endswith("\n") else line`: one final newline goes,
      every other character (spaces included) stays. */
  function DropNewline(line: string): (r: string)
    ensures r <= line
    ensures |line| > 0 && line[|line| - 1] == '\n' ==> |r| == |line| - 1
    ensures (|line| == 0 || line[|line| - 1] != '\n') ==> r == line
  {
    if |line| > 0 && line[|line| - 1] == '\n' then line[..|line| - 1] else line
  }

  /** The coloured cells of line `y`: its characters, less a final newline,
      each with the colour of its position in the block. */
  function KernelRow(lines: seq<string>, y: int, stops: seq<Rgb>, direction: string): (row: seq<Cell>)
    requires 0 <= y < |lines|
    requires |stops| >= 2
  {
    var line := DropNewline(lines[y]);
    seq(|line|, x requires 0 <= x < |line| =>
      (line[x], PositionColor(x, y, Width(lines), |lines|, direction, stops)))
  }

  function KernelCells(lines: seq<string>, stops: seq<Rgb>, direction: string): seq<seq<Cell>>
    requires |stops| >= 2
  {
    seq(|lines|, y requires 0 <= y < |lines| => KernelRow(lines, y, stops, direction))
  }

  /** The characters of each row are those of its line, less a final
      newline; trailing spaces are kept. */
  lemma KernelRowText(lines: seq<string>, y: int, stops: seq<Rgb>, direction: string)
    requires 0 <= y < |lines|
    requires |stops| >= 2
    ensures var row := KernelRow(lines, y, stops, direction);
            |row| == |DropNewline(lines[y])| &&
            forall x :: 0 <= x < |row| ==> row[x].0 == lines[y][x]
  {
  }

  /** `"".join(parts)` */
  function Concat(parts: seq<string>): string
  {
    if parts == [] then [] else parts[0] + Concat(parts[1..])
  }

  /** The escape sequence and character of every cell of a row. */
  function CellCodes(row: seq<Cell>): seq<string>
  {
    seq(|row|, x requires 0 <= x < |row| => AnsiTruecolor(row[x].1, row[x].0))
  }

  /** One row as exported: every cell's escape sequence and character, then
      the reset sequence. */
  function EncodeLine(row: seq<Cell>): string
  {
    Concat(CellCodes(row)) + Reset
  }

  function EncodedLines(rows: seq<seq<Cell>>): seq<string>
  {
    seq(|rows|, y requires 0 <= y < |rows| => EncodeLine(rows[y]))
  }

  /** The exported text: the encoded rows joined by single newlines. */
  function Encode(rows: seq<seq<Cell>>): string
  {
    Join(EncodedLines(rows), '\n')
  }

  /** What `generate_gradient_text` returns or raises: every token is parsed
      first (the first bad one raises), then fewer than two colours raise,
      and only then is the text produced. */
  function GradientText(lines: seq<string>, colorList: seq<string>, direction: string): Result<string>
  {
    match ParseAll(colorList)
    case Err(m) => Err(m)
    case Ok(colors) =>
      if |colors| < 2 then Err(TooFewColors)
      else Ok(Encode(KernelCells(lines, colors, direction)))
  }

  /** `generate_gradient_text(lines, color_list, direction)`. */
  method GenerateGradientText(lines: seq<string>, colorList: seq<string>, direction: string)
    returns (r: Result<string>)
    ensures r == GradientText(lines, colorList, direction)
  {
    var parsed := ParseAll(colorList);
    if parsed.Err? {
      return Err(parsed.msg);
    }
    var colors := parsed.value;
    if |colors| < 2 {
      return Err(TooFewColors);
    }
    var n := |colors| - 1;
    var h := |lines|;
    var w := Width(lines);
    ghost var encoded := EncodedLines(KernelCells(lines, colors, direction));
    var outLines: seq<string> := [];
    for y := 0 to |lines|
      invariant outLines == encoded[..y]
    {
      var line := lines[y];
      var lineNoNl := DropNewline(line);
      ghost var row := KernelRow(lines, y, colors, direction);
      ghost var codes := CellCodes(row);
      var buf: seq<string> := [];
      for x := 0 to |lineNoNl|
        invariant buf == codes[..x]
      {
        var t := Param(x, y, w, h, direction);
        var s := Segment(t, n);
        var c1, c2 := colors[s.0], colors[s.0 + 1];
        var red := Lerp(c1.r, c2.r, s.1);
        var green := Lerp(c1.g, c2.g, s.1);
        var blue := Lerp(c1.b, c2.b, s.1);
        assert row[x] == (lineNoNl[x], Rgb(red, green, blue));
        PrefixExtend(codes, x);
        buf := buf + [AnsiTruecolor(Rgb(red, green, blue), lineNoNl[x])];
      }
      assert buf == codes;
      assert encoded[y] == EncodeLine(row);
      PrefixExtend(encoded, y);
      outLines := outLines + [Concat(buf) + Reset];
    }
    assert outLines == encoded;
    r := Ok(Join(outLines, '\n'));
  }
}
