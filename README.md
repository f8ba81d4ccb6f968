# Terminal gradient text: a verified model

This project models the core of a small desktop tool that paints ASCII art
with a multi-stop colour gradient. It covers:

- the ANSI text it exports, built by `generate_gradient_text` in `gradient.py`;
- the coloured preview that the window's `generate` handler draws;
- the colour-list tokeniser `_parse_colors` behind the colour entry;
- the `export` handler up to the file dialog.

The model has four modules:

- **Strings** (`strings.dfy`): the Python string and integer operations
  the tool relies on. These are `split` and `join` on one character,
  `strip` and `rstrip`, `lower`, `isdigit`, `int()` on a string, and the
  decimal and `02x` renderings of an integer. Strings may hold any
  character, but only ASCII case, digits and whitespace are recognised.
- **Gradient** (`gradient.dfy`): `gradient.py`. This covers:
  - the preset table, and the escape constants with `ansi_truecolor`;
  - `parse_color`, and `lerp` with truncation toward zero;
  - the position-to-parameter rule for the three directions;
  - segment selection and the blend;
  - `generate_gradient_text`, as a specification function (`GradientText`)
    and as the method with its two nested loops (`GenerateGradientText`).
- **Sgr** (`sgr.dfy`): a decoder for the exported text. It reads the
  direct-colour foreground sequence `ESC[38;2;R;G;Bm` before each
  character. This is SGR (ECMA-48 section 8.3.117) with parameter 38 in
  the ITU-T T.416 direct-colour form `2;R;G;B`. It also reads the reset
  `ESC[0m` at the end of each line. It is the partner of the encoder: what
  `generate_gradient_text` writes reads back as exactly the coloured cells
  of the input.
- **Gui** (`gui.dfy`): `main.py`. This covers:
  - the tokeniser, as a fold over the comma-separated parts, with a
    left-to-right reference grouping;
  - the preview colour of each character;
  - the insertions made into the output pane, as a list of events;
  - the `generate` handler, as a class `GradientGui` whose `preview`
    field the handler rewrites;
  - the `export` handler, up to the text it would save.

Some modelling choices:

- Python floats are exact `real`s. The float `int()` is truncation toward
  zero, and `floor` is Dafny's `Floor`.
- Channel values are unbounded integers, taken as `int()` parses them.
  Nothing clamps them to 0..255, and neither does the source.
- `splitlines()` on the text box is a split on `'\n'`. The text is
  `rstrip("\n")`-ed first, as the handlers do.

## Model

| member | source | states |
|---|---|---|
| Gradient.ParseColorMeaning | gradient.py:25-33 | A preset name in any case gives its preset. Otherwise the token is rejected exactly when its lower-cased form is not three comma-separated integers, and the message is "Invalid color: " plus the lower-cased token. |
| Gradient.ParseColorIgnoresCase | gradient.py:26 | A token and its lower-cased form parse to the same result. |
| Gradient.ParseColorFormatRgb | gradient.py:29-31 | The text `R,G,B` of any colour parses back to that colour. |
| Gradient.ParseColorDigitTriple | gradient.py:29-31 | Three digit strings joined by commas parse to the colour of their decimal values. |
| Gradient.ParseColorRejectsLoneNumber | gradient.py:29-33 | A lone number is not a colour; the error names it. |
| Gradient.PresetNamesAreNotNumbers | gradient.py:4-16 | No preset name is a number. |
| Gradient.PresetNamesHaveNoComma | gradient.py:4-16 | No preset name contains a comma. |
| Gradient.ParseAllMeaning | gradient.py:44 | The colour list parses exactly when every token does. The colours are then the tokens' colours, in order. Otherwise the error is that of the first token rejected. |
| Gradient.Trunc | gradient.py:36 | The float `int()` truncates toward zero: from below for non-negative values, from above for negative ones. |
| Gradient.LerpEnds | gradient.py:35-36 | `lerp` gives `a` at `t = 0` and `b` at `t = 1`. |
| Gradient.LerpBetween | gradient.py:35-36 | For `t` in [0, 1], `lerp(a, b, t)` lies between `a` and `b`. |
| Gradient.Span | gradient.py:59-63 | `max(1, d - 1)` is at least 1, and is `d - 1` when `d >= 2`. |
| Gradient.Param | gradient.py:58-63 | For every position inside the block, in every direction, the parameter `t` lies in [0, 1]. |
| Gradient.ParamSingleCell | gradient.py:58-63 | A one-character block gets `t = 0` in every direction; nothing is divided by zero. |
| Gradient.ParamOtherIsDiagonal | gradient.py:58-63 | Any direction other than "horizontal" and "vertical" is diagonal: the mean of the horizontal and vertical parameters. |
| Gradient.ParamHorizontalEnds | gradient.py:58-59 | Horizontally, in a block at least two columns wide, the first column has `t = 0` and the last column has `t = 1`. |
| Gradient.Segment | gradient.py:65-66 | `seg + local_t == t * n`. For `t` in [0, 1], `seg` indexes a segment and `local_t` is in [0, 1], reaching 1 only at `t = 1`. |
| Gradient.BlendAtStop | gradient.py:65-71 | At `t = k/n` the colour is exactly stop `k`, including the first stop at 0 and the last at 1. |
| Gradient.BlendBetweenStops | gradient.py:65-71 | Each channel of a blended colour lies between that channel of the two stops bounding its segment. |
| Gradient.BlendInByteRange | gradient.py:65-71 | Stops with 8-bit channels blend to colours with 8-bit channels. |
| Gradient.Width | gradient.py:50 | The width is the length of the longest line, or 0 when there are no lines. |
| Gradient.DropNewline | gradient.py:55 | Only one final newline is dropped; every other character, trailing spaces included, is kept. |
| Gradient.KernelRowText | gradient.py:53-57 | Each exported row has the characters of its line, less a final newline, in order. |
| Gradient.GenerateGradientText | gradient.py:38-76 | The loops return `GradientText`: the first token error, else the two-colour error, else the encoded coloured cells of every line. |
| Sgr.DecodeCellRoundTrip | gradient.py:22-23 | Decoding `ansi_truecolor(r, g, b, ch)` followed by any text gives back the colour, the character and the rest. |
| Sgr.DecodeLineRoundTrip | gradient.py:73-75 | An exported line, every cell's sequence followed by RESET, decodes to its cells and leaves the rest. |
| Sgr.DecodeEncode | gradient.py:73-76 | Decoding the newline-joined exported lines gives back exactly the rows of cells. |
| Sgr.GradientTextDecodes | gradient.py:38-76 | A successful `generate_gradient_text` reads back as the characters of each line, less a final newline, each with the colour of its position. |
| Strings.StripEmptyIffBlank | main.py:69 | `not s.strip()` holds exactly when `s` is made of whitespace only. |
| Strings.SplitJoin | main.py:116 | Splitting the comma join of comma-free parts gives the parts back. |
| Strings.ParseIntRoundTrip | gradient.py:30 | `int(str(n)) == n` for every integer. |
| Strings.Hex2Byte | main.py:102 | `f"{v:02x}"` of a byte is exactly two lower-case hexadecimal digits that read back as it. |
| Gui.ParseColors | main.py:112-139 | `_parse_colors` returns `ColorsFromEntry`. This is the incomplete-group error when a numeric group is pending at the end; otherwise it is the parse of every token, or the first token's error. |
| Gui.ScanParts | main.py:113-129 | The loop over the comma-separated parts ends in the tokeniser's fold state: the same tokens and pending group. |
| Gui.Absorb | main.py:120-129 | One turn for a non-blank part. A digit part extends the pending group, and the third one closes it into an `R,G,B` token. Any other part drops the group and becomes a token. |
| Gui.TokenizeMatchesGrouping | main.py:112-133 | The tokens are the reference grouping of the stripped, non-blank parts. A group stays pending exactly when that grouping ends incomplete. |
| Gui.RunCleaned | main.py:117-119 | Blank parts are skipped: the loop over the raw parts equals the loop over the stripped, non-blank ones. |
| Gui.TokenizeNameTripleName | main.py:120-129 | `name,R,G,B,name` tokenises to name, `R,G,B`, name, with nothing pending. |
| Gui.TokenizeDropsCutGroup | main.py:126-129 | `num,num,name` tokenises to just the name, with nothing pending: the two numbers cut short by a name are dropped. The general rule is `Gui.TokenizeMatchesGrouping`. |
| Gui.TokenizeDropsCutNumber | main.py:126-129 | `num,name` tokenises to just the name, with nothing pending: a single number cut short by a name is dropped. |
| Gui.ColorsRejectTrailingGroup | main.py:131-133 | `name,num,num` gives the incomplete-group error: two numbers left over at the end reject the whole list. The general rule is `Gui.IncompleteIffTrailingGroup`. |
| Gui.ColorsRejectTrailingNumber | main.py:131-133 | `name,num` gives the incomplete-group error: one number left over at the end rejects the whole list. |
| Gui.IncompleteIffTrailingGroup | main.py:131-139 | `_parse_colors` reports an incomplete group exactly when the grouping ends incomplete. A bad colour is never reported that way. |
| Gui.PreviewMatchesKernel | main.py:87-101 | With two or more stops, the preview colour of each character equals the exported colour. `int` equals `floor` here, and `len - 2` equals `n - 1`. |
| Gui.PreviewSingleStop | main.py:94-101 | With one stop the segment is -1, Python's negative index picks that stop at both ends, and every character gets that stop's colour. |
| Gui.TagNameInjective | main.py:104 | Different colours get different tag names. |
| Gui.HexColorBytes | main.py:102 | For 8-bit channels, the foreground is `#` and six hex digits that read back as the channels. |
| Gui.PreviewForeground | main.py:94-106 | With 8-bit stops, every character's preview colour is 8-bit and its foreground is `#` plus exactly six hex digits. |
| Gui.PreviewCellsMatchKernel | main.py:85-101 | On newline-free lines with two or more stops, the preview's cells are the exported cells. |
| Gui.TextLines | main.py:77 | `splitlines` of the stripped text gives lines without newlines; joined with newlines, they give the text back. |
| Gui.PreviewShowsText | main.py:85-109 | The pane shows exactly the text followed by one newline. |
| Gui.BlankText | main.py:68-69 | The text box, right-stripped of newlines, is blank exactly when it holds only whitespace. |
| Gui.GenerateWarnsIffBlank | main.py:68-71 | `generate` warns "Text is empty." exactly when the text is whitespace only, whatever the colours. |
| Gui.SilentIffNoColors | main.py:73-75 | For a non-blank text, `generate` returns without a message or a redraw exactly when the colour entry holds no non-blank part. |
| Gui.GradientGui.constructor | main.py:14-57 | The window opens with an empty text, the colours `red,blue`, the diagonal direction and an empty pane. |
| Gui.GradientGui.Generate | main.py:67-109 | The handler is modelled by `GenerateOutcome`. A refusal shows its message box and leaves the pane. An empty colour list returns silently and leaves the pane. Otherwise the pane becomes the drawn events. |
| Gui.GradientGui.Draw | main.py:82-109 | The pane is cleared, then holds each character with its tag and foreground, and a newline after every line, in order. |
| Gui.ExportResult | main.py:142-158 | `export` warns "Text is empty." exactly when the text is whitespace only. |
| Gui.Export | main.py:142-158 | The handler returns `ExportResult`: the warning, else the `generate_gradient_text` error, else the text to save. |
| Gui.ExportRejectsNumbers | main.py:149-158 | `export` splits on plain commas with no regrouping. Any numeric part makes it show an invalid-colour error, even where the preview accepts the list. |
| Gui.PreviewMatchesExport | main.py:67-158 | When both handlers succeed, the exported text decodes to exactly the cells the preview draws, in the same order. |

## Left out

- The Tk widgets, message boxes and window layout. A message box is a
  `Notice` value returned by the handler. The output pane is the sequence
  of insertions.
- The file dialog and the file write at the end of `export`
  (main.py:160-172). The model stops at the text that would be saved.
- The duplicate check before `tag_configure` (main.py:105-106). Each
  insertion carries its tag name and foreground colour. `TagNameInjective`
  shows that one tag name never stands for two colours.
- IEEE floating point. Positions, parameters and blends are exact
  rationals, so rounding effects of `float` division are not captured.
  Channels above 2^53 lose precision in the source's blend, so there
  `lerp(a, b, 0)` can differ from `a`, while the model's `Gradient.LerpEnds`
  holds for every integer.
- Gradient.GenerateGradientText: a channel of 2^1024 or more makes the
  source's `lerp` (gradient.py:36) raise `OverflowError` when it converts
  the channel to a float. In the model the text is produced for such
  channels instead of the error. Python's limit of 4300 digits on
  `int()` of a string, under which `parse_color` rejects longer digit
  fields, is not modelled either.
- Gui.Export: the same overflow reaches `export` through
  `generate_gradient_text`. The source catches it and shows it as an
  error (main.py:156-158), and the model exports instead.
- Gui.GradientGui.Draw: the same overflow in the preview's `lerp`
  (main.py:99-101) is not caught, so `generate` stops after clearing the
  pane (main.py:82) with the pane partly drawn. The model draws every
  character. `_parse_colors` accepts any run of digits (main.py:120),
  so such channels are reachable.
- Gui.GradientGui.Draw: the contract assumes Tk accepts every foreground.
  A stop channel above 255 (the entry `300,0,0,blue` parses) gives a
  foreground that is not `#RRGGBB`, such as `#12c0000`. `tag_configure`
  (main.py:106) can then raise, and `generate` stops with the pane cleared
  and partly drawn. Tk's colour parsing is not part of this model.
  `Gui.PreviewForeground` shows that 8-bit stops always give `#RRGGBB`.
- Gui.GradientGui.Generate: both `Draw` gaps above (the float overflow and
  a foreground Tk rejects) reach `generate` through `Draw`.
- The default `direction="diagonal"` of `generate_gradient_text`
  (gradient.py:38): the direction is always passed. Omitting it
  corresponds to passing `"diagonal"`.
- Unicode behaviour of `strip`, `lower`, `isdigit` and `int()`. Only ASCII
  whitespace, case and digits are recognised. `int()`'s acceptance of
  surrounding whitespace and underscores is not modelled.
- The UTF-8 rewrap of standard output and standard error (main.py:9-10),
  which only affects the process streams.
- Line separators other than `'\n'` in `splitlines`. The source also
  breaks lines at `\r`, `\v`, `\f`, the characters 28 to 30, U+0085,
  U+2028 and U+2029. In the model those characters stay inside a line.
- `_parse_colors` and `export` read the widgets through `self`. In the
  model they take the entry and text strings as parameters. `generate`
  is a method of `GradientGui`, which holds those strings as fields.
- Gui.GradientGui.Generate is split into helper methods `Handle`,
  `Respond` and `Draw`, and `_parse_colors` into `ScanParts` and `Absorb`.
  These are the source's own steps, not extra operations.
