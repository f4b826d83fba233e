# Canvas editor text layout and colour history, in Dafny

This project models the pure logic inside the ad-creative editor component
`CanvasEditor` (`src/CanvasEditor.js`). The component composites a background
colour, template image layers, a wrapped caption and a call-to-action (CTA)
button onto a 1080×1080 canvas. The model covers the parts of it that compute
values rather than paint pixels:

- `wrapText`, the greedy line wrapper used for both the caption and the CTA
  (`wrap.dfy`). It relies on JavaScript's `split(" ")` semantics, which are
  modelled in `words.dfy`.
- the colour change in `handleColorChange`: the background colour becomes the
  picked colour, and the picked colour is appended to the recent colours, of
  which only the last five are kept (`colors.dfy`).
- the layout rules that feed the drawing calls (`layout.dfy`). Caption line
  `i` is drawn at `(position.x, position.y + i * font_size)`. The CTA font size
  and wrap length fall back to 30 and 20 through JavaScript's `||`.

Modules:

- `Words`: splitting on a space and joining with one space. Also the first
  word of a text.
- `Wrap`: the wrapper, both as the recursive function `WrapText` and as the
  loop `WrapTextLoop` written as `wrapText` writes it. Its properties are
  proved here: round trip, line bound, greedy maximality and word
  preservation. The module also proves that the wrapping is the only
  line sequence with those properties.
- `Colors`: the edit state and the bounded recent-colours queue.
- `Layout`: the template, caption placement and the CTA defaults.

Edge cases, as the code settles them:

- The empty text wraps to one empty line, `[""]`. The code takes `words[0]`
  of `"".split(" ")`, which is `""`, and always emits the last line.
- The CTA font size and wrap length fall back to their defaults when the
  setting is missing and also when it is `0`. The code uses `||`, which treats
  0 as false.
- After a colour change the recent colours hold at most five entries, whatever
  their number was before. `slice(-5)` always cuts to five.

## Model

| member | source | states |
|---|---|---|
| `Words.Split` | src/CanvasEditor.js:143 | `split(" ")` gives at least one piece, and no piece contains a space |
| `Words.JoinSplit` | src/CanvasEditor.js:143 | joining the pieces of a split with single spaces gives the text back |
| `Words.SplitCount` | src/CanvasEditor.js:143 | a split has exactly one more piece than the text has spaces, so consecutive spaces give empty words |
| `Words.SplitJoin` | src/CanvasEditor.js:143 | splitting words joined by single spaces gives back the same words |
| `Words.FirstWord` | src/CanvasEditor.js:149-153 | the first word is a space-free prefix that ends at the first space or at the end of the text |
| `Words.SplitHeadIsFirstWord` | src/CanvasEditor.js:143-145 | the first piece of a split, which starts the first line, is the text before the first space |
| `Words.SplitOfJoin` | src/CanvasEditor.js:143 | splitting lines joined by spaces yields each line's words in order, so no word crosses two lines |
| `Wrap.WrapText` | src/CanvasEditor.js:142-161 | there is at least one line and never more lines than words; the empty text gives exactly `[""]` |
| `Wrap.WrapFrom` | src/CanvasEditor.js:147-158 | from a current line and the remaining words, the loop emits at least one line and at most one per remaining word plus one |
| `Wrap.WrapTextLoop` | src/CanvasEditor.js:142-161 | the loop with a running current line computes exactly the lines of `WrapText` |
| `Wrap.WrapTextJoin` | src/CanvasEditor.js:143-158 | joining the lines with single spaces gives the input text back |
| `Wrap.WrapTextFits` | src/CanvasEditor.js:149-153 | every line is at most `maxLength` long or is a single word |
| `Wrap.WrapTextFull` | src/CanvasEditor.js:149-153 | greedy: for consecutive lines, line length + 1 + length of the next line's first word exceeds `maxLength` |
| `Wrap.WrapTextKeepsWords` | src/CanvasEditor.js:143-158 | the words of the lines, in order, are exactly the words of the text, so no word is split |
| `Wrap.WrapTextOneWord` | src/CanvasEditor.js:143-158 | a text without a space is a single line, however long it is |
| `Wrap.WrapTextIsTheGreedyWrap` | src/CanvasEditor.js:142-161 | a line sequence joins back to the text, has every line fitting and every line but the last full, if and only if it is the wrapper's output |
| `Wrap.WrapTextExample` | src/CanvasEditor.js:142-161 | "hello world foo" at 11 characters wraps to "hello world" and "foo" |
| `Colors.KeepLast` | src/CanvasEditor.js:174 | `slice(-k)` keeps `min(length, k)` elements, and they form a suffix of the input |
| `Colors.ChangeColor` | src/CanvasEditor.js:171-175 | the background becomes the picked colour; the recent colours are a suffix of the old ones plus the pick, of length `min(old + 1, 5)`, ending with the pick; the surviving old entries keep their order and duplicates stay; the texts are unchanged |
| `Colors.ChangeColorsFifo` | src/CanvasEditor.js:171-175 | after one or more picks, the recent colours are the last five of the old list followed by the picks, and the background is the last pick |
| `Colors.FirstPickFromInitial` | src/CanvasEditor.js:7-15 | from the starting state (recent colours red, yellow, blue, cyan, green), one pick drops "red", keeps the other four in order, adds the pick last, and sets it as background |
| `Colors.RecentColorsAreLastPicks` | src/CanvasEditor.js:171-175 | after five or more picks, the recent colours are the last five picks in the order they were made |
| `Layout.PlaceLines` | src/CanvasEditor.js:86-90 | the running `y` loop places line `i` at `(x, y + i * step)`, one placed line per line |
| `Layout.CaptionLayout` | src/CanvasEditor.js:76-91 | without a template nothing is placed; with one, the caption's lines are the greedy wrap at `max_characters_per_line` (they join back to the caption, fit, and each but the last is full), and line `i` is at `(position.x, position.y + i * font_size)` |
| `Layout.OrDefault` | src/CanvasEditor.js:97-101 | JavaScript's logical or of a setting and a fallback is the setting when it is present and non-zero, and the fallback otherwise; with a non-zero fallback it is never zero |
| `Layout.CtaFontSize` | src/CanvasEditor.js:97 | the CTA font size is non-zero; it is the template's value when that is present and non-zero, and 30 when the value is missing or 0 |
| `Layout.CtaWrapLength` | src/CanvasEditor.js:101 | the CTA wrap length is non-zero; it is the template's value when that is present and non-zero, and 20 when the value is missing or 0 |
| `Layout.CtaLines` | src/CanvasEditor.js:94-101 | without a template there are no lines; with one, the CTA lines are the greedy wrap of the CTA text at the resolved wrap length: they join back to the text, each fits that length or is one word, and each but the last is full |
| `Layout.CtaDefaultWrap` | src/CanvasEditor.js:101 | without a wrap length the default CTA "Shop Now" stays on one line |

## Left out

- Canvas drawing is not modelled. This covers `drawBackground`, `drawTemplate`, `loadAndDrawImage`, `drawImage`, the `fillText` calls and `roundRect`. They are foreign canvas calls over floating-point geometry, and `roundRect` has no result.
- Image loading is not modelled. It runs through asynchronous `onload` callbacks with no ordering between them. The fixed draw order of the layers and the redraw on every state change are therefore not modelled either.
- The CTA pixel geometry is not modelled: `measureText` widths, the line height of 1.2 × the width of "M", the centring, and the rounded rectangle behind each line. These depend on font metrics and floating-point arithmetic. Only the CTA's wrapping and its resolved font size and wrap length are modelled.
- React lifecycle and state plumbing are not modelled: `componentDidMount`, `componentDidUpdate`, `setState` batching and `render`. The template fetch and the `FileReader` upload are I/O and are also out.
- `handleCaptionChange`, `handleCTAChange` and `toggleColorPicker` are not modelled. Each only stores one input value or flips one flag. For the same reason `EditState` has no uploaded-image or picker-visibility field.
- Wrap.WrapText: `maxLength` is an `int`. The case where `max_characters_per_line` is missing is left out. In JavaScript a comparison with `undefined` is always false, so every word would then join the first line.
- Words.Split: text is a sequence of Dafny `char`. The UTF-16 code-unit length that JavaScript's `.length` counts is not modelled.
- Layout.OrDefault: only a missing value and `0` are treated as falsy. `NaN`, `null`, `""` and `false` are left out.
- `Layout.CaptionStyle` and `Layout.Point`: coordinates and font sizes are integers, not JavaScript numbers. Fractional and non-numeric values are left out.
