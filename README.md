# Icon sprite generator, modelled in Dafny

`assets/generate_icon_sprite.py` turns a directory of SVG icons into one SVG
sprite. For each icon, in file-name order, it does the following:

- reads the icon's `viewBox`;
- walks the document for drawable shapes;
- drops the ones that look like full-canvas backgrounds;
- maps the rest onto a 24 by 24 canvas with a `transform` and paints them with
  `currentColor`;
- writes them into a `<symbol>` named after the file.

A final pass strips every line, drops blank lines and re-indents symbol and
path lines.

This project models that core. It proves that each modelled operation does
what the script promises.

Modules (one file each):

- `Wrappers` (`wrappers.dfy`): `Option` and `Result`, which carry a value or
  the exception raised in its place.
- `Text` (`text.dfy`): the Python string operations the script relies on, over `seq<char>`:
  - `str.isspace`, `strip`, `split()`, `split('\n')` and `join`;
  - `startswith`, `str(int)`;
  - the code-point order `sorted()` uses.
- `Sequences` (`sequences.dfy`): facts about sequences of any element type.
- `Numbers` (`numbers.dfy`): `float(text)` as a one-pass reader over exact reals, and `int(x)`.
- `Svg` (`svg.dfy`): the parsed document that ElementTree provides, as a value:
  - a tag, an attribute map and children;
  - the local name of a tag;
  - the drawable tags;
  - the two exceptions that can escape a shape's processing.
- `ViewBoxes` (`viewbox.dfy`): `parse_viewbox`.
  - The int fallback `(0, 0, 24, 24)` is kept apart from a parsed tuple of
    floats, because the two print differently inside the f-string patterns.
- `Background` (`background.dfy`): `is_background_element`, with `float()`'s
  ValueError as a `Failure`.
- `Normalize` (`normalize.dfy`): `normalize_element_to_24x24`.
  - The viewBox-to-canvas frame and its transform components are modelled over reals.
  - The method applies each `element.set` in turn and is proved equal to the function `Normalized`.
- `Collect` (`collect.dfy`): `extract_icon_elements` and its inner `collect_elements`.
  - The class `Collector` holds the enclosing `drawable_elements` list as a
    field and walks the tree with a recursive method.
  - The method is proved against a specification function, `VisitAll`.
  - The walk is also proved equal to a reference definition: first collect the
    candidates, then step through them.
- `Format` (`format.dfy`): `optimize_sprite_content`, as a loop proved against the function `Optimized`.
- `Sprite` (`sprite.dfy`): the symbol-assembly loop of `generate_sprite` and the text it writes.
  - It also models `Path.stem` and `sorted()` over the files.

Two behaviours of the code worth noting:

- A zero-size viewBox raises ZeroDivisionError in the normaliser. That error
  is caught by `extract_icon_elements`' own `except Exception` (lines 150-152),
  not by the per-file handler in `generate_sprite`. The icon gets no shapes and
  is skipped.
- The formatting pass gives four spaces only to lines that start with `<path`.
  A serialised `circle`, `rect` or any other shape loses the indentation it
  was written with (`Sprite.ElementLineIndent`). So does a shape that
  ElementTree writes with a namespace prefix such as `<ns0:path`.

## Model

| member | source | states |
|---|---|---|
| ViewBoxes.ParseViewBox | assets/generate_icon_sprite.py:30-38 | the result is a parsed tuple exactly when the text splits into four tokens that all parse as floats, and then it holds those four values in order; any other text gives the fallback |
| ViewBoxes.ParseAllReadsEveryToken | assets/generate_icon_sprite.py:33 | the list comprehension succeeds exactly when every token parses, and its i-th value is the i-th token's float |
| ViewBoxes.WrongTokenCountFallsBack | assets/generate_icon_sprite.py:34-38 | text that does not split into four tokens gives (0, 0, 24, 24) |
| ViewBoxes.ParseViewBoxOfInts | assets/generate_icon_sprite.py:30-35 | four integers written with single spaces read back as those four numbers |
| ViewBoxes.MissingViewBoxIsParsedDefault | assets/generate_icon_sprite.py:123-124 | a root without `viewBox` reads the default text, which parses to the floats (0.0, 0.0, 24.0, 24.0), not to the int fallback |
| Numbers.ParseFloat | assets/generate_icon_sprite.py:33 | `float(text)` raises ValueError on text holding no digit at all: empty, blank, a lone sign or a lone point |
| Numbers.ParseFloatOfDecimal | assets/generate_icon_sprite.py:33 | text of the form sign, digits, point, digits (either digit run may be empty, not both) reads as the digits on both sides taken as one integer, shifted right by the number of digits after the point, with the sign |
| Numbers.ParseFloatOfScientific | assets/generate_icon_sprite.py:33 | the same text followed by `e` or `E`, an optional sign and exponent digits reads as that mantissa shifted by the signed exponent less the digits after the point, e.g. `1.5e1` as 15 |
| Numbers.Scale10Up | assets/generate_icon_sprite.py:33 | shifting by `e >= 0` decimal places multiplies by the `e`-th power of ten |
| Numbers.Scale10Down | assets/generate_icon_sprite.py:33 | shifting by `-e` places gives the number that, times the `e`-th power of ten, is the original |
| Numbers.ParseFloatOfIntText | assets/generate_icon_sprite.py:33 | `float(str(i)) == i` for every integer `i`, negative ones included |
| Numbers.Trunc | assets/generate_icon_sprite.py:58-59 | `int(x)` truncates toward zero: the result lies within one of `x`, on the side of zero |
| Numbers.ReadDigits | assets/generate_icon_sprite.py:33 | a digit string, optionally after a sign, reads as its decimal value with that sign |
| Numbers.AccumulateValue | assets/generate_icon_sprite.py:33 | reading digits onto a mantissa shifts it by their number of places and adds their value |
| Svg.Attr | assets/generate_icon_sprite.py:50 | `element.get(key, default)` is the attribute's value when present and the default otherwise |
| Svg.LocalName | assets/generate_icon_sprite.py:42 | the local name is the suffix of the tag after its last `}` (the whole tag when it has none), and holds no `}` |
| Svg.LocalNameOfQualified | assets/generate_icon_sprite.py:132 | a tag `{ns}name` has local name `name` |
| Svg.LocalNameOfPlain | assets/generate_icon_sprite.py:132 | a tag without `}` is its own local name |
| Background.Patterns | assets/generate_icon_sprite.py:54-64 | nine pattern strings, the last four of them the fixed full-canvas outlines |
| Background.Coordinate | assets/generate_icon_sprite.py:71-74 | an absent coordinate reads as 0.0; a present one is its float, or the ValueError naming that attribute and its text |
| Background.RectRule | assets/generate_icon_sprite.py:69-78 | the rect rule succeeds exactly when all four coordinates parse, and its answer is "anchored at the origin and at least the viewBox's size"; a failure names the first coordinate, in the order x, y, width, height, that does not parse |
| Background.Classify | assets/generate_icon_sprite.py:40-80 | `fill="none"` is background whatever the tag; only a rect can raise; a path is background exactly when its stripped `d` is one of the patterns; a rect answers by the rect rule; any other tag is background only with `fill="none"` |
| Background.FixedPatternIsBackground | assets/generate_icon_sprite.py:60-67 | a path drawn with one of the fixed outlines is background under every viewBox |
| Background.RectWithoutSizeIsNotBackground | assets/generate_icon_sprite.py:71-77 | a rect missing its width (or height) is not background when the viewBox has a positive width (or height) |
| Background.FullCanvasRectIsBackground | assets/generate_icon_sprite.py:69-78 | the rect `x="0" y="0" width="24" height="24"` is background for the default viewBox and for the fallback |
| Background.UnparsableCoordinateRaises | assets/generate_icon_sprite.py:71-74 | a rect coordinate that does not parse makes the classifier raise ValueError |
| Normalize.Mapping | assets/generate_icon_sprite.py:92-95 | `scale_x * vw == 24`, `scale_y * vh == 24`, `translate_x + scale_x * vx == 0` and `translate_y + scale_y * vy == 0` |
| Normalize.MappingIsUnique | assets/generate_icon_sprite.py:92-95 | those four equations have only the frame the code computes as a solution |
| Normalize.Components | assets/generate_icon_sprite.py:98-102 | a translation is written, first, exactly when it moves; a scaling is written, last, exactly when it resizes; there is one component for each of these and no other; nothing is written exactly for the identity |
| Normalize.ComponentsApply | assets/generate_icon_sprite.py:98-102 | the written components, applied in order, send every point (x, y) to (scale_x * x + translate_x, scale_y * y + translate_y): leaving out an identity component changes nothing |
| Normalize.MapsViewBoxOntoCanvas | assets/generate_icon_sprite.py:91-102 | the written components send the viewBox's origin to (0, 0) and its far corner to (24, 24) |
| Normalize.FrameMapsCorners | assets/generate_icon_sprite.py:91-102 | any frame meeting the four equations sends the two corners onto the canvas corners |
| Normalize.NoComponentsIffUnitBox | assets/generate_icon_sprite.py:86-104 | for a viewBox of non-zero size, no component is written exactly when the viewBox is (0, 0, 24, 24) |
| Normalize.ComponentTexts | assets/generate_icon_sprite.py:100-102 | one text per component, in the components' order |
| Normalize.Combined | assets/generate_icon_sprite.py:106-111 | an empty or absent transform is replaced; a non-empty one is kept as a prefix, followed by a space and the new components |
| Normalize.NormalizedAttrs | assets/generate_icon_sprite.py:104-113 | `fill` is `currentColor`; every other attribute except `transform` is kept unchanged; no attribute is added besides `fill` and `transform` |
| Normalize.Normalized | assets/generate_icon_sprite.py:82-114 | the normaliser raises ZeroDivisionError exactly for a viewBox of zero width or height other than (0, 0, 24, 24); it keeps the tag and the children |
| Normalize.NormalizeElement | assets/generate_icon_sprite.py:82-114 | the step-by-step `element.set` sequence yields exactly `Normalized` |
| Normalize.UnitBoxKeepsTransform | assets/generate_icon_sprite.py:86-89 | for the viewBox (0, 0, 24, 24) the `transform` attribute is left exactly as it was, present or absent |
| Normalize.ExistingTransformIsPrefix | assets/generate_icon_sprite.py:104-111 | for any other viewBox of non-zero size a transform is always set: the existing one, a space, then the new components, or the new components alone |
| Collect.VisitAllIsWalkOfFrontier | assets/generate_icon_sprite.py:130-142 | the recursive walk gives what stepping through the candidates gives, in document order |
| Collect.VisitIsWalkOfReach | assets/generate_icon_sprite.py:131-142 | one child yields what stepping through its own candidates yields |
| Collect.FrontierIsDrawable | assets/generate_icon_sprite.py:134 | every candidate has a drawable tag |
| Collect.ReachIsDrawable | assets/generate_icon_sprite.py:134 | every candidate below one child has a drawable tag |
| Collect.DrawableChildIsCandidate | assets/generate_icon_sprite.py:134-139 | a drawable child is a candidate by itself; its children are never visited |
| Collect.ContainerIsTransparent | assets/generate_icon_sprite.py:140-142 | a container adds the candidates of its children, at any depth |
| Collect.WalkAllSpec | assets/generate_icon_sprite.py:130-145 | the walk raises exactly when some candidate raises; otherwise it holds what each candidate gives, in order |
| Collect.GatheredIsNormalizedSurvivors | assets/generate_icon_sprite.py:135-139 | when nothing raises, the walk's shapes are the candidates the classifier keeps, each normalised, in order |
| Collect.JudgeWithoutFault | assets/generate_icon_sprite.py:135-139 | a step that does not raise appends the normalised shape exactly when the classifier keeps it, and nothing otherwise |
| Collect.NormalizerPaints | assets/generate_icon_sprite.py:113 | every shape the normaliser accepts stays drawable and is painted with `currentColor` |
| Collect.ZeroSizeRejectsAll | assets/generate_icon_sprite.py:92-93 | with a zero-size viewBox the normaliser raises on every shape |
| Collect.KeepPaints | assets/generate_icon_sprite.py:134-139 | every shape the walk keeps is drawable and painted with `currentColor` |
| Collect.KeepOnePaints | assets/generate_icon_sprite.py:134-139 | the shape one step appends is drawable and painted with `currentColor` |
| Collect.SurvivorRaises | assets/generate_icon_sprite.py:135-137 | when the normaliser raises on everything and some candidate is kept, the walk raises |
| Collect.FaultStops | assets/generate_icon_sprite.py:130-142 | once a child raises, the remaining children are not visited |
| Collect.KeepElement | assets/generate_icon_sprite.py:134-139 | the loop body for a drawable child gives exactly the step of the walk's specification: raise if the classifier raises, append nothing for background, else append the normalised shape or raise with the normaliser |
| Collect.Collector.constructor | assets/generate_icon_sprite.py:123-127 | the list of shapes starts empty; the viewBox and the float printer are the ones given |
| Collect.Collector.Collect | assets/generate_icon_sprite.py:130-142 | `collect_elements(parent)` appends exactly the walk's shapes to the list and returns the exception that stopped it, if any |
| Collect.Collector.Child | assets/generate_icon_sprite.py:131-142 | one child: a drawable one goes through the step, any other is recursed into |
| Collect.ExtractIconElements | assets/generate_icon_sprite.py:116-152 | the shapes of the icon, or none when the XML is malformed or the walk raises |
| Collect.IconElementsSpec | assets/generate_icon_sprite.py:116-152 | the icon's shapes are its candidates that the classifier keeps, normalised, in document order, or none when a candidate raises; every one of them is drawable and painted |
| Collect.ZeroSizeViewBoxEmptiesIcon | assets/generate_icon_sprite.py:147-152 | an icon with a zero-size viewBox and any kept candidate has no shapes at all |
| Format.Indent | assets/generate_icon_sprite.py:163-170 | the indentation added to a stripped line is made of spaces only |
| Format.OptimizeSpriteContent | assets/generate_icon_sprite.py:154-172 | the loop yields exactly `Optimized(content)` |
| Format.FormatKeepsText | assets/generate_icon_sprite.py:156-170 | the output lines, stripped, are exactly the non-blank input lines, stripped, in order |
| Format.FormatLineIsClean | assets/generate_icon_sprite.py:160-170 | a line becomes at most one line, which the pass leaves alone |
| Format.FormatLinesAreClean | assets/generate_icon_sprite.py:159-170 | every output line is one the pass leaves alone |
| Format.FormatLinesOfClean | assets/generate_icon_sprite.py:159-170 | the pass leaves lines that it already produced unchanged |
| Format.FormatLinesAppend | assets/generate_icon_sprite.py:159-170 | the pass works line by line: on two runs of lines it gives its results on each, one after the other |
| Format.OptimizedLines | assets/generate_icon_sprite.py:154-172 | the output is empty exactly when no line survives; otherwise it splits back into exactly the formatted lines |
| Format.OptimizedIsIdempotent | assets/generate_icon_sprite.py:154-172 | formatting twice gives what formatting once gives |
| Format.OptimizedOfEmpty | assets/generate_icon_sprite.py:154-172 | the empty text formats to the empty text |
| Format.StripIsPart | assets/generate_icon_sprite.py:160 | `strip()` adds no character, so no line break appears |
| Format.StripOfIndented | assets/generate_icon_sprite.py:163-170 | stripping a re-indented line gives the stripped line back |
| Sprite.Stem | assets/generate_icon_sprite.py:201 | the name up to its last dot when that dot is neither the first nor the last character; otherwise the whole name |
| Sprite.StemOfSvgName | assets/generate_icon_sprite.py:201 | the icon of `base.svg` is named `base`, any dots inside `base` included |
| Sprite.StemOfHiddenSvg | assets/generate_icon_sprite.py:201 | a file named just `.svg` keeps its whole name |
| Sprite.Insert | assets/generate_icon_sprite.py:200 | inserting into a name-ordered list keeps it ordered and adds exactly that file |
| Sprite.SortByName | assets/generate_icon_sprite.py:200 | the files in name order, none gained and none lost |
| Sprite.AppendSymbol | assets/generate_icon_sprite.py:213-220 | appends the opening line, one indented line per shape in order, and the closing line |
| Sprite.AddIcon | assets/generate_icon_sprite.py:203-224 | one file adds its symbol when it has shapes and nothing otherwise, and says whether it added one |
| Sprite.GenerateSprite | assets/generate_icon_sprite.py:185-233 | no sprite for an empty directory; otherwise the formatted text of the header, the files' symbols in name order and the footer, together with the number of symbols emitted |
| Sprite.CountAppend | assets/generate_icon_sprite.py:213-221 | counting closing lines adds up over runs of lines |
| Sprite.ElementLinesCloseNothing | assets/generate_icon_sprite.py:218 | a shape's line is never a closing line |
| Sprite.SymbolClosesOnce | assets/generate_icon_sprite.py:213-220 | a symbol has exactly one closing line |
| Sprite.BlockClosesOnce | assets/generate_icon_sprite.py:212-221 | a file adds one closing line when it is shown and none otherwise |
| Sprite.EmittedCountsSymbols | assets/generate_icon_sprite.py:212-221 | `processed_count` equals the number of symbols in the assembled lines |
| Sprite.EmittedAtMostFiles | assets/generate_icon_sprite.py:200-221 | no more symbols than files |
| Sprite.ProcessedAtMostFiles | assets/generate_icon_sprite.py:200-221 | `processed_count` never exceeds the number of files found |
| Sprite.ElementLinesAt | assets/generate_icon_sprite.py:215-218 | the k-th shape line is the k-th shape, serialised, behind four spaces |
| Sprite.ElementLinesLength | assets/generate_icon_sprite.py:215-218 | one line per shape |
| Sprite.SymbolShape | assets/generate_icon_sprite.py:213-220 | a symbol is its opening line, one line per shape in order, and the closing line |
| Sprite.BlockOfFile | assets/generate_icon_sprite.py:203-224 | a file emits a symbol exactly when it can be read and has shapes, and the symbol holds exactly those shapes, in order |
| Sprite.SymbolLinesSurvive | assets/generate_icon_sprite.py:163-168 | the opening and closing lines of a symbol come through the formatting pass unchanged |
| Sprite.CloseSurvives | assets/generate_icon_sprite.py:167-168 | the closing line keeps its two-space indentation |
| Sprite.ElementLineIndent | assets/generate_icon_sprite.py:165-170 | a shape's line keeps four spaces only when its text starts with `<path`, and loses them for any other shape |
| Sprite.PlainLineSurvives | assets/generate_icon_sprite.py:169-170 | a stripped line that is neither a symbol line nor a path comes through unchanged |
| Sprite.HeaderSurvives | assets/generate_icon_sprite.py:194 | the opening `<svg>` line comes through the pass unchanged |
| Sprite.FooterSurvives | assets/generate_icon_sprite.py:230 | the closing `</svg>` line comes through the pass unchanged |
| Sprite.NoBreakInFrame | assets/generate_icon_sprite.py:194-230 | the opening and closing lines hold no line break |
| Sprite.RawSpriteLines | assets/generate_icon_sprite.py:230-233 | splitting the joined lines gives the two frame lines around the symbols' text split at its breaks |
| Sprite.SpriteFrame | assets/generate_icon_sprite.py:194-233 | the written sprite begins with the `<svg>` line and ends with `</svg>`, with the symbols' lines formatted in between, however the shapes serialise |
| Sprite.FrameIsClean | assets/generate_icon_sprite.py:230-233 | every line of the written sprite is one the pass leaves alone |
| Sprite.FrameLinesAreClean | assets/generate_icon_sprite.py:194-230 | the two frame lines are ones the pass leaves alone |
| Text.Strip | assets/generate_icon_sprite.py:160 | the result neither starts nor ends with white space |
| Text.StripKeepsMiddle | assets/generate_icon_sprite.py:160 | `strip()`, as `lstrip()` then `rstrip()`, keeps the text between the leading and the trailing white space, and removes only white space |
| Text.BlankIffAllSpace | assets/generate_icon_sprite.py:161 | a line is dropped exactly when it is all white space |
| Text.StripAfterSpaces | assets/generate_icon_sprite.py:163-170 | stripping spaces put in front of a stripped line gives the line back |
| Text.Tokens | assets/generate_icon_sprite.py:33 | every token of `split()` is non-empty and holds no white space |
| Text.TokensOfJoin | assets/generate_icon_sprite.py:33 | `split()` of non-empty space-free words joined by single spaces gives the words back |
| Text.SplitOn | assets/generate_icon_sprite.py:156 | `split('\n')` always returns at least one piece |
| Text.JoinWith | assets/generate_icon_sprite.py:172 | `sep.join(parts)` starts with the first part and is as long as all the parts plus one separator between each two |
| Text.JoinOn | assets/generate_icon_sprite.py:172 | `'\n'.join(lines)` is as long as all the lines plus one line break between each two |
| Text.SplitOnPieces | assets/generate_icon_sprite.py:156 | no piece of `split('\n')` holds a line break |
| Text.SplitOfJoin | assets/generate_icon_sprite.py:172 | splitting at the separator undoes joining with it, for pieces without the separator |
| Text.JoinOfSplit | assets/generate_icon_sprite.py:156-172 | joining the pieces of a split gives the text back |
| Text.SplitOnAround | assets/generate_icon_sprite.py:156 | splitting at a separator splits the two sides apart |
| Text.JoinOnAppend | assets/generate_icon_sprite.py:233 | joining two non-empty runs of lines puts one separator between them |
| Text.IntText | assets/generate_icon_sprite.py:58-59 | `str(i)` is non-empty, free of white space, and a digit string behind an optional minus sign |
| Text.LessEqTotal | assets/generate_icon_sprite.py:200 | any two names compare one way or the other |
| Text.LessEqTransitive | assets/generate_icon_sprite.py:200 | the name order is transitive |
| Text.LessEqAntisymmetric | assets/generate_icon_sprite.py:200 | two names that each come first are equal |

## Left out

- Directory checks, globbing, reading, `mkdir`, writing the output, the size
  report and every `print` are left out: they are I/O. The files are given as
  a sequence of name and contents, and an unreadable file appears as
  `Unreadable`. A failure to write the output is not modelled.
- `ET.fromstring` is left out. Its result is given as `Malformed` or as a tree
  of `Element` values.
- The text and tail of an element are not modelled: `Element` holds only a
  tag, attributes and children. `ET.tostring` also writes an element's text
  and tail, so the serializer parameter cannot depend on them.
- `ET.tostring` is a parameter `Element -> string` and is taken to be total.
  If it raised halfway through a symbol, the partial lines would remain in
  `sprite_content`; the model does not capture that.
- Python's float printing (`str(x)` in the f-strings at lines 55-59 and
  100-102) is a parameter `real -> string`.
- `float()` is modelled on ASCII decimal text with sign, point, exponent and
  surrounding white space. It omits `inf`, `nan`, digit-group underscores and
  the non-ASCII Unicode decimal digits that Python also accepts.
- Overflow of `float()` is not modelled. Python reads a literal such as
  `1e400` as infinity. When a `path` without `fill="none"` is classified,
  `int(vw)` at line 58 then raises OverflowError, which empties the icon; an
  icon whose shapes are all rects keeps them. The model reads the exact value
  instead.
- Arithmetic is over exact reals. Floating-point rounding of `24 / vw` and
  `-vx * scale_x` is not modelled, so a scale that rounds to exactly 1 in
  floating point is not captured.
- Normalize.NormalizeElement: modelled on values. The source updates the tree's
  element in place. That has no observable effect here, because a drawable
  element is never visited twice. The model does not capture aliasing between
  the returned element and the tree.
- Whether the composed transform list is geometrically right under SVG
  transform-list semantics is left out. Only the new components are shown to
  map the viewBox onto the canvas (`Normalize.ComponentsApply`,
  `Normalize.MapsViewBoxOntoCanvas`); the composition with an existing
  transform is not.
- The path patterns are compared as strings, exactly as the source compares
  them. Nothing about geometry is claimed.
- `str.isspace` covers the Unicode white-space code points that Python
  recognises. No other Unicode property is modelled.
- `sorted()` over paths in one directory is modelled as sorting by name in
  code-point order.
