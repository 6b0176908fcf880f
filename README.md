# Navigation canvas of html-app-manual, modelled in Dafny

`manual.js` holds the browser helpers of an HTML application manual. Its one
piece of real logic is `drawNavigationCanvas`: it draws an image on a canvas,
frames a set of named "hotspot" rectangles on it (scaled from the image's
natural size to its displayed size), highlights the hotspot under the mouse
and calls back when a hovered hotspot is clicked. Around it sit small pure
helpers: `pointInRect`, the `ja` normalisation of `getLanguage`, the rule
that falls back to the `"default"` language, and the colour prefixes.

This project models that core:

- `geometry.dfy` (module `Geometry`): points, rectangles, the inclusive
  `pointInRect` test and the scaling of a rectangle by the two ratios.
- `language.dfy` (module `Language`): `split("-")[0]`, the `ja`
  normalisation and the fallback rule, used by `localizeContents`,
  `localizeImages` and `drawNavigationCanvas`.
- `colors.dfy` (module `Colors`): the `"r,g,b,"` colour prefixes and their
  defaults, with a parser as partner so that the prefix is proved to
  round-trip.
- `hotspots.dfy` (module `Hotspots`): `clipRects` as an ordered key sequence
  plus a map, and the filter-then-first hit test.
- `navigation.dfy` (module `Navigation`): the hover/click state machine as a
  pure transition function `Step` (and `Run` over a series of events), and
  the class `NavigationCanvas`, whose fields `hovered`, `cursor`, `log` (the
  drawing operations) and `calls` (the callback invocations) are updated by
  handler methods proved to follow `Step`.
- `options.dfy` (module `Options`): `Option`, with `None` for `undefined`.

Inputs that the browser supplies become parameters: the browser's language,
the pointer position relative to the canvas, the image's displayed and
natural sizes, and the canvas's cursor before the call. Coordinates and
ratios are exact `real`s.

Where the code and its comments disagree, the model follows the code:

- The doc comment at manual.js:104-105 gives the default colours as (0,0,255)
  and (0,140,255). The code uses `"0,140,255,"` for rectangles and
  `"254,140,0,"` for names.
- The doc comment at manual.js:103 describes the callback as taking the rect
  name. The code passes the key and the whole hotspot object.

## Model

| member | source | states |
|---|---|---|
| Geometry.Scale | manual.js:157 | the `adjustedRect` of the hit test (also drawn at lines 146 and 177): non-negative sizes stay non-negative under non-negative ratios, and ratios of 1 leave the rectangle as declared |
| Geometry.PointInRect | manual.js:95-97 | the inclusive containment test; a rectangle with negative width or height contains no point |
| Geometry.VerticalEdgesInside | manual.js:95-97 | points on the left edge (`x == rect.x`) or right edge (`x == rect.x + width`), with y in range, are inside |
| Geometry.HorizontalEdgesInside | manual.js:95-97 | points on the top or bottom edge, with x in range, are inside |
| Geometry.ScaledHitIsNaturalHit | manual.js:155-158 | for positive ratios, the pointer is in the scaled rectangle iff the pointer divided by the ratios is in the natural rectangle |
| Language.PrimaryTag | manual.js:32 | `split("-")[0]` is the prefix of the tag that holds no `-` and ends at the first `-` or at the end |
| Language.PrimaryTagUnique | manual.js:32 | those three properties determine the primary part uniquely |
| Language.JapanesePrimary | manual.js:32 | the primary part is "ja" iff the tag is "ja" or starts with "ja-" |
| Language.NormalizeLanguage | manual.js:32-35 | the result is "ja" iff the tag is "ja" or starts with "ja-"; otherwise the tag is returned unchanged |
| Language.NormalizeIdempotent | manual.js:32-35 | normalising a normalised language changes nothing |
| Language.AnyEquals | manual.js:56 | `keys.some(k => k === lang)` holds iff lang is one of the keys |
| Language.Fallback | manual.js:56-58 | the result is the language when it is among the available keys and "default" otherwise; so it is always available or "default", and available whenever "default" is |
| Language.SelectLanguage | manual.js:132-135 | a tag that is "ja" or starts with "ja-" selects "ja" if "ja" is available, else "default"; any other tag selects itself if available, else "default" |
| Language.FallbackIdempotent | manual.js:70-72 | applying the fallback to its own result changes nothing |
| Language.JapaneseSelected | manual.js:29-35 | a browser tag with primary part "ja" selects "ja" if available, else "default" |
| Language.SelectLanguageExamples | manual.js:27 | "ja-JP" selects "ja"; "en-US" falls back to "default"; "jav" is not treated as Japanese |
| Colors.NatString | manual.js:114 | a natural number prints as a non-empty string of decimal digits without leading zeros; it starts with "0" only for 0 |
| Colors.NatStringCanonical | manual.js:114 | a digit string without leading zeros is exactly the text printed for its value, so the printed text is the canonical one |
| Colors.NumberString | manual.js:114 | `String(n)` of an integral channel is non-empty, has no comma, starts with "-" iff n is negative, and has no leading zeros |
| Colors.NumberStringRoundTrip | manual.js:114 | a printed channel parses back to the same integer, negative values included |
| Colors.ColorString | manual.js:114 | the joined prefix ends in "," and reads back as the colour it was made from |
| Colors.ColorStringFields | manual.js:114 | splitting the prefix at "," gives the three channels and an empty last field |
| Colors.ColorPrefix | manual.js:113-122 | with no colour the prefix is the default; a given colour's prefix parses back to that colour, out-of-range channels included |
| Colors.DefaultRectColor | manual.js:116 | the rectangle default "0,140,255," is the prefix of (0,140,255) and reads back as it |
| Colors.DefaultNameColor | manual.js:121 | the name default "254,140,0," is the prefix of (254,140,0) and reads back as it |
| Hotspots.NameKeys | manual.js:133 | `Object.keys(name)` holds exactly the language codes of the name object |
| Hotspots.Hits | manual.js:156-158 | the filter callback: for positive ratios, the scaled rectangle contains the pointer iff the natural rectangle contains the pointer mapped back by the ratios |
| Hotspots.Detected | manual.js:155-159 | the filter keeps exactly the keys whose scaled rectangle contains the pointer and returns no more keys than it is given |
| Hotspots.HitTest | manual.js:155-172 | a hit is a key whose scaled rectangle contains the pointer; the result is none iff no key's rectangle contains it |
| Hotspots.HitTestIsFirstHit | manual.js:155-172 | the result is the first key, in `Object.keys` order, whose scaled rectangle contains the pointer |
| Hotspots.OverlapEarlierWins | manual.js:155-172 | where two rectangles overlap at the pointer, the later-declared key never wins |
| Hotspots.HalfScaleExample | manual.js:155-158 | at ratio 0.5, the rectangle (100,100,200,100) is hit at (150,75) and (50,50), but not at (49,49) or (150,125) |
| Navigation.Step | manual.js:151-192 | every handler keeps the hovered key one of the hotspot keys |
| Navigation.Run | manual.js:181-192 | any series of events keeps the hovered key one of the hotspot keys |
| Navigation.StepRedrawsAtMostOnce | manual.js:161-187 | each handler run redraws at most once |
| Navigation.MoveOnSameTargetIsSilent | manual.js:161-171 | a move or enter whose hit equals the hovered key changes no state and draws nothing, both when nothing is hovered and when the same key is |
| Navigation.MoveOnNewTarget | manual.js:165-177 | a move that changes the hit hovers the new hit; the cursor becomes "pointer" on a hit, else "default"; exactly one redraw, then a highlight of the new key's scaled rectangle only on a hit; no callback |
| Navigation.LeaveResets | manual.js:183-187 | leave clears the hover, sets the cursor to "default" and redraws once, from any state |
| Navigation.ClickCallsBackOnlyWhenHovered | manual.js:188-192 | click never changes hover or draws; it calls back with (key, clipRects[key]) iff the hovered key is truthy |
| Navigation.EmptyKeyNeverClickable | manual.js:189 | no callback ever carries the key "" |
| Navigation.CallsAreHoveredHotspots | manual.js:188-192 | every callback carries a non-empty hotspot key and that key's own hotspot |
| Navigation.HoverFollowsLastPointerEvent | manual.js:138-187 | after any events, the hovered key is the hit test of the last move, or none after a leave, or the initial state if neither happened |
| Navigation.CursorFollowsHover | manual.js:161-187 | once the cursor matches the hover ("pointer" iff hovered), it keeps matching; a leave anywhere in the series makes it match from then on |
| Navigation.SameTargetMovesRedrawAtMostOnce | manual.js:161-177 | repeated moves that all hit the same target redraw at most once, and not at all if that target is already hovered |
| Navigation.NoCallbackWithoutHover | manual.js:183-192 | with nothing clickable to start with, clicks and leaves alone never call back |
| Navigation.LeaveThenClickIsSilent | manual.js:183-192 | a leave followed by a click makes no callback and leaves nothing hovered |
| Navigation.NavigationCanvas.constructor | manual.js:107-192 | computes the ratios and colour prefixes, and resizes the canvas to the displayed image. With no hotspots: no language chosen, nothing drawn, no handlers. Otherwise: the label language comes from the first hotspot's names, one initial redraw, nothing hovered |
| Navigation.NavigationCanvas.DrawCanvasContent | manual.js:139-150 | only called when there is at least one hotspot: the initial draw (manual.js:180) and the handlers; keeps the canvas invariant and appends one full redraw to the drawing log |
| Navigation.NavigationCanvas.HandleMouseInCanvas | manual.js:151-179 | the in-place handler's new hover state and drawing are those of `Step` on a move |
| Navigation.NavigationCanvas.HandleMouseLeave | manual.js:183-187 | the in-place leave handler follows `Step` on a leave |
| Navigation.NavigationCanvas.HandleClick | manual.js:188-192 | the in-place click handler records exactly the callbacks of `Step` on a click |

## Left out

- `localizeContents`, `localizeImages`, `initializeModal` and `jumpToURL`: DOM writes, with no logic beyond the fallback rule. That rule is modelled as `Language.Fallback`.
- `drawClippedImage` and the pixel calls (`clearRect`, `drawImage`, `strokeRect`, `fillText`, `fillRect`) are browser canvas calls. A call of `drawCanvasContent` is one `Redraw` entry. The highlight fill is one `Highlight(key, rect)` entry. Fonts, line width, style strings, label text and its placement are not modelled.
- Reading `window.navigator`: the browser's language is a parameter. A browser that reports no language would make `split` throw; that case is not modelled.
- Floating-point arithmetic: coordinates and ratios are exact reals, so rounding is not modelled.
- Navigation.NavigationCanvas.constructor: requires a positive natural width and height. With a zero natural size, JavaScript computes infinite or NaN ratios; the model does not cover that.
- `getBoundingClientRect`: the pointer is given already relative to the canvas.
- Registering the four listeners is the `listening` flag. When no hotspots exist, handlers are absent and events change nothing. Listeners are never removed; that lifecycle is not modelled.
- `Object.keys` lists integer-like keys first, in numeric order. The model takes the keys in their enumeration order as given and does not derive that order.
- Colors.NumberString: covers only integral channel values. JavaScript prints fractional, NaN or infinite values differently. Integers outside 0-255 but within 2^53 in magnitude are passed through unchanged, as the code does.
- Colors.NumberString: integers above 2^53 in magnitude are printed in full digits. JavaScript cannot hold all of them, and `String` prints them as the shortest round-trip digits padded with zeros, or from 10^21 on in exponent notation. The round trip of `Colors.ColorPrefix` holds for the model's text.
- The click callback's own behaviour is external code: only its invocations, with their arguments, are recorded.
- The canvas's cursor before the call is a parameter.
