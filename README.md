# Message rotation and sky gradient, modelled in Dafny

This project models the logic core of `script.js`, the script behind a single page that
shows one message from a list at a time, together with a clock of the time since the
message last changed, over a background gradient that follows the time of day.

The model has three modules:

- `Colors` (`colors.dfy`) is the colour engine.
  - `parseColorToRgb`: trimming, `parseInt(…, 16)` on the `#RRGGBB` slices, and the unanchored, case-insensitive `rgb(…)` regular expression as a leftmost search.
  - `rgbToCss`: `Math.round` and number-to-text.
  - `lerp`, `easeInOutCubic` and `interpolaColore`.
  - JavaScript numbers are real numbers plus `NaN`. `parseInt(…, 16)` reads the leading hexadecimal digits of a pair, after optional whitespace, one sign and a `0x` prefix. A pair with no such digits gives a `NaN` channel, as it does in the script.
  - The main result is that serialising a colour and parsing it back gives the rounded colour. For byte colours that is the colour itself.
- `Sky` (`sky.dfy`) is the background.
  - `calcolaGradiente` is modelled as its seven-branch `if`/`else if` chain over the decimal hour, with sunrise and sunset as inputs.
  - The `CURRENT_GRADIENT` object is modelled as a class, with its start-up assignment and the steps of `transitionGradient`.
- `Rotation` (`rotation.dfy`) is the message rotation.
  - The catch-up loop of `inizializzaStato` is an imperative method, proved against a recursive replay function.
  - The single-step `verificaCambioScritta`.
  - Storage is a `map<string, int>` field of a class whose methods write it.
  - The hours/minutes/seconds readout of `aggiornaInterfaccia`.
  - The clock and the random delays are parameters. A delay is an integer number of milliseconds between 12 and 24 hours.

Two behaviours of the code worth knowing:

- A `#` colour with a non-hexadecimal pair does not parse to black.
  - A pair that does not start with a hexadecimal digit, whitespace or a sign gives a `NaN` channel (`Colors.HexRedNaN`).
  - A pair that starts with one hexadecimal digit gives that digit's value: `#1G2H3I` parses to (1, 2, 3) (`Colors.HexLeadingDigits`, `Colors.HexSingleDigit`).
- The phase chain of `calcolaGradiente` has no final `else`, yet it always assigns. Some guard holds for every hour, sunrise and sunset (`Sky.FirstBranch`).
  - The guards are mutually exclusive when `sunrise + 1 <= sunset - 1` (`Sky.BranchesExclusive`).
  - When they overlap, the earlier branch wins.

## Model

| member | source | states |
|---|---|---|
| Colors.TrimStart | script.js:233 | leading whitespace is gone: the result is no longer than the input and does not start with an ECMAScript white-space or line-terminator character |
| Colors.TrimStartDrops | script.js:233 | the trimmed text is a suffix of the input, and every character dropped in front of it is whitespace |
| Colors.TrimEnd | script.js:233 | trailing whitespace is gone: the result is no longer than the input and does not end with a white-space character |
| Colors.TrimEndDrops | script.js:233 | the trimmed text is a prefix of the input, and every character dropped after it is whitespace |
| Colors.TrimDrops | script.js:233 | `trim` gives the input's middle part: whitespace only is dropped at both ends, and the result neither starts nor ends with whitespace |
| Colors.Slice | script.js:235-237 | `String.prototype.slice(i, j)` is `s[i..j]` when `i <= j <= length`, and empty when `i` is past the end; never more than `j - i` characters |
| Colors.SliceClamps | script.js:235-237 | `slice(i, j)` with `j` past the end is `s[i..]` (so `"#FFF".slice(3, 5)` is `"F"`), and with `j <= i` it is empty |
| Colors.HexValue | script.js:235-237 | the value of `n` hexadecimal digits lies in [0, 16^n) |
| Colors.HexRun | script.js:235-237 | the longest prefix of hexadecimal digits: all digits, and the next character (if any) is not one |
| Colors.ParseIntHex | script.js:235-237 | `parseInt(s, 16)` is `NaN` or an integer; on a slice of at most two characters it lies in [-15, 255]; it is `NaN` for empty text and for text starting with anything but whitespace, a sign or a hexadecimal digit; for text starting with a hexadecimal digit and no `0x` prefix it is the value of the leading digits |
| Colors.ParseIntHexTrims | script.js:235-237 | leading whitespace is skipped: the text reads as it does without it, `NaN` included |
| Colors.ParseIntHexSignNoDigit | script.js:235-237 | a `-` or `+` with no hexadecimal digit right after it (`"-"`, `"-G"`, `"- 5"`) reads as `NaN` |
| Colors.ParseIntHexSigned | script.js:235-237 | one `-` or `+` in front of hexadecimal digits (no `0x` prefix) gives the value of the digits, negated for `-` |
| Colors.LeadingHex | script.js:235-237 | the value of the leading hexadecimal digits lies in [0, 16^n) for `n` such digits |
| Colors.HexSingleDigit | script.js:235-237 | a pair whose second character is not hexadecimal gives the first digit's value, except that `0x` gives `NaN` |
| Colors.HexRedNaN | script.js:231-238 | a `#` colour whose first pair starts with a character that is neither hexadecimal, whitespace nor a sign has a `NaN` red channel |
| Colors.HexLeadingDigits | script.js:231-238 | `#1G2H3I` parses to (1, 2, 3), not to black |
| Colors.DigitRun | script.js:240 | the greedy `\d+` run: only digits, stopping at the first non-digit |
| Colors.HexToRgb | script.js:69-74 | each channel of the `#RRGGBB` reading (also `hex2rgb`) is `NaN` or an integer in [-15, 255] |
| Colors.ParseColor | script.js:231-243 | blank input gives black; input without a leading `#` and with no `rgb(…)` match gives black; without a leading `#` every channel is a non-negative integer; every channel is `NaN` or an integer |
| Colors.FindRgb | script.js:240-241 | the leftmost search for the pattern, matching at one position with `MatchRgbHere` and `MatchArguments`; its properties are `FindRgbSound`, `FindRgbLeftmost`, `MatchSerialised` and the edge cases below |
| Colors.FindRgbSound | script.js:240-241 | the leftmost search fails exactly when the pattern occurs nowhere in the string |
| Colors.FindRgbLeftmost | script.js:240-241 | when the first occurrence is at position `i`, the search returns the groups matched there |
| Colors.SpaceBeforeComma | script.js:240 | a space between a digit group and its comma makes the argument list fail to match |
| Colors.RgbaIsNotRgb | script.js:240 | text starting with `rgba` does not match at its first character |
| Colors.RgbAnyCase | script.js:240 | the letters `rgb` match in any of their eight casings exactly as in lower case |
| Colors.RgbToCss | script.js:245-247 | `rgbToCss` always writes `rgb(…)` text; `CssRoundTrip` is its inverse |
| Colors.Round | script.js:246 | `Math.round(x)` is the integer `n` with `x - 0.5 < n <= x + 0.5` |
| Colors.ShowNat | script.js:246 | a natural number is printed as a non-empty string of decimal digits, with no leading zero |
| Colors.DecimalOfShow | script.js:246 | reading back the printed digits of `n` gives `n` |
| Colors.MatchGroupOfDigits | script.js:240 | a digit group followed by its separator matches with the group's value and leaves the rest |
| Colors.MatchSerialised | script.js:240-246 | the pattern matches the exact text `rgb(A, B, C)` that `rgbToCss` writes, with groups A, B and C |
| Colors.CssRoundTrip | script.js:231-246 | for a colour whose channels round to non-negative integers, parsing the serialised colour gives the rounded colour |
| Colors.CssRoundTripBytes | script.js:231-246 | for integer channels in [0, 255], parsing the serialised colour gives back the colour itself |
| Colors.RoundIntegral | script.js:246 | rounding an integer leaves it unchanged |
| Colors.HexPair | script.js:235-237 | two hexadecimal digits parse to `16 * hi + lo` |
| Colors.ParseHexColor | script.js:231-238 | a well-formed `#RRGGBB` parses to its three byte values, and the result is the same as `hex2rgb`'s |
| Colors.ParseSunriseTop | script.js:231-238 | `#FF512F` parses to (255, 81, 47) |
| Colors.Lerp | script.js:249-251 | `lerp` gives `a` at 0 and `b` at 1, and lies between `a` and `b` for `t` in [0, 1] |
| Colors.Ease | script.js:254 | `easeInOutCubic` maps [0, 1] into [0, 1], with 0 mapped to 0 and 1 to 1 |
| Colors.EaseBounds | script.js:254 | both halves of `easeInOutCubic` stay within [0, 1] on their own half of [0, 1] |
| Colors.RoundedLerpBetween | script.js:78-80 | an interpolated channel rounded with `Math.round` stays between its two integer endpoints |
| Colors.RoundedLerpBytes | script.js:78-82 | interpolating two byte colours with a factor in [0, 1] and rounding gives a byte colour, each channel between the two endpoint channels |
| Colors.Interpolate | script.js:67-85 | `interpolaColore` always writes `rgb(…)` text, whatever its inputs |
| Colors.InterpolateEndpoints | script.js:67-85 | `interpolaColore` at factor 0 writes the first colour and at factor 1 the second, in `rgb(…)` form; for a factor in [0, 1] its text parses to a byte colour whose every channel lies between the two endpoint channels |
| Sky.FirstBranch | script.js:106-153 | the chain always takes one of its seven branches, and no earlier guard holds |
| Sky.Schedule | script.js:90-153 | in every blending branch the factor `(h - start) / (end - start)` lies in [0, 1); every colour the chain uses is one of the phase colours |
| Sky.BranchStarts | script.js:106-153 | when `sunrise + 1 <= sunset - 1`, the factor is 0 at one hour before sunrise (night to dawn), one hour before sunset (day to dusk), at sunset (dusk to twilight) and one hour after sunset (twilight to night) |
| Sky.Render | script.js:90-156 | a plain branch returns its phase colours unchanged; a blending branch returns both colours as `rgb(…)` text |
| Sky.ComputeGradient | script.js:90-156 | `calcolaGradiente` always returns two non-empty colours |
| Sky.BranchesExclusive | script.js:106-153 | when `sunrise + 1 <= sunset - 1` a branch whose guard holds is the one taken |
| Sky.AtSunrise | script.js:117-124 | at the hour of sunrise the dawn branch is taken with factor 0, and the gradient is the dawn colours in `rgb(…)` form |
| Sky.PhaseHex | script.js:4-33 | every phase colour used by the chain is a well-formed `#RRGGBB` |
| Sky.TargetParses | script.js:90-156 | both colours `calcolaGradiente` returns, at any hour, parse to byte colours |
| Sky.Progress | script.js:278-279 | the elapsed fraction is at most 1, is non-negative once `ts >= start`, and equals 1 exactly when `duration` has elapsed |
| Sky.Normalise | script.js:259-260 | a non-empty colour stays non-empty; a `#RRGGBB` colour is rewritten as text that parses to the same colour, a byte colour |
| Sky.Frame | script.js:282-294 | the frame at fraction 0 is the start colour, at fraction 1 the target, and in between every channel lies between the start and target channels |
| Sky.FrameParses | script.js:279-294 | every frame between byte colours is written as text that parses back to its rounded value, a byte colour |
| Sky.CurrentGradient.constructor | script.js:172-175 | the start-up colours are never empty, and a `#RRGGBB` colour is painted as text of the same colour; other text is kept, and empty text is replaced by `rgb(0,0,0)` / `rgb(20,20,20)` |
| Sky.CurrentGradient.Begin | script.js:256-270 | with nothing painted the target is written at once and no transition starts; otherwise the four colours are parsed and nothing is written; once colours are painted a transition always starts |
| Sky.CurrentGradient.Step | script.js:276-298 | a cancelled step writes nothing and stops; otherwise both colours become the eased blend, another frame follows exactly while the duration has not elapsed, and the last frame writes the targets; painted colours stay non-empty |
| Rotation.Replay | script.js:472-477 | the replay loop as a recursive function; its properties are `ReplayKeepsSchedule`, `ReplayMonotone` and `ReplayNeverBack` |
| Rotation.CatchUpState | script.js:466-477 | the replay started at index 0, at the anchor; its properties are `CatchUpBounds`, `CatchUpConsistent` and `CatchUpMonotone` |
| Rotation.CatchUp | script.js:457-477 | the loop computes the replayed schedule, and it stops only when the next change is in the future or the last message is reached, with the index in [0, count - 1] |
| Rotation.ReplayKeepsSchedule | script.js:472-477 | the replay stays on the schedule: each change is one drawn delay after the previous one; it never goes back; every replayed change lies in the past; it stops for one of the two loop reasons |
| Rotation.SumBounds | script.js:463-476 | `n` delays add up to between `n` minimum and `n` maximum delays |
| Rotation.CatchUpBounds | script.js:466-477 | after the first load: the index is in range; the gap to the next change is one valid delay; the last change is at least `index` minimum delays after the anchor and, once the index is past 0, not after now, so the index is at most the elapsed time divided by the minimum delay; before the last message, now is less than `index + 1` maximum delays after the anchor |
| Rotation.ScenarioFiftyHours | script.js:466-477 | with 5 messages and now 50 hours after the anchor, the first load lands on index 2, 3 or 4 |
| Rotation.ReplayMonotone | script.js:472-477 | with the same delays, a later clock never replays to an earlier index |
| Rotation.ReplayNeverBack | script.js:472-477 | the replay never lowers the index |
| Rotation.CatchUpMonotone | script.js:457-477 | with the same delays, a first load at a later time gives an index at least as large |
| Rotation.Advance | script.js:500-521 | when the change is due and the last message is not reached, the index goes up by exactly one, the change is dated now and the next one is 12 to 24 hours later; otherwise the state is unchanged; the index never passes the last message |
| Rotation.AdvanceKeepsConsistent | script.js:500-521 | a check at a later time keeps the index on a message, the last change not in the future, and the next change one valid delay after it |
| Rotation.CatchUpConsistent | script.js:457-477 | a first load after the anchor yields such a consistent state |
| Rotation.EmptyListLocksIn | script.js:466-477 | with an empty message list the replay does nothing and yields index 0 at the anchor; a later check from that state reaches at most index 1 |
| Rotation.Persist | script.js:479-481 | the three `setItem` calls; `PersistLoad` states what they store |
| Rotation.Load | script.js:490-494 | the three `getItem` calls; `PersistLoad` states that they read back what `Persist` stored |
| Rotation.PersistLoad | script.js:479-494 | storing the three fields and loading them back gives the same state, and no other storage key is touched |
| Rotation.JsRem | script.js:565-566 | JavaScript `%` is what remains after taking away the quotient truncated toward zero, so it takes the sign of the dividend: in [0, m) for a non-negative dividend, in (-m, 0] for a negative one |
| Rotation.Split | script.js:562-566 | for a non-negative difference: minutes and seconds lie in [0, 60); the readout is the whole number of seconds in the difference, which it matches to within one second |
| Rotation.SplitJustBelowZero | script.js:562-566 | less than a second below zero, the readout is -1h -1m -1s |
| Rotation.Displayed | script.js:532 | the text shown is the message at the index, or empty when the index is off the list |
| Rotation.MessageRotation.constructor | script.js:445-452 | the message list and the storage as the page finds them |
| Rotation.MessageRotation.LoadMessages | script.js:575-598 | the fetched list replaces the messages, or the three fallback messages when the fetch fails; storage is untouched |
| Rotation.MessageRotation.InitializeState | script.js:457-495 | with no stored index, the replayed state is returned and all three keys are stored; otherwise the stored triple is returned and storage is untouched |
| Rotation.MessageRotation.CheckAdvance | script.js:500-521 | returns the single-step result; the three keys are written exactly when it advances, and hold the new state |
| Rotation.MessageRotation.Refresh | script.js:526-566 | one load or replay, then one check; the text is the message at the index, or empty when no message is there; the readout splits the time since the last change; on a first load after the anchor the state is consistent and the readout non-negative; storage ends up as before with the three keys set to the state shown, every other key untouched; a first load before the messages arrive stores index 0 at the anchor |

## Left out

- `calcolaOreSolari` is not part of this model. It uses floating-point trigonometry, so sunrise and sunset are inputs to `Sky.Schedule`. Every term it computes is finite and the `acos` argument is clamped to [-1, 1], so sunrise lies in [0, 12] and sunset in [12, 24]. Since some branch of the chain is taken for every hour (`Sky.FirstBranch`), the start-up `catch` with its fallback colours `rgb(10,10,30)` / `rgb(30,30,60)` (script.js:176-178) is never reached, and it is not modelled.
- Strings are sequences of Unicode characters, while JavaScript's `slice` and `trim` index UTF-16 code units. After a character outside the Basic Multilingual Plane the two disagree: `"#😀112233".slice(3, 5)` is not `Colors.Slice` of the same text at 3 and 5. No colour the script produces contains such a character.
- The rotating gradient angle (`startGradientAnimation`, its sine oscillator and the visibility handling) is not modelled. It only sets the CSS angle.
- `requestAnimationFrame` scheduling, `applyBackground`, and clearing `_gradTransitionCancel` are not modelled. `Sky.CurrentGradient.Step` is one frame. Its `start` (the first frame's timestamp), `ts`, and whether the transition was cancelled are parameters.
- Sky.CurrentGradient.Step: requires a positive duration. The script's only call passes 1800 ms (script.js:218); the 1500 ms default is never used.
- Floating-point rounding is not modelled: `lerp`, `easeInOutCubic`, `Math.round`, the blending factors and the elapsed fraction are computed on exact reals. In particular `Sky.Progress`'s "the fraction is 1 exactly when the duration has elapsed" and the factor-0 and factor-1 endpoints can be off by one rounding step in IEEE doubles.
- `Date.now()` and `Math.random()` are parameters.
  - `Math.random` draws delays in [12 h, 24 h) with fractional milliseconds. `Rotation.ValidDelay` admits the integer delays of the closed range, so every bound proved also holds for the draws the script can make.
- Rotation.MessageRotation.Refresh: uses one clock reading. The script reads `Date.now()` separately in each of the three functions.
- Timestamps are integer milliseconds, and storage holds integers.
  - The script stores fractional timestamps as text and reads them back with `parseInt`, which truncates them.
  - The script also parses a missing `ultimoCambio` or `prossimoCambio` to `NaN`. The class invariant rules this out, because storage is only ever written with all three keys.
- `DATA_INIZIO` is a local-time date. It is fixed at 2025-12-19 18:00 in UTC+1 (`Rotation.Anchor`).
- Printing a number in a template literal is modelled for integers and `NaN` only. Exponent notation, `Infinity` and `-0` do not arise for rounded channels of parsed colours, and are not modelled.
- Very long decimal digit strings are read as exact integers. The script would lose precision or reach `Infinity`.
- Rotation.MessageRotation: the order of events at start-up is an input. `caricaScritte` awaits its `fetch`, while `setInterval(aggiornaInterfaccia, 1000)` (script.js:612) starts at once. If a refresh runs before the list arrives, it sees an empty list. With no stored state it stores index 0 at the anchor, and from then on that state is loaded, not replayed. The catch-up then never happens, and the index moves one step per due check (`Rotation.EmptyListLocksIn`, the last clause of `Refresh`). Several tabs that share storage overwrite each other's keys with the last write winning; the model has one page.
- The fetch itself, the JSON decoding, the DOM updates and their fade timers, the `n/N` counter, the share button, the stop sign, the audio, and `console.log` are not modelled. They are input/output.
- The `notteIniziale` colour pair is never used by the script, and it is omitted.
- The gradient is not continuous in time. At sunrise + 1 the bottom colour jumps from the morning blue `#2F80ED` to the day `#87CEEB`. No continuity property is claimed.
