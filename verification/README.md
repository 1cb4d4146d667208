# Interactive greeting script, verified model

The interactive system asks for a name and an age, trims both answers,
converts the age text to a number and then runs a first-match-wins chain:
an empty name, an age that is not a number, a negative age and an age over
120 are each reported as an error; any other age is sorted into one of four
greeting brackets (under 12, 12 to 17, 18 to 24, everything else), and the
greeting addresses the user by the trimmed name.

The model takes the I/O away and keeps the decision:

- `wrappers.dfy` — `Option`, used for the converted age: `None` is `NaN`.
- `js_string.dfy` (module `JsString`) — `String.prototype.trim` as the
  ECMAScript language specification defines it: leading and trailing
  WhiteSpace (TAB, VT, FF, ZWNBSP and every Unicode `Zs` code point) and
  LineTerminator (LF, CR, LS, PS) code points are removed. `Trim` slices
  between a forward scan (`SkipLeading`) and a backward scan
  (`SkipTrailing`), and `TrimUnique` characterises it
  independently: for any split of a string into a trimmable prefix, a middle
  that neither starts nor ends with a trimmable code point, and a trimmable
  suffix, `Trim` returns the middle.
- `interactive_system.dfy` (module `InteractiveSystem`) — the `Outcome`
  datatype (four errors, four name-carrying greetings), `Classify` over the
  trimmed name and the converted age, `Run` from the raw name, and an
  order-free decision table `Admits` against which `Classify` is proved
  exact in both directions.

Two consequences of the integer-closed bracket guards (`<= 17`, `>= 18`,
`<= 24`) on a real-valued age are stated explicitly. An accepted age strictly
between 17 and 18 gets neither the underage nor the bright-future greeting
but the final one, and an age strictly between 24 and 25 is greeted like 25.
For the same reason only the guard `age >= 12` is redundant. The guard
`age >= 18` is redundant for integer ages, but dropping it would move every
age in the open interval (17, 18) to the bright-future greeting.

## Model

| member | source | states |
|---|---|---|
| `JsString.SkipLeading` | Projects/interactive_system/interactive_system.js:2 | the scan stops at the first code point that is not whitespace or a line terminator, or at the end, and everything it passed over is trimmable |
| `JsString.SkipTrailing` | Projects/interactive_system/interactive_system.js:2 | the backward scan stops just past the last code point that is not whitespace or a line terminator, or at its lower bound, and everything it passed over is trimmable |
| `JsString.Trim` | Projects/interactive_system/interactive_system.js:2 | the trimmed name is a contiguous slice of the input with only trimmable code points cut on either side, it starts and ends with a non-trimmable code point, and it is empty exactly when the input is all whitespace |
| `JsString.TrimUnique` | Projects/interactive_system/interactive_system.js:2 | trimming padding-plus-trimmed-text returns that text, whatever the padding |
| `JsString.TrimIdempotent` | Projects/interactive_system/interactive_system.js:2 | trimming an already trimmed name leaves it unchanged |
| `InteractiveSystem.Bracket` | Projects/interactive_system/interactive_system.js:18-26 | an accepted age always yields a greeting addressed to the name: start-young exactly below 12, underage exactly on [12, 17], bright-future exactly on [18, 24] |
| `InteractiveSystem.Classify` | Projects/interactive_system/interactive_system.js:9-27 | every input gets either an error or a greeting, never both; a greeting exactly when the name is non-empty and the age is a number in [0, 120]; a greeting carries the name |
| `InteractiveSystem.Run` | Projects/interactive_system/interactive_system.js:2-27 | from the raw name, the empty-name error fires exactly when the name is all whitespace, and a greeting carries a trimmed name no longer than the raw one |
| `InteractiveSystem.ClassifyMatchesTable` | Projects/interactive_system/interactive_system.js:9-27 | the first-match chain returns an outcome if and only if the order-free table of disjoint conditions admits it |
| `InteractiveSystem.TableExactlyOne` | Projects/interactive_system/interactive_system.js:9-27 | each input admits exactly one of the eight outcomes |
| `InteractiveSystem.EmptyNameFirst` | Projects/interactive_system/interactive_system.js:9-10 | an empty name is reported whatever the age, NaN and negative ages included |
| `InteractiveSystem.NaNAfterName` | Projects/interactive_system/interactive_system.js:11-12 | with a name present, a NaN age is reported as not a valid number |
| `InteractiveSystem.AgeRange` | Projects/interactive_system/interactive_system.js:13-16 | with a name present, an age below 0 is the negative-age error, above 120 the unlikely-age error, and neither 0 nor 120 is an error |
| `InteractiveSystem.AcceptedBrackets` | Projects/interactive_system/interactive_system.js:18-25 | accepted ages in [0, 12), [12, 17], [18, 24] get the three named brackets, and ages in (17, 18) or above 24 the final greeting |
| `InteractiveSystem.Boundaries` | Projects/interactive_system/interactive_system.js:13-25 | the outcomes at -0.5, 0, 11, 12, 17, 18, 24, 25, 120 and 120.5 |
| `InteractiveSystem.LowerGuardsRedundant` | Projects/interactive_system/interactive_system.js:20-22 | dropping `age >= 12` never changes the bracket; dropping `age >= 18` changes it exactly for ages in (17, 18), so never for an integer age |
| `InteractiveSystem.FractionalGaps` | Projects/interactive_system/interactive_system.js:20-25 | an accepted age strictly between 17 and 18 gets the final greeting, and one strictly between 24 and 25 is treated like 25 |
| `InteractiveSystem.NameOnlyAddressed` | Projects/interactive_system/interactive_system.js:10-25 | for two non-empty names the outcome is the same up to whom a greeting addresses, and the errors are identical |
| `InteractiveSystem.RunIgnoresPadding` | Projects/interactive_system/interactive_system.js:2-27 | whitespace around the typed name does not change the outcome |

## Left out

- The `prompt` dialogs and the `console.log`/`console.error` output (lines 2-3, 10-25) are browser and console I/O; the model returns an `Outcome` instead of printing, and the exact message texts and emoji are not modelled.
- `prompt` returning `null` when the user cancels, which makes `.trim()` throw (lines 2-3), is host behaviour outside the decision.
- The `Number(...)` conversion of the age text (line 6) and the trim of that text (line 3) are not modelled: the age arrives already converted as `Option<real>`. Its quirks are out of scope: empty text becoming 0, hexadecimal and exponent literals, and IEEE-754 rounding.
- `Classify`: an age of `Infinity` or `-Infinity` (which `Number` accepts) has no `Option<real>` value; the source would report them as the unlikely-age and negative-age errors, the same outcomes the model gives any finite age above 120 or below 0.
- Negative zero is the same real as zero, matching the source, where `-0 < 0` is false and `-0` is greeted as start-young.
- `JsString.Trim` works on Unicode code points, while JavaScript strings are UTF-16 code units; every trimmable code point lies in the Basic Multilingual Plane, so the two agree except for lone surrogates, which a Dafny `char` cannot hold. The `Zs` list is that of current Unicode versions.
- The browser front-ends, router, authentication and event services elsewhere in the repository are not part of this model.
