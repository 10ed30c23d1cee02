# Geolocation greeting and flag — a Dafny model

This project models the logic in two request handlers of an edge-compute examples
repository: `geolocation/main.js` and `location.js`. For each request, the handlers
read the host's user-location object and do three things:

- **`getFlagEmoji`** upper-cases a country code. It then replaces every character that
  the regular expression `.` matches with the code point 127397 higher. A two-letter
  ISO 3166-1 alpha-2 code becomes the pair of Regional Indicator Symbols
  (U+1F1E6..U+1F1FF) that renderers show as the country's flag. This follows
  definition ED-14 and Annex B of Unicode Technical Standard #51.
- **`getGreetingFromCountry`** upper-cases the code and looks it up in a table built
  with `new Map([...])`. When the lookup gives a falsy value, it returns `"Hello"`.
- **The location record** (`geo` in one handler, `info` in the other) holds each host
  field when that field is truthy, and `'N/A'` otherwise.

Neither handler has loops or mutable state, so the model is written as functions and
lemmas.

- `jstext.dfy` (module `JsText`) holds the JavaScript string behaviour the handlers
  use: ASCII `toUpperCase`, the line terminators that `.` does not match, and
  `codePointAt`.
- `flag.dfy` (module `Flag`) models `getFlagEmoji` once. The way `codePointAt` is
  called is a parameter: `codePointAt(undefined)` in `geolocation/main.js`, and
  `codePointAt()` in `location.js`. Both forms read index 0, and a lemma proves that
  the two copies agree on every input. The module also gives an inverse (`Unflag`).
- `greeting.dfy` (module `Greeting`) keeps the table as the list of 35 pairs given to
  the Map constructor, in source order. It models the constructor as insertion from
  left to right, so a later pair replaces an earlier pair with the same key.
  `"SG"` is listed twice: first as `"你好"`, last as `"Hello"`. The effective
  greeting for `"SG"` is therefore `"Hello"`.
- `location.dfy` (module `Location`) models the `geo` and `info` records and what
  the geolocation handler computes from them before it renders the page.

Strings are Dafny `string`s with one `char` per Unicode code point. The handlers'
inputs must be ASCII; for ASCII text, UTF-16 code units and code points coincide.

## Model

| member | source | states |
|---|---|---|
| JsText.UpperChar | geolocation/main.js:8 | upper-casing one ASCII character turns `a`..`z` into the capital 32 below and leaves every other character alone; the result is never a lower-case letter, and it is a letter exactly when the input is |
| JsText.ToUpper | geolocation/main.js:8 | `toUpperCase` keeps the length and the ASCII range, upper-cases each character in place, and leaves no lower-case letter |
| JsText.ToUpperIdempotent | geolocation/main.js:18 | upper-casing an already upper-cased code changes nothing |
| JsText.PositionOf | location.js:10 | an omitted argument and `undefined` both convert to position 0 |
| JsText.CodePointAt | location.js:10 | `codePointAt` with no argument or `undefined` gives the first code point of a non-empty string, and `undefined` (None) for an empty one |
| Flag.ShiftChar | geolocation/main.js:9-10 | the replacement callback returns the character whose code point is 127397 above the matched one |
| Flag.ReplaceEachMatched | geolocation/main.js:9-11 | `replace(/./g, …)` keeps the length, shifts every character except a line terminator by 127397, and leaves line terminators in place |
| Flag.FlagEmoji | geolocation/main.js:6-12 | the flag has one code point per input character; code point i is the upper-cased input character i plus 127397, unless that character is a line terminator |
| Flag.GeolocationFlagEmoji | geolocation/main.js:6-12 | the copy that calls `codePointAt(undefined)`: its output has as many code points as the input has characters, each the upper-cased input character plus 127397, with line terminators left in place |
| Flag.LocationFlagEmoji | location.js:6-12 | the copy that calls `codePointAt()`: its output has as many code points as the input has characters, each the upper-cased input character plus 127397, with line terminators left in place |
| Flag.CopiesAgree | location.js:7-11 | the two copies of `getFlagEmoji` return the same string for every ASCII input |
| Flag.FlagIgnoresCase | location.js:8 | the transform gives the same result for a code and for its upper-cased form |
| Flag.UnshiftShiftChar | geolocation/main.js:10 | undoing the shift of one ASCII character gives that character back, for either way of calling `codePointAt` |
| Flag.UnflagFlagEmoji | geolocation/main.js:7-11 | decoding the flag (subtracting 127397 from each shifted code point) gives back the upper-cased input exactly |
| Flag.FlagEmojiEqualIff | geolocation/main.js:7-11 | two codes give the same flag if and only if they are equal up to case |
| Flag.FlagEmojiRegionalIndicatorsIff | geolocation/main.js:10 | every output code point is a regional indicator (U+1F1E6..U+1F1FF) if and only if every input character is an ASCII letter |
| Flag.TwoLetterCodeGivesFlag | location.js:10 | two ASCII letters give exactly two regional indicators, each at the position of its capital letter counted from U+1F1E6 |
| Flag.FranceFlag | geolocation/main.js:6-12 | `"FR"` in one copy and `"fr"` in the other both give U+1F1EB U+1F1F7 |
| Flag.FirstAndLastLetter | geolocation/main.js:10 | `'A'` maps to U+1F1E6 and `'Z'` to U+1F1FF |
| Greeting.MapFromEntries | geolocation/main.js:19-55 | the map built from the pairs has exactly the pairs' keys |
| Greeting.MapFromEntriesLastWins | geolocation/main.js:19-55 | for a key listed more than once, the map holds the value of the last pair with that key |
| Greeting.LastIndexExists | geolocation/main.js:19-55 | every key in the pair list has a last occurrence |
| Greeting.LanguageEntriesNonEmpty | geolocation/main.js:20-54 | no greeting in the table is the empty string |
| Greeting.LanguageKeysAreCountryCodes | geolocation/main.js:20-54 | every key in the table is two capital ASCII letters |
| Greeting.NonTwoCharacterCodeUnmapped | geolocation/main.js:56 | a code that is not two characters long always gets `"Hello"` |
| Greeting.GetGreetingFromCountry | geolocation/main.js:17-57 | the greeting is never empty |
| Greeting.GreetingOfMappedCode | geolocation/main.js:18-56 | a code whose upper-cased form is in the table gets the value of the last pair with that key |
| Greeting.GreetingOfUnmappedCode | geolocation/main.js:56 | a code whose upper-cased form is not in the table gets `"Hello"` |
| Greeting.GreetingComesFromTable | geolocation/main.js:19-56 | every greeting is `"Hello"` or one of the table's values |
| Greeting.GreetingIgnoresCase | geolocation/main.js:18 | a code and its upper-cased form get the same greeting |
| Greeting.FranceGreeting | geolocation/main.js:20 | `"FR"` and `"fr"` both give `"Bonjour"` |
| Greeting.JapanGreeting | geolocation/main.js:36 | `"JP"` gives `"こんにちは"` |
| Greeting.UnknownCodeExample | geolocation/main.js:56 | `"ZZ"` is not in the table and gives `"Hello"` |
| Greeting.SingaporeLaterEntryWins | geolocation/main.js:41-54 | `"SG"` is listed at positions 21 (`"你好"`) and 34 (`"Hello"`); `"SG"` and `"sg"` both give `"Hello"` |
| Location.OrNotAvailable | geolocation/main.js:72 | `v ? v : 'N/A'` gives the value when it is present and non-empty, `'N/A'` otherwise; never empty |
| Location.GeoOf | geolocation/main.js:71-77 | each of city, zipCode, region, country and continent is the host value when truthy, else `'N/A'` |
| Location.InfoOf | location.js:26-30 | each of country, region and city is the host value when truthy, else `'N/A'`; the record has only these three fields |
| Location.GeolocationRequest | geolocation/main.js:71-79 | the flag and the greeting are computed from the defaulted country, which is ASCII |
| Location.InfoAgreesWithGeo | location.js:26-30 | both handlers default country, region and city identically |
| Location.AllAbsent | geolocation/main.js:71-77 | with every field absent, every field of both records is `'N/A'` |
| Location.NotAvailableFlag | geolocation/main.js:78 | the flag of `'N/A'` is the three code points U+1F1F3 U+1F1D4 U+1F1E6, because `'/'` is shifted along with the letters |
| Location.MissingCountry | geolocation/main.js:71-79 | a missing or empty country is greeted with `"Hello"` and gets the three-code-point flag of `'N/A'` |
| Location.PresentCountryFlag | geolocation/main.js:75-78 | a present two-letter country code gives a flag of two regional indicators |

## Left out

- Full Unicode `toUpperCase` is not modelled. Some non-ASCII characters upper-case to ASCII, for example `'ı'` to `'I'` and `'ſ'` to `'S'`. So every function that takes a country code requires ASCII input. The host supplies ASCII country codes, and the sentinel `'N/A'` is ASCII.
- JsText.ToUpper: covers only ASCII input, for the reason above.
- Greeting.GetGreetingFromCountry: covers only ASCII input, for the reason above.
- Flag.FlagEmoji: covers only ASCII input. The UTF-16 behaviour of `.` is not modelled: on non-BMP text, `.` would match each surrogate half separately.
- Location.GeolocationRequest: requires an ASCII country, for the reason above.
- The `String.fromCodePoint` range error cannot occur for ASCII input, so it is not modelled.
- `request.respondWith` and the HTML templates of both handlers are host response plumbing and string interpolation.
- `JSON.stringify` of the location record is a library call.
- The weather handler (`api-proxy/main.js`) is not part of this model. It makes an outbound HTTP call, parses JSON and renders a template.
- The cookie handler (`cookies.js`) is not part of this model. It delegates parsing to the host's cookie module, and the rest is HTML and browser-side script.
- Host field values are modelled as a string or `undefined`. Other JavaScript values are not modelled.
