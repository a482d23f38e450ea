# Art gallery query service: the query engine

A read-only JSON service answers GET requests over three datasets loaded once
at start-up: artists, galleries, and paintings (each painting embeds a copy of
its artist and gallery and a list of dominant colours). The three fetch-all
handlers return their dataset unchanged. Every other handler in `server.js`
does the same three things:

1. it converts its path parameters: `parseInt` for ids and years,
   `toLowerCase` for texts;
2. it runs one predicate over one dataset with `Array.prototype.filter`
   (or `find`, for the lookup by id);
3. it answers with the hits, or with a `{ message }` envelope when there are
   none. The envelope also goes out as a success.

This project models that query engine as pure functions. The datasets are
parameters. The modules follow the handler's three steps:

- `Optional`: the `Option` type. `None` plays the part of JavaScript's
  `NaN` (a failed `parseInt`) and of `undefined` (a `find` without a hit).
- `Text`: `toLowerCase` over ASCII and `String.prototype.includes`. The
  partner of `includes` is an independent definition, "occurs at some
  position". The partner of `toLowerCase` is "the same up to the case of
  the letters": two texts lower-case alike exactly when they agree in that
  sense.
- `Numbers`: `parseInt(text)` with no radix argument. It skips ECMAScript
  white space, reads an optional sign, reads `0x` as a switch to radix 16,
  and then reads the longest run of digits. No digits gives `None`. The
  module also has the decimal rendering of an integer, which is how a client
  writes an id into a path, and the round trip between the two.
- `Sequences`: order-preserving `Filter`, and `Find`/`FindIndex`. The
  partner of `Filter` is a reference definition, `Selects`. It says: the
  result holds the elements at exactly the matching positions, in increasing
  order. It is proved that `Filter` meets this definition and that the
  definition fixes its result.
- `Records`: the record shapes `Painting` (with `ArtistRef`, `GalleryRef`,
  `Details`/`Annotation`/`Color`), `Artist` and `Gallery`.
- `Queries`: one predicate per route, written exactly as the handler's
  arrow function. Comparisons with a `None` bound are false, as comparisons
  with `NaN` are.
- `Routes`: the `Response` type, `Data(items) | One(item) | Message(reason)`,
  and one function per route. The reason records which query found nothing,
  together with the converted query values the message text shows.
- `RouteFacts`: properties that relate routes to each other, to the way
  parameters are written, and to a worked example with one painting.

The lookup by id uses `find`, and the model does the same. Reading the
lookup as "filter by id, then take the first" gives the same answer
(`RouteFacts.ByIdIsFirstOfFilter`).

A numeric parameter that `parseInt` cannot read matches nothing. `parseInt`
gives `NaN` exactly when, after leading white space and at most one sign,
one of two things holds (`Numbers.ParseInt`). With a `0x`/`0X` prefix, no
hexadecimal digit follows it, so `"0x"`, `"0xg"` and `"-0x"` give `NaN`.
Without one, the text does not start with a decimal digit. A run of digits
followed by other text reads as the digits: `parseInt("12abc")` is 12, not
`NaN` (`Numbers.ParseShowRoundTrip`). Leading white space is skipped, so
`" 5x"` reads as 5 (`Numbers.ParseSkipsLeadingSpace`). A plus sign is
skipped, so `"+5x"` also reads as 5 (`Numbers.ParsePlusSign`).

Express does not match a route parameter against an empty path segment.
The empty-text case of the title search
(`RouteFacts.EmptyTitleMatchesEverything`) is therefore a property of the
handler that no HTTP request reaches.

## Model

| member | source | states |
|---|---|---|
| Sequences.Filter | server.js:40 | the result is no longer than the input; every kept element is in the input and satisfies the predicate; every input element that satisfies it is kept |
| Sequences.FilterSelects | server.js:40 | the filter result is the order-preserving selection of exactly the matching positions |
| Sequences.SelectionUnique | server.js:40 | two selections by the same predicate from the same sequence are equal, so the reference definition fixes one result |
| Sequences.SelectsIffFilter | server.js:40 | a sequence is the order-preserving selection of exactly the matches if and only if it is the filter result |
| Sequences.FilterKeepsAll | server.js:78-80 | when every element matches, the filter returns the input unchanged |
| Sequences.FindIndex | server.js:29 | the position returned holds a match and no earlier position does; `None` exactly when nothing matches |
| Sequences.Find | server.js:29 | `find` returns the element at the first matching position; `undefined` exactly when nothing matches |
| Sequences.FindIsFirstOfFilter | server.js:29 | `find` equals the first element of the filter result, and is `None` when that result is empty |
| Text.Lower | server.js:76 | lower-casing keeps the length; each ASCII capital becomes the small letter 32 code points above it, and every other character is kept |
| Text.LowerIdempotent | server.js:76 | lower-cased text has no capitals; text without capitals is unchanged; lower-casing twice equals lower-casing once |
| Text.LowerAlikeIffSameIgnoringCase | server.js:76 | two texts lower-case to the same text exactly when they are equal up to the case of their ASCII letters |
| Text.LowerForgetsUpper | server.js:76 | a text and its upper-cased form lower-case alike |
| Text.IncludesIffOccurs | server.js:79 | `includes` holds exactly when the needle occurs at some position of the text |
| Text.IncludesEmpty | server.js:79 | every text includes the empty string |
| Numbers.ParseInt | server.js:28 | the result is `NaN` exactly when, after the white space and at most one sign, either a `0x`/`0X` prefix is followed by no hexadecimal digit, or there is no such prefix and the text does not start with a decimal digit |
| Numbers.ParsePlusSign | server.js:28 | a leading plus sign does not change the value read |
| Numbers.ParseHexDigits | server.js:28 | `0x` followed by hexadecimal digits reads them in radix 16, up to the first character that is not one |
| Numbers.TrimStartMeaning | server.js:28 | what remains after trimming is a suffix that does not start with white space, and everything cut off is white space |
| Numbers.LeadingDigitsMeaning | server.js:28 | the digits read form a prefix of digits of the radix that the next character does not extend |
| Numbers.NoDigitIsNaN | server.js:28 | a parameter without any decimal digit parses to `NaN` |
| Numbers.ParseSkipsLeadingSpace | server.js:28 | leading white space does not change the parsed value |
| Numbers.ShowNatMeaning | server.js:28 | the decimal numeral of `n` is a non-empty run of digits whose value is `n` |
| Numbers.ShowNatNoLeadingZero | server.js:28 | a numeral starts with `0` only when it is the numeral of zero, so no longer numeral has a leading zero |
| Numbers.ParseShowRoundTrip | server.js:28 | an integer written in decimal parses back to that integer. This holds when nothing follows, or a non-digit follows that is not an `x` after the numeral `0` |
| Routes.FilterResponse | server.js:42-45 | the message, carrying the query, exactly when nothing matches; otherwise the order-preserving selection of exactly the matches; never a single record |
| Routes.AllPaintings | server.js:22-24 | the paintings dataset is returned verbatim as data |
| Routes.PaintingById | server.js:27-35 | a single record (never a list) that has the parsed id and that no earlier painting has; the message with the parsed id exactly when no painting has that id |
| Routes.PaintingsByGallery | server.js:38-46 | the message exactly when no painting's `gallery.galleryID` equals the parsed id; otherwise exactly those paintings, in order |
| Routes.PaintingsByArtist | server.js:49-57 | the message exactly when no painting's `artist.artistID` equals the parsed id; otherwise exactly those paintings, in order |
| Routes.PaintingsBetween | server.js:60-72 | the message exactly when no painting has `min <= yearOfWork <= max` for the parsed bounds; otherwise exactly those paintings, in order |
| Routes.PaintingsByTitle | server.js:75-86 | the message, carrying the lower-cased text, exactly when no lower-cased title includes it; otherwise exactly the paintings whose title does, in order |
| Routes.PaintingsByColor | server.js:89-102 | the message exactly when no painting has a dominant colour whose lower-cased name equals the lower-cased query; otherwise exactly those paintings, in order |
| Routes.AllArtists | server.js:107-109 | the artists dataset is returned verbatim as data |
| Routes.ArtistsByCountry | server.js:112-123 | the message exactly when no lower-cased nationality equals the lower-cased query; otherwise exactly those artists, in order |
| Routes.AllGalleries | server.js:128-130 | the galleries dataset is returned verbatim as data |
| Routes.GalleriesByCountry | server.js:133-143 | the message exactly when no lower-cased gallery country equals the lower-cased query; otherwise exactly those galleries, in order |
| RouteFacts.ByIdIsFirstOfFilter | server.js:28-34 | the lookup by id answers with the first record of the id filter, or with the message when that filter is empty |
| RouteFacts.LookupOfWrittenId | server.js:28-34 | asking for an id written in decimal finds a record exactly when some painting has that id, and the record found has it |
| RouteFacts.UnparsableIdFindsNothing | server.js:28-29 | an id that parses to `NaN` makes the lookup, gallery and artist routes answer with their messages, never with data |
| RouteFacts.UnparsableYearFindsNothing | server.js:61-66 | a year bound that parses to `NaN` makes the year route answer with its message |
| RouteFacts.InvertedYearsFindNothing | server.js:64-70 | when the lower bound exceeds the upper bound, the year route answers with its message |
| RouteFacts.YearsBetweenParsedBounds | server.js:64-66 | for parsed bounds `lo` and `hi`, the year route keeps exactly the paintings with `lo <= yearOfWork <= hi`, both ends included, in order; the message when there are none |
| RouteFacts.TitleIncludesMeaning | server.js:79 | the title predicate holds exactly when the text occurs at some position of the lower-cased title |
| RouteFacts.TitleSearchIsSubstringSearch | server.js:76-80 | title search keeps exactly the paintings whose lower-cased title contains the lower-cased text as a substring |
| RouteFacts.EmptyTitleMatchesEverything | server.js:76-80 | an empty search text returns the whole non-empty dataset, the same answer as the fetch-all route |
| RouteFacts.SearchesIgnoreCase | server.js:74-143 | parameters that differ only in the case of their letters get the same answer from the title, colour, nationality and gallery-country routes |
| RouteFacts.ColorSearchIsWholeName | server.js:90-96 | colour search is whole-name and case-insensitive, not substring: "red" finds "The Red Room" by title but not its colour "Dark Red"; "DARK red" finds it by colour |
| RouteFacts.StarryNightScenario | server.js:27-35 | one painting (id 1, "The Starry Night", 1889) is found by id 1, by the range 1880-1890 and by "starry"; id 9999 gives the message |
| RouteFacts.EmptyDatasetsContrast | server.js:22-24 | on empty datasets the fetch-all routes answer with empty data, and every filtering route answers with its message |

## Left out

- Express app construction, CORS and route registration (server.js:1-6), `listen`, `PORT` and console logging (server.js:148-151): these are framework and process plumbing.
- Loading the datasets with `readFileSync` and `JSON.parse` (server.js:11-13): this is file I/O. The datasets are function parameters.
- JSON serialisation and the HTTP layer. Every response in the source is a 200 success. `Response` has no status because it never varies.
- The message template texts. A message is modelled by its `NotFound` tag, which carries the converted query values that the text interpolates (`NaN` appears as `None`).
- Records keep only the fields the queries read, plus names. The data are trusted to have these fields with these types. A missing `details.annotation` or a non-numeric `yearOfWork` would make the JavaScript throw or coerce, and this is not modelled.
- Express's URL decoding of path parameters: the parameters arrive here already decoded.
- Numbers.ParseInt: JavaScript numbers are doubles. Digit runs whose value exceeds 2^53 lose precision there, and the unbounded model does not. `parseInt("-0")` is `-0` there and 0 here; the two compare equal with `===`.
- Text.Lower: lower-cases only the ASCII capitals. `toLowerCase` applies Unicode case mapping, which is not modelled.
- RouteFacts.StarryNightScenario: the numbers in the paths are given as their decimal renderings (`ShowInt(1880)`), not as string literals. The two are the same text.
