# GPS-Map coordinate core, modelled in Dafny

GPS-Map is a set of Python scripts that read the GPS tags of photographs,
normalise them to signed decimal degrees, print them as
degrees/minutes/seconds text, and draw the points in colour on a satellite
map. This project models the logic under the plotting and exiftool plumbing
and proves properties about it. Dafny `real` stands in for Python floats, so
the arithmetic is exact.

- `DmsText` (`dms_text.dfy`) holds the text primitives: decimal digits,
  `str(n)` of a non-negative integer, and the scanner that
  `re.findall(r'(\d+\.?\d*)', text)` runs in `dms_to_decimal`. It also gives
  `float()` of each token.
- `DmsCodec` (`dms_codec.dfy`) holds the parser `dms_to_decimal` from main.py
  and the encoder `decimal_to_dms`. The encoder is split into the computed
  pieces (degrees, minutes, seconds, direction) and the f-string. The
  arc-second variant (main2.py, corrds2.py) and the ASCII `"` variant
  (get_coords.py) differ only in the seconds mark. The module proves the
  round trip between encoder and parser.
- `GpsNormalize` (`gps_normalize.dfy`) holds the three extraction policies
  applied to the already-decoded exiftool fields:
  - main.py parses text fields and then negates the longitude;
  - corrds2.py signs the longitude by `GPSLongitudeRef`;
  - get_coords.py passes both fields through.
- `Palette` (`palette.dfy`) models `generate_unique_colors`. It samples hues
  `i/n`, converts each through `colorsys.hls_to_rgb` (passed in as a function
  whose channels lie in [0, 1]), and formats the result with
  `'#%02x%02x%02x'`. A hex decoder is the partner of the formatter. main.py's
  copy has no `n == 0` guard, but `np.linspace(0, 1, 0)` is empty, so it
  behaves the same; main2.py defines the function twice, identically.
- `Viewport` (`viewport.dfy`) models `total_bounds` and the two frames built
  from it:
  - main2.py's square frame, padded by a tenth of the larger side;
  - main.py's per-axis frame, padded by a tenth of each axis's extent.
- `PhotoLocations` (`photo_locations.dfy`) models main2.py's loop that
  overwrites each `photo_locations[idx]` with its colour. It is a method on
  an array.
- `AsciiCase` (`ascii_case.dfy`) holds the ASCII `str.upper()` and
  `str.lower()` shared by the hemisphere-reference test and the extension
  filter.
- `ImageScan` (`image_scan.dfy`) models the extension filter of
  `scan_images`, which is the same in corrds2.py and get_coords.py. The
  outer loop over a given walk listing is one method, and the inner loop over
  a directory's files is another.

The model follows the code as written:
- The square viewport has no fallback for coincident points, so it collapses
  to a point (`Viewport.CoincidentPointsCollapse`). Points are strictly inside
  only when at least two of them differ.
- corrds2.py does not parse text coordinates. A text longitude makes `abs()`
  raise, the `except Exception` catches it, and the result is `None`. A text
  latitude is returned as received.
- main.py's longitude rule is a plain `-lon`, not `-abs(lon)`.

## Model

| member | source | states |
|---|---|---|
| `DmsText.DecStr` | main2.py:30 | `str(n)` is a non-empty digit string with no leading zero whose decimal value is `n`; `str(0)` is `"0"` |
| `DmsText.DigitRun` | main.py:17 | the leading digit run is all digits and cannot be extended |
| `DmsText.MatchLength` | main.py:17 | the greedy match of `\d+\.?\d*` at a digit is a numeral; it is followed by neither a digit nor, unless it already holds one, a point |
| `DmsText.Tokens` | main.py:17-18 | every token `re.findall` returns is a whole numeral (digits, optional point, digits) |
| `DmsText.TokenValue` | main.py:22-24 | `float(token)` is never negative (the pattern has no sign) |
| `DmsText.TokensAfterNumeral` | main.py:17-18 | a numeral followed by a non-digit, non-point character is scanned as exactly that token, and scanning resumes after the character |
| `DmsText.TokensSkipNonDigits` | main.py:17-18 | text without digits in front of a string adds no tokens |
| `DmsText.TokensOfNonDigits` | main.py:17-19 | a text without digits yields no tokens |
| `DmsText.ThreeSeparatedNumerals` | main.py:17-18 | three numerals separated by non-digit marks scan as exactly those three tokens |
| `DmsText.PointNumeral` | main.py:22-24 | digits, a point and digits form a numeral whose value is the whole part plus the decimals over a power of ten |
| `DmsText.OneDecimalValue` | main2.py:30 | the `{seconds:.1f}` text of `t` tenths is a token whose value is `t/10` |
| `DmsText.NumeralAlone` | main.py:17-18 | a text that is a single numeral, such as `27.99`, scans as exactly that token |
| `DmsText.NoTokensMeansNoDigits` | main.py:17-19 | no tokens only when the text has no digit at all (the converse of `TokensOfNonDigits`) |
| `DmsText.TokensAfterPointedNumeral` | main.py:17-18 | a numeral that already holds a point and is followed by another point ends there: `1.2.3` scans as `1.2` and then what follows the second point |
| `DmsText.DigitsTokenValue` | main.py:22-24 | a token of digits only, such as `05`, has the plain decimal value of its digits |
| `DmsText.DecStrValue` | main2.py:30 | `str(n)` is a single token whose value is `n` |
| `DmsCodec.Trunc` | main2.py:19-21 | `int()` truncates toward zero: for `x >= 0` it is the floor, for `x < 0` the ceiling |
| `DmsCodec.UpperMarksSouthOrWest` | main.py:29 | on ASCII letters, a character marks south or west iff it upper-cases to `S` or `W`; digits never do |
| `DmsCodec.MarksSouthOrWest` | main.py:29 | any `S`, `s`, `W` or `w` in the text marks it; a text of digits is never marked |
| `DmsCodec.MarksAsciiAgree` | main.py:29 | on ASCII text the test is exactly `'S' in text.upper() or 'W' in text.upper()` |
| `DmsCodec.Magnitude` | main.py:22-26 | the magnitude from the first three tokens is never negative and at least the degrees |
| `DmsCodec.DmsToDecimal` | main.py:11-32 | fails exactly when fewer than three numeric tokens are found; on success the absolute value is `t0 + t1/60 + t2/3600`, and the result is negative iff the upper-cased text contains S or W and that magnitude is non-zero |
| `DmsCodec.ReadsAs` | main.py:22-30 | with three tokens found, the result is fixed by those tokens and the S/W test alone |
| `DmsCodec.FurtherTokensIgnored` | main.py:22-26 | two texts whose first three tokens and S/W test agree read the same: later tokens are ignored |
| `DmsCodec.LeadingMinusIgnored` | main.py:17-30 | a leading `-` changes neither success nor the value |
| `DmsCodec.BareNumberRefused` | main.py:19-20 | a text that is one bare number, such as `27.99`, raises the too-few-numbers error |
| `DmsCodec.DocstringExample` | main.py:14 | the documented input `15 deg 25' 4.30"` reads as 15 + 25/60 + 4.3/3600 |
| `DmsCodec.SecondsTokenValue` | main.py:24 | `float("4.30")` is 4.3 |
| `DmsCodec.DocstringTokens` | main.py:17-18 | the documented input scans to the tokens `15`, `25`, `4.30` |
| `DmsCodec.DocstringNumerals` | main.py:22-24 | those three tokens are numerals with values 15, 25 and 4.3 |
| `DmsCodec.DocstringHasNoMark` | main.py:29 | the documented input has no S or W, so its sign stays positive |
| `DmsCodec.DocstringShape` | main.py:14 | the documented input is the three numerals with digit-free text between them |
| `DmsCodec.MarksOfConcat` | main.py:29 | an S/W letter is in a concatenation iff it is in one of the parts |
| `DmsCodec.DecimalToDms` | main2.py:19-27 | degrees are `trunc(abs(x))`, minutes lie in 0..59, seconds in [0, 60), and degrees + minutes/60 + seconds/3600 equals `abs(x)` exactly; the direction is N (E) iff `x >= 0`, else S (W) |
| `DmsCodec.Direction` | main2.py:24-27 | the direction letter is one of N, S, E, W |
| `DmsCodec.RoundHalfEven` | main2.py:30 | the rounded value is within one half of its argument |
| `DmsCodec.Tenths` | main2.py:30 | the printed seconds, counted in tenths, are at most 600 and within 0.05 s of the true seconds |
| `DmsCodec.OneDecimal` | main2.py:30 | `{seconds:.1f}` of `t` tenths is a numeral with a point before its last digit, whose value is `t/10` |
| `DmsCodec.FormatDms` | main2.py:30 | the f-string puts `°` right after the degrees and ends with the seconds mark and then the direction letter |
| `DmsCodec.DecimalToDmsText` | main2.py:12-30 | the arc-second variant (also corrds2.py:8-26) never contains an ASCII double quote |
| `DmsCodec.DecimalToDmsTextQuote` | get_coords.py:7-24 | the get_coords.py text equals the arc-second text except that the mark, second from the end, is `"` |
| `DmsCodec.NoQuoteInFormat` | main2.py:29-30 | digits, `°`, `'`, `.`, the mark and the direction are the only characters printed, so no `"` appears unless the mark is one |
| `DmsCodec.FormatTokens` | main2.py:30 | the printed text scans to exactly three tokens: `str(degrees)`, `str(minutes)` and the one-decimal seconds |
| `DmsCodec.FormatMarks` | main2.py:24-30 | the printed text contains an S/W letter iff the direction is S or W |
| `DmsCodec.RoundTrip` | main2.py:19-30 | `dms_to_decimal(decimal_to_dms(x))` succeeds and lies within 1/72000 degree of `x`, sign included |
| `DmsCodec.RoundTripAllVariants` | get_coords.py:14-24 | both variants parse, and parse to the same value |
| `DmsCodec.MarkIrrelevant` | get_coords.py:24 | whether the seconds mark is `″` or `"` does not change what the parser reads |
| `DmsCodec.PrintedSecondsCanReachSixty` | main2.py:22-30 | seconds below 60 can print as `60.0` (for example 10° 0' 59.96") |
| `DmsCodec.ZeroLatitudeText` | main2.py:19-30 | latitude 0 prints as `0°0'0.0″N` |
| `DmsCodec.WestLongitudeExample` | corrds2.py:15-23 | longitude -15.4179 splits into 15°, 25', 4.4" printed, direction W |
| `GpsNormalize.ToDegrees` | main.py:55-58 | a text field goes through `dms_to_decimal`; a number is kept as given |
| `GpsNormalize.ExtractNegatingLongitude` | main.py:51-63 | no point when either field is missing; a parse error of the latitude (checked first) or of the longitude propagates; when both fields are present and convert, the point is returned with the latitude unchanged and the longitude the plain negation of its value |
| `GpsNormalize.NegationFlipsEitherSign` | main.py:61 | an already negative longitude comes out positive, a positive one negative |
| `GpsNormalize.ReferenceLetters` | corrds2.py:57-60 | a reference upper-cases to `W` (`E`) iff it is `W` or `w` (`E` or `e`) |
| `GpsNormalize.SignByReference` | corrds2.py:55-67 | the magnitude is kept; reference E gives `abs(lon)`; W, unknown, empty and absent references all give `-abs(lon)`; a positive result implies reference E |
| `GpsNormalize.SignByReferenceIdempotent` | corrds2.py:55-67 | applying the rule again with the same reference changes nothing |
| `GpsNormalize.ExtractByReference` | corrds2.py:47-75 | a pair exists iff both fields are present and the longitude is a number; the latitude is returned unchanged; the longitude keeps its magnitude and is signed by `SignByReference`: `abs(lon)` for reference E, never positive for W or any other reference |
| `GpsNormalize.ExtractAsGiven` | get_coords.py:44-49 | a pair exists iff both fields are present, and both are returned exactly as received |
| `GpsNormalize.ReferenceExamples` | corrds2.py:56-67 | 15.42 becomes -15.42 with reference `W`, 15.42 with `e`, and -15.42 with no reference |
| `Palette.ToByte` | main2.py:44 | `int(c*255)` of a channel in [0, 1] is a byte, the floor of `c*255` |
| `Palette.HexByte` | main2.py:44 | `'%02x'` gives two lower-case hex digits |
| `Palette.HexColor` | main2.py:44 | `'#%02x%02x%02x'` of the three channels is `#` followed by six lower-case hex digits |
| `Palette.HexByteRoundTrip` | main2.py:44 | `'%02x'` of a byte reads back as that byte |
| `Palette.HexTripleRoundTrip` | main2.py:44 | `'#%02x%02x%02x'` is `#` and six hex digits that read back as the three bytes |
| `Palette.HexColorRoundTrip` | main2.py:44 | each colour string is a `#rrggbb` string that decodes to `int(c*255)` of its three channels |
| `Palette.Hue` | main2.py:42 | each `linspace(0, 1, n, endpoint=False)` sample lies in [0, 1) |
| `Palette.HuesIncrease` | main.py:74 | hues strictly increase with the index |
| `Palette.GenerateUniqueColors` | main2.py:32-45 | `[]` for `n == 0`, otherwise exactly `n` strings; entry `i` is `#rrggbb` decoding to the bytes of `hls_to_rgb(i/n, l, s)` |
| `Viewport.TotalBounds` | main2.py:65 | the bounds are ordered, contain every point, and each of the four edges is reached by some point |
| `Viewport.SquareViewport` | main2.py:65-82 | the frame is square with side 1.2 times the larger extent and keeps the box's centre; it encloses the box, strictly when the box has non-zero size |
| `Viewport.PlotViewport` | main2.py:54-82 | no frame for no points; otherwise a square frame containing every point, strictly inside once two points differ |
| `Viewport.CoincidentPointsCollapse` | main2.py:69-82 | when all points coincide the frame is that single point (no fallback) |
| `Viewport.PaddedBounds` | main.py:96-104 | width and height each grow by a factor of 1.2, the centre is kept and the box is enclosed |
| `Viewport.PlotBounds` | main.py:96-104 | the padded frame contains every point and keeps the bounds' centre |
| `PhotoLocations.ColorAt` | main2.py:187 | index `i` gets `colors[i]` when it exists, `#000000` otherwise |
| `PhotoLocations.AssignColors` | main2.py:185-188 | given uncoloured `(lat, long, label)` rows, as the unpacking at line 186 requires, every entry keeps position, coordinates and label and gains colour `i` (or the black default); the length is unchanged |
| `PhotoLocations.ColorLocations` | main2.py:182-188 | with a palette as long as the list, every entry gets a `#rrggbb` colour decoding to hue `i/n`'s bytes, never the default |
| `ImageScan.HasImageExtension` | corrds2.py:85 | `name.lower().endswith(extensions)`: never true for an empty extension tuple, always true when the tuple holds `""` |
| `ImageScan.ImagesIn` | corrds2.py:83-86 | every path the walk yields has an image extension |
| `ImageScan.ScanImages` | corrds2.py:82-87 | the outer loop returns exactly the order-preserving filter of the walk |
| `ImageScan.ScanDirectory` | corrds2.py:84-86 | the inner loop appends exactly the directory's matching files, in listing order, to what was found before |
| `ImageScan.ImagesInDir` | get_coords.py:64-66 | a directory contributes at most as many paths as it has files |
| `ImageScan.ImagesInDirMembership` | corrds2.py:84-86 | a file of a directory is listed iff its name has an image extension |
| `ImageScan.ImagesInMembership` | corrds2.py:83-86 | a path is listed iff some walked directory holds it and its lower-cased name ends with an extension |
| `ImageScan.ImagesInAppend` | corrds2.py:83-86 | the result for two walks in a row is the first's result followed by the second's (order kept) |
| `ImageScan.ImagesInDirAppend` | get_coords.py:64-66 | within a directory, the order of the files is kept |
| `AsciiCase.UpperChar` | corrds2.py:57 | ASCII lower-case letters move to upper case; every other character is kept |
| `AsciiCase.LowerChar` | corrds2.py:85 | ASCII upper-case letters move to lower case; every other character is kept |
| `AsciiCase.Upper` | corrds2.py:57-59 | `lon_ref.upper()`: the length is kept and each character is upper-cased |
| `AsciiCase.Lower` | corrds2.py:85 | `file.lower()`: the length is kept and each character is lower-cased |
| `AsciiCase.LowerOfUpper` | corrds2.py:85 | lower-casing an upper-cased name gives the lower-cased name |
| `ImageScan.UpperCaseMatchesAlike` | corrds2.py:85 | matching ignores case: a name and its upper-cased form are kept or dropped together |
| `ImageScan.DefaultExtensionExamples` | get_coords.py:57 | with the default extension tuple, `A.JPG` is kept and `a.txt` dropped |

## Left out

- Running exiftool and decoding its JSON are left out. So are the error returns for a failed run, an empty result or bad JSON. The fields arrive as `Option` values, and only JSON numbers and strings are modelled.
- The `os.walk` traversal is left out; the walk is given as a list of `(root, files)` steps. `os.path.join(root, file)` is kept as the pair `ImagePath(root, file)`.
- The CSV and Excel writers and `leer_csv_labels` are file I/O and are left out.
- Reprojection to EPSG:3857 is left out: points arrive already projected.
- The basemap fetch, matplotlib drawing, legend, `savefig` and all `print` diagnostics are left out. They are network access and side effects.
- The random test points in main.py's `__main__` block are left out.
- `colorsys.hls_to_rgb` is a parameter of the palette functions, and only its range [0, 1] per channel is used.
- Palette.GenerateUniqueColors: pairwise distinctness of the colours is not proved, because it depends on the HLS conversion left abstract.
- Float rounding is not modelled: arithmetic is exact on reals. `{seconds:.1f}` is rounded half-to-even on that exact value.
- DmsText.Tokens: only ASCII digits count as `\d`. Python also matches other Unicode decimal digits, which `float()` accepts.
- AsciiCase.Upper: upper-casing is modelled on ASCII letters only. For equality with `W` or `E` this gives the same verdict as `str.upper()`.
- AsciiCase.Lower: lower-casing is modelled on ASCII letters only.
- DmsCodec.UpperMarksSouthOrWest lists the characters whose `str.upper()` contains S or W: the ASCII letters, U+017F, U+00DF, U+FB05, U+FB06 and U+1E98.
- Viewport.PlotBounds: requires at least one point. main.py has no empty-list guard, and `total_bounds` of no points is NaN, which the model does not represent.
- main.py's `get_gps_coordinates` returns `None` when exiftool fails. That path is part of the left-out I/O.
- PhotoLocations.AssignColors: requires rows that are not yet coloured. An already coloured 4-tuple makes the unpacking at main2.py:186 raise `ValueError`, and that error is not modelled.
