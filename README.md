# xhGen crosshair generator — verified model of its core

xhGen draws a crosshair: a ring (the rim) and a set of tapered arms (spokes) around a square canvas. It saves the result as SVG. It can also run a batch: it reads a CSV of `rim,arms` colour pairs and writes one SVG per pair. This project models the deterministic core of `src/main.rs` in Dafny and proves properties of that model.

The modules are:

- `Text` (`text.dfy`): the Rust string primitives the core relies on.
  - `str::trim` uses the Unicode `White_Space` set.
  - ASCII digit and hex-digit tests.
  - `to_ascii_uppercase`.
- `Color` (`color.dfy`): colour parsing and decoding.
  - `normalize_hex` trims the token, strips every leading `#`, requires exactly six hex digits and upper-cases them.
  - `hex_to_rgb` decodes three base-16 bytes through `u8::from_str_radix`, including its acceptance of a leading `+`.
  - `parse_color_spec` and the `ColorSpec` record, plus a canonical encoder used for round-trip statements.
- `ColorPairs` (`colorpairs.dfy`): the row loop of `load_color_pairs`, over the lines of the CSV text.
  - The header (line 0) and blank lines are skipped.
  - Each row is split at its first comma, and the rim colour is parsed before the arms colour.
  - A row without a comma fails with its 1-based row number.
  - The first error aborts the load.
  - The loop is an imperative method, proved equal to a prefix-recursive specification function.
- `Config` (`config.dfy`):
  - the configuration record and its defaults;
  - the canvas limits;
  - the clamp-at-zero radius helpers.
- `Spoke` (`spoke.dfy`): spoke geometry.
  - The razor/bevel outline of `bezier_spoke` as a list of path commands.
  - The in-place point-list builder `add_quad_samples` as a class with a `seq` field.
  - `spoke_outline_points`, proved equal to flattening that command list.
- `Svg` (`svg.dfy`): `generate_svg` as an abstract document holding one arm path per angle and the ring circle.
- `Batch` (`batch.dfy`): `generate_batch_svgs` as the ordered list of writes it performs, plus the directory that results from those writes.
  - One cloned configuration is recoloured for each pair, with alpha forced to 1.0.
  - Each file is named `xhMan_256px-rim-<RIM>_arms-<ARMS>.svg`.
  - A later write to the same name replaces the earlier one.
- `Profile` (`profile.dfy`): `sanitize_profile_name`.

How the Rust types are represented:

- Coordinates and radii are `real`; `f64` rounding is not modelled.
- Angles reach the geometry as a direction vector (`ux`, `uy`), supplied by a caller-given function in place of `to_radians`/`cos`/`sin`.
- The CSV text arrives as a sequence of lines, and the file system appears only as the list of writes.

The batch file name contains the fixed text `256px`, whatever the configured canvas size.

## Model

| member | source | states |
|---|---|---|
| Text.ToAsciiUpper | src/main.rs:664 | lower-case ASCII letters map to upper case; every other character is unchanged |
| Text.AsciiUpper | src/main.rs:664 | same length as the input, and each character is upper-cased on its own |
| Text.TrimShape | src/main.rs:657 | `trim` never lengthens the text; it is empty exactly for all-whitespace input; otherwise it starts and ends with a non-whitespace character |
| Text.TrimKeepsUnpadded | src/main.rs:383 | text without whitespace at either end is returned unchanged by `trim` |
| Text.TrimKeepsContent | src/main.rs:657 | every non-whitespace character of the input survives `trim` |
| Color.HexDigitValue | src/main.rs:668-670 | a hex digit's value is below 16, and it is below 10 exactly for decimal digits |
| Color.UpperHexDigit | src/main.rs:664 | each value below 16 has an upper-case hex digit whose value is that number |
| Color.NormalizeHex | src/main.rs:656-665 | succeeds exactly when the trimmed, `#`-stripped token is six ASCII hex digits; the result is canonical upper-case hex with the same digit values; failure reports the raw token |
| Color.StripKeepsContent | src/main.rs:657 | `trim_start_matches('#')` keeps every character other than `#` |
| Color.ForeignCharRejected | src/main.rs:656-665 | a token holding any character that is not whitespace, not `#` and not a hex digit is rejected with an invalid-colour error |
| Color.ByteFromHex | src/main.rs:668 | `from_str_radix` with radix 16: nothing decodes from empty text or a lone `+` |
| Color.ByteTextDecodes | src/main.rs:668 | a two-character slice decodes exactly when it is two hex digits or `+` and one hex digit; two digits give 16*high + low and `+d` gives the value of d |
| Color.HexToRgb | src/main.rs:667-687 | succeeds exactly when each of `hex[0..2]`, `hex[2..4]`, `hex[4..6]` is two hex digits or `+` and a digit; six hex digits decode to the three base-16 byte values; the first rejected slice names the error: red, else green, else blue, each carrying the input |
| Color.ParseColorSpec | src/main.rs:689-693 | succeeds exactly when normalisation does; on success the hex is the `normalize_hex` output for `raw` and the rgb is `hex_to_rgb` of that hex, the hex is canonical and re-encoding the rgb gives it back; failure is the normalisation error |
| Color.CanonicalHexRoundTrip | src/main.rs:667-687 | canonical hex always decodes, and encoding the decoded bytes gives back the same text |
| Color.NormalizedDecodes | src/main.rs:689-693 | on any output of `normalize_hex`, `hex_to_rgb` cannot fail, and its bytes re-encode to that output |
| Color.EncodeThenDecode | src/main.rs:667-687 | decoding the canonical spelling of any colour gives back that colour |
| Color.CanonicalIsNormal | src/main.rs:656-665 | canonical hex is a fixed point of `normalize_hex` |
| Color.ParseEncoded | src/main.rs:689-693 | parsing the canonical spelling of a colour gives that colour and that spelling |
| Color.NormalizeBare | src/main.rs:656-665 | six hex digits, bare or after one `#`, normalise to their upper-case form |
| Color.HashPrefixes | src/main.rs:657 | `##ffaa00` normalises to `FFAA00`; `# ffaa00` is rejected |
| Color.DecodeFfaa00 | src/main.rs:667-687 | `FFAA00` decodes to (255, 170, 0) |
| Color.ParseMixedCase | src/main.rs:689-693 | `#ffAA00` parses to (255, 170, 0) with hex `FFAA00` |
| Color.ParseLowerCase | src/main.rs:689-693 | `ffaa00` parses to (255, 170, 0) with hex `FFAA00` |
| Color.SignedDigitsAccepted | src/main.rs:668-686 | `hex_to_rgb` alone accepts `+F+F+F` as (15, 15, 15), as `from_str_radix` does, but `normalize_hex` rejects that text, so the CSV path never reaches it |
| ColorPairs.SplitOnce | src/main.rs:711 | `split_once` fails exactly when the separator is absent; otherwise the text is left + separator + right, and the left part holds no separator |
| ColorPairs.SplitAtFirst | src/main.rs:711 | splitting text built around a first separator gives back its two sides |
| ColorPairs.RowOutcome | src/main.rs:703-719 | the header and blank lines yield nothing; a row without a comma fails with row number idx+1; otherwise the row succeeds exactly when both halves are valid colours and yields their parsed pair; the rim is parsed first, so an invalid rim fails with the rim's `InvalidHexColor`, and a valid rim with an invalid arms token fails with the arms' `InvalidHexColor` |
| ColorPairs.ExtraCommaRejected | src/main.rs:711-718 | only the first comma splits: a second comma stays in the arms token, and the row fails with a colour error |
| ColorPairs.BadRimRejected | src/main.rs:711-718 | the rim token is parsed first: a rim token holding a character that is not whitespace, `#` or a hex digit fails the row with the rim's own error, whatever the arms token holds |
| ColorPairs.FailureSticks | src/main.rs:703-718 | once a row has failed, later rows do not change the outcome |
| ColorPairs.CollectAgree | src/main.rs:703-721 | two runs whose first rows yield the same results reach the same outcome after them |
| ColorPairs.LoadColorPairs | src/main.rs:701-721 | the imperative row loop, with its early returns, returns exactly the specified load result |
| ColorPairs.RowsAgree | src/main.rs:703-721 | the load depends on each line only through what that line yields at its index |
| ColorPairs.HeaderIgnored | src/main.rs:704-706 | replacing the header line never changes the result |
| ColorPairs.LaterLinesIgnored | src/main.rs:711-718 | lines appended after a failing text are never looked at |
| ColorPairs.CollectFirstFailure | src/main.rs:703-721 | a failed outcome is the error of a row before which every row succeeded |
| ColorPairs.CollectSuccess | src/main.rs:703-721 | a run of rows gives a result exactly when none of them failed |
| ColorPairs.FirstFailure | src/main.rs:703-721 | a failed load reports the error of the first failing row; every earlier row succeeded |
| ColorPairs.PrefixSuccess | src/main.rs:703-721 | a prefix loads exactly when every row in it succeeds |
| ColorPairs.LoadSucceedsIff | src/main.rs:703-721 | the whole text loads exactly when no row fails |
| ColorPairs.RowErrorAt | src/main.rs:703-716 | only a row past the header that is not blank and holds no comma fails with a row error, and the error carries idx+1 and the row itself |
| ColorPairs.InvalidRowReported | src/main.rs:711-716 | a row error names a 1-based row number from 2 to the line count; that line is not blank and holds no comma |
| ColorPairs.DataRowsSorted | src/main.rs:703-710 | every data row is a line past the header that is not blank, and the data rows are listed in increasing order |
| ColorPairs.DataRowsComplete | src/main.rs:703-710 | every line past the header that is not blank is a data row |
| ColorPairs.YieldsPairIff | src/main.rs:703-718 | a row that does not fail yields a pair exactly when it is past the header and not blank |
| ColorPairs.CollectPairs | src/main.rs:718 | a successful run holds one pair per row that yielded one, in row order |
| ColorPairs.PairRowsAreDataRows | src/main.rs:703-718 | when no row fails, the rows that yield pairs are exactly the data rows |
| ColorPairs.PairsFollowRows | src/main.rs:718 | a successful load holds one pair per data row, in row order, each the parse of its row |
| Config.AtLeastZero | src/main.rs:70 | `max(0.0)`: the result is non-negative, at least the input, and equals either 0 or the input |
| Config.CanvasBorderRadius | src/main.rs:65-67 | the border radius is half the canvas size |
| Config.RingDrawRadius | src/main.rs:69-71 | the radius is non-negative and equals either 0 or outer - thickness/2 |
| Config.RingInnerRadius | src/main.rs:73-75 | the radius is non-negative and equals either 0 or outer - thickness |
| Config.SpokeBaseRadius | src/main.rs:77-79 | the radius is non-negative and equals either 0 or inner - gap |
| Config.SpokeTipRadius | src/main.rs:81-83 | the radius is non-negative and equals either 0 or the centre gap |
| Config.RingRadiiNest | src/main.rs:69-75 | for non-negative thickness: inner ≤ draw ≤ max(0, outer) |
| Config.SpokesInsideRing | src/main.rs:73-79 | for a non-negative gap, the spoke base lies inside the ring's inner edge |
| Config.TipAtCenterGap | src/main.rs:81-83 | a non-negative centre gap is the tip radius itself |
| Config.DefaultRadii | src/main.rs:46-63 | the defaults give draw 108, inner 98, base 88 and tip 2 |
| Config.BorderRadiusInRange | src/main.rs:976-979 | every canvas size in [64, 8192] has a border radius in [32, 4096], below the ring-radius limit 4192, so the clamp applied when the canvas size changes never alters it |
| Spoke.RazorTapers | src/main.rs:115-124 | with base ≥ tip and a non-negative width: base ≥ shoulder ≥ mid ≥ pinch ≥ tip, and the half-widths shrink from base to pinch and stay ≥ 0 |
| Spoke.RazorInvertedDoublesBack | src/main.rs:117-120 | with the tip beyond the base, `abs` places every cross-section on the far side of the base from the tip |
| Spoke.SpokePath | src/main.rs:89-177 | the outline is closed and starts at base-left; the razor outline has 11 commands with the tip at command 5; the bevel outline has 6 commands with tip-right and tip-left at commands 2 and 3 |
| Spoke.QuadEndpoints | src/main.rs:451-454 | the quadratic curve is at its start for t = 0 and at its end for t = 1 |
| Spoke.QuadSamples | src/main.rs:450-456 | exactly `steps` samples, the last being the end point |
| Spoke.AppendQuad | src/main.rs:444-457 | nothing is appended to an empty list; otherwise exactly `steps` points are appended, the old points are kept, and the last point is the end |
| Spoke.PointList.constructor | src/main.rs:520 | the list starts with the given points |
| Spoke.PointList.Push | src/main.rs:557 | appends one point and changes nothing else |
| Spoke.PointList.AddQuadSamples | src/main.rs:444-457 | the in-place loop leaves the list equal to `AppendQuad` of the old list |
| Spoke.FlattenConcat | src/main.rs:459-576 | flattening a path in two pieces gives the same points as flattening it whole |
| Spoke.FlattenRazor | src/main.rs:520-558 | flattening the razor command list equals the chain of six sampled curves between the base line and the closing point |
| Spoke.FlattenBevel | src/main.rs:571-575 | flattening the bevel command list equals the two sampled curves around the tip line |
| Spoke.SpokeOutlinePoints | src/main.rs:459-576 | the points are the flattened path; there are at least 3 and the outline is closed; a razor gives 40 points with the tip at index 20; a bevel gives 15 with tip-right at 7 and tip-left at 8, so the `len() < 3` guard at line 610 never fires |
| Svg.GenerateSvg | src/main.rs:179-227 | the size and viewBox are the canvas size; there is one closed arm path per angle, filled with the arm colour; the ring is centred on the canvas with the draw radius, the ring thickness and the rim colour |
| Svg.RingStrokeCoversBand | src/main.rs:213-219 | for 0 ≤ thickness ≤ outer, the stroke spans exactly from the inner radius to the outer radius |
| Batch.Opaque | src/main.rs:735-736 | the colour keeps the pair's bytes and has alpha 1.0 |
| Batch.BatchWrites | src/main.rs:734-743 | one write per pair, in pair order, named from the two canonical codes |
| Batch.RenderPairs | src/main.rs:733-749 | mutating one cloned configuration per pair yields exactly the specified writes, and the count is the number of pairs |
| Batch.GenerateBatchSvgs | src/main.rs:724-750 | a load error is returned unchanged and nothing is written; otherwise the writes are those for the loaded pairs and the result is their count |
| Batch.WritesCarryPairColors | src/main.rs:733-741 | each saved document has the pair's rim and arm colours at alpha 1.0; its size, ring geometry and arm outlines match the template's |
| Batch.DirectoryAfter | src/main.rs:742 | the directory holds exactly the names that were written |
| Batch.LastWriteWins | src/main.rs:742 | a file holds the document of the last write with its name |
| Batch.FileNameIdentifiesPair | src/main.rs:738 | for six-character rim codes, two file names are equal exactly when both codes agree |
| Batch.FilesNamedAfterPairs | src/main.rs:734-743 | the directory's names are exactly the names of the pairs in the CSV |
| Batch.DuplicatePairOneFile | src/main.rs:738-742 | the same pair twice leaves one file, holding the second rendering |
| Batch.EveryPairKept | src/main.rs:738-742 | with canonical, pairwise distinct codes, every pair's document survives under its name |
| Batch.CanonicalRow | src/main.rs:711-718 | a data row spelling two colours canonically yields exactly those two colours |
| Batch.TwoDataRows | src/main.rs:703-721 | a header plus two valid data rows loads their two pairs, in row order |
| Batch.TwoRowCsv | src/main.rs:724-750 | header, `FF0000,00FF00`, `0000FF,FFFFFF`: two pairs, saved as `xhMan_256px-rim-FF0000_arms-00FF00.svg` and `xhMan_256px-rim-0000FF_arms-FFFFFF.svg` |
| Batch.NonHexRow | src/main.rs:718 | `ZZZZZZ,00FF00` fails with the invalid-colour error for `ZZZZZZ` |
| Batch.MalformedRowAborts | src/main.rs:718 | that error aborts the load even though a valid row follows it; by `GenerateBatchSvgs`'s contract the batch then writes nothing |
| Profile.SafeChar | src/main.rs:389-395 | the result is always `[A-Za-z0-9_-]`; such characters are kept and every other character becomes `_` |
| Profile.MapSafe | src/main.rs:387-396 | same length, and each character is mapped on its own |
| Profile.SanitizeProfileName | src/main.rs:382-402 | `None` exactly when the trimmed name is empty; otherwise the result has the trimmed name's length, holds only allowed characters, matches the trimmed name exactly where that had an allowed character, and holds `_` wherever it had any other character |
| Profile.SanitizeIdempotent | src/main.rs:382-402 | sanitising a sanitised name changes nothing |
| Profile.SanitizeExamples | src/main.rs:382-402 | a whitespace-only name is rejected; `  my profile ` becomes `my_profile` |

## Left out

- GUI: `CrosshairApp`, `draw_controls` and the egui preview painter (`draw_crosshair_preview` beyond its use of `spoke_outline_points`) are screen event handling. The canvas/ring slider coupling is left out with them, apart from the range fact `Config.BorderRadiusInRange` states about its clamp.
- File system and environment are I/O and are not modelled:
  - `home_dir`, the user directory helpers and `seed_user_csvs`;
  - saving, loading, listing and deleting profiles;
  - `fs::read_to_string` and the default-path seeding in `load_color_pairs`;
  - `create_dir_all`, `svg::save` and their I/O errors.
  - The CSV text is taken as a sequence of lines, and the batch as a list of writes.
- `str::lines` itself: the split of the text into lines, including a `\r\n` ending, is not modelled.
- `open_path_in_file_manager` launches an external process.
- The `svg` crate's serialisation. Path data and attributes are modelled as commands and record fields, and colours as byte/alpha tuples rather than `rgba(...)` strings.
- `tuple_to_rgba`, `rgba_to_tuple`, `tuple_to_color32` and `clamp_alpha` involve egui types and `f32` rounding.
- `to_radians`, `cos` and `sin`: the direction of each spoke is a parameter.
- `f64` rounding, infinities and NaN: reals stand in for `f64`.
- The verbose progress `println!` in the batch.
- `Batch.DirectoryAfter`: the output directory is modelled as empty before the batch. Files already in `out_dir` are not represented, so "exactly the names that were written" and the single file of `Batch.DuplicatePairOneFile` describe a fresh directory; a pre-existing file under another name would remain beside them.
- `Color.HexToRgb`: the precondition asks for six leading ASCII characters. Rust's `hex_to_rgb` takes its three slices one at a time, and each `?` returns as soon as a slice fails to decode. The precondition excludes two kinds of outcome:
  - the channel error of the first slice that fails to decode, when it comes before any slice runs past the end or cuts a character: `"ZZ"` gives red, `"FFZZ"` gives green, `"ééé"` gives red;
  - a panic at the first slice that runs past the end of the text or cuts through a multi-byte character, once every slice before it has decoded.
  The model does not describe those inputs. The only caller passes `normalize_hex` output, which always meets the precondition.
- `Color.NormalizeHex`: the byte-length test is stated as a character count. The two agree, because every accepted character must be an ASCII hex digit.
- There is no raster renderer in this source to model.
