# Captions and cover colours of the music video

This project models the two pure pieces of the Remotion music-video front end.

The first piece is the SubRip caption reader in `srt-parser.ts`. Its parts are:

- `parseTimeToSeconds`, which reads `HH:MM:SS,mmm` timestamps.
- The unanchored `TIME_PATTERN` search behind `parseTimeLine`.
- `createLyricLine`.
- The three-phase line machine of `parseSRT`: index, then time, then text.
- The first-match queries `getCurrentLyric` and `getNextLyric`.

The second piece is the dominant-colour pipeline in `color-extractor.ts`. Its parts are:

- Sampling every third pixel of an RGBA buffer, skipping transparent, very dark and very bright pixels.
- A deterministic k-means with five clusters and ten rounds. Centroids are rounded to whole channel values after every round.
- Choosing the most saturated centroid.
- The RGB to HSL conversion.
- The three-stop colour scheme built around a base hue.

Caption times are integer milliseconds. A playback time is a `real` number of seconds, and a caption covers it when `start/1000 <= t <= end/1000`. Colour channels are bytes, and HSL values are exact reals. `Number.parseInt` is modelled as an `Option<int>`, where `None` stands for NaN. `TIME_PATTERN` is a scanner over the line. Each `\s*` in the regular expression is followed by a character that is not white space, so it never needs to backtrack. At each start position there is at most one match, and the scanner finds it (`SrtTime.MatchAtIsPattern`).

The modules are:

- `Wrappers` and `Search` hold `Option` and the first-match scan that `Array.prototype.find` performs.
- `Text` holds JavaScript's `trim`, `split` and `join` on one character, and `parseInt`.
- `SrtTime` holds timestamps and the time-line pattern.
- `SrtParser` holds the line machine.
- `SrtFormat` holds a SubRip printer. It is not part of the system; it serves as the inverse the parser is proved against.
- `LyricQuery` holds the queries at a playback time.
- `Colors` holds the HSL conversion.
- `ColorSampling` holds `extractRgbColors`.
- `KMeans` holds the clustering.
- `ColorScheme` holds `processImage` after the canvas and `generateColorScheme`.

## Model

| member | source | states |
|---|---|---|
| Text.Trim | src/remotion/music/utils/srt-parser.ts:142 | the result has no white space at either end, is never longer than the input, and leaves an already trimmed string unchanged |
| Text.TrimIsInnerSlice | src/remotion/music/utils/srt-parser.ts:142 | the result is the input with a white-space prefix and a white-space suffix cut away, so `trim` removes the white space at both ends and nothing else |
| Text.TrimEmpty | src/remotion/music/utils/srt-parser.ts:144 | a line trims to the empty string exactly when it consists only of white space |
| Text.SplitLacksSeparator | src/remotion/music/utils/srt-parser.ts:130 | no piece produced by splitting at a character contains that character |
| Text.SplitJoin | src/remotion/music/utils/srt-parser.ts:130 | splitting the join of pieces that lack the separator gives back those pieces |
| Text.JoinSplit | src/remotion/music/utils/srt-parser.ts:130 | joining the pieces of a split with the same separator rebuilds the input |
| Text.ParseInt | src/remotion/music/utils/srt-parser.ts:101 | `parseInt` gives NaN exactly when, after leading white space and an optional sign, no decimal digit follows |
| Text.ParseIntPrefix | src/remotion/music/utils/srt-parser.ts:101 | a decimal numeral followed by any non-digit text parses to the numeral's value, so trailing text is ignored |
| Text.ParseIntNegative | src/remotion/music/utils/srt-parser.ts:101 | a minus sign before a numeral gives the negated value |
| Text.LeadingDigitsUnique | src/remotion/music/utils/srt-parser.ts:101 | the digits `parseInt` reads are the only all-digit prefix that is not followed by another digit |
| SrtTime.TimestampMs | src/remotion/music/utils/srt-parser.ts:13-23 | a timestamp denotes at most 99 h 99 min 99 s 999 ms |
| SrtTime.ParseTimeToMsPositional | src/remotion/music/utils/srt-parser.ts:13-23 | splitting at ',' and ':' as `parseTimeToSeconds` does yields `3600000*H + 60000*M + 1000*S + mmm` ms, read from the fixed field positions |
| SrtTime.TimestampFields | src/remotion/music/utils/srt-parser.ts:14-17 | the two splits of a well-formed timestamp give exactly the clock part and millisecond part, then hours, minutes and seconds |
| SrtTime.FormatTimestamp | src/remotion/music/utils/srt-parser.ts:13-23 | every duration below 100 hours prints as a well-formed timestamp that denotes that duration |
| SrtTime.ParseFormattedTimestamp | src/remotion/music/utils/srt-parser.ts:13-23 | reading a printed timestamp gives back the milliseconds it was printed from |
| SrtTime.SkipWhitespaceSpan | src/remotion/music/utils/srt-parser.ts:26-27 | the `\s*` around the arrow consumes only white space and stops before a non-white-space character |
| SrtTime.MatchAt | src/remotion/music/utils/srt-parser.ts:26-27 | a match found at a position starts there, both captures are timestamps, and the second follows the first |
| SrtTime.MatchAtIsPattern | src/remotion/music/utils/srt-parser.ts:26-27 | the scanner finds a match at a position with its second capture at `b` exactly when the regular expression, a timestamp then white space, `-->`, white space and a timestamp, can match that way |
| SrtTime.MatchGivesPattern | src/remotion/music/utils/srt-parser.ts:26-27 | every match of the scanner is a match of the regular expression |
| SrtTime.PatternGivesMatch | src/remotion/music/utils/srt-parser.ts:26-27 | every way the regular expression can match at a position is found by the scanner, with the same second capture |
| SrtTime.FindMatch | src/remotion/music/utils/srt-parser.ts:55 | a match reported by the search is the pattern's match at its reported start |
| SrtTime.FindMatchLeftmost | src/remotion/music/utils/srt-parser.ts:55 | the search fails exactly when the pattern matches nowhere, and otherwise no match starts earlier |
| SrtTime.FindMatchAt | src/remotion/music/utils/srt-parser.ts:55 | the leftmost position where the pattern matches is the match the search returns |
| SrtTime.ParseTimeLineFound | src/remotion/music/utils/srt-parser.ts:52-63 | `parseTimeLine` gives a range exactly when the pattern matches somewhere in the line |
| SrtTime.ParseTimeLineLeftmost | src/remotion/music/utils/srt-parser.ts:52-63 | the range is read from the two captured timestamps of the leftmost match |
| SrtTime.ParseFormattedTimeLine | src/remotion/music/utils/srt-parser.ts:52-63 | a printed `start --> end` line parses back to the same two times |
| Search.FindIndex | src/remotion/music/utils/srt-parser.ts:178-181 | the scan finds nothing exactly when no element satisfies the test, and otherwise returns the first element that does |
| SrtParser.CreateLyricLine | src/remotion/music/utils/srt-parser.ts:32-47 | there is no caption exactly when the text is empty; otherwise the index and times are kept and the caption text is the input with its leading and trailing white space cut away, as `text.trim()` |
| SrtParser.SaveCoherent | src/remotion/music/utils/srt-parser.ts:76-86 | closing a block with empty text adds nothing, and closing one with text appends one caption carrying the block's fields |
| SrtParser.BlankLineCloses | src/remotion/music/utils/srt-parser.ts:91-95 | a blank line keeps the index and both times, clears the text, returns to the index phase, and emits the block exactly when it has text |
| SrtParser.BlankLinesInARow | src/remotion/music/utils/srt-parser.ts:144-147 | a second blank line in a row changes nothing and emits nothing |
| SrtParser.IndexLineStep | src/remotion/music/utils/srt-parser.ts:100-103 | in the index phase a line sets the index to the `parseInt` of its trimmed text and moves to the time phase, keeping everything else |
| SrtParser.TimeLineStep | src/remotion/music/utils/srt-parser.ts:108-115 | in the time phase a line without a time range changes nothing; one with a range sets both times and moves to the text phase |
| SrtParser.TimePhaseStalls | src/remotion/music/utils/srt-parser.ts:108-115 | any run of non-blank lines without a time range leaves the time phase and all output untouched |
| SrtParser.TextLineStep | src/remotion/music/utils/srt-parser.ts:120-122 | in the text phase a line's trimmed text is appended, after a line feed when text is already present |
| SrtParser.TextLinesAccumulate | src/remotion/music/utils/srt-parser.ts:141-160 | consecutive non-blank lines in the text phase, index-like ones included, append their trimmed texts joined by line feeds |
| SrtParser.StepCoherent | src/remotion/music/utils/srt-parser.ts:141-160 | every step keeps gathered text trimmed, keeps it empty outside the text phase, and emits only captions with trimmed non-empty text |
| SrtParser.RunCoherent | src/remotion/music/utils/srt-parser.ts:141-160 | the whole loop keeps those invariants |
| SrtParser.RunCount | src/remotion/music/utils/srt-parser.ts:141-160 | the loop only appends captions, and at most one per blank line |
| SrtParser.RunInOrder | src/remotion/music/utils/srt-parser.ts:141-160 | the captions emitted by a prefix of the input are a prefix of the result, so output follows input order |
| SrtParser.ParseSrt | src/remotion/music/utils/srt-parser.ts:129-166 | every caption has non-empty trimmed text, and there are at most as many captions as blank lines plus one for the final block |
| SrtFormat.ParseFormatRoundTrip | src/remotion/music/utils/srt-parser.ts:129-166 | printing captions as a SubRip document and parsing it gives back the same captions |
| SrtFormat.BlankDocument | src/remotion/music/utils/srt-parser.ts:129-166 | an input of only white space yields no captions |
| LyricQuery.GetCurrentLyric | src/remotion/music/utils/srt-parser.ts:174-183 | returns the first caption showing at `t`, both ends included, and nothing exactly when none is showing |
| LyricQuery.GetNextLyric | src/remotion/music/utils/srt-parser.ts:191-196 | returns the first caption starting after `t`, and nothing exactly when none does |
| LyricQuery.NextIsEarliestUpcoming | src/remotion/music/utils/srt-parser.ts:191-196 | on captions sorted by start, the next caption starts no later than any other upcoming one |
| LyricQuery.CurrentBeforeNext | src/remotion/music/utils/srt-parser.ts:174-196 | when both exist, the current caption starts strictly before the next one and the two differ |
| LyricQuery.SharedBoundary | src/remotion/music/utils/srt-parser.ts:174-196 | at the instant one caption ends and the next begins, the ending caption is still current and the beginning one no longer counts as next |
| Colors.RgbToHsl | src/remotion/music/utils/color-extractor.ts:228-273 | hue lies in [0, 360), saturation and lightness in [0, 1], lightness is the mean of the largest and smallest channel, saturation is zero exactly for grey, and grey has hue 0 |
| Colors.HueIgnoresTies | src/remotion/music/utils/color-extractor.ts:248-265 | when two channels tie for the maximum, the red/green/blue priority of the switch gives the same hue either way |
| Colors.RgbToHslObject | src/remotion/music/utils/color-extractor.ts:278-289 | keeps the hue and scales saturation and lightness to percentages in [0, 100] |
| ColorSampling.BrightnessTest | src/remotion/music/utils/color-extractor.ts:76-84 | a pixel is kept exactly when its alpha is at least 128 and its mean brightness lies in [10, 250] |
| ColorSampling.VisitedPixels | src/remotion/music/utils/color-extractor.ts:69-73 | the visited pixels are those at byte offsets 0, 12, 24, ..., in order, all inside the buffer |
| ColorSampling.ExtractIsKeptVisited | src/remotion/music/utils/color-extractor.ts:63-90 | `extractRgbColors` is the visited pixels that pass the test, in buffer order |
| ColorSampling.SamplesComeFromVisitedPixels | src/remotion/music/utils/color-extractor.ts:63-90 | there are no more samples than visited pixels, and a colour is sampled exactly when some visited pixel of that colour passes the test |
| KMeans.SquaredDistance | src/remotion/music/utils/color-extractor.ts:218-223 | the distance between two colours is zero exactly when they are equal |
| KMeans.DistanceSymmetric | src/remotion/music/utils/color-extractor.ts:218-223 | the distance is symmetric |
| KMeans.SquaresOrderDistances | src/remotion/music/utils/color-extractor.ts:222 | comparing squared distances orders colours as comparing the square roots does |
| KMeans.InitIndex | src/remotion/music/utils/color-extractor.ts:125 | every starting index is inside the sample list |
| KMeans.InitializeCentroids | src/remotion/music/utils/color-extractor.ts:119-129 | exactly `k` centroids, centroid `i` being the sample at index `floor(i*n/k)` |
| KMeans.InitIndicesIncrease | src/remotion/music/utils/color-extractor.ts:125 | with at least `k` samples the starting indices strictly increase |
| KMeans.NearestAmong | src/remotion/music/utils/color-extractor.ts:157-166 | the loop keeps the lowest index among the nearest of the centroids scanned so far |
| KMeans.FindNearestCentroid | src/remotion/music/utils/color-extractor.ts:153-169 | gives index 0 without centroids; otherwise an index whose centroid is nearest, and strictly nearer than every earlier one |
| KMeans.NearestIsUnique | src/remotion/music/utils/color-extractor.ts:153-169 | that index is the only one with this property, so ties go to the lowest index |
| KMeans.NearestToItself | src/remotion/music/utils/color-extractor.ts:153-169 | a colour that is itself a centroid is assigned to a centroid equal to it |
| KMeans.AssignColorsToClusters | src/remotion/music/utils/color-extractor.ts:134-148 | exactly `k` clusters, cluster `j` being the samples, in order, whose nearest centroid is `j` |
| KMeans.ClusterSizesSum | src/remotion/music/utils/color-extractor.ts:134-148 | every sample lands in exactly one cluster: the sizes sum to the number of samples |
| KMeans.MembersNearest | src/remotion/music/utils/color-extractor.ts:142-145 | every member of cluster `j` is a sample whose nearest centroid is `j` |
| KMeans.RoundDivRounds | src/remotion/music/utils/color-extractor.ts:181-189 | `(2s + n) div (2n)` is the integer nearest to `s/n`, halves rounded up |
| KMeans.RoundDivIsMathRound | src/remotion/music/utils/color-extractor.ts:181-189 | it equals `Math.round(s/n)`: within half a unit below and strictly less than half a unit above |
| KMeans.MeanColorRounds | src/remotion/music/utils/color-extractor.ts:180-190 | each channel of a cluster's new centroid is the rounded mean of that channel |
| KMeans.MeanBetween | src/remotion/music/utils/color-extractor.ts:180-190 | the rounded mean lies within any channel-wise bounds that hold for all members |
| KMeans.UpdateCentroids | src/remotion/music/utils/color-extractor.ts:174-193 | keeps the number of centroids, leaves the centroid of an empty cluster unchanged, and moves the others to their rounded means |
| KMeans.IterateStaysBetween | src/remotion/music/utils/color-extractor.ts:107-110 | the rounds never move a centroid outside channel-wise bounds that hold for every sample and every starting centroid |
| KMeans.FixedRound | src/remotion/music/utils/color-extractor.ts:107-110 | when every sample equals some centroid, a round leaves the centroids unchanged |
| KMeans.FixedIterate | src/remotion/music/utils/color-extractor.ts:107-110 | such centroids survive any number of rounds |
| KMeans.TwoColorSamples | src/remotion/music/utils/color-extractor.ts:104-110 | with two clusters over `m` samples of one colour then `m` of another, the centroids end as those two colours |
| KMeans.BestAmong | src/remotion/music/utils/color-extractor.ts:201-210 | the scan keeps the first centroid of maximal saturation among those seen, starting from index 0 |
| KMeans.MostSaturatedIndex | src/remotion/music/utils/color-extractor.ts:198-213 | the chosen index has maximal saturation and is strictly more saturated than every earlier centroid |
| KMeans.FindMostSaturatedCentroid | src/remotion/music/utils/color-extractor.ts:198-213 | returns one of the centroids, and none is more saturated |
| KMeans.AllGreyGivesFirst | src/remotion/music/utils/color-extractor.ts:201-206 | when every centroid is grey, the first one is returned |
| KMeans.MostSaturatedOfTwo | src/remotion/music/utils/color-extractor.ts:204-209 | of two centroids the second wins only when strictly more saturated |
| KMeans.FindDominantColorByKMeans | src/remotion/music/utils/color-extractor.ts:99-101 | no samples give the fallback colour (255, 200, 200) |
| KMeans.DominantBetween | src/remotion/music/utils/color-extractor.ts:95-114 | the dominant colour lies within any channel-wise bounds that hold for all samples |
| KMeans.UniformSamples | src/remotion/music/utils/color-extractor.ts:95-114 | when all samples are one colour, that colour is the result |
| KMeans.TwoColorDominant | src/remotion/music/utils/color-extractor.ts:95-114 | for the two-colour sample above, the result is the more saturated colour, the first on a tie |
| ColorScheme.ProcessImage | src/remotion/music/utils/color-extractor.ts:27-58 | without a 2D context, or when no pixel is sampled, the result is hue 0, saturation 70, lightness 80; it is always a hue in [0, 360) with percentages in [0, 100] |
| ColorScheme.ProcessImageBetween | src/remotion/music/utils/color-extractor.ts:49-57 | the reported colour is the HSL of a colour within any channel-wise bounds that hold for all samples |
| ColorScheme.UniformImage | src/remotion/music/utils/color-extractor.ts:49-57 | when every sample is one colour, the result is that colour's HSL |
| ColorScheme.Rem360 | src/remotion/music/utils/color-extractor.ts:302-303 | JavaScript's `% 360`: the remainder keeps the sign of the dividend, stays below 360 in size, and differs from it by a whole multiple of 360 |
| ColorScheme.Rem360Small | src/remotion/music/utils/color-extractor.ts:302-303 | below 720 and not negative, `% 360` subtracts 360 at most once |
| ColorScheme.GenerateColorScheme | src/remotion/music/utils/color-extractor.ts:295-306 | three stops with saturation and lightness (75, 82), (80, 78), (70, 85); the first at the base hue, the second at `(base + 10) % 360` and the third at `(base + 355) % 360`, with JavaScript's `%` for every base |
| ColorScheme.SchemeHues | src/remotion/music/utils/color-extractor.ts:302-303 | for a base hue in [0, 360) the other hues are base + 10 and base - 5, wrapped once onto [0, 360) |
| ColorScheme.ProcessedHueGivesWheelScheme | src/remotion/music/utils/color-extractor.ts:27-58 | a scheme built on the hue that `processImage` reports has all hues in [0, 360) |
| ColorScheme.NegativeHueStaysNegative | src/remotion/music/utils/color-extractor.ts:302-303 | a base hue in (-370, -10) is not wrapped: the second hue is base + 10 and stays negative, and below -355 the third hue is base + 355, also negative |

## Left out

- Image loading and the canvas are not modelled. This covers `extractDominantHue` (`color-extractor.ts:5-22`) with its `Image` and `Promise`, and `drawImage`/`getImageData` (`color-extractor.ts:40-48`). The model starts at the RGBA byte buffer, given as `Some(bytes)`, or `None` when there is no 2D context. It does not enforce the 200 by 200 size.
- IEEE-754 arithmetic is not modelled. Times are exact integer milliseconds, and HSL values and query times are exact reals. `Math.sqrt` is replaced by squared distances, which order colours the same way.
- `Number.parseInt` beyond 2^53, and its `-0` result, are not modelled. Indices are unbounded integers.
- Byte buffers whose length is not a multiple of four are excluded. `getImageData` never returns one.
- KMeans.FindDominantColorByKMeans: `k = 0` with samples is excluded. With no clusters, the push at `color-extractor.ts:144` is called on `undefined` and throws a TypeError in the first round. The caller always passes 5.
- KMeans.FindDominantColorByKMeans: its own contract states only the empty-sample fallback. What it computes otherwise is stated by DominantBetween, UniformSamples and TwoColorDominant.
- KMeans.InitIndex: the index is the integer floor of `i*n/k`. The source computes `floor((i/k)*n)` in floating point, which could round differently for some `k`. The model does not capture that.
- KMeans.Iterate: its contract states only the number of centroids. What the rounds do is stated by IterateStaysBetween, FixedIterate and TwoColorSamples.
- SrtFormat.ParseFormatRoundTrip covers only the captions this printer writes. These have a non-negative index, times below 100 hours, and text made of trimmed, non-blank lines. The parser also emits captions outside that range: a NaN index from an index line without digits, a negative index such as `-3`, and times of 100 hours or more such as `99:60:00,000`. The round trip states nothing about those.
- `audio-visualizer.tsx` and the React, font and composition code around these two files are not part of this model.
- `parseTimeToSeconds` is defined by its fixed field positions. It is proved equal to the source's reading through `split(',')` and `split(':')`.
