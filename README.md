# Scene-change chapters: the verified core

`DetectChaptersAndGenerateMkv.py` turns a video's scene changes into MKV
chapters. ffmpeg's `showinfo` filter logs one line per detected scene
change. The script pulls each line's `pts_time:<seconds>` value out of
that log, prints every time as `HH:MM:SS.mmm`, and writes an MKVToolNix
chapter file with one `ChapterAtom` per scene change. The new video is
named after the input, without its extension, plus `_with_chapters.mkv`.

This project models the four computations in the middle of that pipeline
and proves what they promise:

- `timestamps.dfy` (module `Timestamps`) covers `extract_timestamps`.
  - It has a greedy, leftmost matcher for `pts_time:(\d+\.\d+)`.
  - It proves the matcher agrees with the pattern's meaning.
  - The extraction loop is a method, proved equal to a line-by-line specification function.
  - Lemmas cover order, skipping, emptiness and the exact value of each capture.
- `timeformat.dfy` (module `TimeFormat`) covers `format_time`.
  - `int()` truncation, Python's `% 1` and floor `divmod` are modelled over exact reals.
  - Formatting follows `{n:02}`, including the sign of a negative hour count.
  - It proves the decomposition identity, the field bounds and the truncation of milliseconds.
  - A round trip shows every field has its fixed width, except the hours, which are not capped.
- `chapterxml.dfy` (module `ChapterXml`) covers `generate_chapter_xml`.
  - The open file is a `TextFile` object, and each `f.write` appends to its contents.
  - The method's loop invariant tracks the blocks written so far.
  - Lemmas give the document's length, its frame, the content of every block, the number of `ChapterAtom` lines, and the fact that the file reads back line for line.
- `outputpath.dfy` (module `OutputPath`) covers the output name: `os.path.splitext(video_file)[0] + "_with_chapters.mkv"`.
  - `splitext` follows `genericpath._splitext`: the last separator, the last dot, and leading dots of the file name.
  - `ntpath` and `posixpath` are both covered, through a `Flavour` parameter.
- `option.dfy` (module `Wrappers`) holds the `Option` type for results that may be absent.
- `decimal.dfy` (module `Decimal`) holds shared helpers.
  - Decimal numerals: `str(int)`, `format(n, '0w')`, and reading digits back.
  - The exact value of the digits after a decimal point.

What the script does not do, and so the model does not either:
- It always writes the chapters to `chapters.xml`, the default of `generate_chapter_xml` (:44), which is how `main` calls it (:108). The file is never named after the video.
- It runs the detection every time; it keeps no cache of earlier results.
- Its scene threshold is the constant 0.3 in the ffmpeg command line (:8), which is outside this model.

## Model

| member | source | states |
|---|---|---|
| Timestamps.ExtractTimestamps | Sources/DetectChaptersAndGenerateMkv.py:19-34 | The loop over the lines returns exactly `ExtractAll(lines)`: each line's leftmost match's value, in line order, with unmatched lines skipped. |
| Timestamps.SearchFromSound | Sources/DetectChaptersAndGenerateMkv.py:30 | `search` from a position reports the first position at which the pattern matches, with that position's capture; when it reports nothing, no position matches. |
| Timestamps.SearchLeftmost | Sources/DetectChaptersAndGenerateMkv.py:22-30 | A line has no match exactly when the pattern matches nowhere in it; a match found is a real instance of `pts_time:\d+\.\d+`, and the pattern matches at no earlier position. |
| Timestamps.MatchAtSound | Sources/DetectChaptersAndGenerateMkv.py:22 | The matcher succeeds at a position exactly when the pattern can match there. Its group is the text after the marker: the only possible whole part and the longest fraction (greedy `\d+`). |
| Timestamps.DigitRunSound | Sources/DetectChaptersAndGenerateMkv.py:22 | The digit run taken by `\d+` is all digits and maximal: it reaches the end of the text or stops before a non-digit. |
| Timestamps.SearchFinds | Sources/DetectChaptersAndGenerateMkv.py:30-32 | In a line `pre + "pts_time:W.F" + rest`, where `pre` holds no marker and `rest` does not start with a digit, the match is at `pre`'s end and captures exactly `W` and `F`, whatever `rest` holds. |
| Timestamps.NoFractionNoMatch | Sources/DetectChaptersAndGenerateMkv.py:30-31 | A marker followed by digits and no point (`pts_time:12`) is no match, so a line whose only marker is such yields nothing. |
| Timestamps.ExtractOrder | Sources/DetectChaptersAndGenerateMkv.py:29-32 | There is one timestamp per matching line, so at most one per line. The k-th timestamp is the value captured in the k-th matching line. |
| Timestamps.MatchingLinesSound | Sources/DetectChaptersAndGenerateMkv.py:29-32 | The matching lines are listed in strictly increasing order, all within the log, and no matching line is missing. |
| Timestamps.ExtractAppend | Sources/DetectChaptersAndGenerateMkv.py:29-32 | Extraction works line by line: the timestamps of two logs put together are those of the first followed by those of the second. |
| Timestamps.ExtractLine | Sources/DetectChaptersAndGenerateMkv.py:30-32 | A one-line log yields the value of that line's match, or nothing when the line has no match. |
| Timestamps.ExtractSkipsUnmatched | Sources/DetectChaptersAndGenerateMkv.py:31 | Removing a line without a match leaves the result unchanged. |
| Timestamps.ExtractEmpty | Sources/DetectChaptersAndGenerateMkv.py:29-34 | The result is empty exactly when no line matches. |
| Timestamps.SecondsExact | Sources/DetectChaptersAndGenerateMkv.py:32 | `float(group)` is read exactly: the digits without the point, divided by 10 to the power of the number of fraction digits. The value is never negative. |
| Timestamps.ExtractNonNegative | Sources/DetectChaptersAndGenerateMkv.py:29-32 | Every extracted timestamp is at least 0. |
| Timestamps.LineExampleSimple | Sources/DetectChaptersAndGenerateMkv.py:30-32 | `pts_time:12.34` yields `[12.34]`. |
| Timestamps.LineExampleLeftmost | Sources/DetectChaptersAndGenerateMkv.py:30-32 | `pts_time:56.7 pts_time:9.5` yields only the leftmost value, `[56.7]`. |
| Timestamps.LineExampleNoFraction | Sources/DetectChaptersAndGenerateMkv.py:22 | `pts_time:12` yields nothing. |
| Timestamps.ShortLine | Sources/DetectChaptersAndGenerateMkv.py:30 | A line shorter than the marker yields nothing. |
| Timestamps.ExtractExample | Sources/DetectChaptersAndGenerateMkv.py:29-32 | The four lines `pts_time:12.34`, `frame=1`, `pts_time:12` and `pts_time:56.7 pts_time:9.5` yield `[12.34, 56.7]`. |
| Timestamps.MatchAt | Sources/DetectChaptersAndGenerateMkv.py:22 | The compiled pattern tried at one position: the marker, then a greedy digit run, the point, and a second greedy run. `MatchAtSound` proves it succeeds exactly where `pts_time:\d+\.\d+` can match, with the greedy capture. |
| Timestamps.Search | Sources/DetectChaptersAndGenerateMkv.py:30 | `time_pattern.search(line)`. `SearchLeftmost` and `SearchFromSound` prove it finds the leftmost match, and no match only when there is none. |
| Timestamps.Seconds | Sources/DetectChaptersAndGenerateMkv.py:32 | `float(match.group(1))`, read exactly. `SecondsExact` proves it is the point-free numeral over 10^(fraction digits), and never negative. |
| Timestamps.ExtractAll | Sources/DetectChaptersAndGenerateMkv.py:29-32 | The timestamps of a log, line by line. `ExtractOrder`, `MatchingLinesSound`, `ExtractEmpty`, `ExtractAppend` and `ExtractSkipsUnmatched` prove the order, the one-per-matching-line count, the skipping and the empty case. |
| TimeFormat.Decompose | Sources/DetectChaptersAndGenerateMkv.py:38-41 | For any input, `hours*3600 + mins*60 + secs == int(seconds)`, with `0 <= mins, secs < 60`. `ms` is the truncation of `frac(seconds)*1000`, so it lies in 0..999. For a non-negative input the hours are non-negative and the identity holds with `floor(seconds)`. |
| TimeFormat.Render | Sources/DetectChaptersAndGenerateMkv.py:42 | The f-string `{hours:02}:{mins:02}:{secs:02}.{ms:03}`. `RenderRoundTrip` proves it reads back as the fields it printed, when minutes, seconds and milliseconds are in range. |
| TimeFormat.FormatTime | Sources/DetectChaptersAndGenerateMkv.py:36-42 | `format_time`: the fields of `Decompose`, rendered. `FormatTimeRoundTrip` proves the string reads back as exactly those fields, `HoursWidth` gives its width, and the examples below give fixed values. |
| TimeFormat.FormatTimeRoundTrip | Sources/DetectChaptersAndGenerateMkv.py:42 | The printed time reads back, split at the last `:`, `:` and `.`, as exactly the fields it was printed from. So minutes and seconds take exactly two digits and milliseconds exactly three. |
| TimeFormat.RenderRoundTrip | Sources/DetectChaptersAndGenerateMkv.py:42 | Any clock whose minutes, seconds and milliseconds are in range reads back from its rendering. |
| TimeFormat.ZeroPaddedParses | Sources/DetectChaptersAndGenerateMkv.py:42 | `{n:0w}` of any integer, negative included, reads back as `n`. |
| TimeFormat.FixedWidth | Sources/DetectChaptersAndGenerateMkv.py:42 | A field below 10^width is printed as exactly `width` digits that read back as the field. |
| TimeFormat.HoursWidth | Sources/DetectChaptersAndGenerateMkv.py:42 | For a non-negative time, the string is 10 characters plus the hours field. That field is 2 digits when hours < 100, and otherwise as many digits as the hours have, so hours are not capped. |
| TimeFormat.FormatTimeFirstMinute | Sources/DetectChaptersAndGenerateMkv.py:36-42 | 0.0 prints as `00:00:00.000` and 59.999 (exact) as `00:00:59.999`. |
| TimeFormat.FormatTimeFirstHour | Sources/DetectChaptersAndGenerateMkv.py:36-42 | 3600.0 prints as `01:00:00.000` and 3661.5 as `01:01:01.500`. |
| TimeFormat.FormatTimeHundredHours | Sources/DetectChaptersAndGenerateMkv.py:36-42 | 360000.0 prints as `100:00:00.000`. |
| Decimal.PadSound | Sources/DetectChaptersAndGenerateMkv.py:42 | Zero padding keeps the number: the padded numeral is all digits and reads back as `n`. It is `width` long unless `n` needs more digits. |
| Decimal.DigitsRoundTrip | Sources/DetectChaptersAndGenerateMkv.py:55 | `str(n)` is all digits and reads back as `n`. It has no leading zero and is as short as possible. |
| Decimal.FractionExact | Sources/DetectChaptersAndGenerateMkv.py:32 | The digits after the point are worth their numeral over 10^(their number). |
| ChapterXml.TextFile.constructor | Sources/DetectChaptersAndGenerateMkv.py:46 | Opening the file for writing leaves it empty. |
| ChapterXml.TextFile.Write | Sources/DetectChaptersAndGenerateMkv.py:47 | A write appends its text to the file's contents, and nothing else changes. |
| ChapterXml.WriteAtom | Sources/DetectChaptersAndGenerateMkv.py:52-58 | The seven writes of one iteration append exactly one chapter's block. |
| ChapterXml.GenerateChapterXml | Sources/DetectChaptersAndGenerateMkv.py:44-64 | Returns the file name it was given, `chapters.xml` by default. The file then holds exactly the header, one block per timestamp in order, and the footer. |
| ChapterXml.DocumentLines | Sources/DetectChaptersAndGenerateMkv.py:47-61 | The lines `generate_chapter_xml` writes, in order. `DocumentBlocks`, `DocumentFrame` and `DocumentAtomCount` prove its length, its frame, the content of every block and the number of blocks. |
| ChapterXml.AtomsBlock | Sources/DetectChaptersAndGenerateMkv.py:51-58 | The blocks take 7 lines per timestamp, and block `i` is the block for chapter `i+1` at `timestamps[i]`. |
| ChapterXml.DocumentBlocks | Sources/DetectChaptersAndGenerateMkv.py:51-58 | The document has `5 + 7*len(timestamps)` lines. Lines `3+7i` to `3+7i+6` are block `i`: `<ChapterAtom>`, `<ChapterTimeStart>` with `format_time(timestamps[i])`, `<ChapterDisplay>`, `Chapter {i+1}`, `<ChapterLanguage>eng</ChapterLanguage>`, `</ChapterDisplay>`, `</ChapterAtom>`. |
| ChapterXml.DocumentAtomCount | Sources/DetectChaptersAndGenerateMkv.py:51-58 | Exactly `len(timestamps)` lines of the document are `<ChapterAtom>`. |
| ChapterXml.DocumentFrame | Sources/DetectChaptersAndGenerateMkv.py:47-61 | The document always starts with the three header lines and ends with the two footer lines. With no timestamps it is exactly those five lines. |
| ChapterXml.DocumentText | Sources/DetectChaptersAndGenerateMkv.py:46-61 | The file's text is the header's text, the blocks' text, then the footer's text. |
| ChapterXml.DocumentIsLines | Sources/DetectChaptersAndGenerateMkv.py:47-61 | Every write is one line of text: it ends in a line break and holds no other. |
| ChapterXml.DocumentReadsBack | Sources/DetectChaptersAndGenerateMkv.py:46-61 | The file, split back into lines (as `readlines` would), is the document line for line. |
| ChapterXml.DocumentExample | Sources/DetectChaptersAndGenerateMkv.py:51-58 | A document for one timestamp at 3661.5 s has 12 lines: its block starts at `01:01:01.500` and is titled `Chapter 1`. |
| OutputPath.SplitExt | Sources/DetectChaptersAndGenerateMkv.py:111 | `os.path.splitext`, as `genericpath._splitext` computes it. `SplitExtSound` proves what it returns. |
| OutputPath.OutputVideo | Sources/DetectChaptersAndGenerateMkv.py:111 | The output video's name. `OutputVideoShape` and `OutputVideoExtension` prove it is the input's root followed by `_with_chapters.mkv`, whose own extension is `.mkv`. |
| OutputPath.SplitExtSound | Sources/DetectChaptersAndGenerateMkv.py:111 | `splitext`'s root and extension put back together give the path. The extension is empty exactly when the last component has no extension; a leading dot does not start one. Otherwise the extension is a dot followed by no dot or separator. |
| OutputPath.OutputVideoShape | Sources/DetectChaptersAndGenerateMkv.py:111 | The output name is the input's root (a prefix of the input) followed by `_with_chapters.mkv`, which it ends with. |
| OutputPath.OutputVideoExtension | Sources/DetectChaptersAndGenerateMkv.py:111 | Split again, the output name has the extension `.mkv`, and its root is the input's root plus `_with_chapters`. |
| OutputPath.WindowsExample | Sources/DetectChaptersAndGenerateMkv.py:111 | `C:\Videos\movie.mp4` becomes `C:\Videos\movie_with_chapters.mkv`. |
| OutputPath.LastExtensionExample | Sources/DetectChaptersAndGenerateMkv.py:111 | `archive.tar.gz` becomes `archive.tar_with_chapters.mkv`: only the last extension goes. |
| OutputPath.NoExtensionExamples | Sources/DetectChaptersAndGenerateMkv.py:111 | `/home/user/.bashrc` and `dir.d/file` keep their whole name: a leading dot, or a dot in a directory name, is no extension. |
| OutputPath.FlavourExample | Sources/DetectChaptersAndGenerateMkv.py:111 | `a.b\c` has the extension `.b\c` under POSIX and none on Windows. |

## Left out

- Running ffmpeg and mkvmerge (`run_ffmpeg_scene_detection`, `create_mkv_with_chapters`): these are shell commands for external programs, and their behaviour lives in those programs.
- `cleanup`, the existence check on the video, `main`'s sequencing and `sys.exit`, and the command-line handling: this is file-system and process plumbing. The check in `main` that skips the XML when no timestamps were found is not modelled.
- Reading and writing files, and `print`.
  - The log arrives as its list of lines.
  - The output file is a `TextFile` object, created fresh by the method. `GenerateChapterXml` returns its contents alongside the name.
  - Write errors are not modelled.
  - Text mode's newline translation is not modelled. On Windows, the platform the script targets (it pipes through `findstr`, :8), each `\n` written is stored as `\r\n`. The model's contents hold `\n`, which is what the script passes to `f.write`.
- Timestamps.Seconds: `float(...)` is modelled as an exact real, not an IEEE-754 double. Rounding artefacts of the code are therefore not captured. For example, the double nearest 12.34 is 12.339999999999999858, so `format_time(12.34)` prints `00:00:12.339` where the model gives `.340`; likewise 1.001 prints `.000` where the model gives `.001`. Overflow is not captured either. A group beyond the largest double (about 1.8 × 10^308, so any with 310 or more digits before the point, not counting leading zeros) becomes `inf` under `float()`. `format_time` then fails with a `ValueError` at `int(nan)` (:38), where the model prints the exact value.
- TimeFormat.Millis: `(seconds % 1) * 1000` is computed on exact reals, for the same reason.
- Timestamps.MatchAt: `\d` matches only the ASCII digits `0`-`9`. Python's `\d` on a `str` also matches other Unicode decimal digits.
- OutputPath.SplitExt: which `os.path` the interpreter uses (`posixpath` or `ntpath`) is a parameter. Drive letters need no separate step, because `ntpath.splitext` does not split them off either.
- The scene-detection threshold (0.3) belongs to the ffmpeg command line and is not part of this model.
