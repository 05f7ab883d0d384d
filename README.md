# Format-selector resolver of the ytload downloader, in Dafny

The downloader backend hands every download to yt-dlp with a *format
selector*. The selector either asks for a separate video stream and audio
stream that ffmpeg merges locally, or, when ffmpeg is not on the PATH, for
one pre-combined file. `download_video` picks the selector from one of two
constant tables, keyed by the resolution token the UI sends (`1080p`,
`720p`, `360p`, `240p`, `144p`). An unknown token gets a per-table default.
The same function also builds the output-path template from the temp
directory and a short unique id.

The project has three modules:

- `Selector` (selector.dfy) is the part of yt-dlp's selector syntax that
  the tables use. A selector is a list of `/`-separated alternatives. Each
  alternative is one stream, or a `+`-merge of a video stream and an audio
  stream. A stream is `best`, `bestvideo` or `bestaudio`, followed by
  `[height<=N]` and `[ext=E]` filters. The module has a renderer to the
  exact text and a splitter at `/` that behaves like Python's
  `str.split('/')`. Its lemmas show two things. Splitting rendered text
  gives back the alternatives. A rendered selector contains `+` exactly
  when it has a merge alternative.
- `FormatTables` (format_tables.dfy) holds the resolution tokens, their
  height caps and the two tables. The tables are constant maps whose
  strings are those of `MERGE_FORMATS` and `SINGLE_FILE_FORMATS`.
- `YtdlpService` (ytdlp_service.dfy) holds the resolver `ResolveFormat`
  and the output template. `ResolveFormat` is proved equal to the
  rendering of an independently built structured selector,
  `IntendedPlan`. All properties of the resolver are stated through that
  equality.

The ffmpeg probe becomes the boolean `hasFfmpeg`. The temp directory and
the uuid text become parameters of `OutputTemplate`.

## Model

| member | source | states |
|---|---|---|
| `Selector.Decimal` | backend/downloader/ytdlp_service.py:13-17 | the height cap is written as non-empty decimal digits with no leading zero |
| `Selector.DecimalRoundTrip` | backend/downloader/ytdlp_service.py:13-17 | reading the written cap back as a number gives the same height |
| `Selector.SplitRender` | backend/downloader/ytdlp_service.py:13-17 | splitting a selector's text at `/` gives exactly its alternatives' texts, in preference order |
| `Selector.RenderHasPlusIffMerge` | backend/downloader/ytdlp_service.py:13-17 | a selector's text contains the merge operator `+` if and only if one of its alternatives is a merge |
| `FormatTables.TokenIsHeight` | backend/downloader/ytdlp_service.py:12-27 | every token is its height cap in decimal followed by `p`, and is one of the five known tokens |
| `FormatTables.TablesHaveSameKeys` | backend/downloader/ytdlp_service.py:12-27 | both tables have exactly the five tokens as keys |
| `FormatTables.TableEntries` | backend/downloader/ytdlp_service.py:12-27 | for each token the single-file entry is `best[height<=N][ext=mp4]/best`, and the merge entry is `bestvideo[height<=N][ext=mp4]+bestaudio[ext=m4a]` + `/` + that single-file entry |
| `YtdlpService.ParseResolution` | backend/downloader/ytdlp_service.py:59 | a recognised string is the token of the resolution returned |
| `YtdlpService.ParseToken` | backend/downloader/ytdlp_service.py:59 | parsing a resolution's token gives that resolution back |
| `YtdlpService.ParseKnown` | backend/downloader/ytdlp_service.py:59 | a string is recognised exactly when it is a key of the tables |
| `YtdlpService.TablesRenderPlans` | backend/downloader/ytdlp_service.py:12-27 | each written table entry is the text of the structured merge or single-file selector for that token's height |
| `YtdlpService.DefaultsRenderPlans` | backend/downloader/ytdlp_service.py:57-63 | the defaults `best` and `best[ext=mp4]/best` are the texts of the structured default selectors |
| `YtdlpService.LookupsRenderPlans` | backend/downloader/ytdlp_service.py:57-63 | for every string, each table's lookup with its own default gives the text of the intended structured selector for that table |
| `YtdlpService.ResolveFormat` | backend/downloader/ytdlp_service.py:55-63 | its body is the branch as written (merge table with default `best` when ffmpeg is present, single-file table with default `best[ext=mp4]/best` otherwise); its result is the text of the intended structured selector for every token and host |
| `YtdlpService.ResolveWithFfmpeg` | backend/downloader/ytdlp_service.py:57-59 | with ffmpeg and a known token N the selector is exactly `bestvideo[height<=N][ext=mp4]+bestaudio[ext=m4a]/best[height<=N][ext=mp4]/best` |
| `YtdlpService.ResolveWithoutFfmpeg` | backend/downloader/ytdlp_service.py:61-63 | without ffmpeg and a known token N the selector is exactly `best[height<=N][ext=mp4]/best` |
| `YtdlpService.MergeExtendsSingleFile` | backend/downloader/ytdlp_service.py:12-27 | for every token the merge selector only prepends the merge alternative and `/` to the single-file selector |
| `YtdlpService.ResolveUnknown` | backend/downloader/ytdlp_service.py:57-63 | an unknown token yields exactly `best` with ffmpeg and exactly `best[ext=mp4]/best` without it |
| `YtdlpService.MergeOnlyWithFfmpeg` | backend/downloader/ytdlp_service.py:55-63 | the selector contains `+` (a merge is requested) if and only if ffmpeg is present and the token is known |
| `YtdlpService.NoMergeWithoutFfmpeg` | backend/downloader/ytdlp_service.py:61-63 | without ffmpeg no selector, default included, contains `+` |
| `YtdlpService.LastAlternativeIsBest` | backend/downloader/ytdlp_service.py:55-63 | for every input the last `/`-separated alternative of the selector is the unconstrained `best` |
| `YtdlpService.AlternativesWithFfmpeg` | backend/downloader/ytdlp_service.py:12-18 | with ffmpeg a known token's selector has exactly three alternatives: the capped merge, the capped single mp4, then `best` |
| `YtdlpService.AlternativesWithoutFfmpeg` | backend/downloader/ytdlp_service.py:21-27 | without ffmpeg a known token's selector has exactly two alternatives: the capped single mp4, then `best` |
| `YtdlpService.HeightCapsOfSelector` | backend/downloader/ytdlp_service.py:12-27 | the only height cap in a token's selector is that token's height; a default selector has no cap |
| `YtdlpService.UniqueId` | backend/downloader/ytdlp_service.py:68 | the id is a prefix of the uuid text, of length 8 when the text has at least 8 characters |
| `YtdlpService.JoinPath` | backend/downloader/ytdlp_service.py:72 | POSIX `os.path.join`: an absolute name replaces the directory; otherwise the result is the directory, then at most one `/` (only when the directory is non-empty and does not end in `/`), then the name |
| `YtdlpService.OutputTemplate` | backend/downloader/ytdlp_service.py:67-72 | the `outtmpl` is the temp directory, then `/` unless the directory is empty or already ends in `/`, then `%(title)s_` + id + `.%(ext)s` |
| `YtdlpService.OutputTemplateDistinguishesIds` | backend/downloader/ytdlp_service.py:68-72 | in one temp directory two downloads get the same template if and only if their ids are equal |

## Left out

- `is_ffmpeg_available` (backend/downloader/ytdlp_service.py:29-31) queries the environment with `shutil.which`. The model takes its result as the `hasFfmpeg` parameter.
- `get_video_info`, and the `yt_dlp.YoutubeDL` / `extract_info` / `prepare_filename` calls of `download_video`, do network and disk I/O through a third-party library. What a selector *selects* is defined by yt-dlp, so the `Selector` module models only its syntax.
- `tempfile.gettempdir()` and `uuid.uuid4()` are environment and randomness. They are parameters of `OutputTemplate`. `str(uuid.uuid4())` always has 36 characters, so the id always has 8. The model accepts any text and follows Python slicing when the text is shorter.
- `JoinPath` models POSIX `os.path.join` only. Windows path joining (drive letters, `\`) is not modelled.
- The other `ydl_opts` entries (`restrictfilenames`, `quiet`, `noplaylist`) are fixed values passed to yt-dlp. They carry no logic.
- Logging calls carry no behaviour to verify.
- The resolution is modelled as a string. The HTTP handler reads it from an untyped JSON dict (backend/main.py:49-52), so it can be another JSON value. A number or a boolean misses both tables and gets the default. A non-empty list or object passes the `not resolution` guard, then makes `MERGE_FORMATS.get` or `SINGLE_FILE_FORMATS.get` (backend/downloader/ytdlp_service.py:59 and 63) raise `TypeError` because it is unhashable. backend/main.py:74-76 reports that as a 400. This error path is not modelled.
- backend/main.py is HTTP and filesystem plumbing: routing, CORS, background cleanup with `os.remove`, and the missing-parameter 400. `download` raises a 500 when the output file is missing (backend/main.py:60-62). The raise is inside the `try`, so `except Exception` turns it into a 400 (backend/main.py:74-76). None of this is modelled.
