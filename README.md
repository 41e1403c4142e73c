# Reference-audio inference batch, modelled in Dafny

This project models the request-building and batch-generation core of
`Ref_Audio_Selector/tool/audio_inference.py`. That is the tool that asks a
text-to-speech inference API to synthesise every text in every voice
profile and stores each clip twice: once under the text and once under the
emotion.

- **`Composer`** models `URLComposer`:
  - the configuration check `is_valid`;
  - the mode test `is_emotion`;
  - the two mutually exclusive builders `build_url_with_emotion` and `build_url_with_ref`;
  - `_append_params_to_url`, with Python dict semantics for the parameter dict (a repeated key keeps its first place and takes the last value) and `f"{None}"` rendering as `None`.
- **`Urls`**, **`Percent`** and **`Utf8`** model `safe_encode_query_params` and the parts of `urllib.parse` it relies on:
  - the split of a URL into `prefix ? query # fragment`, and its inverse;
  - `parse_qs` keeping each key's first value;
  - `quote` (safe `/`) and `quote_plus`, which escape each UTF-8 byte as `%XX`;
  - `urlencode`.

  The code quotes each value at line 69 and then `urlencode` quotes it again at line 72. So a server that decodes the query once reads `quote(v)`, not `v`; only a second decoding gives `v` back (`Urls.SafeEncodeDecodesOnce`, `Urls.SafeEncodeDecodesTwice`).
- **`Partition`** models `np.array_split(emotion_list, num_processes)` as a pure function on sequences.
- **`Files`** models the filesystem:
  - a `FileSystem` class whose fields (a map from path to bytes and a set of directories) change in place;
  - `Disk`, the value of that state.
- **`Worker`** models `generate_audio_files_for_emotion_group` and `inference_audio_from_api`:
  - The method `GenerateAudioFilesForEmotionGroup` runs the loop over the text × profile product on a `FileSystem`.
  - It is proved equal to the fold `Run`/`GroupRun`.
  - The lemmas state what the loop promises:
    - the skip guard;
    - one request per missing pair;
    - identical bytes written to both paths;
    - the final count;
    - a second run does nothing;
    - nothing else on the disk changes.
- **`Orchestrator`** models `generate_audio_files_parallel`. It splits the profiles and runs the group worker on each group in turn.
- **`Scenarios`** works through the run with texts `hello`/`world`, one `happy` profile, one worker and the base URL `http://x/api?`, in three cases:
  - on a fresh disk: exactly the two URLs `http://x/api?text=hello&emotion=happy` and `http://x/api?text=world&emotion=happy`, and four files;
  - when the API answers 404;
  - on a rerun over a complete disk.

These stay parameters:
- the inference API, a function from URL to response (`fetch`);
- the configured directory names (`Layout`);
- `multiprocessing.cpu_count()`.

## Model

| member | source | states |
|---|---|---|
| Composer.IsValid | Ref_Audio_Selector/tool/audio_inference.py:23-31 | fails exactly when `base_url` is None or empty, `text_param_name` is None or empty, or all three mode parameter names are None (an empty name counts as set); the first failing check, in source order, names the error |
| Composer.ModeExclusive | Ref_Audio_Selector/tool/audio_inference.py:33-47 | `build_url_with_emotion` raises its configuration error exactly when `is_emotion()` is false, and `build_url_with_ref` exactly when it is true; on a valid composer exactly one builder succeeds, the one `is_emotion()` selects |
| Composer.AppendParamsToUrl | Ref_Audio_Selector/tool/audio_inference.py:55-60 | raises (TypeError) exactly when `base_url` is None; the unencoded result always starts with `base_url` |
| Composer.QuerySplitsBack | Ref_Audio_Selector/tool/audio_inference.py:55-59 | when no name or value holds `&`, splitting the joined query at `&` gives back the `k=v` pieces, one per parameter, in insertion order |
| Composer.BuildUrlWithEmotion | Ref_Audio_Selector/tool/audio_inference.py:36-43 | raises exactly when `is_emotion()` is false (the configuration error) or the base URL is None; unencoded, the URL starts with the base URL. Its other properties are in ModeExclusive, EmotionUrlUnencoded, EmotionUrlQuery and EmotionUrlPlain |
| Composer.BuildUrlWithRef | Ref_Audio_Selector/tool/audio_inference.py:45-53 | raises exactly when `is_emotion()` is true (the configuration error) or the base URL is None; unencoded, the URL starts with the base URL. Its other properties are in ModeExclusive and RefUrlUnencoded |
| Composer.EmotionUrlUnencoded | Ref_Audio_Selector/tool/audio_inference.py:36-43 | the unencoded emotion URL is `base + sep + text_param=text&emotion_param=emotion`; if the two names are equal, the dict keeps one key holding the emotion |
| Composer.RefUrlUnencoded | Ref_Audio_Selector/tool/audio_inference.py:45-53 | with three distinct parameter names, the unencoded reference URL is `base + sep + text=..&ref_path=..&ref_text=..` in that order |
| Composer.PutAt | Ref_Audio_Selector/tool/audio_inference.py:39-42 | assigning a key in a dict literal: an existing key keeps its position and takes the new value; a new key is appended; every other entry is unchanged |
| Composer.PutDistinct | Ref_Audio_Selector/tool/audio_inference.py:48-52 | the parameter dict never holds a key twice |
| Composer.RefParamsDistinct | Ref_Audio_Selector/tool/audio_inference.py:48-52 | with distinct names, the reference dict is exactly the three pairs in literal order |
| Composer.EncodedUrlKeepsBase | Ref_Audio_Selector/tool/audio_inference.py:55-76 | when `base_url` has no `?` or `#`, the encoded URL still starts with `base_url` |
| Composer.EmotionUrlQuery | Ref_Audio_Selector/tool/audio_inference.py:36-76 | for a base URL with no `#` and at most a trailing `?`, and plain names and values (non-empty, with no `&`, `#`, `+`, `%`, tab, CR or LF, and no `=` in a name), a server parsing the encoded emotion URL once reads text and emotion as `quote(text)` and `quote(emotion)`, not as the raw values |
| Composer.EmotionUrlHashBase | Ref_Audio_Selector/tool/audio_inference.py:55-76 | for a base URL holding `#` and no `?`, the `?` and the parameters land after the `#`: the encoded URL has an empty query, so a server parsing it reads no parameter at all |
| Composer.EmotionUrlPlain | Ref_Audio_Selector/tool/audio_inference.py:36-79 | for unreserved names and values, the encoded emotion URL is the base URL without its trailing `?`, then `?text=<text>&emotion=<emotion>`; the blank piece that `?&` produced is gone |
| Composer.ParseDropsBarePiece | Ref_Audio_Selector/tool/audio_inference.py:66 | a piece with no `=` between two others is dropped when the query is parsed |
| Composer.EmotionUrlCutAtAmpersand | Ref_Audio_Selector/tool/audio_inference.py:36-79 | a text `t1&t2` (unreserved parts) is written raw into the query and cut at the `&`: its encoded URL equals the one for `t1` alone, so `t2` never reaches the server |
| Composer.SafeEncodeUnreservedPair | Ref_Audio_Selector/tool/audio_inference.py:63-79 | a query of two unreserved pairs, with or without a leading `&`, comes back from `safe_encode_query_params` as the two pairs alone |
| Urls.UrlSplit | Ref_Audio_Selector/tool/audio_inference.py:65 | the prefix holds no `?` or `#`, and the query holds no `#` |
| Urls.SplitUnsplit | Ref_Audio_Selector/tool/audio_inference.py:65-76 | splitting an unsplit URL gives back its prefix, query and fragment |
| Urls.UnsplitSplit | Ref_Audio_Selector/tool/audio_inference.py:65-76 | unsplitting a split URL gives the URL back exactly when neither the first `#` nor the first `?` before it is followed by an empty component (`urlunparse` drops those markers) |
| Urls.SafeEncodeQueryParams | Ref_Audio_Selector/tool/audio_inference.py:63-79 | the URL's part before its first `?` or `#` is kept as a prefix of the result. What the rebuilt query holds is in SafeEncodeDecodesOnce and SafeEncodeDecodesTwice; that prefix and fragment are unchanged is in SafeEncodeKeepsPrefixAndFragment |
| Urls.ParsePiecesNonBlank | Ref_Audio_Selector/tool/audio_inference.py:66 | `parse_qs` never yields an empty value (blank values are dropped) |
| Urls.FirstValues | Ref_Audio_Selector/tool/audio_inference.py:66-69 | the dict built from `parse_qs(...)[k][0]` has each key once and no more entries than the query has pieces |
| Urls.FirstValuesLookup | Ref_Audio_Selector/tool/audio_inference.py:66-69 | each key of that dict maps to the first value the key has in the query |
| Urls.FirstValuesSubset | Ref_Audio_Selector/tool/audio_inference.py:66-69 | every entry of that dict is a pair of the query |
| Urls.ParseUrlEncode | Ref_Audio_Selector/tool/audio_inference.py:72 | `parse_qsl(urlencode(pairs)) == pairs` when no value is empty |
| Urls.UrlEncodeNoHash | Ref_Audio_Selector/tool/audio_inference.py:72-76 | the rebuilt query never contains `#`, so it cannot swallow the fragment |
| Urls.SafeEncodeKeepsPrefixAndFragment | Ref_Audio_Selector/tool/audio_inference.py:63-76 | only the query component is replaced: the prefix before the first `?` or `#` (scheme, host and path) and the fragment, as the model splits them, are unchanged |
| Urls.SafeEncodeKeepsHead | Ref_Audio_Selector/tool/audio_inference.py:63-76 | any part of the URL before its first `?` or `#` is still a prefix of the result |
| Urls.SafeEncodeDecodesOnce | Ref_Audio_Selector/tool/audio_inference.py:63-76 | parsing the new query gives, in order, each key with `quote` of its first value: one decoding undoes only `urlencode` |
| Urls.SafeEncodeDecodesTwice | Ref_Audio_Selector/tool/audio_inference.py:63-76 | decoding each value of the new query once more gives back the key's first original value |
| Percent.QuoteWith | Ref_Audio_Selector/tool/audio_inference.py:69 | every emitted character is always-safe, `%`, a hex digit, a safe character or (for `quote_plus`) `+`; the empty string is the only one quoted to empty |
| Percent.QuoteOmits | Ref_Audio_Selector/tool/audio_inference.py:69-72 | a quoted string contains no `&`, `=` or `#` |
| Percent.QuoteUnreserved | Ref_Audio_Selector/tool/audio_inference.py:69-72 | unreserved text is quoted to itself |
| Percent.QuotedBytes | Ref_Audio_Selector/tool/audio_inference.py:69-72 | unquoting a quoted string to bytes gives its UTF-8 encoding |
| Percent.QuoteRoundTrip | Ref_Audio_Selector/tool/audio_inference.py:69-72 | `unquote_plus(quote_with(s)) == s`, for `quote` and `quote_plus` |
| Percent.UnquoteQuote | Ref_Audio_Selector/tool/audio_inference.py:69 | `quote(s)` holds no `+`, and `unquote(quote(s)) == s` |
| Percent.QuoteInjective | Ref_Audio_Selector/tool/audio_inference.py:69-72 | different strings are quoted differently |
| Percent.EscapeToBytes | Ref_Audio_Selector/tool/audio_inference.py:69 | unquoting the `%XX` escapes of some bytes gives those bytes back |
| Utf8.DecodeEncode | Ref_Audio_Selector/tool/audio_inference.py:69 | decoding the UTF-8 encoding of a string gives the string back |
| Utf8.EncodeAppend | Ref_Audio_Selector/tool/audio_inference.py:69 | UTF-8 encoding distributes over concatenation |
| Partition.ArraySplit | Ref_Audio_Selector/tool/audio_inference.py:87 | exactly `num_processes` groups |
| Partition.TotalClosed | Ref_Audio_Selector/tool/audio_inference.py:87 | the first `k` groups hold `k*q + min(k, r)` items |
| Partition.ArraySplitSlices | Ref_Audio_Selector/tool/audio_inference.py:87 | group `i` is the contiguous slice that starts at `i*(n/w) + min(i, n%w)`, with `n/w + 1` items when `i < n%w` and `n/w` otherwise |
| Partition.ArraySplitBalanced | Ref_Audio_Selector/tool/audio_inference.py:87 | any two groups differ in size by at most one |
| Partition.ArraySplitTotal | Ref_Audio_Selector/tool/audio_inference.py:87 | the group sizes sum to the length of the list |
| Partition.ArraySplitConcat | Ref_Audio_Selector/tool/audio_inference.py:87 | concatenating the groups in order gives back the list |
| Partition.ConcatMembers | Ref_Audio_Selector/tool/audio_inference.py:87 | a profile is in some group exactly when it is in the list |
| Partition.ArraySplitOne | Ref_Audio_Selector/tool/audio_inference.py:87 | one section is the whole list |
| Files.FileSystem.MakeDirs | Ref_Audio_Selector/tool/audio_inference.py:100-124 | `os.makedirs(p, exist_ok=True)` adds directory `p` and changes nothing else |
| Files.FileSystem.PathExists | Ref_Audio_Selector/tool/audio_inference.py:128 | `os.path.exists` is true for a file or a directory |
| Files.FileSystem.WriteBytes | Ref_Audio_Selector/tool/audio_inference.py:141-144 | writing in mode `wb` sets that one file's contents and changes nothing else |
| Worker.InferenceAudioFromApi | Ref_Audio_Selector/tool/audio_inference.py:155-164 | returns the body exactly on status 200; any other status raises with that status; a request that fails raises as well |
| Worker.RequestUrl | Ref_Audio_Selector/tool/audio_inference.py:133-136 | emotion mode builds the emotion URL; reference mode reads `ref_path`, then `ref_text` (a missing key raises `KeyError`) and builds the reference URL; both are encoded |
| Worker.Product | Ref_Audio_Selector/tool/audio_inference.py:112 | every pair is a text from the text list and a profile from the profile list |
| Worker.ProductAt | Ref_Audio_Selector/tool/audio_inference.py:112 | `itertools.product` order: the pair at `a*|profiles| + b` is `(texts[a], profiles[b])`, texts outer |
| Worker.ProductLength | Ref_Audio_Selector/tool/audio_inference.py:108-112 | there are `len(text_list) * len(emotion_list)` pairs |
| Worker.GenerateAudioFilesForEmotionGroup | Ref_Audio_Selector/tool/audio_inference.py:96-147 | the loop leaves the filesystem, the requested URLs and the outcome (final count or exception) exactly as `GroupRun` gives them from the starting disk |
| Worker.GeneratePair | Ref_Audio_Selector/tool/audio_inference.py:117-147 | one iteration (read the `emotion` key, make both directories, check both files, skip or request and write) computes exactly `Step` |
| Worker.RequestAndWrite | Ref_Audio_Selector/tool/audio_inference.py:133-147 | building the URL, requesting and writing both files computes exactly `Request` |
| Worker.RunFailureSticks | Ref_Audio_Selector/tool/audio_inference.py:114-147 | once an iteration raises, the remaining pairs change nothing |
| Worker.Step | Ref_Audio_Selector/tool/audio_inference.py:117-147 | one iteration removes no file or directory, requests at most one URL and keeps the earlier ones, counts its pair when it succeeds, and does nothing once an exception was raised. Skip, request and frame are in StepSkips, StepFetches and StepFrame |
| Worker.StepSkips | Ref_Audio_Selector/tool/audio_inference.py:127-131 | a pair whose two files both exist is counted with no request and no write |
| Worker.StepFetchWrites | Ref_Audio_Selector/tool/audio_inference.py:127-147 | each pair requests at most once; a pair with no request, and a pair that raises, writes no file; a requested URL is the pair's URL, and the iteration succeeds exactly when that URL answers 200 |
| Worker.StepFetches | Ref_Audio_Selector/tool/audio_inference.py:119-147 | a pair with either file missing after its two directories are made, a half-written pair included, requests its URL once; on 200 the same body goes to both paths and the count rises by one; otherwise it raises before either write |
| Worker.StepFetchesDisk | Ref_Audio_Selector/tool/audio_inference.py:119-147 | the same, on the disk: on 200 the pair's two directories are added and both files hold the body; otherwise no file changes and the exception is kept |
| Worker.DirsKeepMissing | Ref_Audio_Selector/tool/audio_inference.py:119-128 | making a pair's two directories does not make a missing file of the pair exist, unless one file is the other's directory |
| Worker.RequestOutcome | Ref_Audio_Selector/tool/audio_inference.py:133-147 | the request part of an iteration: one URL; on 200 both files get the body; otherwise the disk is unchanged and the exception is kept |
| Worker.StepGrows | Ref_Audio_Selector/tool/audio_inference.py:119-144 | an iteration never removes a file or directory |
| Worker.RunGrows | Ref_Audio_Selector/tool/audio_inference.py:114-147 | the loop never removes a file or directory |
| Worker.RunCount | Ref_Audio_Selector/tool/audio_inference.py:108-147 | the requested URLs only grow, with at most one per pair; with no exception the counter rises by exactly the number of pairs |
| Worker.StepFrame | Ref_Audio_Selector/tool/audio_inference.py:117-147 | an iteration touches no path except its pair's two directories and two files |
| Worker.RunFrame | Ref_Audio_Selector/tool/audio_inference.py:114-147 | the loop touches no path except its pairs' directories and files |
| Worker.RunCovers | Ref_Audio_Selector/tool/audio_inference.py:114-147 | with no exception, both files of every pair exist afterwards |
| Worker.RunIdle | Ref_Audio_Selector/tool/audio_inference.py:127-131 | over pairs whose two directories and two files all exist, and whose profile has an `emotion` key, the loop only counts |
| Worker.SetupAbsent | Ref_Audio_Selector/tool/audio_inference.py:99-106 | creating the three top directories does not make a longer, missing path exist |
| Worker.GroupCount | Ref_Audio_Selector/tool/audio_inference.py:108-147 | with no exception, the counter ends at `len(text_list) * len(emotion_list)`, after at most that many requests |
| Worker.GroupCovers | Ref_Audio_Selector/tool/audio_inference.py:96-147 | with no exception, both files of every (text, profile) pair exist, and nothing from before is lost |
| Worker.GroupRerunIdle | Ref_Audio_Selector/tool/audio_inference.py:96-131 | a second run over the disk a successful run left makes no request, changes nothing and counts every pair |
| Worker.GroupFrame | Ref_Audio_Selector/tool/audio_inference.py:96-147 | any path other than the group's directories and files is left exactly as it was |
| Orchestrator.Parallel | Ref_Audio_Selector/tool/audio_inference.py:82-93 | a non-positive section count raises before any request or write; the job succeeds only with a positive count. Coverage, frame and rerun are in ParallelCovers, ParallelFrame and ParallelRerunIdle |
| Orchestrator.GenerateAudioFilesParallel | Ref_Audio_Selector/tool/audio_inference.py:82-93 | the filesystem, the requested URLs and the outcome are exactly those of `Parallel`: a non-positive section count raises before any work; otherwise the split groups run in order |
| Orchestrator.RunEmotionGroups | Ref_Audio_Selector/tool/audio_inference.py:89-93 | waiting for each group in turn computes exactly `RunGroups`; the first exception is re-raised |
| Orchestrator.GroupsFailureSticks | Ref_Audio_Selector/tool/audio_inference.py:92-93 | after a group raises, the later groups change nothing |
| Orchestrator.OneSection | Ref_Audio_Selector/tool/audio_inference.py:82-93 | with one section, the job is the group worker over the whole profile list |
| Orchestrator.RunGroupsCovers | Ref_Audio_Selector/tool/audio_inference.py:89-93 | with no exception, every pair of every group is done on the final disk |
| Orchestrator.RunGroupsIdle | Ref_Audio_Selector/tool/audio_inference.py:89-93 | groups whose pairs are all done make no request and change nothing |
| Orchestrator.ParallelCovers | Ref_Audio_Selector/tool/audio_inference.py:82-93 | with no exception, both files exist for every text and every profile of the whole list |
| Orchestrator.ParallelRerunIdle | Ref_Audio_Selector/tool/audio_inference.py:82-93 | a second job over the disk a successful job left makes no request and changes nothing |
| Orchestrator.RunGroupsFrame | Ref_Audio_Selector/tool/audio_inference.py:89-93 | no path outside the groups' directories and files is touched |
| Orchestrator.ParallelFrame | Ref_Audio_Selector/tool/audio_inference.py:82-93 | no path outside the job's directories and files is touched |
| Scenarios.HappyUrl | Ref_Audio_Selector/tool/audio_inference.py:36-79 | with base `http://x/api?`, the request URL for an unreserved text is `http://x/api?text=<text>&emotion=happy` |
| Scenarios.ScenarioFirstStep | Ref_Audio_Selector/tool/audio_inference.py:114-147 | the first pair requests `http://x/api?text=hello&emotion=happy`; on 200 it writes the body to both paths; otherwise it raises and writes nothing |
| Scenarios.ScenarioAmpersand | Ref_Audio_Selector/tool/audio_inference.py:36-79 | the request URL for the text `R&B` is `http://x/api?text=R&emotion=happy`, the same as for `R` |
| Scenarios.ScenarioFreshRun | Ref_Audio_Selector/tool/audio_inference.py:82-147 | on a fresh disk with the API answering 200: exactly the two URLs in order, and four files, each pair's body under both indices |
| Scenarios.ScenarioNotFound | Ref_Audio_Selector/tool/audio_inference.py:82-164 | a 404 on the first request raises that status, with no second request and no file written |
| Scenarios.ScenarioRerun | Ref_Audio_Selector/tool/audio_inference.py:82-131 | with all four files present: no request and no file changed |

## Left out

- The HTTP layer: `requests.get(url, stream=True)` is the parameter `fetch`, a function from URL to a status and body, or to no reply. Streaming, timeouts and the exception message text are not modelled.
- Orchestrator.GenerateAudioFilesParallel: the process pool is replaced by running the groups one after another, and the first exception stops the job. In the source the other groups' processes keep running while the exception propagates, so the files they write are not modelled. `max_workers` is not modelled either.
- Orchestrator.Sections: `multiprocessing.cpu_count()` is the parameter `cpuCount`.
- `np.array_split` on object arrays: modelled as a split of `seq<Profile>`. The model raises `BadSectionCount` for a section count that is not positive.
- Timing (`time.perf_counter`), `os.getpid` and every logging call. The progress counter is returned instead of logged, and so are the URLs requested.
- Files.FileSystem.MakeDirs: `os.makedirs` adds only the named directory, not its ancestors. OS errors (permissions, a file in the way, a full disk) are not modelled.
- Files.FileSystem.WriteBytes: a write never fails. In the source a text holding `/` makes the `open` at line 143 raise `FileNotFoundError`, because the directory under the emotion is not made for it, after line 141 has already written the text-indexed file. Such texts are not modelled as failing.
- `os.path.abspath` is not modelled, so the output directory is used as given. `os.path.join` is `a + "/" + b` for a relative, non-empty `b`.
- The configuration module that supplies the two aggregation directory names is not part of this model. Those names are the `Layout` parameter.
- `Ref_Audio_Selector/tool/asr/funasr_asr_multi_level_dir.py` is not part of this model. It wraps a speech-recognition model and walks directories.
- Urls.UrlSplit: `urlparse` is reduced to `prefix ? query # fragment`. Scheme, netloc, path and `;` parameters stay together in the prefix. This matches the code, which replaces only the query. `urlunparse`'s other normalisations (for example of an empty netloc) are not modelled. Nor are `urlparse`'s own: it deletes tab, CR and LF anywhere in the URL, strips leading C0 controls and spaces, and lowercases the scheme. Urls.SafeEncodeKeepsPrefixAndFragment, Urls.SafeEncodeKeepsHead, Composer.EncodedUrlKeepsBase and Composer.EmotionUrlPlain therefore describe the library only for URLs with a lower-case scheme and none of those characters.
- Urls.ParseQsl: only the `&` separator is modelled. `parse_qs` options (`keep_blank_values`, `strict_parsing`, `max_num_fields`) keep their defaults.
- Utf8.Decode: a malformed UTF-8 sequence decodes to one replacement character per bad byte. This is simpler than CPython's maximal-subpart rule. Every lemma that matters here decodes well-formed UTF-8.
- Percent.QuoteWith: the always-safe set is letters, digits and `_.-~`, plus `/` for `quote`.
- Composer.EmotionUrlQuery: holds only for a base URL with no `#` and at most a trailing `?`, and for plain names and values. A base URL holding `#` sends every parameter in the fragment, so the server reads none (Composer.EmotionUrlHashBase). A base URL with a `?` inside its path or query is not covered. The values are interpolated raw at line 58, so a value holding `&`, `#`, `+`, `%XX`, tab, CR or LF, an empty value, or a name holding `=` does not reach the server intact: a text `R&B` is sent as `text=R` (Composer.EmotionUrlCutAtAmpersand, Scenarios.ScenarioAmpersand).
- Composer.AppendParamsToUrl: with a `None` base URL and an empty parameter dict, the source returns `None` (or passes `None` to `safe_encode_query_params`), while the model raises `NoneBaseUrl`. The builders always pass a non-empty dict, and there both raise.
