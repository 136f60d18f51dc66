# Voice-cloning TTS engine: profile store, language resolution, request assembly

This project models the orchestration layer of a local voice-cloning
text-to-speech front end and proves properties of the model. That layer is
`tts_engine.py`. It has four parts:

- **Profile-name sanitisation** (`ProfileName`). A user-chosen profile name
  keeps only alphanumerics, `_` and `-`. It is then stripped of `_`/`-` at
  both ends. If that leaves nothing, it becomes `profile_` plus eight hex
  digits of a fresh UUID.
- **The voice-profile store** (`TtsEngine.Disk`). The file system is one map
  from path to contents.
  - `SaveVoiceProfile` copies a sample to `voices/<safe>.wav` and returns
    that path.
  - `ListSavedVoices` globs `voices/*.wav`, sorts the paths, and returns the
    sentinel `"Default (model voice)"` followed by the stems.
  - The glob order is unspecified. `GlobVoices` therefore only promises each
    profile file once, and the listing is proved equal to a reference
    listing (`Listing`, built on `Ordering.SortedOf`) whatever that order is.
- **Language resolution** (`Language`). The model's `languages` attribute is
  absent, a list, or a dict.
  - A member of the collection is kept.
  - A non-member falls back to the collection's first element.
  - The fallback raises `IndexError` on an empty collection.
  - Without a collection, the request passes through.
- **Request assembly** (`TtsEngine.Assemble`, `TtsEngine.GenerateTts`). The
  output path is `generated_audios/<file_name>`. The request carries the
  resolved language. The reference voice is attached only when it was given,
  is non-empty, and exists. The synthesis model (`SynthesisModel`) is an
  object that advertises languages and records every request handed to
  `TtsToFile`.

Supporting modules:

- `Paths`: the `pathlib` operations used (`/`, `.name`, `.stem`).
- `Ordering`: Python's string order and `sorted`, with a uniqueness theorem
  for ascending listings. The source sorts `PosixPath` objects, which compare
  by their lists of path components. For paths in one directory that order
  is the order of the full path strings, and `Ordering.LessCommonPrefix`
  reduces it to the order of the file names.
- `StoreProperties`: lemmas that span several operations.

Two behaviours of the code are worth stating plainly:

- `save_voice_profile` returns the path `voices/<safe>.wav`, not the bare
  identifier.
- Language resolution can fail: `list(available_langs)[0]` raises
  `IndexError` on an empty collection.

## Model

| member | source | states |
|---|---|---|
| ProfileName.Filter | tts_engine.py:56 | the filtered name is no longer than the input and consists only of alphanumerics, `_` and `-` |
| ProfileName.FilterConcat | tts_engine.py:56 | filtering distributes over concatenation, so kept characters stay in their original order |
| ProfileName.FilterCounts | tts_engine.py:56 | every occurrence of a kept character survives the filter and every other character is dropped entirely |
| ProfileName.FilterKeepsKept | tts_engine.py:56 | a string made only of kept characters passes the filter unchanged |
| ProfileName.StripLeading | tts_engine.py:56 | the result is a suffix of the input, everything dropped is a separator, and it does not start with a separator |
| ProfileName.StripTrailing | tts_engine.py:56 | the result is a prefix of the input, everything dropped is a separator, and it does not end with a separator |
| ProfileName.Strip | tts_engine.py:56 | `strip("_-")` returns a contiguous slice with only separators outside it, and a non-empty result has no separator at either end |
| ProfileName.Sanitize | tts_engine.py:56-58 | the identifier is never empty, contains only alphanumerics, `_` and `-`, and neither starts nor ends with `_` or `-` |
| ProfileName.FallbackIsSafe | tts_engine.py:58 | `profile_` plus eight hex digits has the safe shape |
| ProfileName.SanitizeIsTrimmedFilter | tts_engine.py:56-58 | the fallback is used exactly when the filtered name is all separators; otherwise the identifier is a contiguous slice of the filtered name with only separators cut off |
| ProfileName.SanitizeIgnoresDropped | tts_engine.py:56 | appending a character the filter drops does not change the identifier, so such names collide |
| ProfileName.SanitizeFixesSafe | tts_engine.py:56-58 | a name that already has the safe shape is its own identifier |
| ProfileName.SanitizeIdempotent | tts_engine.py:56-58 | sanitising an identifier again returns it unchanged, whatever UUID the second call draws |
| ProfileName.SafeNameIsPlain | tts_engine.py:59 | an identifier contains no `/` and no `.`, so `voices/<safe>.wav` is a direct child with a single suffix |
| Paths.Join | tts_engine.py:59 | `Path(dir) / name`: an absolute name replaces the directory; otherwise the result starts with the directory; `""` and `"."` add nothing; any other result ends with the name |
| Paths.LastIndex | tts_engine.py:49 | the index of the last occurrence of a character, or -1 exactly when it does not occur |
| Paths.Name | tts_engine.py:49 | a path's name contains no `/` and ends the path |
| Paths.NameIsLastComponent | tts_engine.py:49 | the name is the whole last component: it is all of the path or directly follows a `/`, so together with `Paths.Name` it is exactly the text after the last `/` |
| Paths.NameOfChild | tts_engine.py:49 | the name of `dir/n` is `n` when `n` has no `/` |
| Paths.StemCharacterised | tts_engine.py:49 | `Paths.Stem` (`.stem`) leaves the name unchanged exactly when it is empty, has no dot after its first character, or ends with a dot; otherwise it cuts at the last dot, keeping something before it and leaving something after it |
| Paths.StemOfWav | tts_engine.py:49 | the stem of `<s>.wav` is `s` for non-empty `s` |
| Ordering.LessIrreflexive | tts_engine.py:48 | no string sorts before itself |
| Ordering.LessTransitive | tts_engine.py:48 | string order is transitive |
| Ordering.LessTotal | tts_engine.py:48 | of two distinct strings one sorts before the other |
| Ordering.LessAsymmetric | tts_engine.py:48 | string order is asymmetric |
| Ordering.LessCommonPrefix | tts_engine.py:48 | a shared directory prefix does not change the order, so paths of one directory sort by file name |
| Ordering.Insert | tts_engine.py:48 | insertion adds exactly one occurrence of the element |
| Ordering.Sort | tts_engine.py:48 | `sorted` returns a permutation of its input |
| Ordering.InsertSorted | tts_engine.py:48 | inserting a new element into an ascending list keeps it ascending |
| Ordering.SortSorted | tts_engine.py:48 | `sorted` of a duplicate-free list is strictly ascending |
| Ordering.MinExists | tts_engine.py:48 | every non-empty finite set of strings has a least element |
| Ordering.ElementsEmpty | tts_engine.py:48 | a list has no elements exactly when it is empty |
| Ordering.SortedOfListsSet | tts_engine.py:48 | the reference listing of a set is strictly ascending and lists exactly the set, once each |
| Ordering.SortedUnique | tts_engine.py:48 | two ascending duplicate-free listings of the same elements are equal |
| Ordering.SortIsSortedOf | tts_engine.py:48 | `sorted` of any duplicate-free enumeration of a set is that set's reference listing, so glob order does not matter |
| Language.ResolveLanguage | tts_engine.py:63-74 | the request is kept iff there is no collection or it is a member; resolution fails with IndexError iff the collection is exposed and empty; a non-empty collection always yields one of its members, and any change is to the first advertised language |
| Language.Advertised | tts_engine.py:71 | definition of `list(available_langs)`: a list's items, a dict's keys in insertion order, nothing without a collection; how resolution uses it is proved in the ensures of `Language.ResolveLanguage` |
| Language.ResolveIdempotent | tts_engine.py:63-74 | resolving a resolved language again gives the same result |
| Language.ResolveExamples | tts_engine.py:67-74 | with `["en", "hi"]`, "fr" falls back to "en" and "hi" is kept; an empty dict fails; no collection passes "xx" through |
| TtsEngine.ProfilePath | tts_engine.py:59 | a relative identifier's profile path is `voices/<safe>.wav`; an absolute one would replace the directory |
| TtsEngine.OutputPath | tts_engine.py:81 | a plain relative file name lands at `generated_audios/<file_name>`; an absolute name replaces the directory; `""` and `"."` name the directory itself |
| TtsEngine.VoiceFileIsChild | tts_engine.py:48 | a path `TtsEngine.IsVoiceFile` accepts (the `*.wav` glob) is `voices/` followed by its own name, which ends in `.wav` |
| TtsEngine.ChildIsVoiceFile | tts_engine.py:48 | conversely, every direct child of `voices/` whose name contains no `/` and ends in `.wav` is matched |
| TtsEngine.WavPaths | tts_engine.py:48 | definition of the profile files: the store's paths accepted by `TtsEngine.IsVoiceFile`; their meaning is proved in `TtsEngine.VoiceFileIsChild` and `TtsEngine.ChildIsVoiceFile`, and `TtsEngine.Disk.GlobVoices` is proved to enumerate exactly them |
| TtsEngine.Listing | tts_engine.py:47-50 | the reference listing is never empty and starts with the sentinel `Default (model voice)` |
| TtsEngine.Stems | tts_engine.py:49 | one stem per path |
| TtsEngine.StemsAt | tts_engine.py:49 | entry k of the stems is the stem of the name of path k |
| TtsEngine.Copied | tts_engine.py:60 | after the copy the destination holds the source's bytes, it is the only key added, and every other entry is unchanged |
| TtsEngine.Assemble | tts_engine.py:81-90 | assembly fails with IndexError iff language resolution fails; otherwise the request has the given text, the path `generated_audios/<file_name>` and the resolved language, and it carries the reference voice iff that voice is given, non-empty and present in the store |
| TtsEngine.Disk.SaveVoiceProfile | tts_engine.py:52-61 | a missing sample raises FileNotFound, and a sample that already is the destination raises SameFile, both leaving the store unchanged; otherwise the store becomes the old store with `voices/<safe>.wav` mapped to the sample's bytes, and that path is returned |
| TtsEngine.Disk.GlobVoices | tts_engine.py:48 | the glob yields every profile file in the store exactly once, in some order |
| TtsEngine.Disk.SortedVoicePaths | tts_engine.py:48 | the sorted glob is strictly ascending and lists exactly the profile files |
| TtsEngine.Disk.ListSavedVoices | tts_engine.py:43-50 | the loop's result equals the reference listing: the sentinel, then the stems of the profile files in ascending path order |
| TtsEngine.SynthesisModel.TtsToFile | tts_engine.py:94 | each synthesis call appends its request to the model's record |
| TtsEngine.GenerateTts | tts_engine.py:76-95 | on success exactly one request, the assembled one, reaches the model, and the output path is returned; when language resolution fails, IndexError is raised and no request is made |
| StoreProperties.ProfilePathOfSafeName | tts_engine.py:59-61 | a safe identifier's profile path is `voices/<safe>.wav`, is picked up by the glob, and lists under the stem `safe` |
| StoreProperties.SanitizeNeverDefault | tts_engine.py:47-58 | no identifier equals the sentinel `Default (model voice)`, because a space is never kept |
| StoreProperties.ListingShape | tts_engine.py:47-50 | entry 0 of the listing is the sentinel, and entry i+1 is the stem of the i-th profile path in strictly ascending path order, covering every profile file |
| StoreProperties.ListingLength | tts_engine.py:47-49 | the listing has one more entry than there are profile files |
| StoreProperties.WavPathsAfterCopy | tts_engine.py:59-60 | copying onto a profile path adds exactly that path to the profile files |
| StoreProperties.ListedStem | tts_engine.py:48-49 | every profile file appears in the listing under its stem |
| StoreProperties.SaveThenListed | tts_engine.py:43-61 | after a successful save under any safe identifier (every result of `Sanitize` is one), the identifier appears in the listing, which grows by one unless an existing profile was overwritten |
| StoreProperties.SortedOfPair | tts_engine.py:48 | two strings sort as a pair in their order |
| StoreProperties.ListingOfPair | tts_engine.py:47-50 | a store with exactly two profile files lists their stems in path order |
| StoreProperties.TwoProfilesListed | tts_engine.py:47-50 | a store holding exactly two profiles lists them in the order of their file names `<safe>.wav` |
| StoreProperties.ListingOrderExample | tts_engine.py:48-49 | "a-b.wav" sorts before "a.wav" although "a" sorts before "a-b", so listing order follows file names, not stems |

## Left out

- ProfileName.IsAlnum: `str.isalnum` is Unicode-aware, while the model accepts only ASCII letters and digits. Names with non-ASCII letters or digits therefore sanitise differently.
- The UUID (line 58) is not generated. Its eight hex digits are the parameter `hexId`, required to be eight lower-case hex digits.
- Paths.Stem: this is `PurePath.stem` as in CPython up to 3.13, where a suffix starts at the last `.` only when that dot is neither the first nor the last character. Python 3.14 also counts a trailing dot as a suffix, so names ending in `.` (and names such as `..wav`) get a different stem there. `save_voice_profile` never writes such names.
- Paths are compared as plain strings, with no normalisation. `Paths.Join` covers a single component, an absolute name, `""` and `"."`. Collapsing `//`, `./`, trailing slashes, symlinks and case-insensitive file systems is not modelled.
- TtsEngine.Disk.GlobVoices: directories named `*.wav` and unreadable directories are not modelled, because the store holds only files. Matching is case-sensitive, as on POSIX.
- TtsEngine.Disk.SaveVoiceProfile: only the missing-source and same-file errors of `shutil.copy` are modelled. Permission errors, a destination that is a directory, and partial copies are not. File metadata is not modelled.
- TtsEngine.Assemble: `os.path.exists` holds here only for files in the store, not for directories.
- `_gpu_available` and `_get_tts` (lines 20-41) are left out. They probe hardware and load a cached neural model. The loaded model is a `SynthesisModel` passed in by the caller.
- Audio synthesis itself is left out. `TtsToFile` records the request, writes no output file, and never fails.
- The `print` diagnostics (lines 40, 72, 89, 92) are left out, as is the directory creation at import (lines 12-15).
- Default arguments (`file_name="output.wav"`, `language="en"`) are not modelled. Callers pass every argument.
- Language.Langs: `Absent` stands for both a missing attribute and an attribute of another type.
- The `__main__` demo (lines 97-99) and the commented-out older versions (lines 110-218) are left out, because they are not live code.
- `app.py`, the Streamlit user interface, is not part of this model.
