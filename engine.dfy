/**
 * The orchestration of `tts_engine.py`: the voice-profile store under
 * `voices/` (save and list) and the assembly of a synthesis request in
 * `generate_tts`. The file system is one map from path to contents; the
 * neural model is an object that advertises languages and records the
 * requests it is given.
 */
module TtsEngine {
  import opened Wrappers
  import opened Ordering
  import opened Paths
  import opened ProfileName
  import opened Language

  newtype byte = b: int | 0 <= b < 256

  type Bytes = seq<byte>

  /** `VOICES_DIR` */
  const VoicesDir: string := "voices"
  /** `OUTPUT_DIR` */
  const OutputDir: string := "generated_audios"
  /** The first entry of every voice listing: "no reference voice". */
  const DefaultVoice: string := "Default (model voice)"
  const WavSuffix: string := ".wav"

  /** `VOICES_DIR / f"{safe}.wav"` */
  function ProfilePath(safe: string): (p: string)
    // a relative identifier lands directly in `voices/`; an absolute one would escape it
    ensures safe == [] || safe[0] != '/' ==> p == (VoicesDir + "/") + (safe + WavSuffix)
    ensures safe != [] && safe[0] == '/' ==> p == safe + WavSuffix
  {
    Join(VoicesDir, safe + WavSuffix)
  }

  /** `OUTPUT_DIR / file_name` */
  function OutputPath(fileName: string): (p: string)
    // a plain relative name lands in `generated_audios/`
    ensures fileName != "" && fileName != "." && fileName[0] != '/' ==> p == OutputDir + "/" + fileName
    // an absolute name replaces the directory and "" or "." names the directory itself
    ensures fileName != [] && fileName[0] == '/' ==> p == fileName
    ensures fileName == "" || fileName == "." ==> p == OutputDir
  {
    Join(OutputDir, fileName)
  }

  /** A path that `VOICES_DIR.glob("*.wav")` yields: a direct child of `voices/` whose name ends in `.wav`. */
  predicate IsVoiceFile(p: string)
  {
    var prefix := VoicesDir + "/";
    && |prefix| <= |p|
    && p[..|prefix|] == prefix
    && '/' !in p[|prefix|..]
    && EndsWith(p[|prefix|..], WavSuffix)
  }

  /** A path the glob matches is `voices/` followed by its own name, which ends in `.wav`. */
  lemma VoiceFileIsChild(p: string)
    requires IsVoiceFile(p)
    ensures p == VoicesDir + "/" + Name(p) && EndsWith(Name(p), WavSuffix)
  {
    var prefix := VoicesDir + "/";
    assert p == prefix + p[|prefix|..];
    NameOfChild(VoicesDir, p[|prefix|..]);
  }

  /** Every direct child of `voices/` whose name ends in `.wav` is matched by the glob. */
  lemma ChildIsVoiceFile(n: string)
    requires '/' !in n && EndsWith(n, WavSuffix)
    ensures IsVoiceFile(VoicesDir + "/" + n)
  {
    var p := VoicesDir + "/" + n;
    assert p[..|VoicesDir + "/"|] == VoicesDir + "/" && p[|VoicesDir + "/"|..] == n;
  }

  /** The profile files present in the store. */
  ghost function WavPaths(files: map<string, Bytes>): set<string>
  {
    set p | p in files && IsVoiceFile(p)
  }

  /** `[p.stem for p in paths]` */
  function Stems(paths: seq<string>): (r: seq<string>)
    ensures |r| == |paths|
  {
    if paths == [] then []
    else Stems(paths[..|paths| - 1]) + [Stem(Name(paths[|paths| - 1]))]
  }

  lemma {:induction false} StemsAt(paths: seq<string>, k: nat)
    requires k < |paths|
    ensures Stems(paths)[k] == Stem(Name(paths[k]))
    decreases |paths|
  {
    if k < |paths| - 1 {
      StemsAt(paths[..|paths| - 1], k);
    }
  }

  /** What `list_saved_voices` returns for a store: the sentinel, then the stems of the sorted `.wav` paths. */
  ghost function Listing(files: map<string, Bytes>): (r: seq<string>)
    ensures r != [] && r[0] == DefaultVoice
  {
    [DefaultVoice] + Stems(SortedOf(WavPaths(files)))
  }

  /** The store after `shutil.copy(src, dst)` succeeded: `dst` holds the bytes of `src`. */
  function Copied(files: map<string, Bytes>, src: string, dst: string): (after: map<string, Bytes>)
    requires src in files
    ensures after.Keys == files.Keys + {dst}
    ensures after[dst] == files[src]
    ensures forall p :: p in files && p != dst ==> after[p] == files[p]
  {
    files[dst := files[src]]
  }

  /** One call of `tts.tts_to_file(**kwargs)`; `speakerWav` is absent when the key was not set. */
  datatype Request = Request(text: string, filePath: string, language: string, speakerWav: Option<string>)

  /**
   * The keyword arguments `generate_tts` hands to the model, or the error
   * raised before the call.
   */
  function Assemble(files: map<string, Bytes>, langs: Langs, text: string, speakerWav: Option<string>,
                    fileName: string, language: string): (r: Result<Request, Error>)
    ensures r.Err? <==> ResolveLanguage(langs, language).Err?
    ensures r.Err? ==> r.error == IndexError
    ensures r.Ok? ==> && r.value.text == text
                      && r.value.filePath == OutputPath(fileName)
                      && ResolveLanguage(langs, language) == Ok(r.value.language)
    // the reference voice is attached exactly when it was given, non-empty, and exists
    ensures r.Ok? ==> (r.value.speakerWav.Some? <==>
                       speakerWav.Some? && speakerWav.value != "" && speakerWav.value in files)
    ensures r.Ok? && r.value.speakerWav.Some? ==> r.value.speakerWav == speakerWav
  {
    match ResolveLanguage(langs, language)
    case Err(e) => Err(e)
    case Ok(lang) =>
      Ok(Request(text, OutputPath(fileName), lang,
                 if speakerWav.Some? && speakerWav.value != "" && speakerWav.value in files
                 then speakerWav else None))
  }

  /** The file system the engine reads and writes, as a map from path to contents. */
  class Disk {
    var files: map<string, Bytes>

    constructor (initial: map<string, Bytes>)
      ensures files == initial
    {
      files := initial;
    }

    /**
     * `save_voice_profile(wav_path, profile_name)`, with the eight hex digits
     * of the fresh UUID as `hexId`. Copies the sample to `voices/<safe>.wav`,
     * overwriting what was there, and returns that path.
     */
    method SaveVoiceProfile(wavPath: string, profileName: string, hexId: string) returns (r: Result<string, Error>)
      requires IsHexId(hexId)
      modifies this
      ensures var dst := ProfilePath(Sanitize(profileName, hexId));
        && (wavPath !in old(files) ==> r == Err(FileNotFound(wavPath)) && files == old(files))
        && (wavPath in old(files) && wavPath == dst ==> r == Err(SameFile(dst)) && files == old(files))
        && (wavPath in old(files) && wavPath != dst ==> r == Ok(dst) && files == Copied(old(files), wavPath, dst))
    {
      var safe := Strip(Filter(profileName));
      if safe == [] {
        safe := FallbackPrefix + hexId;
      }
      var dst := ProfilePath(safe);
      if wavPath !in files {
        return Err(FileNotFound(wavPath));
      }
      if wavPath == dst {
        return Err(SameFile(dst));
      }
      files := files[dst := files[wavPath]];
      return Ok(dst);
    }

    /** `VOICES_DIR.glob("*.wav")`: every profile file once, in directory order (unspecified). */
    method GlobVoices() returns (paths: seq<string>)
      ensures Distinct(paths)
      ensures Elements(paths) == WavPaths(files)
    {
      var pending := files.Keys;
      paths := [];
      while pending != {}
        invariant pending <= files.Keys
        invariant Distinct(paths)
        invariant Elements(paths) == set p | p in files && p !in pending && IsVoiceFile(p)
        decreases pending
      {
        var p :| p in pending;
        if IsVoiceFile(p) {
          assert p !in Elements(paths);
          assert Elements(paths + [p]) == Elements(paths) + {p};
          paths := paths + [p];
        }
        pending := pending - {p};
      }
    }

    /** `sorted(VOICES_DIR.glob("*.wav"))` */
    method SortedVoicePaths() returns (paths: seq<string>)
      ensures StrictlySorted(paths) && Elements(paths) == WavPaths(files)
    {
      var globbed := GlobVoices();
      SortIsSortedOf(globbed);
      paths := Sort(globbed);
      SortedOfListsSet(WavPaths(files));
    }

    /** `list_saved_voices()` */
    method ListSavedVoices() returns (voices: seq<string>)
      ensures voices == Listing(files)
    {
      var paths := SortedVoicePaths();
      voices := [DefaultVoice];
      for i := 0 to |paths|
        invariant voices == [DefaultVoice] + Stems(paths[..i])
      {
        assert paths[..i + 1][..i] == paths[..i];
        voices := voices + [Stem(Name(paths[i]))];
      }
      assert paths[..|paths|] == paths;
      SortedOfListsSet(WavPaths(files));
      SortedUnique(paths, SortedOf(WavPaths(files)));
    }
  }

  /** The loaded TTS model: the languages it advertises and the synthesis calls made on it. */
  class SynthesisModel {
    var languages: Langs
    var requests: seq<Request>

    constructor (languages: Langs)
      ensures this.languages == languages && requests == []
    {
      this.languages := languages;
      requests := [];
    }

    /** `tts.tts_to_file(**kwargs)`: the audio it writes is not modelled, only the request. */
    method TtsToFile(request: Request)
      modifies this`requests
      ensures requests == old(requests) + [request]
    {
      requests := requests + [request];
    }
  }

  /**
   * `generate_tts(text, speaker_wav, file_name, language)` on the loaded model
   * `tts`: resolves the language, attaches the reference voice if it exists,
   * makes exactly one synthesis call and returns the output path.
   */
  method GenerateTts(disk: Disk, tts: SynthesisModel, text: string, speakerWav: Option<string>,
                     fileName: string, language: string) returns (r: Result<string, Error>)
    modifies tts`requests
    ensures var request := Assemble(disk.files, tts.languages, text, speakerWav, fileName, language);
      && (request.Ok? ==> r == Ok(OutputPath(fileName)) && tts.requests == old(tts.requests) + [request.value])
      && (request.Err? ==> r == Err(IndexError) && tts.requests == old(tts.requests))
  {
    var outPath := OutputPath(fileName);
    var resolved := ResolveLanguage(tts.languages, language);
    if resolved.Err? {
      return Err(resolved.error);
    }
    var speaker: Option<string> := None;
    if speakerWav.Some? && speakerWav.value != "" && speakerWav.value in disk.files {
      speaker := speakerWav;
    }
    tts.TtsToFile(Request(text, outPath, resolved.value, speaker));
    return Ok(outPath);
  }
}

/** What the voice store promises across operations. */
module StoreProperties {
  import opened Wrappers
  import opened Ordering
  import opened Paths
  import opened ProfileName
  import opened TtsEngine

  /** A saved profile lives at `voices/<safe>.wav`, which the listing picks up under the stem `safe`. */
  lemma ProfilePathOfSafeName(safe: string)
    requires IsSafeName(safe)
    ensures ProfilePath(safe) == (VoicesDir + "/") + (safe + WavSuffix)
    ensures IsVoiceFile(ProfilePath(safe))
    ensures Stem(Name(ProfilePath(safe))) == safe
  {
    SafeNameIsPlain(safe);
    var n := safe + WavSuffix;
    assert '/' !in n by {
      assert forall i :: 0 <= i < |n| ==> n[i] == if i < |safe| then safe[i] else WavSuffix[i - |safe|];
    }
    var p := VoicesDir + "/" + n;
    assert p == VoicesDir + "/" + safe + WavSuffix;
    assert p[..|VoicesDir + "/"|] == VoicesDir + "/" && p[|VoicesDir + "/"|..] == n;
    assert n[|n| - |WavSuffix|..] == WavSuffix;
    NameOfChild(VoicesDir, n);
    StemOfWav(safe);
  }

  /** No saved profile can be mistaken for the "no reference voice" sentinel. */
  lemma SanitizeNeverDefault(name: string, hexId: string)
    requires IsHexId(hexId)
    ensures Sanitize(name, hexId) != DefaultVoice
  {
    SafeNameNotDefault(Sanitize(name, hexId));
  }

  lemma SafeNameNotDefault(s: string)
    requires IsSafeName(s)
    ensures s != DefaultVoice
  {
    if |s| == |DefaultVoice| {
      assert IsKept(s[7]) && !IsKept(DefaultVoice[7]);
    }
  }

  /**
   * The listing starts with the sentinel and continues with the stems of the
   * profile files in ascending order of their full paths, each file once
   * (for the count, see `ListingLength`).
   */
  lemma ListingShape(files: map<string, Bytes>)
    ensures Listing(files)[0] == DefaultVoice
    ensures StrictlySorted(SortedOf(WavPaths(files))) && Elements(SortedOf(WavPaths(files))) == WavPaths(files)
    ensures forall i :: 0 <= i < |SortedOf(WavPaths(files))| ==>
      Listing(files)[i + 1] == Stem(Name(SortedOf(WavPaths(files))[i]))
  {
    var sorted := SortedOf(WavPaths(files));
    SortedOfListsSet(WavPaths(files));
    forall i | 0 <= i < |sorted| ensures Listing(files)[i + 1] == Stem(Name(sorted[i])) {
      StemsAt(sorted, i);
    }
  }

  /** Copying onto a profile path adds exactly that path to the profile files. */
  lemma WavPathsAfterCopy(files: map<string, Bytes>, src: string, dst: string)
    requires src in files && IsVoiceFile(dst)
    ensures WavPaths(Copied(files, src, dst)) == WavPaths(files) + {dst}
  {
  }

  /** The listing has one entry per profile file, after the sentinel. */
  lemma ListingLength(files: map<string, Bytes>)
    ensures |Listing(files)| == 1 + |WavPaths(files)|
  {
    SortedOfListsSet(WavPaths(files));
  }

  lemma AddCardinality(s: set<string>, x: string)
    ensures |s + {x}| == |s| + (if x in s then 0 else 1)
  {
    if x in s {
      assert s + {x} == s;
    }
  }

  /** Every profile file shows up in the listing under its stem. */
  lemma ListedStem(files: map<string, Bytes>, p: string)
    requires p in WavPaths(files)
    ensures Stem(Name(p)) in Listing(files)[1..]
  {
    var sorted := SortedOf(WavPaths(files));
    SortedOfListsSet(WavPaths(files));
    assert p in Elements(sorted);
    var k :| 0 <= k < |sorted| && sorted[k] == p;
    StemsAt(sorted, k);
    assert Listing(files)[1..] == Stems(sorted);
  }

  /**
   * A successful save makes the profile appear in the next listing, under its
   * identifier `safe` (any result of `Sanitize`); the listing grows by one
   * unless the profile overwrote an existing file.
   */
  lemma SaveThenListed(files: map<string, Bytes>, wavPath: string, safe: string)
    requires IsSafeName(safe)
    requires wavPath in files && wavPath != ProfilePath(safe)
    ensures safe in Listing(Copied(files, wavPath, ProfilePath(safe)))[1..]
    ensures |Listing(Copied(files, wavPath, ProfilePath(safe)))|
         == |Listing(files)| + (if ProfilePath(safe) in files then 0 else 1)
  {
    var dst := ProfilePath(safe);
    var after := Copied(files, wavPath, dst);
    ProfilePathOfSafeName(safe);
    WavPathsAfterCopy(files, wavPath, dst);
    ListedStem(after, dst);
    ListingLength(after);
    ListingLength(files);
    assert dst in WavPaths(files) <==> dst in files;
    AddCardinality(WavPaths(files), dst);
  }

  /** The reference listing of a two-element set. */
  lemma SortedOfPair(x: string, y: string)
    requires Less(x, y)
    ensures SortedOf({x, y}) == [x, y]
  {
    LessIrreflexive(x);
    var expected := [x, y];
    assert Elements(expected) == {x, y};
    SortedOfListsSet({x, y});
    SortedUnique(expected, SortedOf({x, y}));
  }

  /** A store with exactly two profile files lists their stems in path order. */
  lemma ListingOfPair(files: map<string, Bytes>, x: string, y: string)
    requires Less(x, y) && WavPaths(files) == {x, y}
    ensures Listing(files) == [DefaultVoice, Stem(Name(x)), Stem(Name(y))]
  {
    SortedOfPair(x, y);
    var stems := Stems([x, y]);
    StemsAt([x, y], 0);
    StemsAt([x, y], 1);
    assert stems == [Stem(Name(x)), Stem(Name(y))];
    assert Listing(files) == [DefaultVoice] + stems;
  }

  /**
   * A store holding exactly two profiles lists them in the order of their
   * file names `<safe>.wav`.
   */
  lemma TwoProfilesListed(files: map<string, Bytes>, s: string, t: string)
    requires IsSafeName(s) && IsSafeName(t)
    requires WavPaths(files) == {ProfilePath(s), ProfilePath(t)}
    requires Less(s + WavSuffix, t + WavSuffix)
    ensures Listing(files) == [DefaultVoice, s, t]
  {
    ProfilePathOfSafeName(s);
    ProfilePathOfSafeName(t);
    LessCommonPrefix(VoicesDir + "/", s + WavSuffix, t + WavSuffix);
    ListingOfPair(files, ProfilePath(s), ProfilePath(t));
  }

  /**
   * Profiles are ordered by their file names, not their identifiers: "a-b.wav"
   * sorts before "a.wav" because '-' precedes '.', although "a" sorts before
   * "a-b"; so a store holding both lists "a-b" first.
   */
  lemma ListingOrderExample()
    ensures IsSafeName("a") && IsSafeName("a-b")
    ensures Less("a-b" + WavSuffix, "a" + WavSuffix)
    ensures Less("a", "a-b")
  {
    assert IsKept("a-b"[1]);
    LessCommonPrefix("a", "-b" + WavSuffix, WavSuffix);
    assert "a-b" + WavSuffix == "a" + ("-b" + WavSuffix);
  }

}
