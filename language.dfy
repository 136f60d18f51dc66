/**
 * `_get_valid_language`: checking a requested language against what the
 * loaded model advertises, with a fall-back to its first language.
 */
module Language {
  import opened Wrappers

  /**
   * The model's `languages` attribute, by shape: a list, a dict (its keys in
   * insertion order), or anything else, including a missing attribute.
   */
  datatype Langs =
    | Absent
    | Seq(items: seq<string>)
    | Keys(keys: seq<string>)

  /** The languages the collection advertises, in iteration order (`list(available_langs)`). */
  function Advertised(langs: Langs): seq<string>
  {
    match langs
    case Absent => []
    case Seq(items) => items
    case Keys(keys) => keys
  }

  /**
   * The effective language. A member of the collection is kept; any other
   * request falls back to the collection's first element, which raises
   * IndexError on an empty collection; without a collection the request
   * passes through.
   */
  function ResolveLanguage(langs: Langs, requested: string): (r: Result<string, Error>)
    // the request is returned unchanged exactly when there is no collection or it is a member
    ensures r == Ok(requested) <==> langs.Absent? || requested in Advertised(langs)
    // resolution fails exactly on an exposed, empty collection, and then with IndexError
    ensures r.Err? <==> !langs.Absent? && Advertised(langs) == []
    ensures r.Err? ==> r.error == IndexError
    // with a non-empty collection the result is always one of its languages
    ensures r.Ok? && !langs.Absent? ==> r.value in Advertised(langs)
    // a non-member falls back to the first advertised language
    ensures r.Ok? && r.value != requested ==> r.value == Advertised(langs)[0]
  {
    if langs.Absent? then Ok(requested)
    else
      var available := Advertised(langs);
      if requested in available then Ok(requested)
      else if available == [] then Err(IndexError)
      else Ok(available[0])
  }

  /** Resolving an already resolved language changes nothing. */
  lemma ResolveIdempotent(langs: Langs, requested: string)
    requires ResolveLanguage(langs, requested).Ok?
    ensures ResolveLanguage(langs, ResolveLanguage(langs, requested).value) == ResolveLanguage(langs, requested)
  {
  }

  /** A model advertising ["en", "hi"] maps "fr" to "en" and keeps "hi". */
  lemma ResolveExamples()
    ensures ResolveLanguage(Seq(["en", "hi"]), "fr") == Ok("en")
    ensures ResolveLanguage(Seq(["en", "hi"]), "hi") == Ok("hi")
    ensures ResolveLanguage(Keys([]), "en") == Err(IndexError)
    ensures ResolveLanguage(Absent, "xx") == Ok("xx")
  {
    assert "fr" !in ["en", "hi"] by {
      assert "fr" != "en" by { assert "fr"[0] != "en"[0]; }
      assert "fr" != "hi" by { assert "fr"[0] != "hi"[0]; }
    }
  }
}
