/** `sanitize_profile_name`: the file-system-safe form of a profile name (src/main.rs). */
module Profile {
  import opened Wrappers
  import opened Text

  /** The characters a profile file name may keep: ASCII letters and digits, `-` and `_`. */
  predicate IsProfileChar(c: char) {
    IsAsciiAlphanumeric(c) || c == '-' || c == '_'
  }

  /** One character of the name: kept when allowed, `_` otherwise. */
  function SafeChar(c: char): (d: char)
    ensures IsProfileChar(d)
    ensures IsProfileChar(c) ==> d == c
    ensures !IsProfileChar(c) ==> d == '_'
  {
    if IsProfileChar(c) then c else '_'
  }

  /**
   * `sanitize_profile_name`: no name when the trimmed text is empty; otherwise
   * the trimmed text with every character outside `[A-Za-z0-9_-]` replaced by `_`.
   */
  function SanitizeProfileName(raw: string): (r: Option<string>)
    ensures r.None? <==> Trim(raw) == []
    ensures r.Some? ==> |r.value| == |Trim(raw)|
    ensures r.Some? ==> forall i :: 0 <= i < |r.value| ==> IsProfileChar(r.value[i])
    ensures r.Some? ==> forall i :: 0 <= i < |r.value| ==>
              (IsProfileChar(Trim(raw)[i]) <==> r.value[i] == Trim(raw)[i])
    ensures r.Some? ==> forall i :: 0 <= i < |r.value| && !IsProfileChar(Trim(raw)[i]) ==> r.value[i] == '_'
  {
    var trimmed := Trim(raw);
    if trimmed == [] then None
    else
      var cleaned := MapSafe(trimmed);
      if cleaned == [] then None else Some(cleaned)
  }

  /** The character map applied to the whole trimmed name. */
  function MapSafe(s: string): (r: string)
    ensures |r| == |s|
    ensures forall i :: 0 <= i < |s| ==> r[i] == SafeChar(s[i])
  {
    seq(|s|, i requires 0 <= i < |s| => SafeChar(s[i]))
  }

  /** A sanitised name is its own sanitised form. */
  lemma SanitizeIdempotent(raw: string)
    requires SanitizeProfileName(raw).Some?
    ensures SanitizeProfileName(SanitizeProfileName(raw).value) == SanitizeProfileName(raw)
  {
    var name := SanitizeProfileName(raw).value;
    assert !IsWhitespace(name[0]) && !IsWhitespace(name[|name| - 1]);
    TrimKeepsUnpadded(name);
    assert MapSafe(name) == name;
  }

  /** Blank names are refused; an inner blank becomes `_`; padding is dropped. */
  // The literals are parameters fixed by `requires`; written inline, the solver
  // expands them on every step and the proof no longer fits its resource limit.
  lemma SanitizeExamples(blank: string, padded: string)
    requires blank == " \t " && padded == "  my profile "
    ensures SanitizeProfileName(blank) == None
    ensures SanitizeProfileName(padded) == Some("my_profile")
  {
    TrimShape(blank);
    assert AllWhitespace(blank);
    var name := Trim(padded);
    PaddedName(padded);
    var cleaned := MapSafe(name);
    assert cleaned[2] == '_';
    assert cleaned == "my_profile";
  }

  // The literals are parameters fixed by `requires`; written inline, the solver
  // expands them on every step and the proof no longer fits its resource limit.
  lemma PaddedName(s: string)
    requires s == "  my profile "
    ensures Trim(s) == "my profile"
  {
    assert TrimStart(s) == TrimStart(s[1..]) == TrimStart(s[2..]) == "my profile ";
    assert TrimEnd("my profile ") == TrimEnd("my profile") == "my profile";
  }
}
