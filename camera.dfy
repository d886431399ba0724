/** `determineCameraType` (cmd/shared.go): decides whether a make and model name a phone or a
    camera, by case-insensitive keyword tables tried in a fixed order and then a case-sensitive
    model-number pattern. */
module Camera {
  import opened Text

  const PhoneManufacturers: seq<string> :=
    ["apple", "samsung", "huawei", "xiaomi", "oppo", "vivo", "oneplus", "lg",
     "motorola", "nokia", "sony", "htc", "google", "asus", "lenovo", "alcatel",
     "zte", "blackberry", "meizu", "realme", "hmd global"]

  const PhoneKeywords: seq<string> :=
    ["iphone", "android", "smartphone", "phone", "galaxy", "pixel", "xperia",
     "redmi", "poco", "mi ", "honor"]

  const CameraManufacturers: seq<string> :=
    ["canon", "nikon", "sony", "fujifilm", "olympus", "panasonic", "leica",
     "hasselblad", "pentax", "kodak"]

  /** Some word of the table occurs in `s`. */
  predicate ContainsAny(s: string, words: seq<string>) {
    exists i :: 0 <= i < |words| && Contains(s, words[i])
  }

  /** `prefix` followed by four ASCII digits, at the start of `model`. */
  predicate PrefixAndFourDigits(model: string, prefix: string) {
    |prefix| + 4 <= |model| && HasPrefix(model, prefix) && AllDigits(model[|prefix|..|prefix| + 4])
  }

  /** The pattern `^(SM-|LG-|XT\d{4}|FRD-|LE\d{4}|AC\d{4})`, on the model as written. */
  predicate ModelPattern(model: string) {
    HasPrefix(model, "SM-") || HasPrefix(model, "LG-") || PrefixAndFourDigits(model, "XT") ||
    HasPrefix(model, "FRD-") || PrefixAndFourDigits(model, "LE") || PrefixAndFourDigits(model, "AC")
  }

  /** Evidence of a phone from the tables: a phone maker in the make, or a phone keyword in the
      model or the make (both lower-cased). */
  predicate PhoneEvidence(model: string, make: string) {
    ContainsAny(ToLower(make), PhoneManufacturers) ||
    ContainsAny(ToLower(model), PhoneKeywords) || ContainsAny(ToLower(make), PhoneKeywords)
  }

  /** `determineCameraType`: "phone", "camera" or "unknown". */
  function DetermineCameraType(model: string, make: string): (r: string)
    ensures r == "phone" || r == "camera" || r == "unknown"
    ensures r == "camera" ==> ContainsAny(ToLower(make), CameraManufacturers)
    ensures r == "unknown" ==> !ModelPattern(model)
  {
    if ContainsAny(ToLower(make), PhoneManufacturers) then "phone"
    else if ContainsAny(ToLower(model), PhoneKeywords) || ContainsAny(ToLower(make), PhoneKeywords) then "phone"
    else if ContainsAny(ToLower(make), CameraManufacturers) then "camera"
    else if ModelPattern(model) then "phone"
    else "unknown"
  }

  /** The promised precedence of `determineCameraType`, stated against the tables rather than the
      if-chain: table evidence of a phone wins over a camera maker, a camera maker wins over the
      model pattern, and "unknown" means nothing matched. */
  lemma CameraTypePrecedence(model: string, make: string)
    ensures PhoneEvidence(model, make) ==> DetermineCameraType(model, make) == "phone"
    ensures !PhoneEvidence(model, make) && ContainsAny(ToLower(make), CameraManufacturers) ==>
      DetermineCameraType(model, make) == "camera"
    ensures DetermineCameraType(model, make) == "unknown" <==>
      !PhoneEvidence(model, make) && !ContainsAny(ToLower(make), CameraManufacturers) && !ModelPattern(model)
  {
  }

  /** "sony" is in both maker tables; the phone table is consulted first, so a make mentioning
      Sony is always a phone and the camera table's "sony" entry never decides anything. */
  lemma SonyIsPhone(model: string, make: string)
    requires Contains(ToLower(make), "sony")
    ensures DetermineCameraType(model, make) == "phone"
  {
    assert PhoneManufacturers[10] == "sony";
  }

  /** The empty text mentions no word of a table without empty words. */
  lemma EmptyMatchesNothing(words: seq<string>)
    requires forall i :: 0 <= i < |words| ==> words[i] != ""
    ensures !ContainsAny("", words)
  {
    forall i | 0 <= i < |words| ensures !Contains("", words[i]) {
      NotContainsLonger("", words[i]);
    }
  }

  /** An empty make mentions no word of any table. */
  lemma EmptyMakeMatchesNothing()
    ensures ToLower("") == ""
    ensures !ContainsAny("", PhoneManufacturers) && !ContainsAny("", PhoneKeywords)
    ensures !ContainsAny("", CameraManufacturers)
  {
    assert ToLower("") == "";
    EmptyMatchesNothing(PhoneManufacturers);
    EmptyMatchesNothing(PhoneKeywords);
    EmptyMatchesNothing(CameraManufacturers);
  }

  /** With neither make nor model, the type is unknown. */
  lemma NothingKnownIsUnknown()
    ensures DetermineCameraType("", "") == "unknown"
  {
    EmptyMakeMatchesNothing();
  }

  /** The model pattern is matched on the model as written: a model starting "SM-" (a Samsung
      model number such as "SM-G991B") matches, its lower-case spelling does not. */
  lemma ModelPatternIsCaseSensitive(model: string)
    requires HasPrefix(model, "SM-")
    ensures ModelPattern(model) && !ModelPattern(ToLower(model))
  {
    var lower := ToLower(model);
    assert model[0] == "SM-"[0] && lower[0] == 's';
    NotPrefixAtFirst(lower, "SM-");
    NotPrefixAtFirst(lower, "LG-");
    NotPrefixAtFirst(lower, "FRD-");
    NotPrefixAtFirst(lower, "XT");
    NotPrefixAtFirst(lower, "LE");
    NotPrefixAtFirst(lower, "AC");
  }

  /** Without a make, a model that matches the pattern and mentions no phone keyword is a phone by
      the pattern alone. */
  lemma PatternAloneIsPhone(model: string)
    requires ModelPattern(model)
    requires forall i :: 0 <= i < |model| ==> KeywordFreeChar(LowerChar(model[i]))
    ensures DetermineCameraType(model, "") == "phone"
  {
    NoKeywordIn(ToLower(model));
    EmptyMakeMatchesNothing();
  }

  /** None of the characters 'a', 'i', 'p', 'r', 'x', 'h' and ' '. */
  predicate KeywordFreeChar(c: char) {
    c != 'a' && c != 'i' && c != 'p' && c != 'r' && c != 'x' && c != 'h' && c != ' '
  }

  /** Every phone keyword holds one of the characters 'a', 'i', 'p', 'r', 'x', 'h' and ' ', so a
      text without them mentions no keyword. */
  lemma NoKeywordIn(s: string)
    requires forall i :: 0 <= i < |s| ==> KeywordFreeChar(s[i])
    ensures !ContainsAny(s, PhoneKeywords)
  {
    // Each keyword holds such a character at the index given.
    MissingCharNotContained(s, "iphone", 0);
    MissingCharNotContained(s, "android", 0);
    MissingCharNotContained(s, "smartphone", 2);
    MissingCharNotContained(s, "phone", 0);
    MissingCharNotContained(s, "galaxy", 1);
    MissingCharNotContained(s, "pixel", 0);
    MissingCharNotContained(s, "xperia", 0);
    MissingCharNotContained(s, "redmi", 0);
    MissingCharNotContained(s, "poco", 0);
    MissingCharNotContained(s, "mi ", 2);
    MissingCharNotContained(s, "honor", 0);
  }
}
