/** The fixed table of destination languages (code to display name) of the application. */
module Catalog {
  import opened Base

  /** The `LANGUAGES` table, in full; it is never changed after start-up. */
  const Languages: map<string, string> := map[
      "af" := "afrikaans", "sq" := "albanian", "am" := "amharic", "ar" := "arabic",
      "hy" := "armenian", "az" := "azerbaijani", "eu" := "basque", "be" := "belarusian",
      "bn" := "bengali", "bs" := "bosnian", "bg" := "bulgarian", "ca" := "catalan",
      "ceb" := "cebuano", "zh" := "chinese", "zh-cn" := "chinese (simplified)",
      "zh-tw" := "chinese (traditional)", "co" := "corsican", "hr" := "croatian", "cs" := "czech",
      "da" := "danish", "nl" := "dutch", "en" := "english", "eo" := "esperanto",
      "et" := "estonian", "fi" := "finnish", "fr" := "french", "fy" := "frisian",
      "gl" := "galician", "ka" := "georgian", "de" := "german", "el" := "greek",
      "gu" := "gujarati", "ht" := "haitian creole", "ha" := "hausa", "haw" := "hawaiian",
      "he" := "hebrew", "hi" := "hindi", "hmn" := "hmong", "hu" := "hungarian",
      "is" := "icelandic", "ig" := "igbo", "id" := "indonesian", "ga" := "irish",
      "it" := "italian", "ja" := "japanese", "jv" := "javanese", "kn" := "kannada",
      "kk" := "kazakh", "km" := "khmer", "ko" := "korean", "ku" := "kurdish", "ky" := "kyrgyz",
      "lo" := "lao", "la" := "latin", "lv" := "latvian", "lt" := "lithuanian",
      "lb" := "luxembourgish", "mk" := "macedonian", "mg" := "malagasy", "ms" := "malay",
      "ml" := "malayalam", "mt" := "maltese", "mi" := "maori", "mr" := "marathi",
      "mn" := "mongolian", "my" := "myanmar (burmese)", "ne" := "nepali", "no" := "norwegian",
      "ny" := "nyanja (chichewa)", "or" := "odia (oriya)", "ps" := "pashto", "fa" := "persian",
      "pl" := "polish", "pt" := "portuguese", "pa" := "punjabi", "ro" := "romanian",
      "ru" := "russian", "sm" := "samoan", "gd" := "scots gaelic", "sr" := "serbian",
      "st" := "sesotho", "sn" := "shona", "sd" := "sindhi", "si" := "sinhala (sinhalese)",
      "sk" := "slovak", "sl" := "slovenian", "so" := "somali", "es" := "spanish",
      "su" := "sundanese", "sw" := "swahili", "sv" := "swedish", "tg" := "tajik", "ta" := "tamil",
      "tt" := "tatar", "te" := "telugu", "th" := "thai", "tr" := "turkish", "tk" := "turkmen",
      "uk" := "ukrainian", "ur" := "urdu", "ug" := "uyghur", "uz" := "uzbek", "vi" := "vietnamese",
      "cy" := "welsh", "xh" := "xhosa", "yi" := "yiddish", "yo" := "yoruba", "zu" := "zulu"
    ]

  /** Whether a destination code is accepted (`language in LANGUAGES`). */
  predicate IsValid(code: string)
  {
    code in Languages
  }

  /** `LANGUAGES.get(code)`: the display name, or None for an unknown code. */
  function Lookup(code: string): (r: Option<string>)
    ensures r.Some? <==> IsValid(code)
    ensures r.Some? ==> r.value == Languages[code]
  {
    if code in Languages then Some(Languages[code]) else None
  }
}
