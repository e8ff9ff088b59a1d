/** The helpers the pipeline calls but does not define. Each is an
    uninterpreted parameter here: the text cleaner, the word bloom filters,
    the identifier grammars, the arXiv archive list, the ASCII
    transliteration, float formatting, URL encoding and URL validation. */
module Externals {
  import opened Base
  import opened Json

  predicate IsAscii(s: string)
  {
    forall i :: 0 <= i < |s| ==> s[i] as int < 128
  }

  type AsciiString = s: string | IsAscii(s) witness ""

  /** The two word filters are loaded together or not at all. */
  datatype BloomFilters = BloomFilters(title: string -> bool, auth: string -> bool)

  datatype Env = Env(
    cleanText: (string, bool) -> string,      // clean_text(text, numok)
    filters: Option<BloomFilters>,            // None: words_title = words_auth = unity
    validDoi: string -> bool,                 // re.match(REGEX_DOI, s)
    validArxivStrict: string -> bool,         // re.match(REGEX_ARXIV_STRICT, s)
    validIsbn10: string -> bool,              // re.match(REGEX_ISBN_10, s)
    validIsbn13: string -> bool,              // re.match(REGEX_ISBN_13, s)
    archives: seq<string>,                    // arxiv.taxonomy.ARCHIVES, in key order
    unidecode: string -> AsciiString,         // unidecode.unidecode
    formatReal: real -> string,               // repr(float)
    urlencode: seq<(string, string)> -> string,
    isValidUrl: Value -> bool)                // references.process.retrieve.is_valid_url
}
