/** The source type tag of `src/domain/source/source_type.rs`: which fetcher
    handles a source, its case-insensitive parse and its printed form. */
module SourceTypes {

  datatype SourceType = RSS | HTML

  /** ASCII lower-casing of one character. */
  function LowerChar(c: char): char
  {
    if 'A' <= c <= 'Z' then (c as int + 32) as char else c
  }

  /** `str::to_lowercase`, restricted to ASCII letters. */
  function Lower(s: string): (r: string)
    ensures |r| == |s|
    ensures forall i :: 0 <= i < |s| ==> r[i] == LowerChar(s[i])
  {
    if s == [] then [] else [LowerChar(s[0])] + Lower(s[1..])
  }

  /** Lower-casing a lower-case string changes nothing. */
  lemma LowerIdempotent(s: string)
    ensures Lower(Lower(s)) == Lower(s)
  {
  }

  /** The strings the parse accepts: those whose lower-case form names a
      variant. Any other string reaches `unreachable!()`. */
  predicate IsTypeName(s: string)
  {
    Lower(s) == "rss" || Lower(s) == "html"
  }

  /** `SourceType::to_string`. */
  function ToString(t: SourceType): (r: string)
    ensures r == "rss" || r == "html"
    ensures Lower(r) == r
  {
    match t
    case RSS => "rss"
    case HTML => "html"
  }

  /** `<SourceType as From<&str>>::from`: matches the lower-cased input. The
      printed form of the result is exactly the lower-cased input, so the
      parse neither invents nor drops a variant. */
  function From(s: string): (t: SourceType)
    requires IsTypeName(s)
    ensures ToString(t) == Lower(s)
  {
    match Lower(s)
    case "rss" => RSS
    case "html" => HTML
  }

  /** The variant identifier as declared in the enum. */
  function VariantName(t: SourceType): string
  {
    match t
    case RSS => "RSS"
    case HTML => "HTML"
  }

  /** `#[serde(rename_all = "lowercase")]`: the stored tag is the lower-cased
      variant identifier. */
  function SerdeTag(t: SourceType): string
  {
    Lower(VariantName(t))
  }

  /** Printing and then parsing gives the variant back. */
  lemma FromToStringRoundTrip(t: SourceType)
    ensures IsTypeName(ToString(t)) && From(ToString(t)) == t
  {
    LowerIdempotent(ToString(t));
  }

  /** Distinct variants print differently. */
  lemma ToStringInjective(a: SourceType, b: SourceType)
    ensures ToString(a) == ToString(b) <==> a == b
  {
  }

  /** The parse ignores case: all spellings of a name that agree after
      lower-casing give the same variant. */
  lemma FromIgnoresCase(s: string, s': string)
    requires IsTypeName(s) && Lower(s) == Lower(s')
    ensures IsTypeName(s') && From(s) == From(s')
  {
  }

  /** "RSS", "Rss" and "rss" all parse to RSS; "HTML", "Html" and "html" to HTML. */
  lemma MixedCaseExamples()
    ensures IsTypeName("RSS") && From("RSS") == RSS
    ensures IsTypeName("Rss") && From("Rss") == RSS
    ensures IsTypeName("rss") && From("rss") == RSS
    ensures IsTypeName("HTML") && From("HTML") == HTML
    ensures IsTypeName("Html") && From("Html") == HTML
    ensures IsTypeName("html") && From("html") == HTML
  {
    assert Lower("RSS") == "rss";
    assert Lower("Rss") == "rss";
    assert Lower("rss") == "rss";
    assert Lower("HTML") == "html";
    assert Lower("Html") == "html";
    assert Lower("html") == "html";
  }

  /** A string that is no spelling of a variant name is outside the parse's
      domain, for example "xml". */
  lemma UnknownNameRejected()
    ensures !IsTypeName("xml") && !IsTypeName("")
  {
    assert Lower("xml") == "xml";
  }

  /** The serialised tag is the printed form. */
  lemma SerdeTagIsToString(t: SourceType)
    ensures SerdeTag(t) == ToString(t)
  {
    assert Lower("RSS") == "rss";
    assert Lower("HTML") == "html";
  }
}
