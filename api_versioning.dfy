/** The inputs that the API-versioning library hands to the samples: one
    description per declared API version, with its optional sunset policy. */
module ApiVersioning {

  import opened Wrappers

  /** The media type that selects a link for the rendered links block. */
  const HtmlMediaType: string := "text/html"

  /** One link of a sunset policy: its target (the URI's original string),
      its optional title and its media type. */
  datatype Link = Link(target: string, title: Option<string>, mediaType: string)

  /** A sunset policy: an optional effective date, already rendered as the
      culture's short date string, and the ordered list of links. */
  datatype SunsetPolicy = SunsetPolicy(date: Option<string>, links: seq<Link>)
  {
    /** The library's HasLinks, taken to mean that the list is not empty. */
    predicate HasLinks() {
      |links| > 0
    }
  }

  /** What the library describes about one API version: the version's string
      form, the document group it belongs to, whether it is deprecated and its
      sunset policy, if any. */
  datatype ApiVersionDescription = ApiVersionDescription(
    version: string,
    groupName: string,
    isDeprecated: bool,
    sunsetPolicy: Option<SunsetPolicy>)

  /** The platform's line terminator, which the description builder appends
      before the links block. */
  datatype Newline = Lf | CrLf
  {
    function Text(): (s: string)
      ensures |s| > 0 && (s[0] == '\n' || s[0] == '\r') && s[|s| - 1] == '\n'
    {
      match this
      case Lf => "\n"
      case CrLf => "\r\n"
    }
  }

}
