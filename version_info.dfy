/** The specification of the version-description builder that both samples
    use (CreateInfoForApiVersion): a pure function from an API version
    description to the OpenAPI info record, and the properties the builder
    promises, proved about that function. */
module VersionInfo {

  import opened Wrappers
  import opened ApiVersioning
  import opened OpenApi

  const Title: string := "Route Versioning Web API"
  const BaseSentence: string := "An example about how to use route versioning in a Minimal API project."
  const DeprecationSentence: string := " This API version has been deprecated."
  const SunsetOpening: string := " The API will be sunset on "
  const LinksHeader: string := "<h4>Links</h4><ul>"
  const LinksFooter: string := "</ul>"
  const ItemOpen: string := "<li><a href=\""
  const ItemMiddle: string := "\">"
  const ItemClose: string := "</a></li>"

  predicate IsHtml(link: Link) {
    link.mediaType == HtmlMediaType
  }

  /** The links of the list that the block renders: the html ones, in order. */
  function HtmlLinks(links: seq<Link>): (r: seq<Link>)
    ensures |r| <= |links|
    ensures forall k :: 0 <= k < |r| ==> IsHtml(r[k])
  {
    if links == [] then []
    else if IsHtml(links[0]) then [links[0]] + HtmlLinks(links[1..])
    else HtmlLinks(links[1..])
  }

  /** The text shown for a link: its title, or its target when the title is
      missing or empty. */
  function Label(link: Link): string {
    if link.title.None? || link.title.value == "" then link.target else link.title.value
  }

  function RenderLink(link: Link): string {
    ItemOpen + link.target + ItemMiddle + Label(link) + ItemClose
  }

  /** The list items of the given links, one after the other. */
  function RenderLinks(links: seq<Link>): string {
    if links == [] then "" else RenderLink(links[0]) + RenderLinks(links[1..])
  }

  predicate HasHtmlLink(policy: Option<SunsetPolicy>) {
    policy.Some? && HtmlLinks(policy.value.links) != []
  }

  function DeprecationText(isDeprecated: bool): string {
    if isDeprecated then DeprecationSentence else ""
  }

  function SunsetText(policy: Option<SunsetPolicy>): string {
    if policy.Some? && policy.value.date.Some? then SunsetOpening + policy.value.date.value + "." else ""
  }

  /** The sentences that precede the links section. */
  function Sentences(d: ApiVersionDescription): string {
    BaseSentence + DeprecationText(d.isDeprecated) + SunsetText(d.sunsetPolicy)
  }

  /** The links block: a header, the html links and the closing tag, or
      nothing at all when there is no html link. */
  function LinksBlock(links: seq<Link>): string {
    var html := HtmlLinks(links);
    if html == [] then "" else LinksHeader + RenderLinks(html) + LinksFooter
  }

  /** The newline and the links block, present only when the policy has links. */
  function LinksText(policy: Option<SunsetPolicy>, nl: Newline): string {
    if policy.Some? && policy.value.HasLinks() then nl.Text() + LinksBlock(policy.value.links) else ""
  }

  /** The description text of the info record. */
  function Describe(d: ApiVersionDescription, nl: Newline): string {
    Sentences(d) + LinksText(d.sunsetPolicy, nl)
  }

  /** The info record built for one API version description. */
  function CreateInfo(d: ApiVersionDescription, nl: Newline): (info: OpenApiInfo)
    ensures info.title == Title && info.version == d.version
  {
    OpenApiInfo(Title, d.version, Describe(d, nl))
  }

  /** The filter keeps exactly the html links of the list. */
  lemma {:induction false} HtmlLinksMembers(links: seq<Link>, l: Link)
    ensures l in HtmlLinks(links) <==> l in links && IsHtml(l)
  {
    if links != [] {
      HtmlLinksMembers(links[1..], l);
      assert l in links <==> l == links[0] || l in links[1..];
    }
  }

  /** There is no html link to render exactly when no link of the list is html. */
  lemma NoHtmlLinksIff(links: seq<Link>)
    ensures HtmlLinks(links) == [] <==> forall k :: 0 <= k < |links| ==> !IsHtml(links[k])
  {
    if HtmlLinks(links) == [] {
      forall k | 0 <= k < |links| ensures !IsHtml(links[k]) {
        HtmlLinksMembers(links, links[k]);
      }
    } else {
      var l := HtmlLinks(links)[0];
      HtmlLinksMembers(links, l);
      var k :| 0 <= k < |links| && links[k] == l;
    }
  }

  // ---------------------------------------------------------------------
  // Filtering and rendering distribute over concatenation: this is what
  // "in list order" means, and what the builder's loop relies on.

  lemma {:induction false} HtmlLinksAppend(a: seq<Link>, b: seq<Link>)
    ensures HtmlLinks(a + b) == HtmlLinks(a) + HtmlLinks(b)
  {
    if a == [] {
      assert a + b == b;
    } else {
      assert (a + b)[1..] == a[1..] + b;
      HtmlLinksAppend(a[1..], b);
    }
  }

  lemma {:induction false} RenderLinksAppend(a: seq<Link>, b: seq<Link>)
    ensures RenderLinks(a + b) == RenderLinks(a) + RenderLinks(b)
  {
    if a == [] {
      assert a + b == b;
    } else {
      assert (a + b)[1..] == a[1..] + b;
      RenderLinksAppend(a[1..], b);
    }
  }

  /** One more link either adds its own list item, when it is html, or nothing. */
  lemma RenderedItemsSnoc(links: seq<Link>, l: Link)
    ensures RenderLinks(HtmlLinks(links + [l]))
         == RenderLinks(HtmlLinks(links)) + (if IsHtml(l) then RenderLink(l) else "")
  {
    HtmlLinksAppend(links, [l]);
    assert [l][1..] == [];
    RenderLinksAppend(HtmlLinks(links), HtmlLinks([l]));
  }

  lemma ConcatAssoc(a: string, b: string, c: string)
    ensures (a + b) + c == a + (b + c)
  {
  }

  /** One step of a loop over the links: an html link i adds its own item
      after those of the first i links, any other link leaves the html links
      as they were. */
  lemma LinksStep(links: seq<Link>, i: nat)
    requires i < |links|
    ensures IsHtml(links[i]) ==> HtmlLinks(links[..i + 1]) != []
    ensures IsHtml(links[i]) ==>
      RenderLinks(HtmlLinks(links[..i + 1])) == RenderLinks(HtmlLinks(links[..i])) + RenderLink(links[i])
    ensures !IsHtml(links[i]) ==> HtmlLinks(links[..i + 1]) == HtmlLinks(links[..i])
  {
    assert links[..i + 1] == links[..i] + [links[i]];
    HtmlLinksAppend(links[..i], [links[i]]);
    RenderedItemsSnoc(links[..i], links[i]);
  }

  /** Appending the parts of a list item one after the other appends the
      item. */
  lemma ItemAppended(prefix: string, link: Link)
    ensures prefix + ItemOpen + link.target + ItemMiddle
      + (if link.title.None? || link.title.value == "" then link.target else link.title.value)
      + ItemClose == prefix + RenderLink(link)
  {
  }

  /** The html links are rendered in their original order: the items of a
      list split in two are the items of the first part followed by those of
      the second. */
  lemma RenderedItemsInOrder(a: seq<Link>, b: seq<Link>)
    ensures RenderLinks(HtmlLinks(a + b)) == RenderLinks(HtmlLinks(a)) + RenderLinks(HtmlLinks(b))
  {
    HtmlLinksAppend(a, b);
    RenderLinksAppend(HtmlLinks(a), HtmlLinks(b));
  }

  /** The list item of a single link: the html one shows its target as the
      href and its title, falling back to the target; any other media type
      renders nothing. */
  lemma SingleLinkItem(l: Link)
    ensures RenderLinks(HtmlLinks([l])) ==
      if l.mediaType != HtmlMediaType then ""
      else ("<li><a href=\"" + l.target + "\">"
        + (if l.title.Some? && l.title.value != "" then l.title.value else l.target)
        + "</a></li>")
  {
    assert [l][1..] == [];
  }

  // ---------------------------------------------------------------------
  // Facts about strings that the proofs below use instead of looking into
  // the long sentence literals.

  lemma DropPrefix(a: string, b: string)
    ensures |a| <= |a + b| && (a + b)[|a|..] == b
  {
  }

  lemma PrefixOfConcat(a: string, b: string)
    ensures a <= a + b
  {
  }

  lemma NotPrefixAt(p: string, s: string, k: nat)
    requires k < |p| && k < |s| && s[k] != p[k]
    ensures !(p <= s)
  {
  }

  lemma LastOfConcat(a: string, b: string)
    requires b != []
    ensures (a + b)[|a + b| - 1] == b[|b| - 1]
  {
  }

  /** The description split into its parts, grouped from the right. */
  lemma DescribeParts(d: ApiVersionDescription, nl: Newline)
    ensures Describe(d, nl) == BaseSentence + (DeprecationText(d.isDeprecated)
      + (SunsetText(d.sunsetPolicy) + LinksText(d.sunsetPolicy, nl)))
  {
    var dep, sun := DeprecationText(d.isDeprecated), SunsetText(d.sunsetPolicy);
    ConcatAssoc(BaseSentence + dep, sun, LinksText(d.sunsetPolicy, nl));
    ConcatAssoc(BaseSentence, dep, sun + LinksText(d.sunsetPolicy, nl));
  }

  /** The sunset sentence, grouped from the right. */
  lemma SunsetParts(policy: Option<SunsetPolicy>, rest: string)
    requires policy.Some? && policy.value.date.Some?
    ensures SunsetText(policy) + rest == SunsetOpening + ((policy.value.date.value + ".") + rest)
  {
    var date := policy.value.date.value;
    ConcatAssoc(SunsetOpening, date, ".");
    ConcatAssoc(SunsetOpening, date + ".", rest);
  }

  /** The sentences before the links always end with a full stop. */
  lemma SentencesEndWithStop(d: ApiVersionDescription)
    ensures Sentences(d) != [] && Sentences(d)[|Sentences(d)| - 1] == '.'
  {
    var dep, sun := DeprecationText(d.isDeprecated), SunsetText(d.sunsetPolicy);
    if sun != "" {
      var date := d.sunsetPolicy.value.date.value;
      LastOfConcat(SunsetOpening + date, ".");
      LastOfConcat(BaseSentence + dep, sun);
    } else if dep != "" {
      assert Sentences(d) == BaseSentence + DeprecationSentence;
      assert DeprecationSentence[|DeprecationSentence| - 1] == '.';
      LastOfConcat(BaseSentence, DeprecationSentence);
    } else {
      assert Sentences(d) == BaseSentence;
      assert BaseSentence[|BaseSentence| - 1] == '.';
    }
  }

  // ---------------------------------------------------------------------
  // Properties of the description text.

  lemma DescribeStartsWithBase(d: ApiVersionDescription, nl: Newline)
    ensures BaseSentence <= Describe(d, nl)
  {
    DescribeParts(d, nl);
    PrefixOfConcat(BaseSentence, DeprecationText(d.isDeprecated)
      + (SunsetText(d.sunsetPolicy) + LinksText(d.sunsetPolicy, nl)));
  }

  /** The deprecation sentence follows the base sentence directly exactly
      when the version is deprecated. */
  lemma DeprecationSentenceIff(d: ApiVersionDescription, nl: Newline)
    ensures |BaseSentence| <= |Describe(d, nl)|
    ensures d.isDeprecated <==> DeprecationSentence <= Describe(d, nl)[|BaseSentence|..]
  {
    var links := LinksText(d.sunsetPolicy, nl);
    var tail := SunsetText(d.sunsetPolicy) + links;
    var rest := DeprecationText(d.isDeprecated) + tail;
    DescribeParts(d, nl);
    DropPrefix(BaseSentence, rest);
    if d.isDeprecated {
      PrefixOfConcat(DeprecationSentence, tail);
    } else {
      assert rest == tail;
      if SunsetText(d.sunsetPolicy) != "" {
        SunsetParts(d.sunsetPolicy, links);
        assert tail[3] == SunsetOpening[3] == 'e';
        assert DeprecationSentence[3] == 'i';
        NotPrefixAt(DeprecationSentence, tail, 3);
      } else if links != "" {
        assert tail == links == nl.Text() + LinksBlock(d.sunsetPolicy.value.links);
        assert tail[0] == nl.Text()[0];
        assert DeprecationSentence[0] == ' ';
        NotPrefixAt(DeprecationSentence, tail, 0);
      } else {
        assert tail == "";
      }
    }
  }

  /** After the base and deprecation sentences comes the sunset sentence
      exactly when the version has a sunset policy with a date; the date is
      then followed by a full stop. */
  lemma SunsetSentenceIff(d: ApiVersionDescription, nl: Newline)
    ensures |BaseSentence + DeprecationText(d.isDeprecated)| <= |Describe(d, nl)|
    ensures var rest := Describe(d, nl)[|BaseSentence + DeprecationText(d.isDeprecated)|..];
      (d.sunsetPolicy.Some? && d.sunsetPolicy.value.date.Some?) <==> SunsetOpening <= rest
    ensures d.sunsetPolicy.Some? && d.sunsetPolicy.value.date.Some? ==>
      SunsetOpening + d.sunsetPolicy.value.date.value + "." <= Describe(d, nl)[|BaseSentence + DeprecationText(d.isDeprecated)|..]
  {
    var head := BaseSentence + DeprecationText(d.isDeprecated);
    var links := LinksText(d.sunsetPolicy, nl);
    var rest := SunsetText(d.sunsetPolicy) + links;
    ConcatAssoc(head, SunsetText(d.sunsetPolicy), links);
    DropPrefix(head, rest);
    if d.sunsetPolicy.Some? && d.sunsetPolicy.value.date.Some? {
      SunsetParts(d.sunsetPolicy, links);
      PrefixOfConcat(SunsetOpening, (d.sunsetPolicy.value.date.value + ".") + links);
      PrefixOfConcat(SunsetText(d.sunsetPolicy), links);
    } else {
      assert rest == links;
      if links != "" {
        assert links == nl.Text() + LinksBlock(d.sunsetPolicy.value.links);
        assert links[0] == nl.Text()[0];
        assert SunsetOpening[0] == ' ';
        NotPrefixAt(SunsetOpening, links, 0);
      }
    }
  }

  /** Without a policy, or with a policy whose link list is empty, the
      description is the sentences alone; with links but none of them html it
      is the sentences followed by just the newline. */
  lemma LinksSectionWithoutHtml(d: ApiVersionDescription, nl: Newline)
    requires !HasHtmlLink(d.sunsetPolicy)
    ensures Describe(d, nl) ==
      if d.sunsetPolicy.Some? && |d.sunsetPolicy.value.links| > 0
      then Sentences(d) + nl.Text() else Sentences(d)
  {
    if d.sunsetPolicy.Some? && |d.sunsetPolicy.value.links| > 0 {
      assert LinksText(d.sunsetPolicy, nl) == nl.Text() + "" == nl.Text();
    } else {
      assert Describe(d, nl) == Sentences(d) + "";
    }
  }

  /** With at least one html link, the sentences are followed by the newline,
      the header, the items of exactly the html links in list order, and the
      closing tag. */
  lemma LinksSectionWithHtml(d: ApiVersionDescription, nl: Newline)
    requires HasHtmlLink(d.sunsetPolicy)
    ensures d.sunsetPolicy.value.links != []
    ensures Describe(d, nl) == Sentences(d) + nl.Text() + LinksHeader
      + RenderLinks(HtmlLinks(d.sunsetPolicy.value.links)) + LinksFooter
  {
    var links := d.sunsetPolicy.value.links;
    var sentences, items := Sentences(d), RenderLinks(HtmlLinks(links));
    assert |HtmlLinks(links)| <= |links|;
    var front := sentences + nl.Text();
    ConcatAssoc(front + LinksHeader, items, LinksFooter);
    ConcatAssoc(front, LinksHeader, items + LinksFooter);
    ConcatAssoc(LinksHeader, items, LinksFooter);
    ConcatAssoc(sentences, nl.Text(), LinksBlock(links));
  }

  /** The description ends with the closing tag of the links list exactly
      when the policy has an html link. */
  lemma EndsWithListCloseIff(d: ApiVersionDescription, nl: Newline)
    ensures HasHtmlLink(d.sunsetPolicy) <==>
      |LinksFooter| <= |Describe(d, nl)| && Describe(d, nl)[|Describe(d, nl)| - |LinksFooter|..] == LinksFooter
  {
    var s := Describe(d, nl);
    if !HasHtmlLink(d.sunsetPolicy) {
      LinksSectionWithoutHtml(d, nl);
      SentencesEndWithStop(d);
      assert s[|s| - 1] != '>' by {
        if d.sunsetPolicy.Some? && |d.sunsetPolicy.value.links| > 0 {
          LastOfConcat(Sentences(d), nl.Text());
        }
      }
      if |LinksFooter| <= |s| {
        assert s[|s| - |LinksFooter|..][|LinksFooter| - 1] == s[|s| - 1];
        assert LinksFooter[|LinksFooter| - 1] == '>';
      }
    } else {
      LinksSectionWithHtml(d, nl);
      var front := Sentences(d) + nl.Text() + LinksHeader + RenderLinks(HtmlLinks(d.sunsetPolicy.value.links));
      DropPrefix(front, LinksFooter);
    }
  }

  lemma HtmlLinksInsertNonHtml(a: seq<Link>, b: seq<Link>, l: Link)
    requires !IsHtml(l)
    ensures HtmlLinks(a + [l] + b) == HtmlLinks(a + b)
  {
    HtmlLinksAppend(a + [l], b);
    HtmlLinksAppend(a, [l]);
    HtmlLinksAppend(a, b);
    assert [l][1..] == [];
  }

  /** A link whose media type is not html contributes nothing: inserting one
      anywhere into a non-empty link list leaves the description as it was. */
  lemma NonHtmlLinkIgnored(d: ApiVersionDescription, nl: Newline, i: nat, l: Link)
    requires d.sunsetPolicy.Some? && d.sunsetPolicy.value.links != []
    requires i <= |d.sunsetPolicy.value.links|
    requires !IsHtml(l)
    ensures var p := d.sunsetPolicy.value;
      var links' := p.links[..i] + [l] + p.links[i..];
      Describe(d.(sunsetPolicy := Some(p.(links := links'))), nl) == Describe(d, nl)
  {
    var p := d.sunsetPolicy.value;
    var links' := p.links[..i] + [l] + p.links[i..];
    var d' := d.(sunsetPolicy := Some(p.(links := links')));
    HtmlLinksInsertNonHtml(p.links[..i], p.links[i..], l);
    assert p.links[..i] + p.links[i..] == p.links;
    assert LinksText(d'.sunsetPolicy, nl) == LinksText(d.sunsetPolicy, nl);
    assert Sentences(d') == Sentences(d);
  }

  // ---------------------------------------------------------------------
  // The route-versioning sample's own configuration: version 1 is
  // deprecated and has a sunset policy effective 2024-12-31 with one html
  // link titled "Version Policies". The date is shown in its en-US short
  // form; the real text depends on the culture.

  const SampleLink: Link :=
    Link("https://github.com/dotnet/aspnet-api-versioning/wiki/Version-Policies", Some("Version Policies"), "text/html")
  const SampleVersionOne: ApiVersionDescription :=
    ApiVersionDescription("1", "v1", true, Some(SunsetPolicy(Some("12/31/2024"), [SampleLink])))

  lemma SampleVersionOneDescription()
    ensures Sentences(SampleVersionOne)
      == BaseSentence + DeprecationSentence + SunsetOpening + "12/31/2024" + "."
    ensures RenderLink(SampleLink)
      == ItemOpen + "https://github.com/dotnet/aspnet-api-versioning/wiki/Version-Policies" + ItemMiddle
       + "Version Policies" + ItemClose
    ensures Describe(SampleVersionOne, Lf)
      == Sentences(SampleVersionOne) + "\n" + LinksHeader + RenderLink(SampleLink) + LinksFooter
  {
    var head := BaseSentence + DeprecationSentence;
    ConcatAssoc(head, SunsetOpening + "12/31/2024", ".");
    ConcatAssoc(head, SunsetOpening, "12/31/2024");
    assert [SampleLink][1..] == [];
    assert HtmlLinks([SampleLink]) == [SampleLink];
    assert RenderLinks([SampleLink]) == RenderLink(SampleLink) + "" == RenderLink(SampleLink);
    LinksSectionWithHtml(SampleVersionOne, Lf);
  }

}
