/** The route-versioning sample's Swagger set-up: one Swagger document per
    API version description, each with the info record built by its copy of
    the description builder. */
module RouteVersioningSample {

  import opened Wrappers
  import opened ApiVersioning
  import opened OpenApi
  import VersionInfo

  /** One registered Swagger document: its name and its info record. */
  datatype RegisteredDoc = RegisteredDoc(name: string, info: OpenApiInfo)

  /** The Swagger generator's options, reduced to the documents registered
      so far, in registration order. */
  class SwaggerGenOptions {
    var swaggerDocs: seq<RegisteredDoc>

    constructor ()
      ensures swaggerDocs == []
    {
      swaggerDocs := [];
    }

    /** Registers a document under the given name. */
    method SwaggerDoc(name: string, info: OpenApiInfo)
      modifies this
      ensures swaggerDocs == old(swaggerDocs) + [RegisteredDoc(name, info)]
    {
      swaggerDocs := swaggerDocs + [RegisteredDoc(name, info)];
    }
  }

  /** The documents that Configure registers for the given descriptions. */
  function DocsFor(descriptions: seq<ApiVersionDescription>, newline: Newline): (docs: seq<RegisteredDoc>)
    ensures |docs| == |descriptions|
    ensures forall i :: 0 <= i < |descriptions| ==>
      docs[i].name == descriptions[i].groupName && docs[i].info == VersionInfo.CreateInfo(descriptions[i], newline)
  {
    if descriptions == [] then []
    else
      var init := descriptions[..|descriptions| - 1];
      var last := descriptions[|descriptions| - 1];
      assert forall i :: 0 <= i < |init| ==> init[i] == descriptions[i];
      DocsFor(init, newline) + [RegisteredDoc(last.groupName, VersionInfo.CreateInfo(last, newline))]
  }

  predicate NamesDistinct(docs: seq<RegisteredDoc>) {
    forall i, j :: 0 <= i < j < |docs| ==> docs[i].name != docs[j].name
  }

  predicate GroupNamesDistinct(descriptions: seq<ApiVersionDescription>) {
    forall i, j :: 0 <= i < j < |descriptions| ==> descriptions[i].groupName != descriptions[j].groupName
  }

  /** Documents named position by position after the descriptions have
      pairwise distinct names exactly when the descriptions' group names are. */
  lemma NamesDistinctIff(docs: seq<RegisteredDoc>, descriptions: seq<ApiVersionDescription>)
    requires |docs| == |descriptions|
    requires forall i :: 0 <= i < |docs| ==> docs[i].name == descriptions[i].groupName
    ensures NamesDistinct(docs) <==> GroupNamesDistinct(descriptions)
  {
  }

  /** The registered documents' names are pairwise distinct exactly when the
      descriptions' group names are. */
  lemma DocsForNamesDistinct(descriptions: seq<ApiVersionDescription>, newline: Newline)
    ensures NamesDistinct(DocsFor(descriptions, newline)) <==> GroupNamesDistinct(descriptions)
  {
    NamesDistinctIff(DocsFor(descriptions, newline), descriptions);
  }

  /** ConfigureSwaggerGenOptions: registers one Swagger document per API
      version description known to the provider, keyed by the description's
      group name. The provider's descriptions are fixed when it is made. */
  class ConfigureSwaggerGenOptions {
    const descriptions: seq<ApiVersionDescription>
    const newline: Newline

    constructor (descriptions: seq<ApiVersionDescription>, newline: Newline)
      ensures this.descriptions == descriptions && this.newline == newline
    {
      this.descriptions := descriptions;
      this.newline := newline;
    }

    /** Appends to the options one document per description, in the
        provider's order, and nothing else. */
    method Configure(options: SwaggerGenOptions)
      modifies options
      ensures options.swaggerDocs == old(options.swaggerDocs) + DocsFor(descriptions, newline)
    {
      for i := 0 to |descriptions|
        invariant options.swaggerDocs == old(options.swaggerDocs) + DocsFor(descriptions[..i], newline)
      {
        var description := descriptions[i];
        var openApiInfo, _, _ := CreateInfoForApiVersion(description, newline);
        assert descriptions[..i + 1][..i] == descriptions[..i];
        options.SwaggerDoc(description.groupName, openApiInfo);
      }
      assert descriptions[..|descriptions|] == descriptions;
    }

    /** Builds the info record by appending to the description text step by
        step. The ghost results count how often the links header and the
        closing tag are appended. */
    static method CreateInfoForApiVersion(description: ApiVersionDescription, newline: Newline)
      returns (info: OpenApiInfo, ghost headerAppends: nat, ghost footerAppends: nat)
      ensures info == VersionInfo.CreateInfo(description, newline)
      ensures headerAppends <= 1 && footerAppends == headerAppends
      ensures headerAppends == 1 <==> VersionInfo.HasHtmlLink(description.sunsetPolicy)
    {
      var text := VersionInfo.BaseSentence;
      info := OpenApiInfo(VersionInfo.Title, description.version, "");
      headerAppends, footerAppends := 0, 0;

      if description.isDeprecated {
        text := text + VersionInfo.DeprecationSentence;
      }
      ghost var head := text;
      assert head == VersionInfo.BaseSentence + VersionInfo.DeprecationText(description.isDeprecated);

      if description.sunsetPolicy.Some? {
        var policy := description.sunsetPolicy.value;
        if policy.date.Some? {
          text := text + VersionInfo.SunsetOpening + policy.date.value + ".";
          assert text == head + VersionInfo.SunsetText(description.sunsetPolicy) by {
            VersionInfo.ConcatAssoc(head + VersionInfo.SunsetOpening, policy.date.value, ".");
            VersionInfo.ConcatAssoc(head, VersionInfo.SunsetOpening, policy.date.value + ".");
          }
        }
        assert text == VersionInfo.Sentences(description);

        if policy.HasLinks() {
          text := text + newline.Text();
          text, headerAppends, footerAppends := AppendLinks(text, policy.links);
          assert text == VersionInfo.Sentences(description) + VersionInfo.LinksText(description.sunsetPolicy, newline) by {
            VersionInfo.ConcatAssoc(VersionInfo.Sentences(description), newline.Text(), VersionInfo.LinksBlock(policy.links));
          }
        }
      }
      assert text == VersionInfo.Describe(description, newline);

      info := info.(description := text);
    }

    /** The links part of the builder: appends every html link as a list
        item, with the header before the first one and the closing tag after
        the last. The ghost results count the header and closing-tag appends. */
    static method AppendLinks(text0: string, links: seq<Link>)
      returns (text: string, ghost headerAppends: nat, ghost footerAppends: nat)
      ensures text == text0 + VersionInfo.LinksBlock(links)
      ensures headerAppends <= 1 && footerAppends == headerAppends
      ensures headerAppends == 1 <==> VersionInfo.HtmlLinks(links) != []
    {
      text := text0;
      headerAppends, footerAppends := 0, 0;
      var rendered := false;

      for i := 0 to |links|
        invariant rendered <==> VersionInfo.HtmlLinks(links[..i]) != []
        invariant headerAppends == if rendered then 1 else 0
        invariant !rendered ==> text == text0
        invariant rendered ==>
          text == text0 + VersionInfo.LinksHeader + VersionInfo.RenderLinks(VersionInfo.HtmlLinks(links[..i]))
      {
        var link := links[i];
        ghost var items := VersionInfo.RenderLinks(VersionInfo.HtmlLinks(links[..i]));
        VersionInfo.LinksStep(links, i);

        if link.mediaType == HtmlMediaType {
          if !rendered {
            text := text + VersionInfo.LinksHeader;
            rendered := true;
            headerAppends := headerAppends + 1;
          }
          ghost var afterHeader := text;
          assert afterHeader == text0 + VersionInfo.LinksHeader + items;

          text := text + VersionInfo.ItemOpen;
          text := text + link.target;
          text := text + VersionInfo.ItemMiddle;
          text := text + (if link.title.None? || link.title.value == "" then link.target else link.title.value);
          text := text + VersionInfo.ItemClose;
          assert text == text0 + VersionInfo.LinksHeader + (items + VersionInfo.RenderLink(link)) by {
            VersionInfo.ItemAppended(afterHeader, link);
            VersionInfo.ConcatAssoc(text0 + VersionInfo.LinksHeader, items, VersionInfo.RenderLink(link));
          }
        }
      }
      assert links[..|links|] == links;

      if rendered {
        text := text + VersionInfo.LinksFooter;
        footerAppends := footerAppends + 1;
      }
      assert text == text0 + VersionInfo.LinksBlock(links) by {
        if rendered {
          ghost var items := VersionInfo.RenderLinks(VersionInfo.HtmlLinks(links));
          VersionInfo.ConcatAssoc(text0 + VersionInfo.LinksHeader, items, VersionInfo.LinksFooter);
          VersionInfo.ConcatAssoc(text0, VersionInfo.LinksHeader, items + VersionInfo.LinksFooter);
          VersionInfo.ConcatAssoc(VersionInfo.LinksHeader, items, VersionInfo.LinksFooter);
        }
      }
    }
  }

}
