/** The minimal-API sample: its two OpenAPI transformers, the inline
    transformer that deprecates the version-1 "ping" endpoint, and its copy
    of the description builder. */
module MinimalApiSample {

  import opened Wrappers
  import opened ApiVersioning
  import opened OpenApi
  import VersionInfo
  import Deprecation

  /** The index of the first description from position k on whose group
      name is the document's name. */
  function FirstMatchFrom(descriptions: seq<ApiVersionDescription>, documentName: string, k: nat): (r: Option<nat>)
    requires k <= |descriptions|
    ensures r.Some? ==> k <= r.value < |descriptions| && descriptions[r.value].groupName == documentName
    ensures r.Some? ==> forall j :: k <= j < r.value ==> descriptions[j].groupName != documentName
    ensures r.None? ==> forall j :: k <= j < |descriptions| ==> descriptions[j].groupName != documentName
    decreases |descriptions| - k
  {
    if k == |descriptions| then None
    else if descriptions[k].groupName == documentName then Some(k)
    else FirstMatchFrom(descriptions, documentName, k + 1)
  }

  /** The first description whose group name is the document's name
      (FirstOrDefault over the provider's descriptions). */
  function FirstWithGroupName(descriptions: seq<ApiVersionDescription>, documentName: string): (r: Option<ApiVersionDescription>)
    ensures r.None? <==> forall d :: d in descriptions ==> d.groupName != documentName
    ensures r.Some? ==> r.value.groupName == documentName
    ensures r.Some? ==>
      exists i :: 0 <= i < |descriptions| && descriptions[i] == r.value &&
        forall j :: 0 <= j < i ==> descriptions[j].groupName != documentName
  {
    match FirstMatchFrom(descriptions, documentName, 0)
    case None => None
    case Some(i) => Some(descriptions[i])
  }

  /** ApiVersionDeprecatedTransformer: marks an operation deprecated when the
      API description it belongs to is deprecated. The description's
      IsDeprecated() is computed by the versioning library and is an input. */
  class ApiVersionDeprecatedTransformer {

    constructor ()
    {
    }

    method TransformAsync(operation: OpenApiOperation, descriptionIsDeprecated: bool)
      modifies operation`deprecated
      ensures operation.deprecated == Deprecation.Deprecate(old(operation.deprecated), descriptionIsDeprecated)
      ensures old(operation.deprecated) ==> operation.deprecated
      ensures !descriptionIsDeprecated ==> operation.deprecated == old(operation.deprecated)
    {
      operation.deprecated := operation.deprecated || descriptionIsDeprecated;
    }
  }

  /** The inline operation transformer of the version-1 "ping" endpoint: it
      marks that operation deprecated unconditionally. */
  method DeprecatePingOperation(operation: OpenApiOperation)
    modifies operation`deprecated
    ensures operation.deprecated
  {
    operation.deprecated := true;
  }

  /** DocumentInfoDocumentTransformer: fills in a document's info record from
      the description of the API version the document is generated for. The
      provider's descriptions are fixed when the transformer is made. */
  class DocumentInfoDocumentTransformer {
    const descriptions: seq<ApiVersionDescription>
    const newline: Newline

    constructor (descriptions: seq<ApiVersionDescription>, newline: Newline)
      ensures this.descriptions == descriptions && this.newline == newline
    {
      this.descriptions := descriptions;
      this.newline := newline;
    }

    /** Replaces the document's info with that of the first description whose
        group name is the document's name, and otherwise leaves it alone. */
    method TransformAsync(document: OpenApiDocument, documentName: string)
      modifies document`info
      ensures match FirstWithGroupName(descriptions, documentName)
        case Some(d) => document.info == VersionInfo.CreateInfo(d, newline)
        case None => document.info == old(document.info)
    {
      var apiDescription := FirstWithGroupName(descriptions, documentName);
      if apiDescription.Some? {
        var info, _, _ := CreateInfoForApiVersion(apiDescription.value, newline);
        document.info := info;
      }
    }

    /** Builds the info record by appending to the description text step by
        step. The ghost results count how often the links header and the
        closing tag are appended. */
    static method CreateInfoForApiVersion(description: ApiVersionDescription, newline: Newline)
      returns (info: OpenApiInfo, ghost headerAppends: nat, ghost footerAppends: nat)
      ensures info == VersionInfo.CreateInfo(description, newline)
      ensures headerAppends <= 1 && footerAppends == headerAppends
      ensures headerAppends == 1 <==> VersionInfo.HasHtmlLink(description.sunsetPolicy)
    {
      var text := VersionInfo.BaseSentence;
      info := OpenApiInfo(VersionInfo.Title, description.version, "");
      headerAppends, footerAppends := 0, 0;

      if description.isDeprecated {
        text := text + VersionInfo.DeprecationSentence;
      }
      ghost var head := text;
      assert head == VersionInfo.BaseSentence + VersionInfo.DeprecationText(description.isDeprecated);

      if description.sunsetPolicy.Some? {
        var policy := description.sunsetPolicy.value;
        if policy.date.Some? {
          text := text + VersionInfo.SunsetOpening + policy.date.value + ".";
          assert text == head + VersionInfo.SunsetText(description.sunsetPolicy) by {
            VersionInfo.ConcatAssoc(head + VersionInfo.SunsetOpening, policy.date.value, ".");
            VersionInfo.ConcatAssoc(head, VersionInfo.SunsetOpening, policy.date.value + ".");
          }
        }
        assert text == VersionInfo.Sentences(description);

        if policy.HasLinks() {
          text := text + newline.Text();
          text, headerAppends, footerAppends := AppendLinks(text, policy.links);
          assert text == VersionInfo.Sentences(description) + VersionInfo.LinksText(description.sunsetPolicy, newline) by {
            VersionInfo.ConcatAssoc(VersionInfo.Sentences(description), newline.Text(), VersionInfo.LinksBlock(policy.links));
          }
        }
      }
      assert text == VersionInfo.Describe(description, newline);

      info := info.(description := text);
    }

    /** The links part of the builder: appends every html link as a list
        item, with the header before the first one and the closing tag after
        the last. The ghost results count the header and closing-tag appends. */
    static method AppendLinks(text0: string, links: seq<Link>)
      returns (text: string, ghost headerAppends: nat, ghost footerAppends: nat)
      ensures text == text0 + VersionInfo.LinksBlock(links)
      ensures headerAppends <= 1 && footerAppends == headerAppends
      ensures headerAppends == 1 <==> VersionInfo.HtmlLinks(links) != []
    {
      text := text0;
      headerAppends, footerAppends := 0, 0;
      var rendered := false;

      for i := 0 to |links|
        invariant rendered <==> VersionInfo.HtmlLinks(links[..i]) != []
        invariant headerAppends == if rendered then 1 else 0
        invariant !rendered ==> text == text0
        invariant rendered ==>
          text == text0 + VersionInfo.LinksHeader + VersionInfo.RenderLinks(VersionInfo.HtmlLinks(links[..i]))
      {
        var link := links[i];
        ghost var items := VersionInfo.RenderLinks(VersionInfo.HtmlLinks(links[..i]));
        VersionInfo.LinksStep(links, i);

        if link.mediaType == HtmlMediaType {
          if !rendered {
            text := text + VersionInfo.LinksHeader;
            rendered := true;
            headerAppends := headerAppends + 1;
          }
          ghost var afterHeader := text;
          assert afterHeader == text0 + VersionInfo.LinksHeader + items;

          text := text + VersionInfo.ItemOpen;
          text := text + link.target;
          text := text + VersionInfo.ItemMiddle;
          text := text + (if link.title.None? || link.title.value == "" then link.target else link.title.value);
          text := text + VersionInfo.ItemClose;
          assert text == text0 + VersionInfo.LinksHeader + (items + VersionInfo.RenderLink(link)) by {
            VersionInfo.ItemAppended(afterHeader, link);
            VersionInfo.ConcatAssoc(text0 + VersionInfo.LinksHeader, items, VersionInfo.RenderLink(link));
          }
        }
      }
      assert links[..|links|] == links;

      if rendered {
        text := text + VersionInfo.LinksFooter;
        footerAppends := footerAppends + 1;
      }
      assert text == text0 + VersionInfo.LinksBlock(links) by {
        if rendered {
          ghost var items := VersionInfo.RenderLinks(VersionInfo.HtmlLinks(links));
          VersionInfo.ConcatAssoc(text0 + VersionInfo.LinksHeader, items, VersionInfo.LinksFooter);
          VersionInfo.ConcatAssoc(text0, VersionInfo.LinksHeader, items + VersionInfo.LinksFooter);
          VersionInfo.ConcatAssoc(VersionInfo.LinksHeader, items, VersionInfo.LinksFooter);
        }
      }
    }
  }

}
