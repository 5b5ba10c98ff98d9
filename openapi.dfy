/** The parts of the OpenAPI object model that the samples read or write:
    the document's info record, the document itself and one operation. */
module OpenApi {

  /** The info record of a generated document (title, version, description). */
  datatype OpenApiInfo = OpenApiInfo(title: string, version: string, description: string)

  /** A generated OpenAPI document; the samples only ever replace its Info. */
  class OpenApiDocument {
    var info: OpenApiInfo

    constructor (info: OpenApiInfo)
      ensures this.info == info
    {
      this.info := info;
    }
  }

  /** One operation of a generated document. Besides the deprecated flag it
      carries the other fields a transformer could touch, so that the
      transformers can be shown to leave them alone. */
  class OpenApiOperation {
    var operationId: string
    var summary: string
    var description: string
    var deprecated: bool

    constructor (operationId: string, summary: string, description: string, deprecated: bool)
      ensures this.operationId == operationId && this.summary == summary
      ensures this.description == description && this.deprecated == deprecated
    {
      this.operationId := operationId;
      this.summary := summary;
      this.description := description;
      this.deprecated := deprecated;
    }
  }

}
