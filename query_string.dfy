/** The query-string sample's operation filter, which carries an API
    description's deprecation over to the generated operation. */
module QueryStringVersioningSample {

  import opened OpenApi
  import Deprecation

  /** SwaggerDefaultValues: an operation filter. The description's
      IsDeprecated() is computed by the API explorer and is an input. */
  class SwaggerDefaultValues {

    constructor ()
    {
    }

    method Apply(operation: OpenApiOperation, apiDescriptionIsDeprecated: bool)
      modifies operation`deprecated
      ensures operation.deprecated == Deprecation.Deprecate(old(operation.deprecated), apiDescriptionIsDeprecated)
      ensures old(operation.deprecated) ==> operation.deprecated
      ensures !apiDescriptionIsDeprecated ==> operation.deprecated == old(operation.deprecated)
    {
      operation.deprecated := operation.deprecated || apiDescriptionIsDeprecated;
    }

    /** Running the filter twice on the same operation leaves the flag as a
        single run does. */
    method ApplyTwice(operation: OpenApiOperation, apiDescriptionIsDeprecated: bool)
      modifies operation`deprecated
      ensures operation.deprecated == Deprecation.Deprecate(old(operation.deprecated), apiDescriptionIsDeprecated)
    {
      Apply(operation, apiDescriptionIsDeprecated);
      Apply(operation, apiDescriptionIsDeprecated);
    }
  }

}
