/**
 * The read-only view of a Cornice service that the CORS code and the
 * fallback view consult. How these lists and lookups are computed from the
 * service's declared views is not part of this model: they are given.
 */
module Policy {
  import opened Optional

  /** One entry of `service.definitions`: its request method, and whether its
      arguments carry an `accept` key. */
  datatype Definition = Definition(verb: string, hasAccept: bool)

  datatype Service = Service(
    name: string,
    /** `service.defined_methods` */
    definedMethods: seq<string>,
    /** `service.definitions` */
    definitions: seq<Definition>,
    /** `service.get_acceptable(method, filter_callables=True)` */
    acceptableFor: string -> seq<string>,
    /** `service.cors_supported_methods` */
    corsSupportedMethods: seq<string>,
    /** `service.cors_supported_headers` */
    corsSupportedHeaders: seq<string>,
    /** `service.cors_supported_origins` */
    corsSupportedOrigins: seq<string>,
    /** `service.cors_origins_for(method)` */
    corsOriginsFor: string -> seq<string>,
    /** `service.cors_max_age_for(method)`, `None` when not configured */
    corsMaxAgeFor: string -> Option<int>,
    /** `service.cors_support_credentials(method)` */
    corsSupportCredentials: string -> bool)
}
