/** Package-wide entities of the OCSP package: the certificate identifier and the error kinds. */
module Ocsp {
  import opened Wrappers
  import opened Asn1

  /** certID: which certificate a request or response is about. It has no behaviour. */
  datatype CertId = CertId(hashAlgorithm: AlgorithmIdentifier, nameHash: seq<byte>,
                           issuerKeyHash: seq<byte>, serialNumber: int)

  /** Which message a trailing-data error names. */
  datatype Layer = RequestLayer | ResponseLayer | BasicResponseLayer

  /** The errors the decoding wrappers return: the codec's own, passed on unchanged, or trailing data. */
  datatype Error = Codec(cause: CodecError) | TrailingData(layer: Layer)

  /**
   * The shared decision of the decoding wrappers: a codec error is returned
   * as it is, a decoded value with unconsumed input is refused, and otherwise
   * the decoded value is the result.
   */
  function RejectTrailing<T>(d: Result<Decoded<T>, CodecError>, layer: Layer): Result<T, Error>
  {
    match d
    case Failure(e) => Failure(Codec(e))
    case Success(Decoded(v, rest)) =>
      if |rest| > 0 then Failure(TrailingData(layer)) else Success(v)
  }
}
