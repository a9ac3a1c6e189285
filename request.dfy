/**
 * The OCSP request (section 4.1.1 of RFC 6960): its schema, the decoding
 * wrapper that refuses trailing data, and the lookup of the nonce extension.
 */
module RequestCodec {
  import opened Wrappers
  import opened Asn1
  import opened Ocsp

  /** id-pkix-ocsp-nonce, 1.3.6.1.5.5.7.48.1.2 */
  const OidOcspNonce: Oid := [1, 3, 6, 1, 5, 5, 7, 48, 1, 2]

  /** request: one certificate asked about, with its own extensions. */
  datatype SingleRequest = SingleRequest(reqCert: CertId, singleRequestExtensions: seq<Extension>)

  /** tbsRequest */
  datatype TbsRequest = TbsRequest(version: int, requestorName: RdnSequence,
                                   requestList: seq<SingleRequest>, extensionList: seq<Extension>)

  /** signature */
  datatype Signature = Signature(signatureAlgorithm: AlgorithmIdentifier, signature: BitString,
                                 certs: seq<seq<RawValue>>)

  datatype OcspRequest = OcspRequest(tbsRequest: TbsRequest, signature: Signature)
  {
    /**
     * OcspRequest.Nonce: the value of the first top-level extension whose
     * identifier is the nonce identifier, or None (Go's nil) when there is
     * none. Per-request extensions are never looked at.
     */
    method Nonce() returns (r: Option<seq<byte>>)
      ensures r == LookupValue(tbsRequest.extensionList, OidOcspNonce)
      ensures r.None? <==> forall j :: 0 <= j < |tbsRequest.extensionList| ==>
                                         tbsRequest.extensionList[j].id != OidOcspNonce
    {
      var exts := tbsRequest.extensionList;
      var i := 0;
      while i < |exts|
        invariant 0 <= i <= |exts|
        invariant forall j :: 0 <= j < i ==> exts[j].id != OidOcspNonce
      {
        var extension := exts[i];
        if extension.id == OidOcspNonce {
          FirstIndexOfAt(exts, OidOcspNonce, i);
          return Some(extension.value);
        }
        i := i + 1;
      }
      return None;
    }
  }

  /**
   * UnmarshalRequest: decoding fails with the codec's own error when the codec
   * fails, fails with a trailing-data error when input is left over, and
   * otherwise yields exactly the decoded request.
   */
  function UnmarshalRequest(unmarshal: Decoder<OcspRequest>, request: seq<byte>): (r: Result<OcspRequest, Error>)
    ensures unmarshal(request).Failure? ==> r == Failure(Codec(unmarshal(request).error))
    ensures unmarshal(request).Success? && unmarshal(request).value.rest != [] ==>
              r == Failure(TrailingData(RequestLayer))
    ensures r.Success? <==> unmarshal(request).Success? && unmarshal(request).value.rest == []
    ensures r.Success? ==> r.value == unmarshal(request).value.value
  {
    RejectTrailing(unmarshal(request), RequestLayer)
  }

  /**
   * A decoder that reads one value and reports whatever follows it as the rest
   * is refused on every encoding followed by a non-empty suffix.
   */
  lemma TrailingRequestRejected(unmarshal: Decoder<OcspRequest>, encoding: seq<byte>, suffix: seq<byte>, req: OcspRequest)
    requires unmarshal(encoding) == Success(Decoded(req, []))
    requires unmarshal(encoding + suffix) == Success(Decoded(req, suffix))
    requires suffix != []
    ensures UnmarshalRequest(unmarshal, encoding) == Success(req)
    ensures UnmarshalRequest(unmarshal, encoding + suffix) == Failure(TrailingData(RequestLayer))
  {
  }
}
