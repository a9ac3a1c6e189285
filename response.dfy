/**
 * The OCSP response (section 4.2.1 and Appendix B.2 of RFC 6960): the status
 * envelope, the basic response and its per-certificate entries, the status
 * normalisation run before encoding, the per-entry nonce accessors, and the
 * decoding wrappers that refuse trailing data.
 */
module ResponseCodec {
  import opened Wrappers
  import opened Time
  import opened Asn1
  import opened Ocsp
  import opened RequestCodec

  /** id-pkix-ocsp-basic, 1.3.6.1.5.5.7.48.1.1 */
  const OidOcspBasicResponse: Oid := [1, 3, 6, 1, 5, 5, 7, 48, 1, 1]

  /** OCSPResponseStatus successful, the only status this package sets. */
  const Successful: int := 0

  /** responseBytes */
  datatype ResponseBytes = ResponseBytes(responseType: Oid, response: seq<byte>)

  /** OcspResponse: the status envelope. */
  datatype OcspResponse = OcspResponse(responseStatus: int, responseBytes: ResponseBytes)

  /** RevokedInfo */
  datatype RevokedInfo = RevokedInfo(revocationTime: Instant, revocationReason: int)
  {
    /**
     * RevokedInfo.IsEmpty: revocation information counts as absent when its
     * time is the zero instant, in any location and with any reason code.
     */
    predicate IsEmpty()
      ensures IsEmpty() <==> revocationTime.seconds == 0 && revocationTime.nanos == 0
    {
      IsZero(revocationTime) || Equal(revocationTime, Time.Zero)
    }
  }

  /** RevokedInfo{} */
  const ZeroRevokedInfo: RevokedInfo := RevokedInfo(Time.Zero, 0)

  /**
   * singleResponse. The CHOICE of status is three independent slots: the
   * flags good and unknown and the revocation information, absent when empty.
   */
  datatype SingleResponse = SingleResponse(certId: CertId, good: bool, revoked: RevokedInfo, unknown: bool,
                                           thisUpdate: Instant, nextUpdate: Instant,
                                           singleExtensions: seq<Extension>)

  /** responseData */
  datatype ResponseData = ResponseData(version: int, responderId: RawValue, producedAt: Instant,
                                       responses: seq<SingleResponse>, responseExtensions: seq<Extension>)

  /** The value of a BasicResponse, as the codec reads and writes it. */
  datatype BasicResponseValue = BasicResponseValue(tbsResponseData: ResponseData,
                                                   signatureAlgorithm: AlgorithmIdentifier,
                                                   signature: BitString, certs: seq<RawValue>)

  // ---------------------------------------------------------------------------
  // Status normalisation

  /** Two entries agree on everything but their status slots. */
  predicate SameSubject(a: SingleResponse, b: SingleResponse) {
    a.certId == b.certId && a.thisUpdate == b.thisUpdate && a.nextUpdate == b.nextUpdate
    && a.singleExtensions == b.singleExtensions
  }

  /** The entry with its status slots at their zero values and all else kept. */
  function WithoutStatus(sr: SingleResponse): (s: SingleResponse)
    ensures SameSubject(s, sr)
    ensures !s.good && !s.unknown && s.revoked == ZeroRevokedInfo
  {
    sr.(good := false, revoked := ZeroRevokedInfo, unknown := false)
  }

  /**
   * The status slots are in the form normalisation leaves them in: either
   * unknown alone, with zero revocation information, or no unknown marker and
   * at least one of good and revoked.
   */
  predicate Resolved(sr: SingleResponse) {
    if sr.unknown then !sr.good && sr.revoked == ZeroRevokedInfo
    else sr.good || !sr.revoked.IsEmpty()
  }

  /**
   * The rewrite MarshalBasicResponse applies to each entry, by priority:
   * good and unknown gives good; revoked and unknown gives revoked; neither
   * good nor revoked gives unknown; anything else is kept. The rewritten entries
   * start from a zero singleResponse, so every slot the branch does not set is zero.
   * Its results are resolved, it keeps the subject of the entry, and it changes
   * exactly the entries that are not already resolved.
   */
  function Normalize(sr: SingleResponse): (s: SingleResponse)
    ensures SameSubject(s, sr)
    ensures Resolved(s)
    ensures s == sr <==> Resolved(sr)
  {
    var blank := WithoutStatus(sr);
    if sr.good && sr.unknown then blank.(good := true)
    else if !sr.revoked.IsEmpty() && sr.unknown then blank.(revoked := sr.revoked)
    else if !sr.good && sr.revoked.IsEmpty() then blank.(unknown := true)
    else sr
  }

  /** Good and unknown together resolve to good; any revocation information is dropped. */
  lemma GoodWinsOverUnknown(sr: SingleResponse)
    requires sr.good && sr.unknown
    ensures Normalize(sr).good && !Normalize(sr).unknown && Normalize(sr).revoked == ZeroRevokedInfo
  {
  }

  /** Revoked and unknown together, without good, resolve to revoked with the same information. */
  lemma RevokedWinsOverUnknown(sr: SingleResponse)
    requires !sr.good && !sr.revoked.IsEmpty() && sr.unknown
    ensures !Normalize(sr).good && !Normalize(sr).unknown && Normalize(sr).revoked == sr.revoked
  {
  }

  /** An entry with neither good nor revocation information becomes unknown, with the reason code reset too. */
  lemma UnsetBecomesUnknown(sr: SingleResponse)
    requires !sr.good && sr.revoked.IsEmpty()
    ensures Normalize(sr).unknown && !Normalize(sr).good && Normalize(sr).revoked == ZeroRevokedInfo
  {
  }

  /**
   * An entry without the unknown marker that is good or revoked is kept as it
   * is, even when it is both: the slots are then not mutually exclusive.
   */
  lemma SettledEntryKept(sr: SingleResponse)
    requires !sr.unknown && (sr.good || !sr.revoked.IsEmpty())
    ensures Normalize(sr) == sr
  {
  }

  lemma NormalizeIdempotent(sr: SingleResponse)
    ensures Normalize(Normalize(sr)) == Normalize(sr)
  {
  }

  /** A cleared entry is made unknown by normalisation. */
  lemma ClearedBecomesUnknown(sr: SingleResponse)
    ensures Normalize(WithoutStatus(sr)) == WithoutStatus(sr).(unknown := true)
  {
  }

  /** The normalisation loop over a list of entries. */
  function NormalizeAll(rs: seq<SingleResponse>): (out: seq<SingleResponse>)
    ensures |out| == |rs|
    ensures forall i :: 0 <= i < |rs| ==> out[i] == Normalize(rs[i])
  {
    if rs == [] then [] else [Normalize(rs[0])] + NormalizeAll(rs[1..])
  }

  lemma NormalizeAllIdempotent(rs: seq<SingleResponse>)
    ensures NormalizeAll(NormalizeAll(rs)) == NormalizeAll(rs)
  {
  }

  /** The basic response after normalisation: only the entries change. */
  function NormalizedValue(v: BasicResponseValue): (n: BasicResponseValue)
    ensures n.tbsResponseData.responses == NormalizeAll(v.tbsResponseData.responses)
    ensures n.(tbsResponseData := n.tbsResponseData.(responses := [])) ==
            v.(tbsResponseData := v.tbsResponseData.(responses := []))
  {
    v.(tbsResponseData := v.tbsResponseData.(responses := NormalizeAll(v.tbsResponseData.responses)))
  }

  lemma NormalizedValueIdempotent(v: BasicResponseValue)
    ensures NormalizedValue(NormalizedValue(v)) == NormalizedValue(v)
  {
  }

  // ---------------------------------------------------------------------------
  // Encoding

  /** The envelope MarshalResponseFromBasic wraps an encoded basic response in. */
  function BasicEnvelope(payload: seq<byte>): (env: OcspResponse)
    ensures env.responseStatus == Successful
    ensures env.responseBytes.responseType == OidOcspBasicResponse
    ensures env.responseBytes.response == payload
  {
    OcspResponse(Successful, ResponseBytes(OidOcspBasicResponse, payload))
  }

  /**
   * What MarshalResponseFromBasic produces from the value it is given:
   * the encoding of the envelope around the encoding of the normalised value,
   * or the first codec error.
   */
  function EncodeFromBasic(v: BasicResponseValue, marshalBasic: Encoder<BasicResponseValue>,
                           marshalResponse: Encoder<OcspResponse>): (r: Result<seq<byte>, CodecError>)
    ensures marshalBasic(NormalizedValue(v)).Failure? ==> r == Failure(marshalBasic(NormalizedValue(v)).error)
    ensures marshalBasic(NormalizedValue(v)).Success? ==>
              r == marshalResponse(BasicEnvelope(marshalBasic(NormalizedValue(v)).value))
  {
    match marshalBasic(NormalizedValue(v))
    case Failure(e) => Failure(e)
    case Success(b) => marshalResponse(BasicEnvelope(b))
  }

  // ---------------------------------------------------------------------------
  // Nonce extension of one entry

  /** A non-critical nonce extension. */
  function NonceExtension(nonce: seq<byte>): Extension {
    Extension(OidOcspNonce, false, nonce)
  }

  /**
   * The extension list SetNonce leaves behind: a new nonce extension appended
   * when the list holds none, and the list unchanged when it does, since the
   * loop that finds the existing one updates a copy.
   */
  function WithNonce(exts: seq<Extension>, nonce: seq<byte>): (r: seq<Extension>)
    ensures LookupValue(exts, OidOcspNonce).Some? ==> r == exts
    ensures LookupValue(exts, OidOcspNonce).None? ==> r == exts + [NonceExtension(nonce)]
  {
    if FirstIndexOf(exts, OidOcspNonce).Some? then exts else exts + [NonceExtension(nonce)]
  }

  /** After SetNonce on an entry without a nonce, the lookup finds the value that was set. */
  lemma SetThenGetNonce(exts: seq<Extension>, nonce: seq<byte>)
    requires LookupValue(exts, OidOcspNonce).None?
    ensures LookupValue(WithNonce(exts, nonce), OidOcspNonce) == Some(nonce)
  {
    FirstIndexOfAppend(exts, NonceExtension(nonce), OidOcspNonce);
  }

  /** A second SetNonce, with any value, changes nothing: no duplicate, no replacement. */
  lemma SetNonceTwice(exts: seq<Extension>, nonce: seq<byte>, other: seq<byte>)
    ensures WithNonce(WithNonce(exts, nonce), other) == WithNonce(exts, nonce)
    ensures |WithNonce(exts, nonce)| == if LookupValue(exts, OidOcspNonce).Some? then |exts| else |exts| + 1
  {
    if FirstIndexOf(exts, OidOcspNonce).None? {
      FirstIndexOfAppend(exts, NonceExtension(nonce), OidOcspNonce);
    }
  }

  /** The basic response value with entry `index` replaced. */
  function WithEntry(v: BasicResponseValue, index: int, s: SingleResponse): BasicResponseValue
    requires 0 <= index < |v.tbsResponseData.responses|
  {
    v.(tbsResponseData := v.tbsResponseData.(responses := v.tbsResponseData.responses[index := s]))
  }

  // ---------------------------------------------------------------------------
  // The mutable basic response

  /** BasicResponse, updated in place by its methods. */
  class BasicResponse {
    var tbsResponseData: ResponseData
    var signatureAlgorithm: AlgorithmIdentifier
    var signature: BitString
    var certs: seq<RawValue>

    /** The struct *basicResponse. */
    function Value(): BasicResponseValue
      reads this
    {
      BasicResponseValue(tbsResponseData, signatureAlgorithm, signature, certs)
    }

    constructor (v: BasicResponseValue)
      ensures Value() == v
    {
      tbsResponseData := v.tbsResponseData;
      signatureAlgorithm := v.signatureAlgorithm;
      signature := v.signature;
      certs := v.certs;
    }

    /**
     * MarshalBasicResponse: normalises every entry in place, then encodes the
     * basic response.
     */
    method MarshalBasicResponse(marshal: Encoder<BasicResponseValue>) returns (r: Result<seq<byte>, CodecError>)
      modifies this
      ensures Value() == NormalizedValue(old(Value()))
      ensures r == marshal(NormalizedValue(old(Value())))
    {
      var i := 0;
      while i < |tbsResponseData.responses|
        invariant 0 <= i <= |tbsResponseData.responses| == |old(tbsResponseData.responses)|
        invariant forall k :: 0 <= k < i ==> tbsResponseData.responses[k] == Normalize(old(tbsResponseData.responses[k]))
        invariant forall k :: i <= k < |tbsResponseData.responses| ==>
                    tbsResponseData.responses[k] == old(tbsResponseData.responses[k])
        invariant tbsResponseData.(responses := []) == old(tbsResponseData).(responses := [])
        invariant signatureAlgorithm == old(signatureAlgorithm) && signature == old(signature) && certs == old(certs)
      {
        var sr := tbsResponseData.responses[i];
        if sr.good && sr.unknown {
          var s := SingleResponse(sr.certId, true, ZeroRevokedInfo, false, sr.thisUpdate, sr.nextUpdate, sr.singleExtensions);
          tbsResponseData := tbsResponseData.(responses := tbsResponseData.responses[i := s]);
        } else if !sr.revoked.IsEmpty() && sr.unknown {
          var s := SingleResponse(sr.certId, false, sr.revoked, false, sr.thisUpdate, sr.nextUpdate, sr.singleExtensions);
          tbsResponseData := tbsResponseData.(responses := tbsResponseData.responses[i := s]);
        } else if !sr.good && sr.revoked.IsEmpty() {
          var s := SingleResponse(sr.certId, false, ZeroRevokedInfo, true, sr.thisUpdate, sr.nextUpdate, sr.singleExtensions);
          tbsResponseData := tbsResponseData.(responses := tbsResponseData.responses[i := s]);
        }
        i := i + 1;
      }
      r := marshal(Value());
    }

    /**
     * MarshalResponseFromBasic: its first loop sets unknown on copies of the
     * entries and so changes nothing; the basic response is then normalised and
     * encoded, and the encoding is wrapped in a successful envelope of the
     * basic-response type and encoded in turn.
     */
    method MarshalResponseFromBasic(marshalBasic: Encoder<BasicResponseValue>, marshalResponse: Encoder<OcspResponse>)
      returns (r: Result<seq<byte>, CodecError>)
      modifies this
      ensures Value() == NormalizedValue(old(Value()))
      ensures r == EncodeFromBasic(old(Value()), marshalBasic, marshalResponse)
    {
      var responses := tbsResponseData.responses;
      for k := 0 to |responses| {
        var sr := responses[k];
        if !sr.good && sr.revoked.IsEmpty() {
          sr := sr.(unknown := true);
        }
      }
      var b := MarshalBasicResponse(marshalBasic);
      if b.Failure? {
        return Failure(b.error);
      }
      var response := OcspResponse(Successful, ResponseBytes(OidOcspBasicResponse, b.value));
      r := marshalResponse(response);
    }

    /**
     * SetNonce: appends a non-critical nonce extension to entry `index` when
     * it has none; when it has one, the entry is left as it was.
     */
    method SetNonce(index: int, nonce: seq<byte>)
      requires 0 <= index < |tbsResponseData.responses|
      modifies this
      ensures Value() == WithEntry(old(Value()), index,
                          old(tbsResponseData.responses[index]).(singleExtensions :=
                            WithNonce(old(tbsResponseData.responses[index].singleExtensions), nonce)))
    {
      var done := false;
      var extList := tbsResponseData.responses[index].singleExtensions;
      if |extList| == 0 {
        extList := extList + [NonceExtension(nonce)];
        done := true;
      } else {
        var k := 0;
        while k < |extList|
          invariant 0 <= k <= |extList|
          invariant extList == old(tbsResponseData.responses[index].singleExtensions)
          invariant done <==> exists j :: 0 <= j < k && extList[j].id == OidOcspNonce
        {
          var extension := extList[k];
          if extension.id == OidOcspNonce {
            extension := extension.(value := nonce);
            done := true;
          }
          k := k + 1;
        }
        if !done {
          extList := extList + [NonceExtension(nonce)];
        }
      }
      tbsResponseData := tbsResponseData.(responses :=
        tbsResponseData.responses[index := tbsResponseData.responses[index].(singleExtensions := extList)]);
    }

    /**
     * GetNonce: the value of the first nonce extension of entry `index`, or
     * None when it has none.
     */
    method GetNonce(index: int) returns (r: Option<seq<byte>>)
      requires 0 <= index < |tbsResponseData.responses|
      ensures r == LookupValue(tbsResponseData.responses[index].singleExtensions, OidOcspNonce)
    {
      var extList := tbsResponseData.responses[index].singleExtensions;
      if |extList| == 0 {
        return None;
      } else {
        var k := 0;
        while k < |extList|
          invariant 0 <= k <= |extList|
          invariant forall j :: 0 <= j < k ==> extList[j].id != OidOcspNonce
        {
          var extension := extList[k];
          if extension.id == OidOcspNonce {
            FirstIndexOfAt(extList, OidOcspNonce, k);
            return Some(extension.value);
          }
          k := k + 1;
        }
      }
      return None;
    }

    /** ClearStatus: resets the three status slots of entry `index` and nothing else. */
    method ClearStatus(index: int)
      requires 0 <= index < |tbsResponseData.responses|
      modifies this
      ensures Value() == WithEntry(old(Value()), index, WithoutStatus(old(tbsResponseData.responses[index])))
    {
      var sr := tbsResponseData.responses[index];
      sr := sr.(good := false);
      sr := sr.(unknown := false);
      sr := sr.(revoked := ZeroRevokedInfo);
      tbsResponseData := tbsResponseData.(responses := tbsResponseData.responses[index := sr]);
    }
  }

  // ---------------------------------------------------------------------------
  // Decoding

  /** UnmarshalResponse: the envelope alone, with the trailing-data refusal. */
  function UnmarshalResponse(unmarshal: Decoder<OcspResponse>, response: seq<byte>): (r: Result<OcspResponse, Error>)
    ensures unmarshal(response).Failure? ==> r == Failure(Codec(unmarshal(response).error))
    ensures unmarshal(response).Success? && unmarshal(response).value.rest != [] ==>
              r == Failure(TrailingData(ResponseLayer))
    ensures r.Success? <==> unmarshal(response).Success? && unmarshal(response).value.rest == []
    ensures r.Success? ==> r.value == unmarshal(response).value.value
  {
    RejectTrailing(unmarshal(response), ResponseLayer)
  }

  /** UnmarshalBasicResponse: a basic response alone, with the trailing-data refusal. */
  function UnmarshalBasicResponse(unmarshal: Decoder<BasicResponseValue>, basicResponse: seq<byte>)
    : (r: Result<BasicResponseValue, Error>)
    ensures unmarshal(basicResponse).Failure? ==> r == Failure(Codec(unmarshal(basicResponse).error))
    ensures unmarshal(basicResponse).Success? && unmarshal(basicResponse).value.rest != [] ==>
              r == Failure(TrailingData(BasicResponseLayer))
    ensures r.Success? <==> unmarshal(basicResponse).Success? && unmarshal(basicResponse).value.rest == []
    ensures r.Success? ==> r.value == unmarshal(basicResponse).value.value
  {
    RejectTrailing(unmarshal(basicResponse), BasicResponseLayer)
  }

  /**
   * UnmarshalResponseToBasic: decodes the envelope, refuses trailing data
   * after it, then decodes its payload as a basic response. Its final
   * trailing-data test looks at the envelope's rest again, which is empty by
   * then, so that branch is never taken; the payload's own trailing data is
   * refused inside UnmarshalBasicResponse.
   */
  function UnmarshalResponseToBasic(unmarshalResponse: Decoder<OcspResponse>, unmarshalBasic: Decoder<BasicResponseValue>,
                                    response: seq<byte>): (r: Result<BasicResponseValue, Error>)
    ensures unmarshalResponse(response).Failure? ==> r == Failure(Codec(unmarshalResponse(response).error))
    ensures unmarshalResponse(response).Success? && unmarshalResponse(response).value.rest != [] ==>
              r == Failure(TrailingData(ResponseLayer))
    ensures unmarshalResponse(response).Success? && unmarshalResponse(response).value.rest == [] ==>
              r == UnmarshalBasicResponse(unmarshalBasic, unmarshalResponse(response).value.value.responseBytes.response)
    ensures r.Success? <==>
              && unmarshalResponse(response).Success? && unmarshalResponse(response).value.rest == []
              && unmarshalBasic(unmarshalResponse(response).value.value.responseBytes.response).Success?
              && unmarshalBasic(unmarshalResponse(response).value.value.responseBytes.response).value.rest == []
  {
    match unmarshalResponse(response)
    case Failure(e) => Failure(Codec(e))
    case Success(Decoded(ocspResponse, rest)) =>
      if |rest| > 0 then Failure(TrailingData(ResponseLayer))
      else match UnmarshalBasicResponse(unmarshalBasic, ocspResponse.responseBytes.response)
        case Failure(e) => Failure(e)
        case Success(basic) =>
          if |rest| > 0 then Failure(TrailingData(BasicResponseLayer)) else Success(basic)
  }

  /**
   * Encoding a basic response into an envelope and decoding it back yields
   * the normalised value, provided the codec decodes each of the two encodings
   * it produced to the value it encoded, with nothing left over.
   */
  lemma EncodeThenDecode(v: BasicResponseValue,
                         marshalBasic: Encoder<BasicResponseValue>, marshalResponse: Encoder<OcspResponse>,
                         unmarshalResponse: Decoder<OcspResponse>, unmarshalBasic: Decoder<BasicResponseValue>,
                         payload: seq<byte>, wire: seq<byte>)
    requires marshalBasic(NormalizedValue(v)) == Success(payload)
    requires marshalResponse(BasicEnvelope(payload)) == Success(wire)
    requires unmarshalResponse(wire) == Success(Decoded(BasicEnvelope(payload), []))
    requires unmarshalBasic(payload) == Success(Decoded(NormalizedValue(v), []))
    ensures EncodeFromBasic(v, marshalBasic, marshalResponse) == Success(wire)
    ensures UnmarshalResponseToBasic(unmarshalResponse, unmarshalBasic, wire) == Success(NormalizedValue(v))
  {
  }

  /**
   * A basic response with one good entry comes back from the round trip with
   * a good, not unknown, entry for the same certificate and thisUpdate.
   */
  lemma GoodEntrySurvivesRoundTrip(v: BasicResponseValue, sr: SingleResponse,
                                   marshalBasic: Encoder<BasicResponseValue>, marshalResponse: Encoder<OcspResponse>,
                                   unmarshalResponse: Decoder<OcspResponse>, unmarshalBasic: Decoder<BasicResponseValue>,
                                   payload: seq<byte>, wire: seq<byte>)
    requires v.tbsResponseData.responses == [sr] && sr.good
    requires marshalBasic(NormalizedValue(v)) == Success(payload)
    requires marshalResponse(BasicEnvelope(payload)) == Success(wire)
    requires unmarshalResponse(wire) == Success(Decoded(BasicEnvelope(payload), []))
    requires unmarshalBasic(payload) == Success(Decoded(NormalizedValue(v), []))
    ensures UnmarshalResponseToBasic(unmarshalResponse, unmarshalBasic, wire).Success?
    ensures var got := UnmarshalResponseToBasic(unmarshalResponse, unmarshalBasic, wire).value.tbsResponseData.responses;
            |got| == 1 && got[0].good && !got[0].unknown
            && got[0].certId == sr.certId && got[0].thisUpdate == sr.thisUpdate
  {
  }
}
