# OCSP message core — a Dafny model

This project models the in-memory logic of a Go package for Online Certificate
Status Protocol messages (section 4.1.1, section 4.2.1 and Appendix B.2 of
RFC 6960). It covers:

- the message schema: requests, the response envelope, basic responses, their
  single responses and the tri-state status (good, revoked, unknown) held in
  three independent slots;
- the status normalisation that `MarshalBasicResponse` applies to every single
  response in place before encoding;
- the nonce extension accessors (`OcspRequest.Nonce`, `BasicResponse.SetNonce`,
  `BasicResponse.GetNonce`) and `BasicResponse.ClearStatus`;
- the decoding wrappers' rejection of trailing data, and the envelope that
  `MarshalResponseFromBasic` builds around an encoded basic response.

The DER codec (Go's `encoding/asn1`) is foreign code. Every operation that
calls it takes it as a parameter: a `Decoder<T>` maps bytes to a decoded value
plus the unconsumed rest, or to a codec error. An `Encoder<T>` maps a value to
bytes or to a codec error. The model proves the package's own logic on top of
any such codec.

Modules: `Wrappers` (Option, Result), `Time` (the part of Go's `time.Time` used
here), `Asn1` (stand-ins for the `encoding/asn1` and `pkix` types, and the
first-match extension search), `Ocsp` (certificate identifier, error kinds),
`RequestCodec` (request.go), `ResponseCodec` (response.go). `BasicResponse` is a
class because its Go methods update it through a pointer. Its slice of single
responses is a `seq` field that the methods reassign entry by entry.
`OcspRequest` is a datatype because its one method only reads.

Behaviour of the code a reader may not expect:

- `SetNonce` on an entry that already carries a nonce extension leaves the list
  exactly as it was. The loop that finds the existing extension assigns to a
  copy, so the value is not replaced. A caller might expect the existing value to be
  replaced; it is not. `SetNonceTwice` states the behaviour as written.
- Normalisation does not always leave exactly one status. An entry that is both
  good and revoked, without the unknown marker, matches no branch and is kept
  as it is (`SettledEntryKept`). `Resolved` describes what normalisation
  actually guarantees: unknown appears only alone with zero revocation
  information, and an entry without unknown is good or revoked.
- The pre-pass loop of `MarshalResponseFromBasic` sets `Unknown` on copies of
  the entries, so it has no effect.
- The second trailing-data test in `UnmarshalResponseToBasic` re-tests the
  envelope's rest, which is already known to be empty, so that branch is dead.
  The payload's own trailing data is refused inside `UnmarshalBasicResponse`.
- Decoding to a basic response does not check the envelope's status or
  response type. It decodes whatever payload the envelope holds. An absent
  payload is the empty byte string.

## Model

| member | source | states |
|---|---|---|
| `ResponseCodec.RevokedInfo.IsEmpty` | response.go:70-75 | revocation information is absent exactly when its time is the zero instant, whatever its location and reason code |
| `Asn1.FirstIndexOf` | request.go:71-76 | the index found holds the searched identifier and no earlier index does; None exactly when no extension holds it |
| `Asn1.LookupValue` | response.go:228-235 | None exactly when no extension has the identifier; otherwise the value of the first one that does |
| `RequestCodec.OcspRequest.Nonce` | request.go:70-77 | returns the value of the first top-level extension with the nonce identifier 1.3.6.1.5.5.7.48.1.2, and None exactly when there is none (also for an empty list); per-request extensions are not consulted; the request is not changed |
| `RequestCodec.UnmarshalRequest` | request.go:44-54 | a codec error is returned unchanged; a non-empty remainder gives a trailing-data error; otherwise the result is exactly the decoded request |
| `RequestCodec.TrailingRequestRejected` | request.go:50-52 | for a decoder that reports what follows a value as the rest, an encoding decodes to its request and the same encoding followed by any non-empty suffix is refused as trailing data |
| `ResponseCodec.WithoutStatus` | response.go:238-242 | the status slots become good=false, unknown=false and zero revocation information, and every other field is kept |
| `ResponseCodec.Normalize` | response.go:155-183 | the result is resolved, keeps the certificate id, thisUpdate, nextUpdate and extensions, and equals the input exactly when the input is already resolved |
| `ResponseCodec.GoodWinsOverUnknown` | response.go:156-164 | good and unknown together give good, not unknown, with zero revocation information even if it was non-empty |
| `ResponseCodec.RevokedWinsOverUnknown` | response.go:165-173 | non-empty revocation information and unknown, without good, give revoked with the same information, not unknown, not good |
| `ResponseCodec.UnsetBecomesUnknown` | response.go:174-182 | neither good nor revocation information gives unknown, not good, and zero revocation information including the reason code |
| `ResponseCodec.SettledEntryKept` | response.go:155-185 | an entry without unknown that is good or revoked, or both, is left unchanged |
| `ResponseCodec.NormalizeIdempotent` | response.go:155-185 | normalising a normalised entry changes nothing |
| `ResponseCodec.ClearedBecomesUnknown` | response.go:174-182 | an entry whose status was cleared is normalised to unknown with everything else kept |
| `ResponseCodec.NormalizeAll` | response.go:155-185 | the loop keeps the number of entries and normalises each entry at its own position |
| `ResponseCodec.NormalizeAllIdempotent` | response.go:154-185 | running the loop over its own output changes nothing |
| `ResponseCodec.NormalizedValue` | response.go:154-185 | normalisation changes only the list of entries; version, responder id, producedAt, response extensions, signature algorithm, signature and certificates stay as they were |
| `ResponseCodec.NormalizedValueIdempotent` | response.go:154-185 | normalising a normalised basic response changes nothing |
| `ResponseCodec.BasicEnvelope` | response.go:128-134 | the envelope has status successful (0), response type 1.3.6.1.5.5.7.48.1.1 and the encoded basic response as payload |
| `ResponseCodec.EncodeFromBasic` | response.go:124-139 | a failure to encode the normalised basic response is returned as is; otherwise the result is the encoding of the envelope around that encoding |
| `ResponseCodec.WithNonce` | response.go:193-219 | a list with a nonce extension is returned unchanged; a list without one gets exactly one non-critical nonce extension with the given value appended after the existing extensions |
| `ResponseCodec.SetThenGetNonce` | response.go:222-236 | after setting a nonce on an entry without one, the first-match lookup returns the value that was set, empty values included |
| `ResponseCodec.SetNonceTwice` | response.go:203-208 | a second SetNonce with any value changes nothing, and the list grows by one only when it had no nonce |
| `ResponseCodec.BasicResponse.MarshalBasicResponse` | response.go:154-188 | the object afterwards holds the normalised value, and the result is the encoder applied to that value |
| `ResponseCodec.BasicResponse.MarshalResponseFromBasic` | response.go:118-140 | the object afterwards holds the normalised value, and the bytes returned are those of `EncodeFromBasic` on the original value |
| `ResponseCodec.BasicResponse.SetNonce` | response.go:190-220 | only the extension list of entry `index` changes, and it becomes the list described by `WithNonce`; the index must be in range |
| `ResponseCodec.BasicResponse.GetNonce` | response.go:222-236 | returns the value of the first nonce extension of entry `index`, or None; nothing changes |
| `ResponseCodec.BasicResponse.ClearStatus` | response.go:238-242 | only entry `index` changes, and only in its three status slots, which are reset to their zero values |
| `ResponseCodec.UnmarshalResponse` | response.go:77-88 | a codec error is returned unchanged; a non-empty remainder gives a trailing-data error; otherwise the result is exactly the decoded envelope |
| `ResponseCodec.UnmarshalBasicResponse` | response.go:142-152 | a codec error is returned unchanged; a non-empty remainder gives a trailing-data error; otherwise the result is exactly the decoded basic response |
| `ResponseCodec.UnmarshalResponseToBasic` | response.go:90-108 | envelope codec errors and envelope trailing data are refused first; otherwise the result is that of decoding the payload as a basic response; success exactly when both layers decode with nothing left over |
| `ResponseCodec.EncodeThenDecode` | response.go:118-140 | when the codec decodes its own two encodings back to the values encoded, encoding a basic response and decoding the wire bytes yields its normalised value |
| `ResponseCodec.GoodEntrySurvivesRoundTrip` | response.go:156-164 | a basic response with one good entry is recovered with one good, not unknown, entry for the same certificate and thisUpdate |

## Left out

- DER encoding and decoding (`asn1.Marshal` and `asn1.Unmarshal`) are foreign code and are parameters of the operations that call them. No round trip of the codec itself is proved; `EncodeThenDecode` takes the codec's behaviour on the values concerned as a hypothesis.
- `MarshalRequest` and `MarshalResponse` only forward to the encoder, so they are not modelled separately.
- The decoding wrappers return the decoded value rather than a pointer to a fresh object; a caller that wants the mutable form passes it to the `BasicResponse` constructor.
- Go's nil and empty slices are not distinguished, because the code tests only `len(...) == 0` on them. The nil results of `GetNonce` and `Nonce` are `None`.
- Error message strings are not modelled. A trailing-data error records only which of the three messages it names.
- A Go panic on an out-of-range `index` in `SetNonce`, `GetNonce` and `ClearStatus` becomes a precondition.
- `time.Time` is reduced to seconds since year 1, nanoseconds and a location. Time arithmetic and the monotonic clock reading are not modelled.
- Certificate ids, algorithm identifiers, bit strings, raw values (responder id, certificates), distinguished names and serial numbers are opaque payloads, compared only for preservation. A nil serial-number pointer is not modelled.
- `BasicResponse.MarshalBasicResponse`, `BasicResponse.SetNonce`, `BasicResponse.ClearStatus`: slices are modelled as values, so a copy of `Responses` or of an entry's `SingleExtensions` held elsewhere (another slice sharing the backing array, or spare capacity that `append` writes into) does not see the in-place writes that Go would make visible to it; aliasing between slices is not modelled.
- Concurrency does not arise: every operation is synchronous and works on a value its caller owns.
