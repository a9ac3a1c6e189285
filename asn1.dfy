/**
 * Stand-ins for the types of Go's encoding/asn1 and crypto/x509/pkix that
 * appear in OCSP messages. The DER codec itself is foreign code: a decoder is
 * a function from bytes to a value plus the bytes it left unconsumed, an
 * encoder a function from a value to bytes; both may fail.
 */
module Asn1 {
  import opened Wrappers

  newtype byte = b: int | 0 <= b < 256

  /** asn1.ObjectIdentifier; ObjectIdentifier.Equal is equality of the arcs. */
  type Oid = seq<nat>

  /** pkix.Extension */
  datatype Extension = Extension(id: Oid, critical: bool, value: seq<byte>)

  /** asn1.RawValue, kept as its full DER bytes. */
  datatype RawValue = RawValue(fullBytes: seq<byte>)

  /** asn1.BitString */
  datatype BitString = BitString(bytes: seq<byte>, bitLength: int)

  /** pkix.AlgorithmIdentifier */
  datatype AlgorithmIdentifier = AlgorithmIdentifier(algorithm: Oid, parameters: RawValue)

  /** pkix.RDNSequence, kept as its DER bytes. */
  datatype RdnSequence = RdnSequence(der: seq<byte>)

  /** An error reported by the codec; its text is not modelled. */
  datatype CodecError = CodecError(detail: string)

  /** What asn1.Unmarshal returns on success: the value and the rest of the input. */
  datatype Decoded<T> = Decoded(value: T, rest: seq<byte>)

  /** asn1.Unmarshal for one target type. */
  type Decoder<T> = seq<byte> -> Result<Decoded<T>, CodecError>

  /** asn1.Marshal for one source type. */
  type Encoder<!T> = T -> Result<seq<byte>, CodecError>

  /**
   * The index of the first extension whose identifier is `oid`, or None when
   * no extension carries it. This is the first-match search both nonce
   * accessors run.
   */
  function FirstIndexOf(exts: seq<Extension>, oid: Oid): (r: Option<nat>)
    ensures r.Some? ==> r.value < |exts| && exts[r.value].id == oid
    ensures r.Some? ==> forall j :: 0 <= j < r.value ==> exts[j].id != oid
    ensures r.None? <==> forall j :: 0 <= j < |exts| ==> exts[j].id != oid
  {
    if exts == [] then None
    else if exts[0].id == oid then Some(0)
    else match FirstIndexOf(exts[1..], oid)
      case None => None
      case Some(k) => Some(k + 1)
  }

  /** The value of the first extension carrying `oid`, if any. */
  function LookupValue(exts: seq<Extension>, oid: Oid): (r: Option<seq<byte>>)
    ensures r.None? <==> forall j :: 0 <= j < |exts| ==> exts[j].id != oid
    ensures r.Some? ==> exists k :: 0 <= k < |exts| && exts[k].id == oid && exts[k].value == r.value
                                   && forall j :: 0 <= j < k ==> exts[j].id != oid
  {
    match FirstIndexOf(exts, oid)
    case None => None
    case Some(k) => Some(exts[k].value)
  }

  /** Appending an extension after a list that lacks `oid` makes it the first match exactly when it carries `oid`. */
  lemma {:induction false} FirstIndexOfAppend(exts: seq<Extension>, x: Extension, oid: Oid)
    requires FirstIndexOf(exts, oid).None?
    ensures FirstIndexOf(exts + [x], oid) == if x.id == oid then Some(|exts|) else None
  {
    if exts != [] {
      assert (exts + [x])[1..] == exts[1..] + [x];
      FirstIndexOfAppend(exts[1..], x, oid);
    }
  }

  /** A position holding `oid` with no earlier one is what FirstIndexOf finds. */
  lemma FirstIndexOfAt(exts: seq<Extension>, oid: Oid, i: nat)
    requires i < |exts| && exts[i].id == oid
    requires forall j :: 0 <= j < i ==> exts[j].id != oid
    ensures FirstIndexOf(exts, oid) == Some(i)
  {
  }
}
