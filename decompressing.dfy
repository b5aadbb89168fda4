/** tools/decompressing.py: the byte-level helpers around the save container.
    gzip, base64 and AES are not part of this model; what is modelled is the XOR
    obfuscation, the 16-byte block padding (PKCS #7 style, section 6.3 of
    RFC 5652) and the choice between the two decryption paths. */
module Decompressing {
  import opened Wrappers

  type Bytes = seq<bv8>

  /** `_xor_bytes(data, value)`: every byte XOR-ed with the key byte. */
  function XorBytes(data: Bytes, value: bv8): Bytes {
    seq(|data|, i requires 0 <= i < |data| => data[i] ^ value)
  }

  /** XOR with a fixed key keeps the length, changes each byte only through
      the key, and undoes itself. */
  lemma XorBytesInvolution(data: Bytes, value: bv8)
    ensures |XorBytes(data, value)| == |data|
    ensures forall i :: 0 <= i < |data| ==> XorBytes(data, value)[i] ^ value == data[i]
    ensures XorBytes(XorBytes(data, value), value) == data
  {
    forall i | 0 <= i < |data|
      ensures XorBytes(XorBytes(data, value), value)[i] == data[i]
    {
      XorByteTwice(data[i], value);
    }
  }

  lemma XorByteTwice(b: bv8, value: bv8)
    ensures (b ^ value) ^ value == b
  {
  }

  /** `_remove_pad(save)`: the last byte `p` names the padding length; for
      `p <= 16` the slice `save[:-p]` drops the last `p` bytes, which for `p == 0`
      is `save[:0]`, the empty string, and for `p` longer than the data is empty
      too. An empty input has no last byte (IndexError). */
  function RemovePad(save: Bytes): (r: Result<Bytes>)
    ensures save == [] <==> r == Err(IndexError)
    ensures r.Ok? ==> r.value <= save
    ensures r.Ok? && save[|save| - 1] > 16 ==> r.value == save
    ensures r.Ok? && 0 < save[|save| - 1] as int <= 16 && save[|save| - 1] as int <= |save| ==>
      |r.value| == |save| - save[|save| - 1] as int
    ensures r.Ok? && save[|save| - 1] == 0 ==> r.value == []
    ensures r.Ok? && save[|save| - 1] as int <= 16 && save[|save| - 1] as int >= |save| ==> r.value == []
  {
    if |save| == 0 then Err(IndexError)
    else
      var pad := save[|save| - 1] as int;
      if pad <= 16 then
        if pad == 0 || pad >= |save| then Ok([]) else Ok(save[..|save| - pad])
      else Ok(save)
  }

  /** The pad length of `encrypt_save_xml`: `((-len(data) - 1) % 16) + 1`. */
  function PadLength(n: nat): int {
    ((-(n as int) - 1) % 16) + 1
  }

  /** The pad length lies in 1..16 and brings the length to a multiple of 16. */
  lemma PadLengthBounds(n: nat)
    ensures 1 <= PadLength(n) <= 16
    ensures (n + PadLength(n)) % 16 == 0
  {
    var m := (-(n as int) - 1) % 16;
    var q := (-(n as int) - 1) / 16;
    assert -(n as int) - 1 == 16 * q + m;
    assert n + m + 1 == -16 * q;
    assert (n + PadLength(n)) == 16 * (-q);
  }

  /** `data + bytes((pad,)) * pad`. */
  function Padded(data: Bytes): Bytes {
    PadLengthBounds(|data|);
    data + seq(PadLength(|data|), _ => PadLength(|data|) as bv8)
  }

  /** Removing the padding of padded data gives the data back. */
  lemma RemovePadded(data: Bytes)
    ensures RemovePad(Padded(data)) == Ok(data)
  {
    PadLengthBounds(|data|);
    var p := Padded(data);
    assert p[|p| - 1] as int == PadLength(|data|);
    assert p[..|p| - PadLength(|data|)] == data;
  }

  /** The two decryption paths of `decrypt_save_xml`. */
  datatype DecryptPath =
    | XorPath(unxored: Bytes)  // XOR with 11, then `decompress`
    | AesPath                  // AES-ECB, then `_remove_pad`

  /** `decrypt_save_xml`: a first byte of 67 (`'C'`) selects the XOR-11 path,
      anything else the AES path; an empty input has no first byte. */
  function DecryptDispatch(data: Bytes): (r: Result<DecryptPath>)
    ensures data == [] <==> r.Err?
    ensures r.Ok? ==> (r.value.XorPath? <==> data[0] == 67)
    ensures r.Ok? && r.value.XorPath? ==> r.value.unxored == XorBytes(data, 11)
  {
    if |data| == 0 then Err(IndexError)
    else if data[0] == 67 then Ok(XorPath(XorBytes(data, 11)))
    else Ok(AesPath)
  }

  /** The non-iOS branch of `encrypt_save_xml` XORs the output of `compress`,
      which always starts with `'H'` (72); 72 XOR 11 is 67, so decryption takes
      the XOR path and recovers the compressed bytes. */
  lemma EncryptedTakesXorPath(compressed: Bytes)
    requires |compressed| > 0 && compressed[0] == 72
    ensures DecryptDispatch(XorBytes(compressed, 11)) == Ok(XorPath(compressed))
  {
    XorBytesInvolution(compressed, 11);
    assert XorBytes(compressed, 11)[0] == 72 ^ 11;
    XorByteValue();
  }

  lemma XorByteValue()
    ensures (72 as bv8) ^ 11 == 67
  {
  }
}
