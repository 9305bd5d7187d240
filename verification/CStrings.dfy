/** Bytes and their values. */
module ByteValues {
  lemma ByteOf(c: nat)
    requires c < 256
    ensures (c as bv8) as nat == c
  {
  }

  lemma SameByte(c: nat, b: bv8)
    requires c < 256 && b as nat == c
    ensures b == c as bv8
  {
    assert (b as nat) as bv8 == b;
  }
}

/** C strings and the bytes they consist of. */
module CStrings {
  import opened ByteValues

  /** A character, taken as unsigned. */
  newtype CChar = c: int | 0 <= c < 256

  type CString = seq<CChar>

  /** The characters of a path as the bytes the checksum is taken of. */
  ghost predicate IsBytes(path: CString, bytes: seq<bv8>) {
    |bytes| == |path| && forall i | 0 <= i < |path| :: bytes[i] as int == path[i] as int
  }

  function Bytes(path: CString): seq<bv8> {
    seq(|path|, i requires 0 <= i < |path| => path[i] as bv8)
  }

  lemma BytesIff(path: CString, bytes: seq<bv8>)
    ensures bytes == Bytes(path) <==> IsBytes(path, bytes)
  {
    if bytes == Bytes(path) {
      forall i | 0 <= i < |path|
        ensures bytes[i] as int == path[i] as int
      {
        ByteOf(path[i] as nat);
      }
    }
    if IsBytes(path, bytes) {
      forall i | 0 <= i < |path|
        ensures bytes[i] == Bytes(path)[i]
      {
        SameByte(path[i] as nat, bytes[i]);
      }
    }
  }
}
