/**
  * uuid/src/uuid.c on its buffers: the digest masked in place, the hexadecimal loop over a 33-byte buffer,
  * and the strncpy and strcat calls that splice in the hyphens.
  */
module UuidBuffers {
  import opened CStrings
  import opened UuidText

  /** The four middle steps of add_hyphen: four characters of the string through worker, then a hyphen. */
  method AppendGroup(out: array<char>, worker: array<char>, uuid: array<char>, off: nat,
                     ghost h: string, ghost done: string)
    requires out != worker && out != uuid && worker != uuid
    requires worker.Length == 16 && Holds(uuid[..], h) && off + 4 <= |h|
    requires Holds(out[..], done) && |done| + 5 < out.Length
    modifies out, worker
    ensures Holds(out[..], done + h[off..off + 4] + "-")
  {
    HoldsFrom(uuid[..], h, off);
    assert uuid[..][off..] == uuid[off..];
    StrNCpy(worker, uuid, off, 4, h[off..]);
    worker[4] := NUL;
    assert h[off..][..4] == h[off..off + 4];
    assert Holds(worker[..], h[off..off + 4]);
    StrCat(out, worker[..], done, h[off..off + 4]);
    StrCat(out, ['-', NUL], done + h[off..off + 4], "-");
  }

  /** add_hyphen stays inside its 44- and 16-byte buffers and leaves the digits in their groups. */
  method AddHyphen(uuid: array<char>, ghost h: string) returns (uuidHyphen: array<char>)
    requires uuid.Length == 33 && |h| == 32 && Holds(uuid[..], h)
    ensures fresh(uuidHyphen) && uuidHyphen.Length == 44
    ensures Holds(uuidHyphen[..], Grouped(h))
  {
    uuidHyphen := new char[44];
    var worker := new char[16];
    assert uuid[0..] == uuid[..];
    StrNCpy(uuidHyphen, uuid, 0, 8, h);
    uuidHyphen[8] := NUL;
    assert Holds(uuidHyphen[..], h[..8]);
    StrCat(uuidHyphen, ['-', NUL], h[..8], "-");
    AppendGroup(uuidHyphen, worker, uuid, 8, h, h[..8] + "-");
    AppendGroup(uuidHyphen, worker, uuid, 12, h, h[..8] + "-" + h[8..12] + "-");
    AppendGroup(uuidHyphen, worker, uuid, 16, h, h[..8] + "-" + h[8..12] + "-" + h[12..16] + "-");
    HoldsFrom(uuid[..], h, 20);
    assert uuid[..][20..] == uuid[20..];
    StrNCpy(worker, uuid, 20, 14, h[20..]);
    assert Holds(worker[..], h[20..]);
    StrCat(uuidHyphen, worker[..], h[..8] + "-" + h[8..12] + "-" + h[12..16] + "-" + h[16..20] + "-", h[20..]);
  }

  /**
    * gen_hash_string for any hash function: the buffer returned holds the text of the digest of the space
    * identifier followed by str.
    */
  method GenHashString(str: string, md5: string -> Digest) returns (uuid: array<char>)
    ensures fresh(uuid) && uuid.Length == 44
    ensures Holds(uuid[..], TextOf(md5("https://www.hms-networks.com/industrial-iot-solutions" + str)))
  {
    var d := md5(SPACE_ID + str);
    var digest := new bv8[16](i requires 0 <= i < 16 => d[i]);
    var output := new char[33];
    digest[4] := digest[4] & 0x0F;
    digest[4] := digest[4] | 0x30;
    digest[8] := digest[8] & 0x3F;
    digest[8] := digest[8] | 0xA0;
    assert digest[..] == Masked(d);
    WriteHex(digest, output);
    uuid := AddHyphen(output, HexText(Masked(d)));
  }

  /** The loop: each snprintf writes two digits and a NUL, which the next one overwrites. */
  method WriteHex(digest: array<bv8>, output: array<char>)
    requires digest.Length == 16 && output.Length == 33
    modifies output
    ensures Holds(output[..], HexText(digest[..]))
  {
    var i := 0;
    while i < 16
      invariant i <= 16
      invariant output[..2 * i] == HexText(digest[..i])
      invariant i > 0 ==> output[2 * i] == NUL
    {
      ghost var was := output[..];
      SnPrintf(output, i * 2, 16 * 2, HexPair(digest[i]));
      assert output[..2 * i] == was[..2 * i];
      assert output[2 * i..2 * i + 2] == HexPair(digest[i]);
      assert digest[..i + 1][..i] == digest[..i];
      i := i + 1;
    }
    assert digest[..16] == digest[..];
  }
}
