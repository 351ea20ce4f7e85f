/** The bounded loops of the catalog bundle: hashing an open file and decompressing one frame. */
module BundleReads {
  import opened Bytes
  import opened Streams
  import opened Wrappers

  type Digest = seq<byte>

  datatype ReadError =
    | ReadFailed | BoundExceeded | PolicyRejected | CompressedSize | CompressedHash | FrameHeader
    | DatabaseSize | TrailingData | DatabaseHash | WriteFailed | StateDiffers

  const MEBIBYTE: nat := 1024 * 1024
  const MAX_COMPRESSED_BYTES: u64 := 8 * 1024 * 1024 * 1024
  const MAX_DATABASE_BYTES: u64 := 16 * 1024 * 1024 * 1024

  /** What bounded hashing means, with no loop: the whole file or a refusal. */
  function HashBounded(bytes: seq<byte>, maximum: u64, sha: seq<byte> -> Digest): Result<(Digest, nat), ReadError> {
    if |bytes| <= maximum then Ok((sha(bytes), |bytes|)) else Err(BoundExceeded)
  }

  function SaturatingSub(a: nat, b: nat): nat {
    if a >= b then a - b else 0
  }

  function Min(a: nat, b: nat): nat {
    if a <= b then a else b
  }

  /** However short the reads, the result is `HashBounded`, and no read reaches past maximum + 1 bytes. */
  method HashOpenFileBounded(file: Reader, maximum: u64, sha: seq<byte> -> Digest)
    returns (r: Result<(Digest, nat), ReadError>, ghost furthest: nat)
    requires file.Valid() && |file.bytes| <= U64_MAX
    modifies file
    ensures file.Valid()
    ensures r == HashBounded(file.bytes, maximum, sha) || (!file.reliable && r == Err(ReadFailed))
    ensures r.Ok? ==> |file.bytes| <= maximum && r.value == (sha(file.bytes), |file.bytes|)
    ensures file.reliable && |file.bytes| <= maximum ==> r.Ok?
    ensures furthest <= maximum + 1
    ensures r.Ok? ==> file.position == 0
  {
    file.Rewind();
    var hasher := new Hasher();
    var bytes: u64 := 0;
    furthest := 0;
    while true
      invariant file.Valid() && bytes == file.position <= maximum
      invariant hasher.fed == file.bytes[..file.position]
      invariant furthest <= maximum + 1
      decreases |file.bytes| - file.position
    {
      var remaining := Min(SaturatingAdd(SaturatingSub(maximum, bytes), 1), MEBIBYTE);
      furthest := if file.position + remaining > furthest then file.position + remaining else furthest;
      var read := file.Read(remaining);
      if read.None? {
        return Err(ReadFailed), furthest;
      }
      if read.value == [] {
        break;
      }
      bytes := SaturatingAdd(bytes, |read.value|);
      if bytes > maximum {
        return Err(BoundExceeded), furthest;
      }
      hasher.Update(read.value);
      assert file.bytes[..file.position] == file.bytes[..file.position - |read.value|] + read.value;
    }
    assert file.bytes[..file.position] == file.bytes;
    file.Rewind();
    r := Ok((sha(hasher.fed), bytes));
  }

  // ---------------------------------------------------------------- decompression

  /** What a single-frame decoder makes of some bytes: the content it can deliver, whether the frame
      then ends cleanly, and how many input bytes the frame took. */
  datatype Frame = Frame(content: seq<byte>, complete: bool, consumed: nat)

  datatype Manifest = Manifest(compressedBytes: u64, compressedSha: Digest, databaseBytes: u64, databaseSha: Digest)

  datatype Policy = Policy(maxCompressedBytes: u64, maxDatabaseBytes: u64)

  /** The size clauses of the verification policy. */
  predicate PolicyAccepts(m: Manifest, p: Policy) {
    && 0 < p.maxCompressedBytes <= MAX_COMPRESSED_BYTES
    && 0 < p.maxDatabaseBytes <= MAX_DATABASE_BYTES
    && m.compressedBytes <= p.maxCompressedBytes
    && m.databaseBytes <= p.maxDatabaseBytes
  }

  /** The streaming decoder: arbitrary pieces of the content, then end of frame or an error. */
  class Decoder {
    const frame: Frame
    const reliable: bool
    var position: nat

    ghost predicate Valid()
      reads this
    {
      position <= |frame.content|
    }

    constructor (frame: Frame, reliable: bool)
      ensures Valid() && position == 0 && this.frame == frame && this.reliable == reliable
    {
      this.frame, this.reliable, position := frame, reliable, 0;
    }

    method Read(limit: nat) returns (r: Option<seq<byte>>)
      requires Valid() && limit > 0
      modifies this`position
      ensures Valid()
      ensures r.None? ==> position == old(position)
      ensures r.None? && reliable ==> old(position) == |frame.content| && !frame.complete
      ensures r.Some? ==>
                && position == old(position) + |r.value| && |r.value| <= limit
                && r.value == frame.content[old(position)..position]
                && (r.value == [] <==> old(position) == |frame.content|)
                && (r.value == [] ==> frame.complete)
    {
      var fails: bool := *;
      if fails && !reliable {
        return None;
      }
      if position == |frame.content| {
        return if frame.complete then Some([]) else None;
      }
      var n: nat :| 1 <= n <= limit && position + n <= |frame.content|;
      r := Some(frame.content[position..position + n]);
      position := position + n;
    }
  }

  /** The private output file: a write that fails may still have written part of its piece. */
  class Output {
    const reliable: bool
    var written: seq<byte>

    constructor (reliable: bool)
      ensures written == [] && this.reliable == reliable
    {
      this.reliable, written := reliable, [];
    }

    method WriteAll(piece: seq<byte>) returns (ok: bool)
      modifies this
      ensures ok ==> written == old(written) + piece
      ensures old(written) <= written <= old(written) + piece
      ensures reliable ==> ok
    {
      var n: nat :| n <= |piece|;
      if reliable {
        n := |piece|;
      }
      written := written + piece[..n];
      ok := n == |piece|;
    }
  }

  /** What makes a bundle acceptable, with no loop and no order of checks. */
  ghost predicate Acceptable(bundle: seq<byte>, m: Manifest, p: Policy, decode: seq<byte> -> Frame,
                             header: seq<byte> -> Option<nat>, describes: seq<byte> -> bool,
                             sha: seq<byte> -> Digest)
  {
    && PolicyAccepts(m, p)
    && |bundle| == m.compressedBytes && sha(bundle) == m.compressedSha
    && header(bundle) == Some(m.databaseBytes)
    && decode(bundle).complete && decode(bundle).consumed == |bundle|
    && |decode(bundle).content| == m.databaseBytes && sha(decode(bundle).content) == m.databaseSha
    && describes(decode(bundle).content)
  }

  /** Spelled out: 8 GiB and 16 GiB at most, and what is read and written stays within the policy. */
  ghost predicate WithinPolicy(bundle: seq<byte>, m: Manifest, p: Policy) {
    && 0 < p.maxCompressedBytes <= 8589934592 && 0 < p.maxDatabaseBytes <= 17179869184
    && |bundle| <= p.maxCompressedBytes && m.databaseBytes <= p.maxDatabaseBytes
  }

  /** Spelled out: one whole frame, with the sizes and hashes that the manifest gives for bundle and content. */
  ghost predicate AsManifest(bundle: seq<byte>, content: seq<byte>, frame: Frame, m: Manifest,
                             sha: seq<byte> -> Digest)
  {
    && |bundle| == m.compressedBytes && sha(bundle) == m.compressedSha
    && frame.complete && frame.consumed == |bundle| && frame.content == content
    && |content| == m.databaseBytes && sha(content) == m.databaseSha
  }

  lemma AcceptableMeaning(bundle: seq<byte>, m: Manifest, p: Policy, decode: seq<byte> -> Frame,
                          header: seq<byte> -> Option<nat>, describes: seq<byte> -> bool, sha: seq<byte> -> Digest)
    ensures Acceptable(bundle, m, p, decode, header, describes, sha) <==>
              && WithinPolicy(bundle, m, p)
              && AsManifest(bundle, decode(bundle).content, decode(bundle), m, sha)
              && header(bundle) == Some(m.databaseBytes) && describes(decode(bundle).content)
  {
  }

  /** The decoding loop alone: never more bytes on disk than the manifest and the policy allow. */
  method DecodeInto(decoder: Decoder, output: Output, m: Manifest, p: Policy) returns (r: Result<(), ReadError>)
    requires decoder.Valid() && decoder.position == 0 && output.written == []
    requires p.maxDatabaseBytes <= MAX_DATABASE_BYTES
    modifies decoder, output
    ensures |output.written| <= Min(m.databaseBytes, p.maxDatabaseBytes)
    ensures r.Ok? ==> decoder.frame.complete && output.written == decoder.frame.content
    ensures decoder.reliable && output.reliable ==>
              (r.Ok? <==> decoder.frame.complete && |decoder.frame.content| <= Min(m.databaseBytes, p.maxDatabaseBytes))
  {
    var databaseBytes: u64 := 0;
    while true
      invariant decoder.Valid() && databaseBytes == decoder.position
      invariant output.written == decoder.frame.content[..decoder.position]
      invariant databaseBytes <= Min(m.databaseBytes, p.maxDatabaseBytes)
      decreases |decoder.frame.content| - decoder.position
    {
      var read := decoder.Read(MEBIBYTE);
      if read.None? {
        return Err(ReadFailed);
      }
      if read.value == [] {
        break;
      }
      databaseBytes := SaturatingAdd(databaseBytes, |read.value|);
      if databaseBytes > m.databaseBytes || databaseBytes > p.maxDatabaseBytes {
        return Err(DatabaseSize);
      }
      var wrote := output.WriteAll(read.value);
      if !wrote {
        return Err(WriteFailed);
      }
      assert decoder.frame.content[..decoder.position] ==
             decoder.frame.content[..decoder.position - |read.value|] + read.value;
    }
    assert decoder.frame.content[..decoder.position] == decoder.frame.content;
    return Ok(());
  }

  /** `decompress_opened`. The decoder, the header reader and the SQLite description are parameters. */
  method DecompressOpened(bundle: Reader, output: Output, m: Manifest, p: Policy, decode: seq<byte> -> Frame,
                          header: seq<byte> -> Option<nat>, describes: seq<byte> -> bool, sha: seq<byte> -> Digest)
    returns (r: Result<(), ReadError>)
    requires bundle.Valid() && |bundle.bytes| <= U64_MAX && output.written == []
    modifies bundle, output
    ensures |output.written| <= Min(m.databaseBytes, p.maxDatabaseBytes)
    ensures r.Ok? ==> Acceptable(bundle.bytes, m, p, decode, header, describes, sha)
                      && output.written == decode(bundle.bytes).content
    ensures bundle.reliable && output.reliable ==>
              (r.Ok? <==> Acceptable(bundle.bytes, m, p, decode, header, describes, sha))
    // Spelled out: success keeps to policy and manifest;
    ensures r.Ok? ==>
              && 0 < p.maxCompressedBytes <= 8589934592 && 0 < p.maxDatabaseBytes <= 17179869184
              && |bundle.bytes| <= p.maxCompressedBytes && |output.written| <= p.maxDatabaseBytes
              && AsManifest(bundle.bytes, output.written, decode(bundle.bytes), m, sha)
              && header(bundle.bytes) == Some(m.databaseBytes) && describes(output.written)
    // a bundle outside the policy is refused before anything is written, and too much content in any case;
    ensures !WithinPolicy(bundle.bytes, m, p) ==> r.Err? && output.written == []
    ensures |decode(bundle.bytes).content| > p.maxDatabaseBytes ==> r.Err?
    // and when nothing fails a bundle within both is accepted.
    ensures (bundle.reliable && output.reliable && WithinPolicy(bundle.bytes, m, p)
             && AsManifest(bundle.bytes, decode(bundle.bytes).content, decode(bundle.bytes), m, sha)
             && header(bundle.bytes) == Some(m.databaseBytes) && describes(decode(bundle.bytes).content)) ==> r.Ok?
  {
    AcceptableMeaning(bundle.bytes, m, p, decode, header, describes, sha);
    if !PolicyAccepts(m, p) {
      return Err(PolicyRejected);
    }
    if |bundle.bytes| != m.compressedBytes {
      return Err(CompressedSize);
    }
    var hashed, _ := HashOpenFileBounded(bundle, m.compressedBytes, sha);
    if hashed.Err? {
      return Err(hashed.error);
    }
    if hashed.value.1 != m.compressedBytes {
      return Err(CompressedSize);
    }
    if hashed.value.0 != m.compressedSha {
      return Err(CompressedHash);
    }
    if header(bundle.bytes) != Some(m.databaseBytes) {
      return Err(FrameHeader);
    }
    var frame := decode(bundle.bytes);
    var decoder := new Decoder(frame, bundle.reliable);
    var decoded := DecodeInto(decoder, output, m, p);
    if decoded.Err? {
      return decoded;
    }
    if frame.consumed != |bundle.bytes| {
      return Err(TrailingData);
    }
    if |output.written| != m.databaseBytes {
      return Err(DatabaseSize);
    }
    if sha(output.written) != m.databaseSha {
      return Err(DatabaseHash);
    }
    if !describes(output.written) {
      return Err(StateDiffers);
    }
    return Ok(());
  }
}
