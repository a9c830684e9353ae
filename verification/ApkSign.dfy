/** The APK signing-block check of kernel/manager/apk_sign.c on the bytes of a file, against a
    builder of signed files: the APK Signing Block of the AOSP APK Signature Scheme v2 inside a
    ZIP file (sections 4.3.15 and 4.3.16 of PKWARE APPNOTE.TXT). */
module ApkFormat {
  import opened Bytes

  const INT_MAX: nat := 0x7fff_ffff
  const EOCD_MAGIC: nat := 0x06054b50
  const ZIP64_LOCATOR_MAGIC: nat := 0x07064b50
  const V2_ID: nat := 0x7109871a
  const PADDING_ID: nat := 0x42726577
  const CERT_MAX_LENGTH: nat := 1024
  // "APK Sig Block 42"
  const BLOCK_MAGIC: ByteSeq := [65, 80, 75, 32, 83, 105, 103, 32, 66, 108, 111, 99, 107, 32, 52, 50]

  function U(f: ByteSeq, pos: nat, n: nat): nat
    requires pos + n <= |f|
  {
    LeValue(f[pos..pos + n])
  }

  // ---- length-prefixed values -------------------------------------------------------------

  function Lp(x: ByteSeq): ByteSeq {
    LeBytes(|x|, 4) + x
  }

  /** read_length_prefixed_end: the value at the front of a container, and what follows it. */
  function ReadLp(b: ByteSeq): (r: Option<(ByteSeq, ByteSeq)>)
    ensures r.Some? ==> |r.value.0| + |r.value.1| + 4 == |b|
  {
    if |b| < 4 then None
    else
      var len := U(b, 0, 4);
      if len > INT_MAX || len > |b| - 4 then None else Some((b[4..4 + len], b[4 + len..]))
  }

  /** A container starts with a value exactly when it is that value, prefixed, and a rest. */
  lemma {:induction false} ReadLpIff(b: ByteSeq, x: ByteSeq, rest: ByteSeq)
    ensures ReadLp(b) == Some((x, rest)) <==> b == Lp(x) + rest && |x| <= INT_MAX
  {
    hide LeBytes, LeValue, Range;
    RangeValues();
    if b == Lp(x) + rest && |x| <= INT_MAX {
      LeRoundTrip(|x|, 4);
      assert b[0..4] == LeBytes(|x|, 4) && b[4..4 + |x|] == x && b[4 + |x|..] == rest;
    }
    if ReadLp(b) == Some((x, rest)) {
      LeCanonical(b[0..4]);
      assert b == b[0..4] + (b[4..4 + |x|] + b[4 + |x|..]);
    }
  }

  // ---- the v2 block -------------------------------------------------------------------------

  /** What is expected of a signer; `sha` is the hash in hex, None where hashing fails. */
  datatype Expected = Expected(size: nat, hash: seq<char>, sha: ByteSeq -> Option<seq<char>>)

  predicate CertOk(cert: ByteSeq, e: Expected) {
    |cert| == e.size && |cert| <= CERT_MAX_LENGTH && e.sha(cert) == Some(e.hash)
  }

  /** A v2 block: a sequence of signers; the first signer's signed data holds digests and then
      certificates. Everything after the first signer's first certificate is left open. */
  datatype V2Block = V2Block(digests: ByteSeq, cert: ByteSeq, moreCerts: ByteSeq, moreData: ByteSeq,
                             signerRest: ByteSeq, moreSigners: ByteSeq, trailer: ByteSeq)

  function CertList(v: V2Block): ByteSeq { Lp(v.cert) + v.moreCerts }

  function SignedData(v: V2Block): ByteSeq { Lp(v.digests) + (Lp(CertList(v)) + v.moreData) }

  function Signer(v: V2Block): ByteSeq { Lp(SignedData(v)) + v.signerRest }

  function Signers(v: V2Block): ByteSeq { Lp(Signer(v)) + v.moreSigners }

  function BuildV2(v: V2Block): ByteSeq { Lp(Signers(v)) + v.trailer }

  /** check_block, on the bytes of one pair. */
  function CheckBlock(b: ByteSeq, e: Expected): bool {
    match ReadLp(b)
    case None => false
    case Some((signers, _)) =>
      match ReadLp(signers)
      case None => false
      case Some((signer, _)) =>
        match ReadLp(signer)
        case None => false
        case Some((signed, _)) =>
          match ReadLp(signed)
          case None => false
          case Some((_, afterDigests)) =>
            match ReadLp(afterDigests)
            case None => false
            case Some((certs, _)) =>
              match ReadLp(certs)
              case None => false
              case Some((cert, _)) => CertOk(cert, e)
  }

  /** The bytes are a v2 block whose certificate has the expected size, at most 1024, and hash. */
  ghost predicate IsV2(b: ByteSeq, e: Expected, v: V2Block) {
    && b == BuildV2(v) && |Signers(v)| <= 0x7fff_ffff
    && |v.cert| == e.size && e.size <= 1024 && e.sha(v.cert) == Some(e.hash)
  }

  lemma LpSizes(v: V2Block)
    ensures |v.cert| <= |CertList(v)| <= |SignedData(v)| <= |Signer(v)| <= |Signers(v)|
    ensures |v.digests| <= |SignedData(v)|
  {
  }

  lemma {:induction false} CheckBlockBuilt(b: ByteSeq, e: Expected, v: V2Block)
    requires IsV2(b, e, v)
    ensures CheckBlock(b, e)
  {
    hide ReadLp, Lp;
    LpSizes(v);
    ReadLpIff(b, Signers(v), v.trailer);
    ReadLpIff(Signers(v), Signer(v), v.moreSigners);
    ReadLpIff(Signer(v), SignedData(v), v.signerRest);
    ReadLpIff(SignedData(v), v.digests, Lp(CertList(v)) + v.moreData);
    ReadLpIff(Lp(CertList(v)) + v.moreData, CertList(v), v.moreData);
    ReadLpIff(CertList(v), v.cert, v.moreCerts);
  }

  lemma {:induction false} CheckBlockParses(b: ByteSeq, e: Expected) returns (v: V2Block)
    requires CheckBlock(b, e)
    ensures IsV2(b, e, v)
  {
    hide ReadLp, Lp;
    var (signers, trailer) := ReadLp(b).value;
    var (signer, moreSigners) := ReadLp(signers).value;
    var (signed, signerRest) := ReadLp(signer).value;
    var (digests, afterDigests) := ReadLp(signed).value;
    var (certs, moreData) := ReadLp(afterDigests).value;
    var (cert, moreCerts) := ReadLp(certs).value;
    v := V2Block(digests, cert, moreCerts, moreData, signerRest, moreSigners, trailer);
    ReadLpIff(b, signers, trailer);
    ReadLpIff(signers, signer, moreSigners);
    ReadLpIff(signer, signed, signerRest);
    ReadLpIff(signed, digests, afterDigests);
    ReadLpIff(afterDigests, certs, moreData);
    ReadLpIff(certs, cert, moreCerts);
  }

  // ---- the pairs of the signing block --------------------------------------------------------

  datatype Pair = Pair(id: nat, value: ByteSeq)

  ghost predicate PairOk(p: Pair) {
    p.id < 0x1_0000_0000 && 4 + |p.value| <= 0x7fff_ffff
  }

  function PairBytes(p: Pair): ByteSeq {
    LeBytes(4 + |p.value|, 8) + LeBytes(p.id, 4) + p.value
  }

  function PairsBytes(ps: seq<Pair>): ByteSeq {
    if ps == [] then [] else PairBytes(ps[0]) + PairsBytes(ps[1..])
  }

  function ReadPair(b: ByteSeq): (r: Option<(Pair, ByteSeq)>)
    ensures r.Some? ==> |r.value.1| < |b|
  {
    if |b| < 8 then None
    else
      var size := U(b, 0, 8);
      if size < 4 || size > INT_MAX || size > |b| - 8 then None
      else Some((Pair(U(b, 8, 4), b[12..8 + size]), b[8 + size..]))
  }

  function ParsePairs(b: ByteSeq): Option<seq<Pair>>
    decreases |b|
  {
    if b == [] then Some([])
    else match ReadPair(b)
         case None => None
         case Some((p, rest)) =>
           match ParsePairs(rest)
           case None => None
           case Some(ps) => Some([p] + ps)
  }

  lemma {:induction false} ReadPairBuilt(p: Pair, rest: ByteSeq)
    requires PairOk(p)
    ensures ReadPair(PairBytes(p) + rest) == Some((p, rest))
  {
    hide LeBytes, LeValue, Range;
    RangeValues();
    var size, b := 4 + |p.value|, PairBytes(p) + rest;
    LeRoundTrip(size, 8);
    LeRoundTrip(p.id, 4);
    assert b == LeBytes(size, 8) + (LeBytes(p.id, 4) + (p.value + rest));
    assert b[0..8] == LeBytes(size, 8) && b[8..12] == LeBytes(p.id, 4);
    assert b[12..8 + size] == p.value && b[8 + size..] == rest;
  }

  lemma {:induction false} ReadPairParses(b: ByteSeq)
    requires ReadPair(b).Some?
    ensures var (p, rest) := ReadPair(b).value; PairOk(p) && b == PairBytes(p) + rest
  {
    hide LeBytes, LeValue, Range;
    RangeValues();
    var (p, rest) := ReadPair(b).value;
    var size := U(b, 0, 8);
    LeCanonical(b[0..8]);
    LeCanonical(b[8..12]);
    LeValueBound(b[8..12]);
    assert b[0..8] == LeBytes(size, 8) && b[8..12] == LeBytes(p.id, 4);
    assert b == b[0..8] + b[8..12] + b[12..8 + size] + b[8 + size..];
  }

  ghost predicate PairsOk(ps: seq<Pair>) {
    forall i :: 0 <= i < |ps| ==> PairOk(ps[i])
  }

  lemma {:induction false} ParsePairsBuilt(ps: seq<Pair>)
    requires PairsOk(ps)
    ensures ParsePairs(PairsBytes(ps)) == Some(ps)
    decreases |ps|
  {
    hide PairBytes, ReadPair, PairOk;
    if ps != [] {
      ReadPairBuilt(ps[0], PairsBytes(ps[1..]));
      ParsePairsBuilt(ps[1..]);
      assert ps == [ps[0]] + ps[1..];
    }
  }

  lemma {:induction false} ParsePairsParses(b: ByteSeq)
    requires ParsePairs(b).Some?
    ensures PairsOk(ParsePairs(b).value) && b == PairsBytes(ParsePairs(b).value)
    decreases |b|
  {
    hide PairBytes, ReadPair, PairOk;
    if b != [] {
      ReadPairParses(b);
      var (p, rest) := ReadPair(b).value;
      ParsePairsParses(rest);
      var ps := ParsePairs(rest).value;
      assert ([p] + ps)[1..] == ps;
    }
  }

  /** Exactly one pair is a v2 block, and it is good; all others are verity padding. */
  ghost predicate OneGoodV2(ps: seq<Pair>, e: Expected, k: nat) {
    && k < |ps| && ps[k].id == V2_ID && CheckBlock(ps[k].value, e)
    && forall i :: 0 <= i < |ps| && i != k ==> ps[i].id == PADDING_ID
  }

  ghost predicate PairsAccepted(ps: seq<Pair>, e: Expected) {
    exists k: nat :: OneGoodV2(ps, e, k)
  }

  // ---- the whole file -------------------------------------------------------------------------

  /** An end-of-central-directory record whose comment of i bytes closes the file. */
  predicate EocdAt(f: ByteSeq, i: nat) {
    i + 22 <= |f| && U(f, |f| - i - 2, 2) == i && U(f, |f| - i - 22, 4) == EOCD_MAGIC
  }

  ghost predicate FirstEocd(f: ByteSeq, i: nat) {
    i <= 0xffff && EocdAt(f, i) && forall k: nat :: k < i ==> !EocdAt(f, k)
  }

  predicate Zip64Before(f: ByteSeq, eocd: nat)
    requires eocd <= |f|
  {
    eocd >= 20 && U(f, eocd - 20, 4) == ZIP64_LOCATOR_MAGIC
  }

  /** The central directory ends at the record and the signing block ends at the directory. */
  predicate BlockAt(f: ByteSeq, eocd: nat, cd: nat, size: nat)
    requires eocd + 22 <= |f|
  {
    && U(f, eocd + 16, 4) == cd && cd <= eocd && U(f, eocd + 12, 4) == eocd - cd && 0x20 <= cd
    && f[cd - 0x10..cd] == BLOCK_MAGIC
    && U(f, cd - 0x18, 8) == size && 0x18 <= size <= INT_MAX - 8 && size <= cd - 8
    && U(f, cd - size - 8, 8) == size
  }

  ghost predicate Accepts(f: ByteSeq, e: Expected, i: nat) {
    && FirstEocd(f, i)
    && var eocd := |f| - i - 22;
       && !Zip64Before(f, eocd)
       && var cd := U(f, eocd + 16, 4);
          && 0x20 <= cd <= eocd
          && var size := U(f, cd - 0x18, 8);
             && BlockAt(f, eocd, cd, size)
             && var ps := ParsePairs(f[cd - size..cd - 0x18]);
                ps.Some? && PairsAccepted(ps.value, e)
  }

  ghost predicate Accepted(f: ByteSeq, e: Expected) {
    exists i: nat :: Accepts(f, e, i)
  }

  // ---- building signed files -----------------------------------------------------------------
  // The builder is written in the numbers of the two formats, apart from the constants the check uses.

  /** A signed file: entries, signing block, central directory, end record with its comment. */
  datatype Apk = Apk(entries: ByteSeq, pairs: seq<Pair>, directory: ByteSeq, disks: ByteSeq, comment: ByteSeq)

  function BlockSize(ps: seq<Pair>): nat { |PairsBytes(ps)| + 24 }

  /** Size, pairs, size again, and "APK Sig Block 42". */
  function Block(ps: seq<Pair>): (b: ByteSeq)
    ensures |b| == BlockSize(ps) + 8
  {
    LeBytes(BlockSize(ps), 8) + PairsBytes(ps) + LeBytes(BlockSize(ps), 8)
    + [65, 80, 75, 32, 83, 105, 103, 32, 66, 108, 111, 99, 107, 32, 52, 50]
  }

  function DirectoryOffset(a: Apk): nat { |a.entries| + BlockSize(a.pairs) + 8 }

  function EndRecord(directorySize: nat, directoryOffset: nat, disks: ByteSeq, comment: ByteSeq): ByteSeq {
    LeBytes(0x06054b50, 4) + disks + LeBytes(directorySize, 4) + LeBytes(directoryOffset, 4)
    + LeBytes(|comment|, 2) + comment
  }

  function Build(a: Apk): ByteSeq {
    a.entries + Block(a.pairs) + a.directory + EndRecord(|a.directory|, DirectoryOffset(a), a.disks, a.comment)
  }

  ghost predicate RecordOf(b: ByteSeq, size: nat, offset: nat, disks: ByteSeq, comment: ByteSeq) {
    && size < 0x1_0000_0000 && offset < 0x1_0000_0000 && |disks| == 8 && |comment| <= 0xffff
    && b == EndRecord(size, offset, disks, comment)
  }

  /** The bytes are an end record with its comment, whatever its fields say. */
  ghost predicate IsEndRecord(b: ByteSeq) {
    exists size: nat, offset: nat, disks: ByteSeq, comment: ByteSeq :: RecordOf(b, size, offset, disks, comment)
  }

  /** The file up to its end record. */
  function Body(a: Apk): ByteSeq {
    a.entries + Block(a.pairs) + a.directory
  }

  function Record(a: Apk): ByteSeq {
    EndRecord(|a.directory|, DirectoryOffset(a), a.disks, a.comment)
  }

  predicate EndsInLocator(b: ByteSeq) {
    |b| >= 20 && b[|b| - 20..|b| - 16] == LeBytes(0x07064b50, 4)
  }

  /** Every field fits its width, the end record does not end in another end record, and what comes
      before it does not end in a ZIP64 locator. */
  ghost predicate WellFormed(a: Apk) {
    && |a.disks| == 8 && |a.directory| < 0x1_0000_0000 && DirectoryOffset(a) < 0x1_0000_0000
    && BlockSize(a.pairs) <= 0x7fff_fff7 && PairsOk(a.pairs) && |a.comment| <= 0xffff
    && (forall j :: 0 < j <= |a.comment| ==> !IsEndRecord(Record(a)[j..]))
    && !EndsInLocator(Body(a))
  }

  lemma {:induction false} Field(f: ByteSeq, x: ByteSeq, v: nat, n: nat, y: ByteSeq)
    requires f == x + LeBytes(v, n) + y && v < Range(n)
    ensures |x| + n <= |f| && U(f, |x|, n) == v
  {
    LeRoundTrip(v, n);
    assert f[|x|..|x| + n] == LeBytes(v, n);
  }

  lemma {:induction false} EndRecordFields(x: ByteSeq, size: nat, offset: nat, disks: ByteSeq, comment: ByteSeq)
    requires |disks| == 8 && size < 0x1_0000_0000 && offset < 0x1_0000_0000 && |comment| <= 0xffff
    ensures var f, n := x + EndRecord(size, offset, disks, comment), |x|;
            && |f| == n + 22 + |comment|
            && U(f, n, 4) == EOCD_MAGIC && U(f, n + 20, 2) == |comment|
            && U(f, n + 12, 4) == size && U(f, n + 16, 4) == offset
  {
    hide LeBytes, LeValue, Range;
    RangeValues();
    var f := x + EndRecord(size, offset, disks, comment);
    var x1 := x + LeBytes(EOCD_MAGIC, 4) + disks;
    var x2 := x1 + LeBytes(size, 4);
    var x3 := x2 + LeBytes(offset, 4);
    var y0 := disks + LeBytes(size, 4) + LeBytes(offset, 4) + LeBytes(|comment|, 2) + comment;
    assert f == x + LeBytes(EOCD_MAGIC, 4) + y0;
    Field(f, x, EOCD_MAGIC, 4, y0);
    assert f == x3 + LeBytes(|comment|, 2) + comment;
    Field(f, x3, |comment|, 2, comment);
    assert f == x1 + LeBytes(size, 4) + (LeBytes(offset, 4) + LeBytes(|comment|, 2) + comment);
    assert f == x2 + LeBytes(offset, 4) + (LeBytes(|comment|, 2) + comment);
    Field(f, x1, size, 4, LeBytes(offset, 4) + LeBytes(|comment|, 2) + comment);
    Field(f, x2, offset, 4, LeBytes(|comment|, 2) + comment);
  }

  lemma {:induction false} BlockFields(x: ByteSeq, ps: seq<Pair>, y: ByteSeq)
    requires BlockSize(ps) <= INT_MAX - 8
    ensures var f, size := x + Block(ps) + y, BlockSize(ps);
            var cd := |x| + size + 8;
            && cd <= |f| && U(f, |x|, 8) == size && U(f, cd - 0x18, 8) == size
            && f[cd - 0x10..cd] == BLOCK_MAGIC && f[cd - size..cd - 0x18] == PairsBytes(ps)
  {
    hide LeBytes, LeValue, Range, PairsBytes;
    RangeValues();
    var f, size, pb := x + Block(ps) + y, BlockSize(ps), PairsBytes(ps);
    var x1 := x + LeBytes(size, 8) + pb;
    assert f == x + LeBytes(size, 8) + (pb + LeBytes(size, 8) + BLOCK_MAGIC + y);
    Field(f, x, size, 8, pb + LeBytes(size, 8) + BLOCK_MAGIC + y);
    assert f == x1 + LeBytes(size, 8) + (BLOCK_MAGIC + y);
    Field(f, x1, size, 8, BLOCK_MAGIC + y);
  }

  /** Where the parts of a built file are. */
  lemma {:induction false} BuiltLayout(a: Apk)
    requires |a.disks| == 8 && |a.directory| < 0x1_0000_0000 && DirectoryOffset(a) < 0x1_0000_0000
    requires BlockSize(a.pairs) <= INT_MAX - 8 && |a.comment| <= 0xffff
    ensures var f, cd, size := Build(a), DirectoryOffset(a), BlockSize(a.pairs);
            var eocd := cd + |a.directory|;
            && |f| == eocd + 22 + |a.comment| && BlockAt(f, eocd, cd, size)
            && f[cd - size..cd - 0x18] == PairsBytes(a.pairs)
  {
    hide LeBytes, LeValue, Range, PairsBytes, Block, EndRecord;
    var cd := DirectoryOffset(a);
    var record := EndRecord(|a.directory|, cd, a.disks, a.comment);
    EndRecordFields(a.entries + Block(a.pairs) + a.directory, |a.directory|, cd, a.disks, a.comment);
    assert Build(a) == a.entries + Block(a.pairs) + (a.directory + record);
    BlockFields(a.entries, a.pairs, a.directory + record);
  }

  lemma {:induction false} EndRecordParses(f: ByteSeq, eocd: nat)
    requires eocd + 22 <= |f| && U(f, eocd, 4) == EOCD_MAGIC && U(f, eocd + 20, 2) == |f| - eocd - 22
    ensures f[eocd..] == EndRecord(U(f, eocd + 12, 4), U(f, eocd + 16, 4), f[eocd + 4..eocd + 12], f[eocd + 22..])
  {
    hide LeBytes, LeValue;
    LeCanonical(f[eocd..eocd + 4]);
    LeCanonical(f[eocd + 12..eocd + 16]);
    LeCanonical(f[eocd + 16..eocd + 20]);
    LeCanonical(f[eocd + 20..eocd + 22]);
    assert f[eocd..] == f[eocd..eocd + 4] + f[eocd + 4..eocd + 12] + f[eocd + 12..eocd + 16]
                        + f[eocd + 16..eocd + 20] + f[eocd + 20..eocd + 22] + f[eocd + 22..];
  }

  /** What the search looks for from the end is an end record that closes the file. */
  lemma {:induction false} EocdIffRecord(f: ByteSeq, i: nat)
    requires i <= 0xffff
    ensures EocdAt(f, i) <==> i + 22 <= |f| && IsEndRecord(f[|f| - i - 22..])
  {
    hide LeBytes, LeValue, Range, EndRecord;
    if i + 22 <= |f| {
      var n := |f| - i - 22;
      if EocdAt(f, i) {
        EndRecordParses(f, n);
        RangeValues();
        LeValueBound(f[n + 12..n + 16]);
        LeValueBound(f[n + 16..n + 20]);
        assert RecordOf(f[n..], U(f, n + 12, 4), U(f, n + 16, 4), f[n + 4..n + 12], f[n + 22..]);
      }
      if IsEndRecord(f[n..]) {
        var size: nat, offset: nat, disks: ByteSeq, comment: ByteSeq :| RecordOf(f[n..], size, offset, disks, comment);
        assert f == f[..n] + f[n..];
        EndRecordFields(f[..n], size, offset, disks, comment);
      }
    }
  }

  /** A locator before the record is one that the file up to the record ends in. */
  lemma {:induction false} LocatorIff(f: ByteSeq, eocd: nat)
    requires eocd <= |f|
    ensures Zip64Before(f, eocd) <==> EndsInLocator(f[..eocd])
  {
    if eocd >= 20 {
      var b := f[eocd - 20..eocd - 16];
      assert f[..eocd][eocd - 20..eocd - 16] == b;
      LeCanonical(b);
      RangeValues();
      LeRoundTrip(ZIP64_LOCATOR_MAGIC, 4);
    }
  }

  /** In a built file the search from the end stops at the builder's record, exactly if that record
      does not end in another one. */
  lemma {:induction false} RecordIsFoundIff(b: ByteSeq, r: ByteSeq, n: nat)
    requires n <= 0xffff && |r| == 22 + n && IsEndRecord(r)
    ensures FirstEocd(b + r, n) <==> forall j :: 0 < j <= n ==> !IsEndRecord(r[j..])
  {
    hide EocdAt, IsEndRecord;
    var f := b + r;
    assert f[|f| - n - 22..] == r;
    EocdIffRecord(f, n);
    forall k: nat | k < n
      ensures EocdAt(f, k) <==> IsEndRecord(r[n - k..])
    {
      EocdIffRecord(f, k);
      assert f[|f| - k - 22..] == r[n - k..];
    }
    if j :| 0 < j <= n && IsEndRecord(r[j..]) {
      assert EocdAt(f, n - j);
    }
  }

  /** The search and the ZIP64 test on a built file, in terms of its parts. */
  lemma {:induction false} BuiltEnds(a: Apk)
    requires |a.disks| == 8 && |a.directory| < 0x1_0000_0000 && DirectoryOffset(a) < 0x1_0000_0000 && |a.comment| <= 0xffff
    ensures FirstEocd(Build(a), |a.comment|) <==> forall j :: 0 < j <= |a.comment| ==> !IsEndRecord(Record(a)[j..])
    ensures DirectoryOffset(a) + |a.directory| <= |Build(a)|
    ensures Zip64Before(Build(a), DirectoryOffset(a) + |a.directory|) <==> EndsInLocator(Body(a))
  {
    hide LeBytes, LeValue, PairsBytes, Block, FirstEocd, Zip64Before, EndsInLocator;
    var b, r := Body(a), Record(a);
    assert RecordOf(r, |a.directory|, DirectoryOffset(a), a.disks, a.comment);
    hide EndRecord;
    assert Build(a) == b + r;
    RecordIsFoundIff(b, r, |a.comment|);
    assert Build(a)[..|b|] == b;
    LocatorIff(Build(a), |b|);
  }

  /** Every file that a well-formed builder makes, with one good v2 block, is accepted. */
  lemma {:induction false} BuiltIsAccepted(a: Apk, e: Expected)
    requires WellFormed(a) && PairsAccepted(a.pairs, e)
    ensures Accepts(Build(a), e, |a.comment|)
  {
    hide PairsAccepted, PairsBytes, Build, EocdAt, PairOk, ParsePairs, LeValue, Zip64Before, IsEndRecord, EndsInLocator, Record, Body;
    BuiltLayout(a);
    BuiltEnds(a);
    ParsePairsBuilt(a.pairs);
  }

  lemma {:induction false} BlockParses(f: ByteSeq, cd: nat, size: nat, ps: seq<Pair>)
    requires cd <= |f| && 0x18 <= size && size + 8 <= cd && f[cd - 0x10..cd] == BLOCK_MAGIC
    requires U(f, cd - 0x18, 8) == size && U(f, cd - size - 8, 8) == size
    requires f[cd - size..cd - 0x18] == PairsBytes(ps)
    ensures f[..cd] == f[..cd - size - 8] + Block(ps) && BlockSize(ps) == size
  {
    hide LeBytes, LeValue, PairsBytes;
    LeCanonical(f[cd - 0x18..cd - 0x10]);
    LeCanonical(f[cd - size - 8..cd - size]);
    assert f[..cd] == f[..cd - size - 8] + (f[cd - size - 8..cd - size] + f[cd - size..cd - 0x18]
                      + f[cd - 0x18..cd - 0x10] + f[cd - 0x10..cd]);
  }

  /** The parts of a file that has its block and its record in the right places. */
  function Parts(f: ByteSeq, eocd: nat, cd: nat, size: nat, ps: seq<Pair>): Apk
    requires 0x18 <= size && size + 8 <= cd <= eocd && eocd + 22 <= |f|
  {
    Apk(f[..cd - size - 8], ps, f[cd..eocd], f[eocd + 4..eocd + 12], f[eocd + 22..])
  }

  lemma {:induction false} PartsRebuild(f: ByteSeq, eocd: nat, cd: nat, size: nat, ps: seq<Pair>)
    requires eocd + 22 <= |f| && U(f, eocd, 4) == EOCD_MAGIC && U(f, eocd + 20, 2) == |f| - eocd - 22
    requires BlockAt(f, eocd, cd, size) && f[cd - size..cd - 0x18] == PairsBytes(ps)
    ensures var a := Parts(f, eocd, cd, size, ps);
            && f == Build(a) && DirectoryOffset(a) == cd && BlockSize(ps) == size
            && cd < 0x1_0000_0000 && eocd - cd < 0x1_0000_0000
  {
    hide LeBytes, LeValue, Range, PairsBytes, Block, EndRecord;
    EndRecordParses(f, eocd);
    BlockParses(f, cd, size, ps);
    RangeValues();
    LeValueBound(f[eocd + 16..eocd + 20]);
    LeValueBound(f[eocd + 12..eocd + 16]);
    assert f == f[..cd] + f[cd..eocd] + f[eocd..];
  }

  /** Only such files are accepted: an accepted file is one that a well-formed builder makes. */
  lemma {:induction false} AcceptedIsBuilt(f: ByteSeq, e: Expected, i: nat) returns (a: Apk)
    requires Accepts(f, e, i)
    ensures f == Build(a) && WellFormed(a) && PairsAccepted(a.pairs, e)
  {
    hide PairsAccepted, LeValue, ParsePairs, PairsBytes, Build, Zip64Before, IsEndRecord, EndsInLocator, Record, Body;
    var eocd := |f| - i - 22;
    var cd := U(f, eocd + 16, 4);
    var size := U(f, cd - 0x18, 8);
    var ps := ParsePairs(f[cd - size..cd - 0x18]).value;
    ParsePairsParses(f[cd - size..cd - 0x18]);
    PartsRebuild(f, eocd, cd, size, ps);
    a := Parts(f, eocd, cd, size, ps);
    BuiltEnds(a);
  }

  ghost predicate BuiltWith(f: ByteSeq, e: Expected, a: Apk, k: nat, v: V2Block) {
    && f == Build(a) && WellFormed(a)
    && k < |a.pairs| && a.pairs[k].id == 0x7109871a && IsV2(a.pairs[k].value, e, v)
    && forall i :: 0 <= i < |a.pairs| && i != k ==> a.pairs[i].id == 0x42726577
  }

  /** A file is accepted exactly when it is a well-formed build whose one v2 block names a signer
      with the expected certificate and whose other pairs are padding. */
  lemma {:induction false} AcceptedIffBuilt(f: ByteSeq, e: Expected)
    ensures Accepted(f, e) <==> exists a: Apk, k: nat, v: V2Block :: BuiltWith(f, e, a, k, v)
  {
    hide WellFormed, Accepts, Build, CheckBlock, IsV2;
    if Accepted(f, e) {
      var i: nat :| Accepts(f, e, i);
      var a := AcceptedIsBuilt(f, e, i);
      var k: nat :| OneGoodV2(a.pairs, e, k);
      var v := CheckBlockParses(a.pairs[k].value, e);
      assert BuiltWith(f, e, a, k, v);
    }
    if a: Apk, k: nat, v: V2Block :| BuiltWith(f, e, a, k, v) {
      CheckBlockBuilt(a.pairs[k].value, e, v);
      assert OneGoodV2(a.pairs, e, k);
      BuiltIsAccepted(a, e);
    }
  }
}

/** check_v2_signature and its helpers, reading through a file position. Any read may fail. */
module ApkSign {
  import opened Bytes
  import opened ApkFormat

  ghost function CountV2(ps: seq<Pair>): nat {
    if ps == [] then 0 else CountV2(ps[..|ps| - 1]) + if ps[|ps| - 1].id == V2_ID then 1 else 0
  }

  ghost predicate AllKnown(ps: seq<Pair>) {
    forall i :: 0 <= i < |ps| ==> ps[i].id == V2_ID || ps[i].id == PADDING_ID
  }

  ghost predicate LastV2Good(ps: seq<Pair>, e: Expected) {
    if ps == [] then false
    else if ps[|ps| - 1].id == V2_ID then CheckBlock(ps[|ps| - 1].value, e)
    else LastV2Good(ps[..|ps| - 1], e)
  }

  lemma {:induction false} CountZero(ps: seq<Pair>)
    ensures CountV2(ps) == 0 <==> forall i :: 0 <= i < |ps| ==> ps[i].id != V2_ID
  {
    if ps != [] {
      var less := ps[..|ps| - 1];
      CountZero(less);
      assert forall i :: 0 <= i < |less| ==> less[i] == ps[i];
    }
  }

  /** Counting v2 pairs and keeping the last verdict finds out whether there is one good v2 pair. */
  lemma {:induction false} VerdictIff(ps: seq<Pair>, e: Expected)
    ensures AllKnown(ps) && CountV2(ps) == 1 && LastV2Good(ps, e) <==> PairsAccepted(ps, e)
  {
    hide CheckBlock;
    if AllKnown(ps) && CountV2(ps) == 1 && LastV2Good(ps, e) {
      var k := TheV2(ps, e);
      assert OneGoodV2(ps, e, k);
    }
    if k: nat :| OneGoodV2(ps, e, k) {
      OneCounts(ps, e, k);
    }
  }

  lemma {:induction false} TheV2(ps: seq<Pair>, e: Expected) returns (k: nat)
    requires AllKnown(ps) && CountV2(ps) == 1 && LastV2Good(ps, e)
    ensures OneGoodV2(ps, e, k)
  {
    hide CheckBlock;
    var n := |ps| - 1;
    var less := ps[..n];
    assert forall i :: 0 <= i < n ==> less[i] == ps[i];
    if ps[n].id == V2_ID {
      CountZero(less);
      k := n;
    } else {
      k := TheV2(less, e);
    }
  }

  lemma {:induction false} OneCounts(ps: seq<Pair>, e: Expected, k: nat)
    requires OneGoodV2(ps, e, k)
    ensures AllKnown(ps) && CountV2(ps) == 1 && LastV2Good(ps, e)
    decreases |ps|
  {
    hide CheckBlock;
    var n := |ps| - 1;
    var less := ps[..n];
    assert forall i :: 0 <= i < n ==> less[i] == ps[i];
    if k == n {
      CountZero(less);
    } else {
      OneCounts(less, e, k);
    }
  }

  /** `done` followed by what the rest parses to. */
  ghost function Joined(done: seq<Pair>, rest: Option<seq<Pair>>): Option<seq<Pair>> {
    match rest case None => None case Some(ps) => Some(done + ps)
  }

  lemma {:induction false} ParseStep(done: seq<Pair>, b: ByteSeq)
    requires b != []
    ensures match ReadPair(b)
            case None => ParsePairs(b).None?
            case Some((p, rest)) => Joined(done, ParsePairs(b)) == Joined(done + [p], ParsePairs(rest))
  {
    hide ReadPair;
    if ReadPair(b).Some? {
      var p := ReadPair(b).value.0;
      assert forall ps: seq<Pair> :: (done + [p]) + ps == done + ([p] + ps);
    }
  }

  lemma {:induction false} FirstEocdUnique(f: ByteSeq, i: nat, e: Expected)
    requires FirstEocd(f, i)
    ensures Accepted(f, e) <==> Accepts(f, e, i)
  {
    hide EocdAt, Zip64Before, BlockAt, ParsePairs, PairsAccepted;
    forall j: nat | Accepts(f, e, j)
      ensures j == i
    {
    }
  }

  lemma SubSlice(d: ByteSeq, lo: nat, hi: nat, a: nat, b: nat)
    requires lo <= hi <= |d| && a <= b <= hi - lo
    ensures d[lo..hi][a..b] == d[lo + a..lo + b]
    ensures d[lo..hi][a..] == d[lo + a..hi]
  {
    var x, y := d[lo..hi][a..b], d[lo + a..lo + b];
    forall k | 0 <= k < b - a
      ensures x[k] == y[k]
    {
      assert x[k] == d[lo..hi][a + k] == d[lo + (a + k)];
    }
    assert x == y;
  }

  lemma EocdFits(f: ByteSeq, i: nat)
    requires FirstEocd(f, i)
    ensures i + 22 <= |f|
  {
  }

  lemma NoPairs(e: Expected)
    ensures ParsePairs([]) == Some([]) && CountV2([]) == 0 && !LastV2Good([], e)
  {
  }

  lemma {:induction false} PairsNext(done: seq<Pair>, p: Pair, e: Expected)
    ensures CountV2(done + [p]) == CountV2(done) + if p.id == V2_ID then 1 else 0
    ensures LastV2Good(done + [p], e) == if p.id == V2_ID then CheckBlock(p.value, e) else LastV2Good(done, e)
  {
    assert (done + [p])[..|done|] == done;
  }

  /** A pair with an unknown id spoils the block, whatever follows it. */
  lemma {:induction false} UnknownPair(done: seq<Pair>, p: Pair, rest: Option<seq<Pair>>, e: Expected)
    requires p.id != V2_ID && p.id != PADDING_ID
    ensures var all := Joined(done + [p], rest); all.Some? ==> !PairsAccepted(all.value, e)
  {
    var all := Joined(done + [p], rest);
    if all.Some? {
      VerdictIff(all.value, e);
      assert all.value[|done|] == p;
    }
  }

  class ApkFile {
    const data: ByteSeq
    var pos: int
    ghost var faults: nat  // reads that the file system failed

    constructor (data: ByteSeq)
      ensures this.data == data && faults == 0
    {
      this.data, pos, faults := data, 0, 0;
    }

    /** read_exact: nothing is read past the end of the container. */
    method ReadExact(size: nat, end: int) returns (r: Option<ByteSeq>)
      modifies this
      ensures faults >= old(faults) && (r.Some? ==> faults == old(faults))
      ensures faults == old(faults)
              ==> (r.Some? <==> 0 <= old(pos) && old(pos) + size <= end && old(pos) + size <= |data|)
      ensures r.Some? ==> 0 <= old(pos) && old(pos) + size <= end && old(pos) + size <= |data|
      ensures r.Some? ==> r.value == data[old(pos)..old(pos) + size] && pos == old(pos) + size
    {
      if pos < 0 || pos > end || size > end - pos {
        return None;
      }
      if pos + size > |data| {
        return None;
      }
      var fails: bool := *;
      if fails {
        faults := faults + 1;
        return None;
      }
      r := Some(data[pos..pos + size]);
      pos := pos + size;
    }

    /** read_length_prefixed_end, on the container from the position up to `containerEnd`. */
    method ReadLengthPrefixedEnd(containerEnd: nat) returns (valueEnd: Option<nat>)
      requires 0 <= pos <= containerEnd <= |data|
      modifies this
      ensures faults >= old(faults) && (valueEnd.Some? ==> faults == old(faults))
      ensures faults == old(faults) ==>
              match ReadLp(data[old(pos)..containerEnd])
              case None => valueEnd.None?
              case Some((value, rest)) =>
                && valueEnd.Some? && pos == old(pos) + 4 && pos <= valueEnd.value <= containerEnd
                && value == data[pos..valueEnd.value] && rest == data[valueEnd.value..containerEnd]
    {
      ghost var start := pos;
      var raw := ReadExact(4, containerEnd);
      if raw.None? {
        return None;
      }
      SubSlice(data, start, containerEnd, 0, 4);
      var length := LeValue(raw.value);
      if length > INT_MAX || length > containerEnd - pos {
        return None;
      }
      valueEnd := Some(pos + length);
      SubSlice(data, start, containerEnd, 4, 4 + length);
      SubSlice(data, start, containerEnd, 4 + length, 4 + length);
    }

    /** check_block */
    method CheckV2Block(blockEnd: nat, e: Expected) returns (ok: bool)
      requires 0 <= pos <= blockEnd <= |data|
      modifies this
      ensures faults >= old(faults) && (ok ==> faults == old(faults))
      ensures faults == old(faults) ==> (ok <==> CheckBlock(data[old(pos)..blockEnd], e))
    {
      hide ReadLp;
      var signers := ReadLengthPrefixedEnd(blockEnd);
      if signers.None? {
        return false;
      }
      var signer := ReadLengthPrefixedEnd(signers.value);
      if signer.None? {
        return false;
      }
      var signed := ReadLengthPrefixedEnd(signer.value);
      if signed.None? {
        return false;
      }
      var digests := ReadLengthPrefixedEnd(signed.value);
      if digests.None? {
        return false;
      }
      pos := digests.value;
      var certs := ReadLengthPrefixedEnd(signed.value);
      if certs.None? {
        return false;
      }
      var certEnd := ReadLengthPrefixedEnd(certs.value);
      if certEnd.None? {
        return false;
      }
      var size := certEnd.value - pos;
      if size != e.size || size > CERT_MAX_LENGTH {
        return false;
      }
      var cert := ReadExact(size, certs.value);
      if cert.None? {
        return false;
      }
      var digest := e.sha(cert.value);
      ok := digest == Some(e.hash);
    }

    /** The scan over the pairs of the block. */
    method ScanPairs(pairsEnd: nat, e: Expected) returns (valid: bool)
      requires 0 <= pos <= pairsEnd <= |data|
      modifies this
      ensures faults >= old(faults) && (valid ==> faults == old(faults))
      ensures faults == old(faults) ==>
              (valid <==> ParsePairs(data[old(pos)..pairsEnd]).Some?
                          && PairsAccepted(ParsePairs(data[old(pos)..pairsEnd]).value, e))
    {
      hide CheckBlock, ParsePairs, ReadPair, PairsAccepted, CountV2, LastV2Good;
      ghost var all := ParsePairs(data[pos..pairsEnd]);
      ghost var done: seq<Pair> := [];
      var count := 0;
      valid := false;
      NoPairs(e);
      assert Joined([], all) == all by {
        assert forall ps: seq<Pair> :: [] + ps == ps;
      }
      while pos < pairsEnd
        invariant 0 <= pos <= pairsEnd
        invariant all == Joined(done, ParsePairs(data[pos..pairsEnd]))
        invariant AllKnown(done) && count == CountV2(done) && faults >= old(faults)
        invariant faults == old(faults) ==> valid == LastV2Good(done, e)
        invariant faults > old(faults) ==> count > 0 && (count == 1 ==> !valid)
        decreases pairsEnd - pos
      {
        ghost var b := data[pos..pairsEnd];
        ParseStep(done, b);
        var p := ReadPairHeader(pairsEnd);
        if p.None? {
          return false;
        }
        var (id, pairEnd) := p.value;
        ghost var pair := ReadPair(b).value.0;
        if id == V2_ID {
          count := count + 1;
          valid := CheckV2Block(pairEnd, e);
        } else if id != PADDING_ID {
          UnknownPair(done, pair, ParsePairs(data[pairEnd..pairsEnd]), e);
          return false;
        }
        PairsNext(done, pair, e);
        done := done + [pair];
        pos := pairEnd;
      }
      assert data[pos..pairsEnd] == [] && done + [] == done;
      VerdictIff(done, e);
      if count != 1 {
        valid := false;
      }
    }

    /** The length and the id of one pair. */
    method ReadPairHeader(pairsEnd: nat) returns (r: Option<(nat, nat)>)
      requires 0 <= pos < pairsEnd <= |data|
      modifies this
      ensures faults >= old(faults) && (r.Some? ==> faults == old(faults))
      ensures faults == old(faults) ==>
              match ReadPair(data[old(pos)..pairsEnd])
              case None => r.None?
              case Some((p, rest)) =>
                && r.Some? && old(pos) < pos <= r.value.1 <= pairsEnd && r.value.0 == p.id
                && p.value == data[pos..r.value.1] && rest == data[r.value.1..pairsEnd]
    {
      ghost var start := pos;
      var raw := ReadExact(8, pairsEnd);
      if raw.None? {
        return None;
      }
      SubSlice(data, start, pairsEnd, 0, 8);
      var size := LeValue(raw.value);
      if size < 4 || size > INT_MAX || size > pairsEnd - pos {
        return None;
      }
      var pairEnd := pos + size;
      raw := ReadExact(4, pairEnd);
      if raw.None? {
        return None;
      }
      SubSlice(data, start, pairsEnd, 8, 12);
      SubSlice(data, start, pairsEnd, 12, 8 + size);
      SubSlice(data, start, pairsEnd, 8 + size, 8 + size);
      r := Some((LeValue(raw.value), pairEnd));
    }

    /** The search for the end record: the smallest comment length that fits. */
    method FindEocd() returns (r: Option<nat>)
      modifies this
      ensures faults >= old(faults) && (r.Some? ==> faults == old(faults) && FirstEocd(data, r.value))
      ensures r.None? && faults == old(faults) ==> forall i: nat :: !FirstEocd(data, i)
    {
      var i: nat := 0;
      while true
        invariant i <= 0xffff && faults == old(faults) && forall k: nat :: k < i ==> !EocdAt(data, k)
        decreases 0x1_0000 - i
      {
        pos := |data| - i - 2;
        var raw := ReadExact(2, |data|);
        if raw.None? {
          return None;
        }
        if LeValue(raw.value) == i {
          pos := pos - 22;
          raw := ReadExact(4, |data|);
          if raw.None? {
            return None;
          }
          if LeValue(raw.value) == EOCD_MAGIC {
            return Some(i);
          }
        }
        if i == 0xffff {
          return None;
        }
        i := i + 1;
      }
    }

    /** check_v2_signature: only accepted files pass, and they all do unless a read fails. */
    method CheckV2Signature(e: Expected) returns (valid: bool)
      modifies this
      ensures faults >= old(faults) && (valid ==> Accepted(data, e))
      ensures faults == old(faults) ==> (valid <==> Accepted(data, e))
    {
      hide FirstEocd, ParsePairs, PairsAccepted;
      var comment := FindEocd();
      if comment.None? {
        return false;
      }
      var i := comment.value;
      FirstEocdUnique(data, i, e);
      assert i + 22 <= |data| by { EocdFits(data, i); }
      valid := CheckAt(i, e);
    }

    /** From the end record to the central directory it names; None if the file is rejected. */
    method FindDirectory(eocd: nat) returns (cd: Option<nat>)
      requires eocd + 22 <= |data|
      modifies this
      ensures faults >= old(faults) && (cd.Some? ==> faults == old(faults))
      ensures faults == old(faults) ==>
              (cd.Some? <==> && !Zip64Before(data, eocd) && 0x20 <= U(data, eocd + 16, 4) <= eocd
                             && U(data, eocd + 12, 4) == eocd - U(data, eocd + 16, 4))
      ensures cd.Some? ==> cd.value == U(data, eocd + 16, 4)
    {
      hide LeValue;
      if eocd >= 20 {
        pos := eocd - 20;
        var locator := ReadExact(4, |data|);
        if locator.None? {
          return None;
        }
        if LeValue(locator.value) == ZIP64_LOCATOR_MAGIC {
          return None;
        }
      }
      pos := eocd + 12;
      var raw := ReadExact(4, |data|);
      if raw.None? {
        return None;
      }
      var cdSize := LeValue(raw.value);
      raw := ReadExact(4, |data|);
      if raw.None? {
        return None;
      }
      var offset := LeValue(raw.value);
      if offset > eocd || cdSize != eocd - offset {
        return None;
      }
      if offset < 0x20 {
        return None;
      }
      cd := Some(offset);
    }

    /** From the central directory back over the signing block to its first pair. */
    method FindBlock(cd: nat) returns (size: Option<nat>)
      requires 0x20 <= cd <= |data|
      modifies this
      ensures faults >= old(faults) && (size.Some? ==> faults == old(faults))
      ensures faults == old(faults) ==>
              (size.Some? <==> && data[cd - 0x10..cd] == BLOCK_MAGIC
                               && 0x18 <= U(data, cd - 0x18, 8) <= INT_MAX - 8 && U(data, cd - 0x18, 8) <= cd - 8
                               && U(data, cd - U(data, cd - 0x18, 8) - 8, 8) == U(data, cd - 0x18, 8))
      ensures size.Some? ==> size.value == U(data, cd - 0x18, 8) && pos == cd - size.value
    {
      hide LeValue;
      var pairsEnd := cd - 0x18;
      pos := pairsEnd;
      var raw := ReadExact(8, cd);
      if raw.None? {
        return None;
      }
      var s := LeValue(raw.value);
      raw := ReadExact(0x10, cd);
      if raw.None? {
        return None;
      }
      if raw.value != BLOCK_MAGIC {
        return None;
      }
      if s < 0x18 || s > INT_MAX - 8 || s > cd - 8 {
        return None;
      }
      pos := cd - s - 8;
      raw := ReadExact(8, pairsEnd);
      if raw.None? {
        return None;
      }
      if LeValue(raw.value) != s {
        return None;
      }
      size := Some(s);
    }

    /** The rest of the check, from the end record on. */
    method CheckAt(i: nat, e: Expected) returns (valid: bool)
      requires i + 22 <= |data| && FirstEocd(data, i)
      modifies this
      ensures faults >= old(faults) && (valid ==> faults == old(faults))
      ensures faults == old(faults) ==> (valid <==> Accepts(data, e, i))
    {
      hide FirstEocd, ParsePairs, PairsAccepted, LeValue, Zip64Before;
      var cd := FindDirectory(|data| - i - 22);
      if cd.None? {
        return false;
      }
      var size := FindBlock(cd.value);
      if size.None? {
        return false;
      }
      valid := ScanPairs(cd.value - 0x18, e);
    }
  }
}
