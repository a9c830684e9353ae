/** struct app_profile as the bytes the kernel keeps, saves and loads (uapi/app_profile.h), its
    validity and migration, and the allowlist file (kernel/policy/allowlist.c). */
module AppProfile {
  import opened Bytes

  const EINVAL: int := -22
  const ENOMEM: int := -12
  const E2BIG: int := -7

  const SIZE: nat := 784
  const SIZE_PRE_V4: nat := 776  // the same struct without the root flags at its end
  const VERSION: nat := 4
  const FILE_MAGIC: nat := 0x7f4b5355
  const PRESERVE_UID: nat := 9999
  const WEBVIEW_ZYGOTE_UID: nat := 1053
  const MAX_GROUPS: nat := 32
  const MAX_COUNT: nat := 0xffff

  ghost predicate IsProfile(p: ByteSeq) {
    |p| == SIZE
  }

  // Fields by offset: version 0, key 4, curr_uid 260, allow_su 264, then the union of the two
  // configurations at 272.

  function Version(p: ByteSeq): nat requires |p| == SIZE { LeValue(p[0..4]) }

  function KeyField(p: ByteSeq): ByteSeq requires |p| == SIZE { p[4..260] }

  function Uid(p: ByteSeq): nat requires |p| == SIZE { LeValue(p[260..264]) }

  predicate AllowSu(p: ByteSeq) requires |p| == SIZE { p[264] != 0 }

  /** nrp_config.profile.umount_modules; in a root profile this byte belongs to the template name. */
  predicate UmountModules(p: ByteSeq) requires |p| == SIZE { p[273] != 0 }

  function GroupsCount(p: ByteSeq): nat requires |p| == SIZE { LeValue(p[544..548]) }

  function Domain(p: ByteSeq): ByteSeq requires |p| == SIZE { p[704..768] }

  /** profile_valid */
  predicate ProfileValid(p: ByteSeq)
    requires |p| == SIZE
  {
    && 0 in KeyField(p)
    && Version(p) == VERSION
    && (AllowSu(p) ==> GroupsCount(p) <= MAX_GROUPS && 0 in Domain(p) && Domain(p)[0] != 0)
  }

  /** strcmp(key, "$") == 0 */
  predicate IsDefaultKey(p: ByteSeq)
    requires |p| == SIZE
  {
    p[4] == 36 && p[5] == 0
  }

  /** What ksu_set_app_profile does not refuse outright. */
  predicate Acceptable(p: ByteSeq)
    requires |p| == SIZE
  {
    ProfileValid(p) && (Uid(p) == PRESERVE_UID ==> IsDefaultKey(p))
  }

  // ---- migration ------------------------------------------------------------------------

  const OLD_DOMAIN: ByteSeq := [117, 58, 114, 58, 115, 117, 58, 115, 48]  // "u:r:su:s0"
  const NEW_DOMAIN: ByteSeq := [117, 58, 114, 58, 107, 115, 117, 58, 115, 48]  // "u:r:ksu:s0"

  function Zeros(n: nat): (z: ByteSeq)
    ensures |z| == n && forall i :: 0 <= i < n ==> z[i] == 0
  {
    seq(n, _ => 0)
  }

  /** strncmp(domain, "u:r:su:s0", 64) == 0 */
  predicate HasOldDomain(p: ByteSeq)
    requires |p| == SIZE
  {
    p[704..714] == OLD_DOMAIN + [0]
  }

  function WithDomain(p: ByteSeq, d: ByteSeq): (r: ByteSeq)
    requires |p| == SIZE && |d| <= 64
    ensures |r| == SIZE
  {
    p[..704] + d + Zeros(64 - |d|) + p[768..]
  }

  function WithFlags(p: ByteSeq, flags: nat): (r: ByteSeq)
    requires |p| == SIZE
    ensures |r| == SIZE
  {
    p[..776] + LeBytes(flags, 8)
  }

  function WithVersion(p: ByteSeq): (r: ByteSeq)
    requires |p| == SIZE
    ensures |r| == SIZE
  {
    LeBytes(VERSION, 4) + p[4..]
  }

  /** migrate_profile */
  function Migrate(version: nat, p: ByteSeq): (r: ByteSeq)
    requires |p| == SIZE
    ensures |r| == SIZE
  {
    var p1 := if version == 2 && AllowSu(p) && HasOldDomain(p) then WithDomain(p, NEW_DOMAIN) else p;
    var p2 := if (version == 2 || version == 3) && AllowSu(p) then WithFlags(p1, 1) else p1;
    WithVersion(p2)
  }

  lemma {:induction false} MigrateCurrent(p: ByteSeq)
    requires |p| == SIZE && Version(p) == VERSION
    ensures Migrate(VERSION, p) == p
  {
    LeCanonical(p[0..4]);
    assert p == p[0..4] + p[4..];
  }

  lemma {:induction false} WithDomainBytes(p: ByteSeq, d: ByteSeq)
    requires |p| == SIZE && |d| <= 64
    ensures var r := WithDomain(p, d);
            && (forall k :: 0 <= k < 704 || 768 <= k < SIZE ==> r[k] == p[k])
            && r[704..768] == d + Zeros(64 - |d|)
  {
    var r, z := WithDomain(p, d), Zeros(64 - |d|);
    assert r == p[..704] + (d + z) + p[768..];
  }

  lemma {:induction false} WithFlagsBytes(p: ByteSeq, flags: nat)
    requires |p| == SIZE
    ensures var r := WithFlags(p, flags); (forall k :: 0 <= k < 776 ==> r[k] == p[k]) && r[776..] == LeBytes(flags, 8)
  {
  }

  lemma {:induction false} WithVersionBytes(p: ByteSeq)
    requires |p| == SIZE
    ensures var r := WithVersion(p); (forall k :: 4 <= k < SIZE ==> r[k] == p[k]) && Version(r) == VERSION
  {
    RangeValues();
    LeRoundTrip(VERSION, 4);
    assert WithVersion(p)[0..4] == LeBytes(VERSION, 4);
  }

  /** Migration gives the current version, and touches nothing but the version, an old domain and
      the flags of a root profile; so it need not be done twice. */
  lemma {:induction false} MigrateMeaning(version: nat, p: ByteSeq)
    requires |p| == SIZE
    ensures var r := Migrate(version, p);
            && Version(r) == VERSION && Migrate(VERSION, r) == r
            && (forall k :: 4 <= k < 704 || 768 <= k < 776 ==> r[k] == p[k])
            && r[704..768] == (if version == 2 && AllowSu(p) && HasOldDomain(p) then NEW_DOMAIN + Zeros(54) else p[704..768])
            && r[776..] == if 2 <= version <= 3 && AllowSu(p) then LeBytes(1, 8) else p[776..]
  {
    hide WithDomain, WithFlags, WithVersion, LeBytes, LeValue, HasOldDomain;
    var p1 := if version == 2 && AllowSu(p) && HasOldDomain(p) then WithDomain(p, NEW_DOMAIN) else p;
    var p2 := if (version == 2 || version == 3) && AllowSu(p) then WithFlags(p1, 1) else p1;
    var r := Migrate(version, p);
    WithDomainBytes(p, NEW_DOMAIN);
    WithFlagsBytes(p1, 1);
    WithVersionBytes(p2);
    MigrateCurrent(r);
    assert p2[704..768] == p1[704..768] && r[704..768] == p2[704..768];
    assert r[776..] == p2[776..] && p1[776..] == p[776..];
  }

  // ---- the file -------------------------------------------------------------------------

  function Flatten(ps: seq<ByteSeq>): ByteSeq {
    if ps == [] then [] else ps[0] + Flatten(ps[1..])
  }

  /** Reads of a fixed size until one comes back short. */
  function Records(b: ByteSeq, size: nat): (r: seq<ByteSeq>)
    requires size > 0
    ensures forall i :: 0 <= i < |r| ==> |r[i]| == size
    decreases |b|
  {
    if |b| < size then [] else [b[..size]] + Records(b[size..], size)
  }

  function SaveFile(ps: seq<ByteSeq>): ByteSeq {
    LeBytes(FILE_MAGIC, 4) + LeBytes(VERSION, 4) + Flatten(ps)
  }

  ghost predicate IsJunk(junk: nat -> ByteSeq) {
    forall i: nat :: |junk(i)| == SIZE - SIZE_PRE_V4
  }

  /** Record i of an old file lands in a struct whose last bytes were never written. */
  function Complete(version: nat, i: nat, record: ByteSeq, junk: nat -> ByteSeq): ByteSeq {
    if version < VERSION then record + junk(i) else record
  }

  function RecordSize(version: nat): nat {
    if version < VERSION then SIZE_PRE_V4 else SIZE
  }

  ghost predicate HeaderOk(file: ByteSeq) {
    |file| >= 8 && LeValue(file[0..4]) == FILE_MAGIC && 2 <= LeValue(file[4..8]) <= VERSION
  }

  /** The profiles a file holds, in order and migrated. */
  ghost function LoadFile(file: ByteSeq, junk: nat -> ByteSeq): (ps: seq<ByteSeq>)
    requires HeaderOk(file) && IsJunk(junk)
    ensures forall i :: 0 <= i < |ps| ==> IsProfile(ps[i]) && Version(ps[i]) == VERSION
  {
    var version := LeValue(file[4..8]);
    var rs := Records(file[8..], RecordSize(version));
    var ps := seq(|rs|, i requires 0 <= i < |rs| => Migrate(version, Complete(version, i, rs[i], junk)));
    MigrateAll(version, rs, junk);
    ps
  }

  lemma {:induction false} MigrateAll(version: nat, rs: seq<ByteSeq>, junk: nat -> ByteSeq)
    requires IsJunk(junk) && forall i :: 0 <= i < |rs| ==> |rs[i]| == RecordSize(version)
    ensures forall i :: 0 <= i < |rs| ==> |Complete(version, i, rs[i], junk)| == SIZE
    ensures forall i :: 0 <= i < |rs| ==> Version(Migrate(version, Complete(version, i, rs[i], junk))) == VERSION
  {
    forall i | 0 <= i < |rs|
      ensures |Complete(version, i, rs[i], junk)| == SIZE
      ensures Version(Migrate(version, Complete(version, i, rs[i], junk))) == VERSION
    {
      MigrateMeaning(version, Complete(version, i, rs[i], junk));
    }
  }

  lemma {:induction false} RecordsOfFlat(ps: seq<ByteSeq>, size: nat)
    requires size > 0 && forall i :: 0 <= i < |ps| ==> |ps[i]| == size
    ensures Records(Flatten(ps), size) == ps
    decreases |ps|
  {
    if ps != [] {
      var b := Flatten(ps);
      RecordsOfFlat(ps[1..], size);
      assert b[..size] == ps[0] && b[size..] == Flatten(ps[1..]);
      assert ps == [ps[0]] + ps[1..];
    }
  }

  /** Loading a saved file gives the saved profiles back, byte for byte and in order. */
  lemma {:induction false} LoadSaved(ps: seq<ByteSeq>, junk: nat -> ByteSeq)
    requires IsJunk(junk) && forall i :: 0 <= i < |ps| ==> IsProfile(ps[i]) && Version(ps[i]) == VERSION
    ensures HeaderOk(SaveFile(ps)) && LoadFile(SaveFile(ps), junk) == ps
  {
    var file := SaveFile(ps);
    RangeValues();
    LeRoundTrip(FILE_MAGIC, 4);
    LeRoundTrip(VERSION, 4);
    hide LeBytes, LeValue, Range, Flatten;
    assert file[0..4] == LeBytes(FILE_MAGIC, 4) && file[4..8] == LeBytes(VERSION, 4) && file[8..] == Flatten(ps);
    RecordsOfFlat(ps, SIZE);
    hide Migrate;
    forall i | 0 <= i < |ps|
      ensures Migrate(VERSION, ps[i]) == ps[i]
    {
      MigrateCurrent(ps[i]);
    }
  }

  lemma {:induction false} FlattenSnoc(ps: seq<ByteSeq>, p: ByteSeq)
    ensures Flatten(ps + [p]) == Flatten(ps) + p
    decreases |ps|
  {
    if ps == [] {
      assert [p][1..] == [] && ps + [p] == [p];
    } else {
      assert (ps + [p])[1..] == ps[1..] + [p];
      FlattenSnoc(ps[1..], p);
    }
  }

  // ---- the formats, byte by byte ----------------------------------------------------------

  lemma {:induction false} Word(s: ByteSeq, a: Byte, b: Byte, c: Byte, d: Byte)
    requires |s| == 4
    ensures LeValue(s) == (a as int) + 0x100 * (b as int) + 0x1_0000 * (c as int) + 0x100_0000 * (d as int) <==> s == [a, b, c, d]
  {
    hide LeValue, LeBytes;
    LeWord([a, b, c, d]);
    LeCanonical(s);
    LeCanonical([a, b, c, d]);
  }

  lemma {:induction false} SmallWord(s: ByteSeq)
    requires |s| == 4
    ensures LeValue(s) <= 32 <==> s[0] <= 32 && s[1..] == [0, 0, 0]
  {
    hide LeValue;
    LeWord(s);
    assert s[1..] == [s[1], s[2], s[3]];
  }

  /** A file is loaded when it starts with the magic bytes and a version from 2 to 4. */
  lemma {:induction false} HeaderBytes(file: ByteSeq)
    ensures HeaderOk(file) <==>
            |file| >= 8 && file[..4] == [0x55, 0x53, 0x4b, 0x7f] && file[4] in {2, 3, 4} && file[5..8] == [0, 0, 0]
  {
    if |file| >= 8 {
      var v := file[4..8];
      Word(file[0..4], 0x55, 0x53, 0x4b, 0x7f);
      Word(v, 2, 0, 0, 0);
      Word(v, 3, 0, 0, 0);
      Word(v, 4, 0, 0, 0);
      LeWord(v);
      hide LeValue;
      assert v == [file[4], file[5], file[6], file[7]] && file[5..8] == [file[5], file[6], file[7]];
    }
  }

  /** A saved file: magic, version 4, then the records. */
  lemma {:induction false} SaveBytes(ps: seq<ByteSeq>)
    ensures SaveFile(ps) == [0x55, 0x53, 0x4b, 0x7f] + [4, 0, 0, 0] + Flatten(ps)
  {
    Word([0x55, 0x53, 0x4b, 0x7f], 0x55, 0x53, 0x4b, 0x7f);
    Word([4, 0, 0, 0], 4, 0, 0, 0);
    LeCanonical([0x55, 0x53, 0x4b, 0x7f]);
    LeCanonical([4, 0, 0, 0]);
  }

  lemma {:induction false} OneAsLong()
    ensures LeBytes(1, 8) == [1, 0, 0, 0, 0, 0, 0, 0]
  {
    var s: ByteSeq := [0, 0, 0, 0];
    Word([1, 0, 0, 0], 1, 0, 0, 0);
    Word(s, 0, 0, 0, 0);
    LeConcat([1, 0, 0, 0], s);
    assert [1, 0, 0, 0] + s == [1, 0, 0, 0, 0, 0, 0, 0];
    LeCanonical([1, 0, 0, 0, 0, 0, 0, 0]);
  }

  /** Record i of an old file after loading: current version; key, uid and permission as they were;
      the domain renamed in root profiles of version 2; flag 1 in root profiles, whatever was in memory in others. */
  ghost predicate LoadedOld(v: nat, r: ByteSeq, junk: ByteSeq, p: ByteSeq)
    requires |r| == 776 && |p| == 784
  {
    && p[0..4] == [4, 0, 0, 0]
    && (forall k :: 4 <= k < 704 || 768 <= k < 776 ==> p[k] == r[k])
    && p[704..768] == (if v == 2 && r[264] != 0 && r[704..714] == [117, 58, 114, 58, 115, 117, 58, 115, 48, 0]
                       then [117, 58, 114, 58, 107, 115, 117, 58, 115, 48] + Zeros(54) else r[704..768])
    && p[776..784] == if r[264] != 0 then [1, 0, 0, 0, 0, 0, 0, 0] else junk
  }

  /** Loading an old file, whose records are 776 bytes long. */
  lemma {:induction false} LoadOld(v: Byte, rs: seq<ByteSeq>, junk: nat -> ByteSeq)
    requires (v == 2 || v == 3) && (forall i :: 0 <= i < |rs| ==> |rs[i]| == 776) && forall i: nat :: |junk(i)| == 8
    ensures var file := [0x55, 0x53, 0x4b, 0x7f] + [v, 0, 0, 0] + Flatten(rs);
            && HeaderOk(file) && IsJunk(junk) && |LoadFile(file, junk)| == |rs|
            && forall i :: 0 <= i < |rs| ==>
                 |LoadFile(file, junk)[i]| == 784 && LoadedOld(v, rs[i], junk(i), LoadFile(file, junk)[i])
  {
    var file := [0x55, 0x53, 0x4b, 0x7f] + [v, 0, 0, 0] + Flatten(rs);
    HeaderBytes(file);
    Word(file[4..8], v, 0, 0, 0);
    RecordsOfFlat(rs, 776);
    assert file[8..] == Flatten(rs);
    hide Flatten, Records, Migrate, LoadedOld, LeValue, HeaderOk;
    forall i | 0 <= i < |rs|
      ensures |Complete(v, i, rs[i], junk)| == 784
      ensures LoadedOld(v, rs[i], junk(i), Migrate(v, Complete(v, i, rs[i], junk)))
    {
      MigrateOld(v, rs[i], junk(i));
    }
  }

  lemma {:induction false} OldBytes(r: ByteSeq, junk: ByteSeq)
    requires |r| == 776 && |junk| == 8
    ensures var p := r + junk;
            && |p| == 784 && p[704..768] == r[704..768] && p[776..] == junk && (forall k :: 0 <= k < 776 ==> p[k] == r[k])
            && (AllowSu(p) <==> r[264] != 0)
            && (HasOldDomain(p) <==> r[704..714] == [117, 58, 114, 58, 115, 117, 58, 115, 48, 0])
  {
    var p := r + junk;
    assert p[704..714] == r[704..714];
    assert OLD_DOMAIN + [0] == [117, 58, 114, 58, 115, 117, 58, 115, 48, 0];
  }

  lemma {:induction false} MigrateOld(v: nat, r: ByteSeq, junk: ByteSeq)
    requires (v == 2 || v == 3) && |r| == 776 && |junk| == 8
    ensures |r + junk| == 784 && LoadedOld(v, r, junk, Migrate(v, r + junk))
  {
    hide Migrate, LeBytes, LeValue, HasOldDomain, AllowSu;
    var p := r + junk;
    OldBytes(r, junk);
    MigrateMeaning(v, p);
    OneAsLong();
    var q := Migrate(v, p);
    Word(q[0..4], 4, 0, 0, 0);
    assert q[776..] == q[776..784];
  }

  /** What a profile must be to be stored, by offset: version 4; a terminated key; for a root profile at
      most 32 groups and a terminated, non-empty domain; and the key "$" for uid 9999. */
  lemma {:induction false} AcceptableBytes(p: ByteSeq)
    requires |p| == 784
    ensures Acceptable(p) <==>
            && p[0..4] == [4, 0, 0, 0] && 0 in p[4..260]
            && (p[264] != 0 ==> p[544] <= 32 && p[545..548] == [0, 0, 0] && p[704] != 0 && 0 in p[704..768])
            && (p[260..264] == [0x0f, 0x27, 0, 0] ==> p[4..6] == [36, 0])
  {
    Word(p[0..4], 4, 0, 0, 0);
    Word(p[260..264], 0x0f, 0x27, 0, 0);
    SmallWord(p[544..548]);
    hide LeValue;
    assert p[544..548][1..] == p[545..548];
    assert p[4..6] == [p[4], p[5]];
  }

  // ---- the map --------------------------------------------------------------------------

  type Profiles = map<nat, ByteSeq>

  /** ksu_set_app_profile on the map; `memory` says whether a node can be allocated. */
  function SetProfile(m: Profiles, p: ByteSeq, memory: bool): (Profiles, int)
    requires |p| == SIZE
  {
    if !Acceptable(p) then (m, EINVAL)
    else if Uid(p) !in m && |m| == MAX_COUNT then (m, E2BIG)
    else if !memory then (m, ENOMEM)
    else (m[Uid(p) := p], 0)
  }

  /** What setting a profile returns, and that it changes at most the profile of its own uid. */
  lemma {:induction false} SetProfileMeaning(m: Profiles, p: ByteSeq, memory: bool, u: nat)
    requires |p| == SIZE
    ensures var (m', r) := SetProfile(m, p, memory);
            && (r == -22 <==> !Acceptable(p))
            && (r == -7 <==> Acceptable(p) && Uid(p) !in m && |m| == 65535)
            && (r == -12 <==> Acceptable(p) && (Uid(p) in m || |m| != 65535) && !memory)
            && (r == 0 <==> Acceptable(p) && (Uid(p) in m || |m| != 65535) && memory)
            && (r != 0 ==> m' == m)
            && (r == 0 ==> Uid(p) in m' && m'[Uid(p)] == p)
            && (u != Uid(p) ==> (u in m' <==> u in m) && (u in m ==> m'[u] == m[u]))
  {
    hide Acceptable, Uid;
  }

  /** Setting each profile in turn; `memory` says which allocations succeed. */
  ghost function SetAll(m: Profiles, ps: seq<ByteSeq>, memory: nat -> bool): Profiles
    requires AllProfiles(ps)
  {
    if ps == [] then m
    else SetProfile(SetAll(m, ps[..|ps| - 1], memory), ps[|ps| - 1], memory(|ps| - 1)).0
  }

  ghost predicate AllProfiles(ps: seq<ByteSeq>) {
    forall i :: 0 <= i < |ps| ==> |ps[i]| == SIZE
  }

  /** What a write of b leaves in the file if it writes at most n bytes. */
  function Cut(b: ByteSeq, n: nat): ByteSeq {
    if n < |b| then b[..n] else b
  }

  /** The records of a file where write i writes at most wrote(i) bytes; the code does not look. */
  ghost function CutFlatten(ps: seq<ByteSeq>, wrote: nat -> nat): ByteSeq {
    if ps == [] then [] else CutFlatten(ps[..|ps| - 1], wrote) + Cut(ps[|ps| - 1], wrote(|ps| - 1))
  }

  lemma {:induction false} CutFlattenSnoc(ps: seq<ByteSeq>, p: ByteSeq, wrote: nat -> nat)
    ensures CutFlatten(ps + [p], wrote) == CutFlatten(ps, wrote) + Cut(p, wrote(|ps|))
  {
    assert (ps + [p])[..|ps|] == ps;
  }

  lemma {:induction false} NothingCut(ps: seq<ByteSeq>, wrote: nat -> nat)
    requires AllProfiles(ps) && forall i :: 0 <= i < |ps| ==> wrote(i) >= SIZE
    ensures CutFlatten(ps, wrote) == Flatten(ps)
    decreases |ps|
  {
    if ps != [] {
      var n := |ps| - 1;
      NothingCut(ps[..n], wrote);
      FlattenSnoc(ps[..n], ps[n]);
      assert ps == ps[..n] + [ps[n]];
    }
  }

  /** The file of a save whose two header writes and record writes write at most so much. */
  ghost function SavedFile(ps: seq<ByteSeq>, magic: nat, version: nat, wrote: nat -> nat): ByteSeq {
    if magic < 4 then Cut(LeBytes(FILE_MAGIC, 4), magic)
    else if version < 4 then LeBytes(FILE_MAGIC, 4) + Cut(LeBytes(VERSION, 4), version)
    else LeBytes(FILE_MAGIC, 4) + LeBytes(VERSION, 4) + CutFlatten(ps, wrote)
  }

  /** A save whose writes all succeed writes the whole file; one that fails in the header leaves a file
      that a load refuses. */
  lemma {:induction false} SavedFileMeaning(ps: seq<ByteSeq>, magic: nat, version: nat, wrote: nat -> nat)
    requires AllProfiles(ps)
    ensures magic >= 4 && version >= 4 && (forall i: nat :: wrote(i) >= SIZE) ==> SavedFile(ps, magic, version, wrote) == SaveFile(ps)
    ensures magic < 4 || version < 4 ==> !HeaderOk(SavedFile(ps, magic, version, wrote))
  {
    hide LeBytes, Flatten, CutFlatten;
    if forall i: nat :: wrote(i) >= SIZE {
      NothingCut(ps, wrote);
    }
  }

  // ---- stored profiles --------------------------------------------------------------------

  /** Stored profiles: acceptable, and no uid twice. */
  ghost predicate Stored(ps: seq<ByteSeq>) {
    && AllProfiles(ps)
    && (forall i :: 0 <= i < |ps| ==> Acceptable(ps[i]))
    && (forall i, j :: 0 <= i < j < |ps| ==> Uid(ps[i]) != Uid(ps[j]))
  }

  /** The map that a list of profiles stands for. */
  ghost function MapOf(ps: seq<ByteSeq>): Profiles
    requires AllProfiles(ps)
  {
    if ps == [] then map[] else MapOf(ps[..|ps| - 1])[Uid(ps[|ps| - 1]) := ps[|ps| - 1]]
  }

  lemma {:induction false} MapOfMember(ps: seq<ByteSeq>, u: nat)
    requires Stored(ps)
    ensures u in MapOf(ps) <==> exists i :: 0 <= i < |ps| && Uid(ps[i]) == u
    ensures forall i :: 0 <= i < |ps| && Uid(ps[i]) == u ==> u in MapOf(ps) && MapOf(ps)[u] == ps[i]
  {
    hide Uid, Acceptable;
    if ps != [] {
      var n := |ps| - 1;
      var less := ps[..n];
      assert forall i :: 0 <= i < n ==> less[i] == ps[i];
      MapOfMember(less, u);
      if Uid(ps[n]) == u {
      } else if i :| 0 <= i < |ps| && Uid(ps[i]) == u {
        assert less[i] == ps[i];
      }
    }
  }

  lemma {:induction false} MapOfSize(ps: seq<ByteSeq>)
    requires Stored(ps)
    ensures |MapOf(ps)| == |ps|
  {
    hide Uid, Acceptable;
    if ps != [] {
      var n := |ps| - 1;
      var less := ps[..n];
      assert forall i :: 0 <= i < n ==> less[i] == ps[i];
      MapOfSize(less);
      MapOfMember(less, Uid(ps[n]));
      assert MapOf(ps).Keys == MapOf(less).Keys + {Uid(ps[n])};
    }
  }

  /** Setting stored profiles one after the other rebuilds the map they stand for. */
  lemma {:induction false} SetAllRebuilds(ps: seq<ByteSeq>, memory: nat -> bool)
    requires Stored(ps) && |ps| <= MAX_COUNT && forall i: nat :: memory(i)
    ensures SetAll(map[], ps, memory) == MapOf(ps)
    decreases |ps|
  {
    hide Acceptable, Uid;
    if ps != [] {
      var n := |ps| - 1;
      var less := ps[..n];
      assert forall i :: 0 <= i < n ==> less[i] == ps[i];
      SetAllRebuilds(less, memory);
      MapOfSize(less);
    }
  }

  // ---- cut files ------------------------------------------------------------------------

  lemma {:induction false} CutIsShorter(ps: seq<ByteSeq>, wrote: nat -> nat)
    requires AllProfiles(ps)
    ensures |CutFlatten(ps, wrote)| <= SIZE * |ps|
    ensures (exists i :: 0 <= i < |ps| && wrote(i) < SIZE) ==> |CutFlatten(ps, wrote)| < SIZE * |ps|
    decreases |ps|
  {
    if ps != [] {
      var n := |ps| - 1;
      var less := ps[..n];
      assert forall i :: 0 <= i < n ==> less[i] == ps[i];
      CutIsShorter(less, wrote);
    }
  }

  lemma {:induction false} RecordsFit(b: ByteSeq)
    ensures SIZE * |Records(b, SIZE)| <= |b|
    decreases |b|
  {
    if |b| >= SIZE {
      RecordsFit(b[SIZE..]);
    }
  }

  lemma {:induction false} SetAllSize(ps: seq<ByteSeq>, memory: nat -> bool)
    requires AllProfiles(ps)
    ensures |SetAll(map[], ps, memory)| <= |ps|
    decreases |ps|
  {
    if ps != [] {
      var n := |ps| - 1;
      var less, p := ps[..n], ps[n];
      assert forall i :: 0 <= i < n ==> less[i] == ps[i];
      SetAllSize(less, memory);
      SetProfileSize(SetAll(map[], less, memory), p, memory(n));
    }
  }

  lemma {:induction false} SetProfileSize(m: Profiles, p: ByteSeq, memory: bool)
    requires |p| == SIZE
    ensures |SetProfile(m, p, memory).0| <= |m| + 1
  {
    hide Uid, Acceptable;
    assert m[Uid(p) := p].Keys == m.Keys + {Uid(p)};
  }

  /** The records of a file whose header was written are those of what the record writes wrote. */
  lemma {:induction false} LoadOfCut(ps: seq<ByteSeq>, wrote: nat -> nat, junk: nat -> ByteSeq)
    requires AllProfiles(ps) && IsJunk(junk)
    ensures var file := SavedFile(ps, 4, 4, wrote);
            HeaderOk(file) && |LoadFile(file, junk)| == |Records(CutFlatten(ps, wrote), SIZE)|
  {
    var file := SavedFile(ps, 4, 4, wrote);
    RangeValues();
    LeRoundTrip(FILE_MAGIC, 4);
    LeRoundTrip(VERSION, 4);
    hide LeBytes, LeValue, Range, CutFlatten, Migrate;
    assert file[0..4] == LeBytes(FILE_MAGIC, 4) && file[4..8] == LeBytes(VERSION, 4) && file[8..] == CutFlatten(ps, wrote);
  }

  /** With a good header, loading a saved file into an empty list restores the map if and only if no
      record write was cut short: a cut file holds fewer whole records than there are uids. */
  lemma {:induction false} ReloadsIffUncut(ps: seq<ByteSeq>, wrote: nat -> nat, junk: nat -> ByteSeq, memory: nat -> bool)
    requires Stored(ps) && |ps| <= MAX_COUNT && IsJunk(junk) && forall i: nat :: memory(i)
    ensures HeaderOk(SavedFile(ps, 4, 4, wrote))
    ensures SetAll(map[], LoadFile(SavedFile(ps, 4, 4, wrote), junk), memory) == MapOf(ps) <==>
            forall i :: 0 <= i < |ps| ==> wrote(i) >= SIZE
  {
    hide SetAll, LoadFile, MapOf, CutFlatten, Records, SavedFile, HeaderOk, Flatten, Acceptable, Uid;
    LoadOfCut(ps, wrote, junk);
    var loaded := LoadFile(SavedFile(ps, 4, 4, wrote), junk);
    if forall i :: 0 <= i < |ps| ==> wrote(i) >= SIZE {
      UncutFile(ps, wrote);
      StoredCurrent(ps);
      LoadSaved(ps, junk);
      SetAllRebuilds(ps, memory);
    } else {
      CutIsShorter(ps, wrote);
      RecordsFit(CutFlatten(ps, wrote));
      SetAllSize(loaded, memory);
      MapOfSize(ps);
    }
  }

  lemma {:induction false} UncutFile(ps: seq<ByteSeq>, wrote: nat -> nat)
    requires AllProfiles(ps) && forall i :: 0 <= i < |ps| ==> wrote(i) >= SIZE
    ensures SavedFile(ps, 4, 4, wrote) == SaveFile(ps)
  {
    hide LeBytes, Flatten, CutFlatten;
    NothingCut(ps, wrote);
  }

  lemma {:induction false} StoredCurrent(ps: seq<ByteSeq>)
    requires Stored(ps)
    ensures forall i :: 0 <= i < |ps| ==> IsProfile(ps[i]) && Version(ps[i]) == VERSION
  {
    hide Version, Uid;
  }
}

/** The hash table of reference-counted nodes, as values: what linking, replacing and unlinking a
    node does to it. A node id is an address that is never reused. */
module AllowTable {
  import opened Bytes
  import opened AppProfile

  type Id = nat

  const BUCKETS: nat := 256

  /** hash_32(uid, 8) */
  function Hash(uid: nat): (b: nat)
    ensures b < BUCKETS
  {
    (uid * 0x61C88647) % 0x1_0000_0000 / 0x100_0000
  }

  /** Chains of nodes, the profile of every node ever made, and which node a uid is linked by. */
  datatype Table = Table(buckets: seq<seq<Id>>, profiles: map<Id, ByteSeq>, index: map<nat, Id>)

  /** Node id is linked in bucket b: a good profile, in the bucket of its uid, as the only one. */
  ghost predicate NodeOk(t: Table, b: nat, id: Id) {
    && id in t.profiles && |t.profiles[id]| == SIZE && Acceptable(t.profiles[id])
    && Hash(Uid(t.profiles[id])) == b
    && Uid(t.profiles[id]) in t.index && t.index[Uid(t.profiles[id])] == id
  }

  ghost predicate ChainOk(t: Table, b: nat)
    requires b < |t.buckets|
  {
    Distinct(t.buckets[b]) && forall k :: 0 <= k < |t.buckets[b]| ==> NodeOk(t, b, t.buckets[b][k])
  }

  ghost predicate LinkOk(t: Table, u: nat)
    requires |t.buckets| == BUCKETS && u in t.index
  {
    var id := t.index[u];
    id in t.buckets[Hash(u)] && id in t.profiles && |t.profiles[id]| == SIZE && Uid(t.profiles[id]) == u
  }

  ghost predicate TableOk(t: Table) {
    && |t.buckets| == BUCKETS
    && (forall b :: 0 <= b < BUCKETS ==> ChainOk(t, b))
    && (forall u :: u in t.index ==> LinkOk(t, u))
  }

  ghost predicate Linked(t: Table, id: Id) {
    id in t.profiles && |t.profiles[id]| == SIZE && Uid(t.profiles[id]) in t.index && t.index[Uid(t.profiles[id])] == id
  }

  /** The map from uid to profile that the table stands for. */
  ghost function MapView(t: Table): Profiles
    requires TableOk(t)
  {
    map u | u in t.index :: assert LinkOk(t, u); t.profiles[t.index[u]]
  }

  function Replace(t: Table, b: nat, k: nat, id: Id, p: ByteSeq): Table
    requires b < |t.buckets| && k < |t.buckets[b]| && |p| == SIZE
  {
    var chain: seq<Id> := t.buckets[b][k := id];
    Table(t.buckets[b := chain], t.profiles[id := p], t.index[Uid(p) := id])
  }

  function Add(t: Table, b: nat, id: Id, p: ByteSeq): Table
    requires b < |t.buckets| && |p| == SIZE
  {
    Table(t.buckets[b := [id] + t.buckets[b]], t.profiles[id := p], t.index[Uid(p) := id])
  }

  function Unlink(t: Table, b: nat, k: nat, uid: nat): Table
    requires b < |t.buckets| && k < |t.buckets[b]|
  {
    Table(t.buckets[b := t.buckets[b][..k] + t.buckets[b][k + 1..]], t.profiles, t.index - {uid})
  }

  lemma {:induction false} ReplaceOk(t: Table, b: nat, k: nat, id: Id, p: ByteSeq)
    requires TableOk(t) && b < BUCKETS && k < |t.buckets[b]| && |p| == SIZE && Acceptable(p)
    requires id !in t.profiles && NodeOk(t, b, t.buckets[b][k]) && Uid(t.profiles[t.buckets[b][k]]) == Uid(p)
    ensures TableOk(Replace(t, b, k, id, p))
    ensures MapView(Replace(t, b, k, id, p)) == MapView(t)[Uid(p) := p]
  {
    hide Acceptable, Uid, Hash;
    var t', chain := Replace(t, b, k, id, p), t.buckets[b];
    assert ChainOk(t, b);
    forall c | 0 <= c < BUCKETS
      ensures ChainOk(t', c)
    {
      assert ChainOk(t, c);
      forall j | 0 <= j < |t'.buckets[c]|
        ensures NodeOk(t', c, t'.buckets[c][j])
      {
        if !(c == b && j == k) {
          assert NodeOk(t, c, t.buckets[c][j]);
          assert c == b ==> chain[j] != chain[k];
        }
      }
    }
    forall u | u in t'.index
      ensures LinkOk(t', u)
    {
      if u == Uid(p) {
        assert t'.buckets[b][k] == id;
      } else {
        assert LinkOk(t, u);
        StillLinked(t, u, b, k);
        var j :| 0 <= j < |t.buckets[Hash(u)]| && t.buckets[Hash(u)][j] == t.index[u];
        assert t'.buckets[Hash(u)][j] == t.index[u];
      }
    }
    forall u | u in t.index && u != Uid(p)
      ensures MapView(t')[u] == MapView(t)[u]
    {
      assert LinkOk(t, u);
    }
  }

  lemma {:induction false} StillLinked(t: Table, u: nat, b: nat, k: nat)
    requires TableOk(t) && u in t.index && b < BUCKETS && k < |t.buckets[b]|
    requires NodeOk(t, b, t.buckets[b][k]) && Uid(t.profiles[t.buckets[b][k]]) != u
    ensures t.index[u] != t.buckets[b][k]
  {
    assert LinkOk(t, u);
  }

  lemma {:induction false} AddChain(t: Table, b: nat, id: Id, p: ByteSeq, c: nat)
    requires TableOk(t) && |p| == SIZE && b == Hash(Uid(p)) && Acceptable(p) && id !in t.profiles && Uid(p) !in t.index
    requires c < BUCKETS
    ensures ChainOk(Add(t, b, id, p), c)
  {
    hide Acceptable, Uid, Hash;
    var t', chain := Add(t, b, id, p), t.buckets[c];
    assert ChainOk(t, c);
    forall j | 0 <= j < |chain|
      ensures NodeOk(t', c, chain[j]) && chain[j] != id
    {
      assert NodeOk(t, c, chain[j]);
    }
    if c == b {
      assert t'.buckets[c] == [id] + chain;
    }
  }

  lemma {:induction false} AddOk(t: Table, b: nat, id: Id, p: ByteSeq)
    requires TableOk(t) && |p| == SIZE && b == Hash(Uid(p)) && Acceptable(p) && id !in t.profiles && Uid(p) !in t.index
    ensures TableOk(Add(t, b, id, p))
    ensures MapView(Add(t, b, id, p)) == MapView(t)[Uid(p) := p]
  {
    hide Acceptable, Uid, Hash, ChainOk;
    var t' := Add(t, b, id, p);
    forall c | 0 <= c < BUCKETS
      ensures ChainOk(t', c)
    {
      AddChain(t, b, id, p, c);
    }
    forall u | u in t'.index
      ensures LinkOk(t', u)
    {
      if u == Uid(p) {
        assert t'.buckets[b][0] == id;
      } else {
        assert LinkOk(t, u);
        var j :| 0 <= j < |t.buckets[Hash(u)]| && t.buckets[Hash(u)][j] == t.index[u];
        assert t'.buckets[Hash(u)][if Hash(u) == b then j + 1 else j] == t.index[u];
      }
    }
    forall u | u in t.index
      ensures MapView(t')[u] == MapView(t)[u]
    {
      assert LinkOk(t, u);
    }
  }

  lemma {:induction false} UnlinkOk(t: Table, b: nat, k: nat, uid: nat)
    requires TableOk(t) && b < BUCKETS && k < |t.buckets[b]|
    requires NodeOk(t, b, t.buckets[b][k]) && Uid(t.profiles[t.buckets[b][k]]) == uid
    ensures TableOk(Unlink(t, b, k, uid))
    ensures MapView(Unlink(t, b, k, uid)) == MapView(t) - {uid}
  {
    hide Acceptable, Uid, Hash;
    var t', chain := Unlink(t, b, k, uid), t.buckets[b];
    assert ChainOk(t, b);
    forall c | 0 <= c < BUCKETS
      ensures ChainOk(t', c)
    {
      assert ChainOk(t, c);
      forall j | 0 <= j < |t'.buckets[c]|
        ensures NodeOk(t', c, t'.buckets[c][j])
      {
        var j0 := if c == b && j >= k then j + 1 else j;
        assert t'.buckets[c][j] == t.buckets[c][j0] && NodeOk(t, c, t.buckets[c][j0]);
        assert c == b ==> chain[j0] != chain[k];
      }
    }
    forall u | u in t'.index
      ensures LinkOk(t', u)
    {
      assert LinkOk(t, u);
      StillLinked(t, u, b, k);
      var j :| 0 <= j < |t.buckets[Hash(u)]| && t.buckets[Hash(u)][j] == t.index[u];
      assert t'.buckets[Hash(u)][if Hash(u) == b && j > k then j - 1 else j] == t.index[u];
    }
    forall u | u in t'.index
      ensures MapView(t')[u] == MapView(t)[u]
    {
      assert LinkOk(t, u);
    }
  }

  // ---- walking the whole table ----------------------------------------------------------

  /** The nodes in the order of hash_for_each. */
  function FlatIds(buckets: seq<seq<Id>>): seq<Id> {
    if buckets == [] then [] else FlatIds(buckets[..|buckets| - 1]) + buckets[|buckets| - 1]
  }

  ghost predicate Known(t: Table, ids: seq<Id>) {
    forall i :: 0 <= i < |ids| ==> ids[i] in t.profiles && |t.profiles[ids[i]]| == SIZE
  }

  ghost function ProfilesOf(t: Table, ids: seq<Id>): (ps: seq<ByteSeq>)
    requires Known(t, ids)
    ensures AllProfiles(ps)
  {
    seq(|ids|, i requires 0 <= i < |ids| => t.profiles[ids[i]])
  }

  /** What a walk has seen when it stands before node k of bucket b. */
  ghost function Seen(t: Table, b: nat, k: nat): seq<Id>
    requires b <= |t.buckets| && (b < |t.buckets| ==> k <= |t.buckets[b]|)
  {
    FlatIds(t.buckets[..b]) + if b < |t.buckets| then t.buckets[b][..k] else []
  }

  ghost predicate SeenOk(t: Table, ids: seq<Id>, b: nat) {
    && (forall i :: 0 <= i < |ids| ==> ids[i] in t.profiles && |t.profiles[ids[i]]| == SIZE)
    && (forall i :: 0 <= i < |ids| ==> Hash(Uid(t.profiles[ids[i]])) < b && Linked(t, ids[i]) && Acceptable(t.profiles[ids[i]]))
    && (forall i, j :: 0 <= i < j < |ids| ==> ids[i] != ids[j])
    && (forall c, j :: 0 <= c < b && c < |t.buckets| && 0 <= j < |t.buckets[c]| ==> t.buckets[c][j] in ids)
  }

  lemma {:induction false} SeenPrefix(t: Table, b: nat)
    requires TableOk(t) && b <= BUCKETS
    ensures SeenOk(t, FlatIds(t.buckets[..b]), b)
    decreases b
  {
    hide Hash, Uid, Acceptable, FlatIds;
    if b == 0 {
      FlatIdsEnd(t.buckets, 0);
    } else {
      SeenPrefix(t, b - 1);
      FlatIdsEnd(t.buckets, b);
      SeenBucket(t, FlatIds(t.buckets[..b - 1]), b - 1);
    }
  }

  lemma {:induction false} FlatIdsEnd(buckets: seq<seq<Id>>, b: nat)
    requires b <= |buckets|
    ensures FlatIds(buckets[..b]) == if b == 0 then [] else FlatIds(buckets[..b - 1]) + buckets[b - 1]
  {
    if b > 0 {
      assert buckets[..b][..b - 1] == buckets[..b - 1];
    }
  }

  lemma {:induction false} SeenBucket(t: Table, ids: seq<Id>, b: nat)
    requires TableOk(t) && b < BUCKETS && SeenOk(t, ids, b)
    ensures SeenOk(t, ids + t.buckets[b], b + 1)
  {
    hide Hash, Uid, Acceptable, TableOk;
    TableShape(t, b);
    var all := ids + t.buckets[b];
    forall i | 0 <= i < |all|
      ensures all[i] in t.profiles && |t.profiles[all[i]]| == SIZE
      ensures Hash(Uid(t.profiles[all[i]])) < b + 1 && Linked(t, all[i]) && Acceptable(t.profiles[all[i]])
    {
      if i >= |ids| {
        assert NodeOk(t, b, t.buckets[b][i - |ids|]);
      }
    }
    forall i, j | 0 <= i < j < |all|
      ensures all[i] != all[j]
    {
      if i < |ids| <= j {
        assert NodeOk(t, b, t.buckets[b][j - |ids|]);
      }
    }
    forall c, j | 0 <= c < b + 1 && c < |t.buckets| && 0 <= j < |t.buckets[c]|
      ensures t.buckets[c][j] in all
    {
      if c == b {
        assert all[|ids| + j] == t.buckets[c][j];
      }
    }
  }

  lemma {:induction false} TableShape(t: Table, b: nat)
    requires TableOk(t) && b < BUCKETS
    ensures |t.buckets| == BUCKETS && ChainOk(t, b)
  {
  }

  ghost function Listing(t: Table): seq<ByteSeq>
    requires TableOk(t)
  {
    SeenPrefix(t, BUCKETS);
    assert t.buckets[..BUCKETS] == t.buckets;
    ProfilesOf(t, FlatIds(t.buckets))
  }

  /** A walk over the table meets every entry of the map, each once. */
  lemma {:induction false} ListingStands(t: Table)
    requires TableOk(t)
    ensures Stored(Listing(t)) && MapOf(Listing(t)) == MapView(t) && |Listing(t)| == |t.index|
  {
    hide Hash, Uid, Acceptable, FlatIds;
    SeenPrefix(t, BUCKETS);
    assert t.buckets[..BUCKETS] == t.buckets;
    var ids, ps := FlatIds(t.buckets), Listing(t);
    forall i, j | 0 <= i < j < |ps|
      ensures Uid(ps[i]) != Uid(ps[j])
    {
      assert Linked(t, ids[i]) && Linked(t, ids[j]);
    }
    assert Stored(ps);
    forall u
      ensures u in MapOf(ps) <==> u in t.index
      ensures u in t.index ==> MapOf(ps)[u] == MapView(t)[u]
    {
      ListingAt(t, ids, ps, u);
    }
    MapOfSize(ps);
    assert MapOf(ps).Keys == t.index.Keys;
  }

  lemma {:induction false} ListingAt(t: Table, ids: seq<Id>, ps: seq<ByteSeq>, u: nat)
    requires TableOk(t) && SeenOk(t, ids, BUCKETS) && ps == ProfilesOf(t, ids) && Stored(ps)
    ensures u in MapOf(ps) <==> u in t.index
    ensures u in t.index ==> MapOf(ps)[u] == MapView(t)[u]
  {
    hide Hash, Uid, Acceptable, Stored, MapOf;
    MapOfMember(ps, u);
    if u in t.index {
      assert LinkOk(t, u);
      var id := t.index[u];
      var j :| 0 <= j < |t.buckets[Hash(u)]| && t.buckets[Hash(u)][j] == id;
      var i :| 0 <= i < |ids| && ids[i] == id;
      assert Uid(ps[i]) == u;
    } else {
      forall i | 0 <= i < |ps|
        ensures Uid(ps[i]) != u
      {
        assert Linked(t, ids[i]);
      }
    }
  }

  lemma {:induction false} SeenKnown(t: Table, b: nat, k: nat)
    requires TableOk(t) && b <= BUCKETS && k <= if b < BUCKETS then |t.buckets[b]| else 0
    ensures Known(t, Seen(t, b, k))
  {
    hide Hash, Uid, Acceptable, FlatIds;
    SeenPrefix(t, b);
    if b < BUCKETS {
      assert ChainOk(t, b);
      assert forall j :: 0 <= j < k ==> NodeOk(t, b, t.buckets[b][j]);
    }
  }

  /** The profiles a walk has seen when it stands before node k of bucket b. */
  ghost function Walked(t: Table, b: nat, k: nat): seq<ByteSeq>
    requires TableOk(t) && b <= BUCKETS && k <= if b < BUCKETS then |t.buckets[b]| else 0
  {
    SeenKnown(t, b, k);
    ProfilesOf(t, Seen(t, b, k))
  }

  lemma {:induction false} WalkedStep(t: Table, b: nat, k: nat)
    requires TableOk(t) && b < BUCKETS && k < |t.buckets[b]|
    ensures NodeOk(t, b, t.buckets[b][k])
    ensures Walked(t, b, k + 1) == Walked(t, b, k) + [t.profiles[t.buckets[b][k]]]
  {
    hide Hash, Uid, Acceptable, FlatIds;
    assert ChainOk(t, b);
    SeenKnown(t, b, k);
    SeenKnown(t, b, k + 1);
    assert Seen(t, b, k + 1) == Seen(t, b, k) + [t.buckets[b][k]];
  }

  lemma {:induction false} WalkedNext(t: Table, b: nat)
    requires TableOk(t) && b < BUCKETS
    ensures Walked(t, b + 1, 0) == Walked(t, b, |t.buckets[b]|)
  {
    hide Hash, Uid, Acceptable, FlatIds;
    SeenKnown(t, b + 1, 0);
    SeenKnown(t, b, |t.buckets[b]|);
    FlatIdsEnd(t.buckets, b + 1);
    assert t.buckets[b][..|t.buckets[b]|] == t.buckets[b];
    assert Seen(t, b + 1, 0) == Seen(t, b, |t.buckets[b]|);
  }

  lemma {:induction false} WalkedEnds(t: Table)
    requires TableOk(t)
    ensures Walked(t, 0, 0) == [] && Walked(t, BUCKETS, 0) == Listing(t)
  {
    hide Hash, Uid, Acceptable;
    SeenKnown(t, 0, 0);
    SeenKnown(t, BUCKETS, 0);
    SeenPrefix(t, BUCKETS);
    assert t.buckets[..BUCKETS] == t.buckets;
    assert Seen(t, BUCKETS, 0) == FlatIds(t.buckets);
    assert Seen(t, 0, 0) == [];
  }

  // ---- listing by permission ------------------------------------------------------------

  ghost predicate Selected(p: ByteSeq, allow: bool, manager: nat -> bool)
    requires |p| == SIZE
  {
    AllowSu(p) == allow && !manager(Uid(p))
  }

  /** The uids, in walk order, with the wanted permission that are not a manager's. */
  ghost function Matching(ps: seq<ByteSeq>, allow: bool, manager: nat -> bool): (us: seq<nat>)
    requires AllProfiles(ps)
    ensures |us| <= |ps|
  {
    if ps == [] then []
    else Matching(ps[..|ps| - 1], allow, manager)
         + if Selected(ps[|ps| - 1], allow, manager) then [Uid(ps[|ps| - 1])] else []
  }

  lemma {:induction false} MatchingSnoc(ps: seq<ByteSeq>, p: ByteSeq, allow: bool, manager: nat -> bool)
    requires AllProfiles(ps) && |p| == SIZE
    ensures AllProfiles(ps + [p])
    ensures Matching(ps + [p], allow, manager)
            == Matching(ps, allow, manager) + if Selected(p, allow, manager) then [Uid(p)] else []
  {
    assert (ps + [p])[..|ps|] == ps;
  }

  /** For stored profiles these are exactly the uids of the map whose profile has the wanted permission
      byte and that are not a manager's, each once. */
  lemma {:induction false} MatchingMeaning(ps: seq<ByteSeq>, allow: bool, manager: nat -> bool)
    requires Stored(ps)
    ensures var us, m := Matching(ps, allow, manager), MapOf(ps);
            && (forall u :: u in us <==> u in m && |m[u]| == 784 && (m[u][264] != 0) == allow && !manager(u))
            && (forall i, j :: 0 <= i < j < |us| ==> us[i] != us[j])
  {
    MatchingSelected(ps, allow, manager);
    hide Uid, Acceptable, Matching, MapOf;
    forall u | u in MapOf(ps)
      ensures |MapOf(ps)[u]| == 784 && Uid(MapOf(ps)[u]) == u
    {
      MapOfMember(ps, u);
    }
  }

  lemma {:induction false} MatchingSelected(ps: seq<ByteSeq>, allow: bool, manager: nat -> bool)
    requires Stored(ps)
    ensures var us, m := Matching(ps, allow, manager), MapOf(ps);
            && (forall u :: u in us <==> u in m && |m[u]| == SIZE && Selected(m[u], allow, manager))
            && (forall i, j :: 0 <= i < j < |us| ==> us[i] != us[j])
    decreases |ps|
  {
    hide Uid, Acceptable, AllowSu, Selected;
    if ps != [] {
      var n := |ps| - 1;
      var less := ps[..n];
      assert forall i :: 0 <= i < n ==> less[i] == ps[i];
      MatchingSelected(less, allow, manager);
      MapOfMember(less, Uid(ps[n]));
    }
  }

  // ---- reference counts -----------------------------------------------------------------

  /** Every node counts one reference for being linked and one for each reader that holds it; it
      has been freed, once, exactly when none is left. */
  ghost predicate RefOk(t: Table, refs: map<Id, nat>, held: map<Id, nat>, id: Id)
    requires id in refs && id in held
  {
    refs[id] == (if Linked(t, id) then 1 else 0) + held[id]
  }

  ghost predicate RefsOk(t: Table, refs: map<Id, nat>, held: map<Id, nat>, freed: seq<Id>) {
    && refs.Keys == held.Keys == t.profiles.Keys
    && (forall id :: id in refs ==> RefOk(t, refs, held, id))
    && Distinct(freed)
    && (forall id :: id in freed <==> id in refs && refs[id] == 0)
  }

  ghost function Dropped(refs: map<Id, nat>, id: Id): map<Id, nat>
    requires id in refs && refs[id] > 0
  {
    refs[id := refs[id] - 1]
  }

  /** The writer takes a node out of the table and drops the table's reference. */
  lemma {:induction false} RefsUnlink(t: Table, t': Table, refs: map<Id, nat>, held: map<Id, nat>, freed: seq<Id>, id: Id)
    requires RefsOk(t, refs, held, freed) && Linked(t, id) && t'.profiles == t.profiles
    requires forall x :: x in t.profiles ==> (Linked(t', x) <==> Linked(t, x) && x != id)
    ensures id in refs && refs[id] > 0
    ensures RefsOk(t', Dropped(refs, id), held, if refs[id] == 1 then freed + [id] else freed)
  {
    assert RefOk(t, refs, held, id);
    var refs' := refs[id := refs[id] - 1];
    forall x | x in refs'
      ensures RefOk(t', refs', held, x)
    {
      assert RefOk(t, refs, held, x);
    }
  }

  /** A new node starts with the table's reference. */
  lemma {:induction false} RefsLink(t: Table, t': Table, refs: map<Id, nat>, held: map<Id, nat>, freed: seq<Id>, id: Id)
    requires RefsOk(t, refs, held, freed) && id !in t.profiles && Linked(t', id)
    requires t'.profiles.Keys == t.profiles.Keys + {id}
    requires forall x :: x in t.profiles ==> (Linked(t', x) <==> Linked(t, x))
    ensures RefsOk(t', refs[id := 1], held[id := 0], freed)
  {
    var refs', held' := refs[id := 1], held[id := 0];
    forall x | x in refs'
      ensures RefOk(t', refs', held', x)
    {
      if x != id {
        assert RefOk(t, refs, held, x);
      }
    }
  }

  /** A reader takes a reference to a node that still has one. */
  lemma {:induction false} RefsGet(t: Table, refs: map<Id, nat>, held: map<Id, nat>, freed: seq<Id>, id: Id)
    requires RefsOk(t, refs, held, freed) && id in refs && refs[id] > 0
    ensures RefsOk(t, refs[id := refs[id] + 1], held[id := held[id] + 1], freed)
  {
    forall x | x in refs
      ensures RefOk(t, refs[id := refs[id] + 1], held[id := held[id] + 1], x)
    {
      assert RefOk(t, refs, held, x);
    }
  }

  /** A reader gives a reference back. */
  lemma {:induction false} RefsPut(t: Table, refs: map<Id, nat>, held: map<Id, nat>, freed: seq<Id>, id: Id)
    requires RefsOk(t, refs, held, freed) && id in held && held[id] > 0
    ensures id in refs && refs[id] > 0
    ensures RefsOk(t, Dropped(refs, id), held[id := held[id] - 1], if refs[id] == 1 then freed + [id] else freed)
  {
    assert RefOk(t, refs, held, id);
    forall x | x in refs
      ensures RefOk(t, Dropped(refs, id), held[id := held[id] - 1], x)
    {
      assert RefOk(t, refs, held, x);
    }
  }

  /** A node replaced by a new one for the same uid. */
  lemma {:induction false} RefsReplace(t: Table, b: nat, k: nat, id: Id, p: ByteSeq, refs: map<Id, nat>, held: map<Id, nat>, freed: seq<Id>)
    requires RefsOk(t, refs, held, freed) && b < |t.buckets| && k < |t.buckets[b]| && |p| == SIZE && id !in t.profiles
    requires NodeOk(t, b, t.buckets[b][k]) && Uid(t.profiles[t.buckets[b][k]]) == Uid(p)
    ensures var o := t.buckets[b][k];
            && o in refs && o != id && refs[o] > 0
            && RefsOk(Replace(t, b, k, id, p), Dropped(refs[id := 1], o), held[id := 0], if refs[o] == 1 then freed + [o] else freed)
  {
    hide Uid, Hash, Acceptable, RefsOk;
    var o, t' := t.buckets[b][k], Replace(t, b, k, id, p);
    var cut := Table(t.buckets, t.profiles, t.index - {Uid(p)});
    RefsUnlink(t, cut, refs, held, freed, o);
    RefsLink(cut, t', Dropped(refs, o), held, if refs[o] == 1 then freed + [o] else freed, id);
    assert Dropped(refs, o)[id := 1] == Dropped(refs[id := 1], o) by {
      assert o != id;
    }
  }

  lemma {:induction false} RefsAdd(t: Table, b: nat, id: Id, p: ByteSeq, refs: map<Id, nat>, held: map<Id, nat>, freed: seq<Id>)
    requires RefsOk(t, refs, held, freed) && b < |t.buckets| && |p| == SIZE && id !in t.profiles && Uid(p) !in t.index
    ensures RefsOk(Add(t, b, id, p), refs[id := 1], held[id := 0], freed)
  {
    hide Uid, RefsOk;
    RefsLink(t, Add(t, b, id, p), refs, held, freed, id);
  }

  lemma {:induction false} RefsPrune(t: Table, b: nat, k: nat, uid: nat, refs: map<Id, nat>, held: map<Id, nat>, freed: seq<Id>)
    requires RefsOk(t, refs, held, freed) && b < |t.buckets| && k < |t.buckets[b]|
    requires NodeOk(t, b, t.buckets[b][k]) && Uid(t.profiles[t.buckets[b][k]]) == uid
    ensures var o := t.buckets[b][k];
            && o in refs && refs[o] > 0
            && RefsOk(Unlink(t, b, k, uid), Dropped(refs, o), held, if refs[o] == 1 then freed + [o] else freed)
  {
    hide Uid, Hash, Acceptable, RefsOk;
    RefsUnlink(t, Unlink(t, b, k, uid), refs, held, freed, t.buckets[b][k]);
  }

  /** The lookup of a linked node can always take its reference: only a node that a writer has
      unlinked, and that no reader holds, refuses. */
  lemma {:induction false} GetRefusedIff(t: Table, refs: map<Id, nat>, held: map<Id, nat>, freed: seq<Id>, id: Id)
    requires RefsOk(t, refs, held, freed) && id in refs
    ensures refs[id] == 0 <==> !Linked(t, id) && held[id] == 0
    ensures refs[id] == 0 <==> id in freed
  {
    assert RefOk(t, refs, held, id);
  }
}

/** The whole allowlist as a value, and what each change of it keeps. */
module AllowState {
  import opened Bytes
  import opened AppProfile
  import opened AllowTable

  /** The table, its counter, the reference counts and the cached default; `held` counts readers,
      `freed` lists the nodes freed so far, `history` every map the table has stood for. */
  datatype State = State(t: Table, count: nat, nextId: Id, defaultUmount: bool, refs: map<Id, nat>,
                         held: map<Id, nat>, freed: seq<Id>, history: seq<Profiles>)

  ghost predicate Shape(s: State) {
    && TableOk(s.t) && RefsOk(s.t, s.refs, s.held, s.freed)
    && s.count == |s.t.index| <= MAX_COUNT
    && forall id :: id in s.t.profiles ==> id < s.nextId
  }

  /** The cached umount default: what uid 9999 stores, or true. */
  ghost predicate DefaultOk(m: Profiles, flag: bool) {
    if PRESERVE_UID in m && |m[PRESERVE_UID]| == SIZE then flag == UmountModules(m[PRESERVE_UID]) else flag
  }

  ghost predicate Inv(s: State) {
    && Shape(s) && DefaultOk(MapView(s.t), s.defaultUmount)
    && s.history != [] && s.history[|s.history| - 1] == MapView(s.t)
  }

  /** Nodes keep their profile and their readers; new nodes have no reader yet. */
  ghost predicate Kept(s: State, s': State) {
    && (forall id :: id in s.t.profiles ==> id in s'.t.profiles && s'.t.profiles[id] == s.t.profiles[id])
    && s.held.Keys <= s'.held.Keys
    && (forall id :: id in s'.held ==> s'.held[id] == if id in s.held then s.held[id] else 0)
    && s.history <= s'.history
  }

  /** Nodes keep their profile whatever readers and writers do. */
  ghost predicate Later(s: State, s': State) {
    && (forall id :: id in s.t.profiles ==> id in s'.t.profiles && s'.t.profiles[id] == s.t.profiles[id])
    && s.history <= s'.history
  }

  /** The references counted in `mine` are not given back by others. */
  ghost predicate Respects(s: State, mine: map<Id, nat>) {
    forall id :: id in mine ==> id in s.held && mine[id] <= s.held[id]
  }

  ghost predicate At(s: State, b: nat, k: nat, uid: nat) {
    && b < |s.t.buckets| && k < |s.t.buckets[b]|
    && NodeOk(s.t, b, s.t.buckets[b][k]) && Uid(s.t.profiles[s.t.buckets[b][k]]) == uid
  }

  ghost function Put(s: State, id: Id): State
    requires id in s.refs && s.refs[id] > 0
  {
    s.(refs := Dropped(s.refs, id), freed := if s.refs[id] == 1 then s.freed + [id] else s.freed)
  }

  ghost function NewNode(s: State, t: Table): State {
    s.(t := t, nextId := s.nextId + 1, refs := s.refs[s.nextId := 1], held := s.held[s.nextId := 0])
  }

  ghost function Published(s: State): State
    requires TableOk(s.t)
  {
    s.(history := s.history + [MapView(s.t)])
  }

  ghost function Flagged(s: State, p: ByteSeq): State
    requires |p| == SIZE
  {
    if Uid(p) == PRESERVE_UID then s.(defaultUmount := UmountModules(p)) else s
  }

  lemma {:induction false} FreshId(s: State)
    requires Shape(s)
    ensures s.nextId !in s.t.profiles && s.nextId !in s.held && s.nextId !in s.refs
    ensures |s.t.buckets| == BUCKETS
    ensures TableOk(s.t) && |MapView(s.t)| == s.count <= MAX_COUNT && MapView(s.t).Keys == s.t.index.Keys
    ensures Kept(s, s)
  {
    hide Uid, Hash, Acceptable;
    assert MapView(s.t).Keys == s.t.index.Keys;
  }

  /** A new node takes the place of the one at position k of its chain. */
  lemma {:induction false} ReplacedOk(s: State, b: nat, k: nat, p: ByteSeq)
    requires Shape(s) && |p| == SIZE && Acceptable(p) && At(s, b, k, Uid(p))
    ensures s.t.buckets[b][k] in s.refs && s.refs[s.t.buckets[b][k]] > 0 && s.t.buckets[b][k] != s.nextId
    ensures var s' := Put(NewNode(s, Replace(s.t, b, k, s.nextId, p)), s.t.buckets[b][k]);
            Shape(s') && MapView(s'.t) == MapView(s.t)[Uid(p) := p] && Kept(s, s')
  {
    hide Uid, Hash, Acceptable, UmountModules, TableOk, RefsOk, MapView, NodeOk;
    FreshId(s);
    ReplaceOk(s.t, b, k, s.nextId, p);
    RefsReplace(s.t, b, k, s.nextId, p, s.refs, s.held, s.freed);
    AtIndex(s.t, b, s.t.buckets[b][k], Uid(p));
    assert s.t.index[Uid(p) := s.nextId].Keys == s.t.index.Keys;
  }

  lemma {:induction false} AtIndex(t: Table, b: nat, id: Id, uid: nat)
    requires NodeOk(t, b, id) && Uid(t.profiles[id]) == uid
    ensures uid in t.index && t.index[uid] == id
  {
  }

  /** A new node at the head of its chain. */
  lemma {:induction false} AddedOk(s: State, b: nat, p: ByteSeq)
    requires Shape(s) && |p| == SIZE && Acceptable(p) && Uid(p) !in s.t.index && s.count < MAX_COUNT
    requires b < |s.t.buckets| && b == Hash(Uid(p))
    ensures var s' := NewNode(s, Add(s.t, b, s.nextId, p)).(count := s.count + 1);
            Shape(s') && MapView(s'.t) == MapView(s.t)[Uid(p) := p] && Kept(s, s')
  {
    hide Uid, Hash, Acceptable, UmountModules, TableOk, RefsOk, MapView;
    FreshId(s);
    AddOk(s.t, b, s.nextId, p);
    RefsAdd(s.t, b, s.nextId, p, s.refs, s.held, s.freed);
    KeyAdded(s.t.index, Uid(p), s.nextId);
  }

  lemma {:induction false} KeyAdded(m: map<nat, Id>, u: nat, id: Id)
    requires u !in m
    ensures |m[u := id]| == |m| + 1
  {
    assert m[u := id].Keys == m.Keys + {u};
  }

  lemma {:induction false} KeyDropped(m: map<nat, Id>, u: nat)
    requires u in m
    ensures |m - {u}| == |m| - 1
  {
    assert (m - {u}).Keys == m.Keys - {u};
  }

  /** After either, the default follows and the map is published. */
  lemma {:induction false} SetDone(s0: State, s: State, p: ByteSeq)
    requires Inv(s0) && Shape(s) && |p| == SIZE && MapView(s.t) == MapView(s0.t)[Uid(p) := p] && Kept(s0, s)
    requires s.history == s0.history && s.defaultUmount == s0.defaultUmount
    ensures TableOk(s.t) && Inv(Published(Flagged(s, p))) && Kept(s0, Published(Flagged(s, p)))
  {
    hide Uid, UmountModules, MapView, TableOk, RefsOk;
  }

  lemma {:induction false} PrunedOk(s: State, b: nat, k: nat, uid: nat)
    requires Inv(s) && At(s, b, k, uid) && uid != PRESERVE_UID
    ensures s.t.buckets[b][k] in s.refs && s.refs[s.t.buckets[b][k]] > 0 && s.count > 0
    ensures var s' := Put(s.(t := Unlink(s.t, b, k, uid), count := s.count - 1), s.t.buckets[b][k]);
            && TableOk(s'.t) && Inv(Published(s')) && Kept(s, Published(s'))
            && MapView(s'.t) == MapView(s.t) - {uid}
  {
    hide Uid, Hash, Acceptable, UmountModules, TableOk, RefsOk, MapView, NodeOk;
    FreshId(s);
    UnlinkOk(s.t, b, k, uid);
    RefsPrune(s.t, b, k, uid, s.refs, s.held, s.freed);
    AtIndex(s.t, b, s.t.buckets[b][k], uid);
    KeyDropped(s.t.index, uid);
  }

  lemma {:induction false} KeptTrans(a: State, b: State, c: State)
    requires Kept(a, b) && Kept(b, c)
    ensures Kept(a, c)
  {
  }

  // ---- readers --------------------------------------------------------------------------

  ghost function Got(s: State, id: Id): State
    requires id in s.refs && id in s.held
  {
    s.(refs := s.refs[id := s.refs[id] + 1], held := s.held[id := s.held[id] + 1])
  }

  /** kref_get_unless_zero refuses exactly the freed nodes: those that left the table and that no
      reader holds. */
  lemma {:induction false} RefusedIffFreed(s: State, id: Id)
    requires Shape(s) && id in s.t.profiles
    ensures id in s.refs && id in s.held
    ensures s.refs[id] == 0 <==> id in s.freed
    ensures s.refs[id] == 0 <==> !Linked(s.t, id) && s.held[id] == 0
  {
    hide TableOk, Linked;
    GetRefusedIff(s.t, s.refs, s.held, s.freed, id);
  }

  lemma {:induction false} GotOk(s: State, id: Id)
    requires Inv(s) && id in s.refs && s.refs[id] > 0
    ensures id in s.held && Inv(Got(s, id))
  {
    hide TableOk, Linked, MapView;
    RefsGet(s.t, s.refs, s.held, s.freed, id);
  }

  lemma {:induction false} PutOk(s: State, id: Id)
    requires Inv(s) && id in s.held && s.held[id] > 0
    ensures id in s.refs && s.refs[id] > 0
    ensures Inv(Put(s, id).(held := s.held[id := s.held[id] - 1]))
  {
    hide TableOk, Linked, MapView;
    RefsPut(s.t, s.refs, s.held, s.freed, id);
  }

  // ---- prune ----------------------------------------------------------------------------

  predicate Spared(p: ByteSeq, installed: (nat, ByteSeq) -> bool)
    requires |p| == SIZE
  {
    Uid(p) == PRESERVE_UID || Uid(p) == WEBVIEW_ZYGOTE_UID || installed(Uid(p), KeyField(p))
  }

  ghost predicate SparedAt(m: Profiles, u: nat, installed: (nat, ByteSeq) -> bool)
    requires u in m
  {
    |m[u]| == SIZE && Spared(m[u], installed)
  }

  ghost function Surviving(m: Profiles, installed: (nat, ByteSeq) -> bool): Profiles {
    map u | u in m && SparedAt(m, u, installed) :: m[u]
  }

  /** What a prune leaves, by offset: uid 9999, uid 1053, and profiles whose uid and key belong to an
      installed package. */
  lemma {:induction false} SurvivingBytes(m: Profiles, installed: (nat, ByteSeq) -> bool, u: nat)
    ensures u in Surviving(m, installed) <==>
            && u in m && |m[u]| == 784
            && var uid := LeValue(m[u][260..264]); uid == 9999 || uid == 1053 || installed(uid, m[u][4..260])
    ensures u in Surviving(m, installed) ==> Surviving(m, installed)[u] == m[u]
  {
    hide LeValue;
  }

  /** The cached default is byte 273 of the profile stored for uid 9999, or true without one. */
  lemma {:induction false} DefaultBytes(s: State)
    requires Inv(s)
    ensures var m := MapView(s.t);
            if 9999 in m then |m[9999]| == 784 && s.defaultUmount == (m[9999][273] != 0) else s.defaultUmount
  {
    hide Uid, Acceptable, Hash;
    assert 9999 in s.t.index ==> LinkOk(s.t, 9999);
  }

  /** Part of m0, without some of those that are not spared. */
  ghost predicate Thinned(m0: Profiles, m: Profiles, installed: (nat, ByteSeq) -> bool) {
    && (forall u :: u in m ==> u in m0 && m[u] == m0[u])
    && (forall u :: u in m0 && u !in m ==> !SparedAt(m0, u, installed))
  }

  ghost predicate NodeSpared(t: Table, id: Id, installed: (nat, ByteSeq) -> bool) {
    id in t.profiles && |t.profiles[id]| == SIZE && Spared(t.profiles[id], installed)
  }

  ghost predicate WalkedSpared(t: Table, b: nat, k: nat, installed: (nat, ByteSeq) -> bool) {
    forall c, j :: 0 <= c < |t.buckets| && 0 <= j < |t.buckets[c]| && (c < b || (c == b && j < k))
                   ==> NodeSpared(t, t.buckets[c][j], installed)
  }

  lemma {:induction false} NodeInMap(s: State, b: nat, k: nat)
    requires Shape(s) && b < BUCKETS && b < |s.t.buckets| && k < |s.t.buckets[b]|
    ensures var id := s.t.buckets[b][k];
            && NodeOk(s.t, b, id) && id in s.t.profiles && |s.t.profiles[id]| == SIZE && At(s, b, k, Uid(s.t.profiles[id]))
            && Uid(s.t.profiles[id]) in MapView(s.t) && MapView(s.t)[Uid(s.t.profiles[id])] == s.t.profiles[id]
  {
    hide Uid, Hash, Acceptable;
    assert ChainOk(s.t, b);
  }

  lemma {:induction false} SparedMeaning(p: ByteSeq, installed: (nat, ByteSeq) -> bool)
    requires |p| == SIZE && !Spared(p, installed)
    ensures Uid(p) != PRESERVE_UID
  {
    hide Uid;
  }

  lemma {:induction false} ThinnedMore(m0: Profiles, m: Profiles, uid: nat, installed: (nat, ByteSeq) -> bool)
    requires Thinned(m0, m, installed) && uid in m && |m[uid]| == SIZE && !Spared(m[uid], installed)
    ensures Thinned(m0, m - {uid}, installed)
  {
    hide Spared;
  }

  lemma {:induction false} WalkedUnlink(t: Table, t': Table, b: nat, k: nat, installed: (nat, ByteSeq) -> bool)
    requires b < |t.buckets| && k < |t.buckets[b]| && t'.profiles == t.profiles
    requires t'.buckets == t.buckets[b := t.buckets[b][..k] + t.buckets[b][k + 1..]]
    requires WalkedSpared(t, b, k, installed)
    ensures WalkedSpared(t', b, k, installed)
  {
    hide Spared;
    forall c, j | 0 <= c < |t'.buckets| && 0 <= j < |t'.buckets[c]| && (c < b || (c == b && j < k))
      ensures NodeSpared(t', t'.buckets[c][j], installed)
    {
      assert t'.buckets[c][j] == t.buckets[c][j];
      assert NodeSpared(t, t.buckets[c][j], installed);
    }
  }

  lemma {:induction false} PruneDone(t: Table, m0: Profiles, installed: (nat, ByteSeq) -> bool)
    requires TableOk(t) && Thinned(m0, MapView(t), installed) && WalkedSpared(t, BUCKETS, 0, installed)
    ensures MapView(t) == Surviving(m0, installed)
  {
    hide Uid, Hash, Acceptable, Spared;
    var m := MapView(t);
    forall u | u in m
      ensures SparedAt(m0, u, installed)
    {
      assert LinkOk(t, u);
      var j :| 0 <= j < |t.buckets[Hash(u)]| && t.buckets[Hash(u)][j] == t.index[u];
      assert NodeSpared(t, t.buckets[Hash(u)][j], installed);
    }
  }

  /** A pruning walk that began in state s0 stands before node k of bucket b. */
  ghost predicate Pruning(s0: State, s: State, b: nat, k: nat, installed: (nat, ByteSeq) -> bool, modified: bool) {
    && Inv(s0) && Inv(s) && |s.t.buckets| == BUCKETS && Kept(s0, s)
    && b <= BUCKETS && (b < BUCKETS ==> k <= |s.t.buckets[b]|)
    && Thinned(MapView(s0.t), MapView(s.t), installed) && WalkedSpared(s.t, b, k, installed)
    && if modified then MapView(s.t) != MapView(s0.t) else s == s0
  }

  lemma {:induction false} PruningStart(s: State, installed: (nat, ByteSeq) -> bool)
    requires Inv(s)
    ensures Pruning(s, s, 0, 0, installed, false)
  {
    hide Uid, Hash, Acceptable, Spared, RefsOk, TableOk, MapView;
    FreshId(s);
  }

  lemma {:induction false} PruningFacts(s0: State, s: State, b: nat, k: nat, installed: (nat, ByteSeq) -> bool, modified: bool)
    requires Pruning(s0, s, b, k, installed, modified)
    ensures Inv(s) && Shape(s) && |s.t.buckets| == BUCKETS && (b < BUCKETS ==> k <= |s.t.buckets[b]|)
  {
    hide Shape, MapView;
  }

  lemma {:induction false} PruningSkip(s0: State, s: State, b: nat, k: nat, installed: (nat, ByteSeq) -> bool, modified: bool)
    requires Pruning(s0, s, b, k, installed, modified) && b < BUCKETS && k < |s.t.buckets[b]|
    requires NodeSpared(s.t, s.t.buckets[b][k], installed)
    ensures Pruning(s0, s, b, k + 1, installed, modified)
  {
    hide Inv, Kept, Thinned, MapView, NodeSpared;
  }

  lemma {:induction false} PruningRow(s0: State, s: State, b: nat, installed: (nat, ByteSeq) -> bool, modified: bool)
    requires b < |s.t.buckets| && b < BUCKETS && Pruning(s0, s, b, |s.t.buckets[b]|, installed, modified)
    ensures Pruning(s0, s, b + 1, 0, installed, modified)
  {
    hide Inv, Kept, Thinned, MapView, NodeSpared;
  }

  lemma {:induction false} PruningCut(s0: State, s: State, s': State, b: nat, k: nat, installed: (nat, ByteSeq) -> bool, modified: bool)
    requires Pruning(s0, s, b, k, installed, modified) && b < BUCKETS && k < |s.t.buckets[b]|
    requires var id := s.t.buckets[b][k];
             && id in s.t.profiles && |s.t.profiles[id]| == SIZE && !Spared(s.t.profiles[id], installed)
             && Uid(s.t.profiles[id]) in MapView(s.t) && MapView(s.t)[Uid(s.t.profiles[id])] == s.t.profiles[id]
             && Inv(s') && MapView(s'.t) == MapView(s.t) - {Uid(s.t.profiles[id])}
    requires Kept(s, s') && s'.t.profiles == s.t.profiles
    requires s'.t.buckets == s.t.buckets[b := s.t.buckets[b][..k] + s.t.buckets[b][k + 1..]]
    ensures Pruning(s0, s', b, k, installed, true)
  {
    hide Uid, Kept, MapView, NodeSpared, Spared, SparedAt, WalkedSpared, TableOk, RefsOk, DefaultOk;
    var uid := Uid(s.t.profiles[s.t.buckets[b][k]]);
    KeptTrans(s0, s, s');
    ThinnedMore(MapView(s0.t), MapView(s.t), uid, installed);
    WalkedUnlink(s.t, s'.t, b, k, installed);
    assert uid in MapView(s0.t) && uid !in MapView(s'.t);
  }

  lemma {:induction false} PruningDone(s0: State, s: State, installed: (nat, ByteSeq) -> bool, modified: bool)
    requires Pruning(s0, s, BUCKETS, 0, installed, modified)
    ensures Inv(s) && MapView(s.t) == Surviving(MapView(s0.t), installed) && Kept(s0, s)
    ensures if modified then MapView(s.t) != MapView(s0.t) else s == s0
  {
    hide Uid, Kept, MapView, Spared, SparedAt, WalkedSpared, Thinned;
    PruneDone(s.t, MapView(s0.t), installed);
  }

  // ---- lookup ---------------------------------------------------------------------------

  lemma {:induction false} LaterTrans(a: State, b: State, c: State)
    requires Later(a, b) && Later(b, c)
    ensures Later(a, c)
  {
  }

  lemma {:induction false} KeptIsLater(s: State, s': State, mine: map<Id, nat>)
    requires Kept(s, s') && Respects(s, mine)
    ensures Later(s, s') && Respects(s', mine)
  {
  }

  lemma {:induction false} GotIsLater(s: State, id: Id, mine: map<Id, nat>)
    requires id in s.refs && id in s.held && Respects(s, mine)
    ensures Later(s, Got(s, id)) && Respects(Got(s, id), mine)
  {
  }

  lemma {:induction false} PutIsLater(s: State, id: Id, mine: map<Id, nat>)
    requires id in s.refs && s.refs[id] > 0 && id in s.held && s.held[id] > (if id in mine then mine[id] else 0) && Respects(s, mine)
    ensures var s' := Put(s, id).(held := s.held[id := s.held[id] - 1]); Later(s, s') && Respects(s', mine)
  {
  }

  lemma {:induction false} KeptSelf(s: State)
    ensures Kept(s, s)
  {
  }

  lemma {:induction false} LaterHistory(s: State, s': State)
    requires Later(s, s')
    ensures s.history <= s'.history
  {
  }

  lemma {:induction false} LaterNode(s: State, s': State, id: Id)
    requires Later(s, s') && id in s.t.profiles
    ensures id in s'.t.profiles && s'.t.profiles[id] == s.t.profiles[id]
  {
  }

  lemma {:induction false} LookupMoment(s: State, uid: nat)
    requires Inv(s)
    ensures TableOk(s.t) && s.history != [] && s.history[|s.history| - 1] == MapView(s.t)
    ensures uid in MapView(s.t) <==> uid in s.t.index
  {
    hide TableOk, RefsOk;
    FreshId(s);
  }

  lemma {:induction false} FoundNode(s: State, b: nat, k: nat, uid: nat)
    requires Inv(s) && At(s, b, k, uid)
    ensures var id := s.t.buckets[b][k];
            && id in s.t.profiles && Linked(s.t, id)
            && uid in MapView(s.t) && MapView(s.t)[uid] == s.t.profiles[id]
  {
    hide Uid, Hash, Acceptable, RefsOk;
  }

  /** A lookup that began in s0 and ended in s1: the answer is the map's at one moment of the call,
      and a node that is returned had not been freed when the reader took its reference. */
  ghost predicate Answer(s0: State, before: State, s1: State, uid: nat, r: Option<Id>, moment: nat) {
    && Inv(before) && Later(s0, before)
    && |s0.history| - 1 <= moment < |before.history|
    && match r {
         case None => s1 == before && uid !in before.history[moment]
         case Some(id) =>
           && id in before.refs && id in before.held && id !in before.freed && s1 == Got(before, id)
           && id in before.t.profiles && uid in before.history[moment]
           && before.t.profiles[id] == before.history[moment][uid]
       }
  }

  lemma {:induction false} AnswerLater(a: State, s0: State, before: State, s1: State, uid: nat, r: Option<Id>, moment: nat)
    requires Later(a, s0) && Answer(s0, before, s1, uid, r, moment)
    ensures Answer(a, before, s1, uid, r, moment)
  {
    hide Inv, Later;
    LaterTrans(a, s0, before);
    LaterHistory(a, s0);
  }

  lemma {:induction false} NodeRefs(s: State, id: Id)
    requires Inv(s) && id in s.t.profiles
    ensures id in s.refs && id in s.held && (s.refs[id] > 0 <==> id !in s.freed)
    ensures Linked(s.t, id) ==> s.refs[id] > 0
  {
    hide Linked, TableOk, RefsOk, MapView, DefaultOk;
    RefusedIffFreed(s, id);
  }

  // ---- loops over the table and the file ------------------------------------------------

  /** What ksu_get_allow_list has gathered from the profiles seen so far. */
  ghost predicate Collected(ps: seq<ByteSeq>, allow: bool, manager: nat -> bool, length: nat, uids: seq<nat>, total: nat) {
    && AllProfiles(ps)
    && var all := Matching(ps, allow, manager);
       uids == all[..if length < |all| then length else |all|] && total == |all|
  }

  lemma {:induction false} CollectedStep(ps: seq<ByteSeq>, p: ByteSeq, allow: bool, manager: nat -> bool, length: nat, uids: seq<nat>, total: nat)
    requires Collected(ps, allow, manager, length, uids, total) && |p| == SIZE
    ensures Collected(ps + [p], allow, manager, length,
                      if Selected(p, allow, manager) && |uids| < length then uids + [Uid(p)] else uids,
                      if Selected(p, allow, manager) then total + 1 else total)
  {
    hide Uid, AllowSu, Matching;
    MatchingSnoc(ps, p, allow, manager);
  }

  lemma {:induction false} MatchingNone(allow: bool, manager: nat -> bool)
    ensures Collected([], allow, manager, 0, [], 0)
    ensures Matching([], allow, manager) == []
  {
  }

  lemma {:induction false} CutNothing(wrote: nat -> nat)
    ensures CutFlatten([], wrote) == []
  {
  }

  lemma {:induction false} WholeWrite(b: ByteSeq, n: nat)
    ensures n >= |b| ==> Cut(b, n) == b
  {
  }

  lemma {:induction false} RecordsStep(b: ByteSeq, size: nat)
    requires size > 0
    ensures if |b| < size then Records(b, size) == [] else Records(b, size) == [b[..size]] + Records(b[size..], size)
  {
  }

  lemma {:induction false} SetAllPrefix(m: Profiles, ps: seq<ByteSeq>, i: nat, memory: nat -> bool)
    requires AllProfiles(ps) && i <= |ps|
    ensures SetAll(m, ps[..i], memory)
            == if i == 0 then m else SetProfile(SetAll(m, ps[..i - 1], memory), ps[i - 1], memory(i - 1)).0
  {
    hide SetProfile;
    if i > 0 {
      assert ps[..i][..i - 1] == ps[..i - 1];
    }
  }

  /** A load that began with map m0 has set the first i profiles of the file and stands at off. */
  ghost predicate Loading(m0: Profiles, m: Profiles, file: ByteSeq, junk: nat -> ByteSeq, memory: nat -> bool, off: nat, i: nat)
    requires HeaderOk(file) && IsJunk(junk) && 8 <= off <= |file|
  {
    var size := RecordSize(LeValue(file[4..8]));
    var rs, ps := Records(file[8..], size), LoadFile(file, junk);
    && i <= |rs| == |ps|
    && rs == rs[..i] + Records(file[off..], size)
    && m == SetAll(m0, ps[..i], memory)
  }

  lemma {:induction false} LoadStart(m: Profiles, file: ByteSeq, junk: nat -> ByteSeq, memory: nat -> bool)
    requires HeaderOk(file) && IsJunk(junk)
    ensures Loading(m, m, file, junk, memory, 8, 0)
  {
    hide LeValue, Migrate, Records, SetAll;
    SetAllPrefix(m, LoadFile(file, junk), 0, memory);
  }

  lemma {:induction false} LoadStep(m0: Profiles, m: Profiles, file: ByteSeq, junk: nat -> ByteSeq, memory: nat -> bool, off: nat, i: nat)
    requires HeaderOk(file) && IsJunk(junk) && 8 <= off <= |file|
    requires Loading(m0, m, file, junk, memory, off, i)
    requires |file| - off >= RecordSize(LeValue(file[4..8]))
    ensures var version := LeValue(file[4..8]);
            var size := RecordSize(version);
            var c := Complete(version, i, file[off..off + size], junk);
            && |c| == SIZE
            && Loading(m0, SetProfile(m, Migrate(version, c), memory(i)).0, file, junk, memory, off + size, i + 1)
  {
    hide LeValue, Migrate, Records, SetAll, SetProfile;
    var version := LeValue(file[4..8]);
    var size := RecordSize(version);
    var rs, ps, rest := Records(file[8..], size), LoadFile(file, junk), file[off..];
    RecordsStep(rest, size);
    assert file[off..off + size] == rest[..size] && file[off + size..] == rest[size..];
    assert rs[i] == rest[..size];
    assert rs[..i + 1] == rs[..i] + [rest[..size]];
    SetAllPrefix(m0, ps, i + 1, memory);
  }

  lemma {:induction false} LoadEnd(m0: Profiles, m: Profiles, file: ByteSeq, junk: nat -> ByteSeq, memory: nat -> bool, off: nat, i: nat)
    requires HeaderOk(file) && IsJunk(junk) && 8 <= off <= |file|
    requires Loading(m0, m, file, junk, memory, off, i)
    requires |file| - off < RecordSize(LeValue(file[4..8]))
    ensures m == SetAll(m0, LoadFile(file, junk), memory)
  {
    hide LeValue, Migrate, Records, SetAll;
    RecordsStep(file[off..], RecordSize(LeValue(file[4..8])));
    var ps := LoadFile(file, junk);
    assert ps[..|ps|] == ps;
  }

  /** Loading what a save of this state wrote, into an empty list, restores its map if and only if no
      record write was cut short. */
  lemma {:induction false} SavedReloadsIff(s: State, junk: nat -> ByteSeq, memory: nat -> bool, wrote: nat -> nat)
    requires Shape(s) && IsJunk(junk) && (forall i: nat :: memory(i))
    ensures HeaderOk(SavedFile(Listing(s.t), 4, 4, wrote))
    ensures SetAll(map[], LoadFile(SavedFile(Listing(s.t), 4, 4, wrote), junk), memory) == MapView(s.t) <==>
            forall i :: 0 <= i < s.count ==> wrote(i) >= SIZE
  {
    hide TableOk, RefsOk, MapView, Listing, LoadFile, SetAll, HeaderOk, SavedFile, Stored, MapOf;
    FreshId(s);
    ListingStands(s.t);
    ReloadsIffUncut(Listing(s.t), wrote, junk, memory);
  }

  lemma {:induction false} OneDefault(a: State, b: State)
    requires Inv(a) && Inv(b) && MapView(a.t) == MapView(b.t)
    ensures a.defaultUmount == b.defaultUmount
  {
    hide TableOk, RefsOk, MapView, UmountModules;
  }
}

/** kernel/policy/allowlist.c */
module Allowlist {
  import opened Bytes
  import opened AppProfile
  import opened AllowTable
  import opened AllowState

  /** What another thread does: a writer sets or prunes, a reader takes a reference to a node it has
      looked up, at whatever time, or gives one back. */
  datatype Act =
    | Set(profile: ByteSeq, memory: bool)
    | Prune(installed: (nat, ByteSeq) -> bool, booted: bool)
    | TakeRef(id: Id)
    | DropRef(id: Id)

  class AllowList {
    var buckets: seq<seq<Id>>
    var profiles: map<Id, ByteSeq>
    var refs: map<Id, nat>
    var count: nat
    var defaultUmount: bool
    var nextId: Id
    ghost var index: map<nat, Id>
    var held: map<Id, nat>  // how many references readers hold; the kernel does not count them apart
    ghost var freed: seq<Id>
    ghost var history: seq<Profiles>

    ghost function S(): State
      reads this
    {
      State(Table(buckets, profiles, index), count, nextId, defaultUmount, refs, held, freed, history)
    }

    ghost predicate Valid()
      reads this
    {
      Inv(S())
    }

    ghost function View(): Profiles
      requires Valid()
      reads this
    {
      MapView(S().t)
    }

    constructor ()
      ensures Valid() && View() == map[] && defaultUmount && held == map[] && freed == []
    {
      buckets := seq(BUCKETS, _ => []);
      profiles, refs, count, defaultUmount, nextId := map[], map[], 0, true, 0;
      index, held, freed, history := map[], map[], [], [map[]];
    }

    /** The walk over one chain: the position of the node for a uid, or the chain's length. */
    method FindInChain(uid: nat) returns (k: nat)
      requires TableOk(S().t)
      ensures |buckets| == BUCKETS && k <= |buckets[Hash(uid)]|
      ensures k < |buckets[Hash(uid)]| ==> At(S(), Hash(uid), k, uid)
      ensures k == |buckets[Hash(uid)]| <==> uid !in index
    {
      hide Hash, Uid, Acceptable;
      var chain := buckets[Hash(uid)];
      assert ChainOk(S().t, Hash(uid));
      k := 0;
      while k < |chain|
        invariant k <= |chain|
        invariant forall j :: 0 <= j < k ==> NodeOk(S().t, Hash(uid), chain[j]) && Uid(profiles[chain[j]]) != uid
      {
        assert NodeOk(S().t, Hash(uid), chain[k]);
        if Uid(profiles[chain[k]]) == uid {
          return;
        }
        k := k + 1;
      }
      assert uid in index ==> LinkOk(S().t, uid);
    }

    /** put_perm_data: drop a reference; the last one frees the node. */
    method PutRef(id: Id)
      requires id in refs && refs[id] > 0
      modifies this`refs, this`freed
      ensures S() == Put(old(S()), id)
    {
      refs := refs[id := refs[id] - 1];
      if refs[id] == 0 {
        freed := freed + [id];
      }
    }

    method NewRef(id: Id)
      requires id == nextId
      modifies this`refs, this`held, this`nextId
      ensures S() == NewNode(old(S()), S().t)
    {
      refs, held, nextId := refs[id := 1], held[id := 0], id + 1;
    }

    method ReplaceNode(b: nat, k: nat, p: ByteSeq)
      requires Shape(S()) && |p| == SIZE && Acceptable(p) && At(S(), b, k, Uid(p))
      modifies this
      ensures Shape(S()) && MapView(S().t) == MapView(old(S().t))[Uid(p) := p] && Kept(old(S()), S())
      ensures history == old(history) && defaultUmount == old(defaultUmount)
    {
      hide Hash, Uid, Acceptable, MapView, Shape, Kept, NodeOk;
      ReplacedOk(S(), b, k, p);
      var id, o := nextId, buckets[b][k];
      var chain := buckets[b][k := id];
      buckets, profiles, index := buckets[b := chain], profiles[id := p], index[Uid(p) := id];
      NewRef(id);
      PutRef(o);
    }

    method AddNode(b: nat, p: ByteSeq)
      requires Shape(S()) && |p| == SIZE && Acceptable(p) && Uid(p) !in index && count < MAX_COUNT
      requires b < |buckets| && b == Hash(Uid(p))
      modifies this
      ensures Shape(S()) && MapView(S().t) == MapView(old(S().t))[Uid(p) := p] && Kept(old(S()), S())
      ensures history == old(history) && defaultUmount == old(defaultUmount)
    {
      hide Hash, Uid, Acceptable, MapView, Shape, Kept, NodeOk;
      AddedOk(S(), b, p);
      var id := nextId;
      buckets, profiles, index := buckets[b := [id] + buckets[b]], profiles[id := p], index[Uid(p) := id];
      NewRef(id);
      count := count + 1;
    }

    /** strnlen on a whole field: where its first NUL is, or its size. */
    static method StrNLen(field: ByteSeq) returns (len: nat)
      ensures len <= |field| && (len < |field| <==> 0 in field)
      ensures forall k :: 0 <= k < len ==> field[k] != 0
      ensures len < |field| ==> field[len] == 0
    {
      len := 0;
      while len < |field| && field[len] != 0
        invariant len <= |field| && forall k :: 0 <= k < len ==> field[k] != 0
      {
        len := len + 1;
      }
    }

    /** profile_valid and the test on uid 9999: the scans for the end of the key and of the domain
        decide exactly whether both are terminated, and the domain not empty. */
    static method CheckProfile(p: ByteSeq) returns (ok: bool)
      requires IsProfile(p)
      ensures ok <==> Acceptable(p)
    {
      hide LeValue;
      var keyLen := StrNLen(KeyField(p));
      if keyLen >= 256 {
        return false;
      }
      if Version(p) != VERSION {
        return false;
      }
      if AllowSu(p) {
        if GroupsCount(p) > MAX_GROUPS {
          return false;
        }
        var len := StrNLen(Domain(p));
        if len == 0 || len >= 64 {
          return false;
        }
      }
      ok := !(Uid(p) == PRESERVE_UID && !IsDefaultKey(p));
    }

    /** ksu_set_app_profile. `memory` says whether a node can be allocated. */
    method SetAppProfile(p: ByteSeq, memory: bool) returns (ret: int)
      requires Valid() && IsProfile(p)
      modifies this
      ensures Valid() && (View(), ret) == SetProfile(old(View()), p, memory)
      ensures history == if ret == 0 then old(history) + [View()] else old(history)
      ensures Kept(old(S()), S())
    {
      hide Hash, Uid, Acceptable, UmountModules, MapView, Shape, Kept, DefaultOk, At, TableOk;
      ghost var s0 := S();
      FreshId(s0);
      var ok := CheckProfile(p);
      if !ok {
        return EINVAL;
      }
      var uid := Uid(p);
      var k := FindInChain(uid);
      if k < |buckets[Hash(uid)]| {
        if !memory {
          return ENOMEM;
        }
        ReplaceNode(Hash(uid), k, p);
      } else {
        if count == MAX_COUNT {
          return E2BIG;
        }
        if !memory {
          return ENOMEM;
        }
        AddNode(Hash(uid), p);
      }
      SetDone(s0, S(), p);
      if uid == PRESERVE_UID {
        defaultUmount := UmountModules(p);
      }
      history := history + [MapView(S().t)];
      ret := 0;
    }

    /** Node k of bucket b leaves its chain, and the table lets go of it. */
    method UnlinkNode(b: nat, k: nat, uid: nat)
      requires Valid() && At(S(), b, k, uid) && uid != PRESERVE_UID
      modifies this
      ensures Valid() && View() == old(View()) - {uid} && Kept(old(S()), S())
      ensures buckets == old(buckets)[b := old(buckets[b])[..k] + old(buckets[b])[k + 1..]]
      ensures profiles == old(profiles) && history == old(history) + [View()]
    {
      hide Hash, Uid, Acceptable, MapView, Inv, Kept, NodeOk;
      PrunedOk(S(), b, k, uid);
      var o := buckets[b][k];
      buckets := buckets[b := buckets[b][..k] + buckets[b][k + 1..]];
      index := index - {uid};
      PutRef(o);
      count := count - 1;
      history := history + [MapView(S().t)];
    }

    /** ksu_prune_allowlist: what is left is exactly the reserved uids and those still installed. */
    method Prune(installed: (nat, ByteSeq) -> bool, bootCompleted: bool) returns (modified: bool)
      requires Valid()
      modifies this
      ensures Valid() && View() == if bootCompleted then Surviving(old(View()), installed) else old(View())
      ensures modified <==> View() != old(View())
      ensures Kept(old(S()), S()) && (!modified ==> S() == old(S()))
    {
      hide Hash, Uid, Acceptable, MapView, Inv, Kept, At, Pruning, Spared, NodeOk;
      modified := false;
      ghost var s0 := S();
      KeptSelf(s0);
      if !bootCompleted {
        return;
      }
      PruningStart(s0, installed);
      var b := 0;
      while b < BUCKETS
        invariant b <= BUCKETS && Pruning(s0, S(), b, 0, installed, modified)
      {
        PruningFacts(s0, S(), b, 0, installed, modified);
        var k := 0;
        while k < |buckets[b]|
          invariant b < BUCKETS == |buckets| && k <= |buckets[b]| && Pruning(s0, S(), b, k, installed, modified)
          decreases |buckets[b]| - k
        {
          ghost var s := S();
          PruningFacts(s0, s, b, k, installed, modified);
          var id := buckets[b][k];
          NodeInMap(s, b, k);
          if !Spared(profiles[id], installed) {
            SparedMeaning(profiles[id], installed);
            UnlinkNode(b, k, Uid(profiles[id]));
            PruningCut(s0, s, S(), b, k, installed, modified);
            PruningFacts(s0, S(), b, k, installed, true);
            modified := true;
          } else {
            PruningSkip(s0, s, b, k, installed, modified);
            k := k + 1;
          }
        }
        PruningRow(s0, S(), b, installed, modified);
        b := b + 1;
      }
      PruningDone(s0, S(), installed, modified);
    }

    // ---- readers ----------------------------------------------------------------------

    /** kref_get_unless_zero on a node that some reader has looked up. */
    method GetRef(id: Id) returns (ok: bool)
      requires Valid() && id in profiles
      modifies this
      ensures Valid() && id in old(refs) && id in old(held) && (ok <==> old(refs)[id] > 0)
      ensures ok <==> id !in old(freed)
      ensures S() == if ok then Got(old(S()), id) else old(S())
    {
      hide Inv;
      NodeRefs(S(), id);
      ok := refs[id] > 0;
      if ok {
        GotOk(S(), id);
        refs, held := refs[id := refs[id] + 1], held[id := held[id] + 1];
      }
    }

    /** ksu_put_app_profile: the reader gives its reference back; the last one frees the node. */
    method PutAppProfile(id: Id)
      requires Valid() && id in held && held[id] > 0
      modifies this
      ensures Valid() && id in old(refs) && old(refs)[id] > 0
      ensures S() == Put(old(S()), id).(held := old(held)[id := old(held)[id] - 1])
    {
      hide Inv;
      PutOk(S(), id);
      PutRef(id);
      held := held[id := held[id] - 1];
    }

    method RunAct(a: Act, mine: map<Id, nat>)
      requires Valid() && (a.Set? ==> |a.profile| == SIZE) && Respects(S(), mine)
      modifies this
      ensures Valid() && Later(old(S()), S()) && Respects(S(), mine)
    {
      hide Inv, Kept, MapView, Later, Respects;
      ghost var s := S();
      KeptSelf(s);
      KeptIsLater(s, s, mine);
      match a {
        case Set(p, memory) =>
          var _ := SetAppProfile(p, memory);
          KeptIsLater(s, S(), mine);
        case Prune(installed, booted) =>
          var _ := Prune(installed, booted);
          KeptIsLater(s, S(), mine);
        case TakeRef(id) =>
          if id in profiles {
            var ok := GetRef(id);
            if ok {
              GotIsLater(s, id, mine);
            }
          }
        case DropRef(id) =>
          if id in held && held[id] > (if id in mine then mine[id] else 0) {
            PutOk(s, id);
            PutIsLater(s, id, mine);
            PutAppProfile(id);
          }
      }
    }

    /** What other threads do while a reader is between its lookup and its reference. They do not give
        back the references in `mine`. */
    method RunOthers(acts: seq<Act>, mine: map<Id, nat>)
      requires Valid() && (forall i :: 0 <= i < |acts| && acts[i].Set? ==> |acts[i].profile| == SIZE) && Respects(S(), mine)
      modifies this
      ensures Valid() && Later(old(S()), S()) && Respects(S(), mine) && (acts == [] ==> S() == old(S()))
    {
      hide Inv, Kept, Later, Respects;
      KeptSelf(S());
      KeptIsLater(S(), S(), mine);
      for i := 0 to |acts|
        invariant Valid() && Later(old(S()), S()) && Respects(S(), mine) && (i == 0 ==> S() == old(S()))
      {
        ghost var s := S();
        RunAct(acts[i], mine);
        LaterTrans(old(S()), s, S());
      }
    }

    method Lookup(uid: nat) returns (r: Option<Id>)
      requires Valid()
      ensures TableOk(S().t) && (r.None? <==> uid !in View())
      ensures r.Some? ==> r.value in profiles && Linked(S().t, r.value) && View()[uid] == profiles[r.value]
    {
      hide Inv, Kept, MapView, Hash, Uid, At, Shape, Acceptable, Linked, TableOk;
      LookupMoment(S(), uid);
      var k := FindInChain(uid);
      if k == |buckets[Hash(uid)]| {
        return None;
      }
      FoundNode(S(), Hash(uid), k, uid);
      r := Some(buckets[Hash(uid)][k]);
    }

    /** One attempt: look up, let the others run, take a reference unless there is none left. */
    method TryGet(uid: nat, acts: seq<Act>, mine: map<Id, nat>)
      returns (done: bool, r: Option<Id>, ghost moment: nat, ghost before: State)
      requires Valid() && (forall i :: 0 <= i < |acts| && acts[i].Set? ==> |acts[i].profile| == SIZE) && Respects(S(), mine)
      modifies this
      ensures Valid() && Respects(S(), mine)
      ensures if done then Answer(old(S()), before, S(), uid, r, moment) else acts != [] && Later(old(S()), S())
    {
      hide Inv, Kept, MapView, Linked, TableOk, Later, Respects;
      LookupMoment(S(), uid);
      KeptSelf(S());
      KeptIsLater(S(), S(), mine);
      moment, before := |history| - 1, S();
      r := Lookup(uid);
      if r.None? {
        return true, r, moment, before;
      }
      var id := r.value;
      NodeRefs(S(), id);
      RunOthers(acts, mine);
      before := S();
      LaterHistory(old(S()), S());
      LaterNode(old(S()), S(), id);
      done := GetRef(id);
      if done {
        GotIsLater(before, id, mine);
      }
    }

    /** ksu_get_app_profile, where `between[i]` is what other threads do between the lookup and the
        reference of attempt i, and `mine` what this thread already holds. A retry happens only after
        another thread has run. */
    method GetAppProfile(uid: nat, between: seq<seq<Act>>, mine: map<Id, nat>)
      returns (r: Option<Id>, ghost moment: nat, ghost before: State)
      requires Valid() && Respects(S(), mine)
      requires forall i, j :: 0 <= i < |between| && 0 <= j < |between[i]| && between[i][j].Set? ==> |between[i][j].profile| == SIZE
      modifies this
      ensures Valid() && Respects(S(), mine) && Answer(old(S()), before, S(), uid, r, moment)
    {
      hide Inv, Kept, Answer, Later, Respects;
      var i := 0;
      KeptSelf(S());
      KeptIsLater(S(), S(), mine);
      while true
        invariant i <= |between| && Valid() && Later(old(S()), S()) && Respects(S(), mine)
        decreases |between| - i
      {
        ghost var s := S();
        var acts := if i < |between| then between[i] else [];
        var done;
        done, r, moment, before := TryGet(uid, acts, mine);
        if done {
          AnswerLater(old(S()), s, before, S(), uid, r, moment);
          return;
        }
        LaterTrans(old(S()), s, S());
        i := i + 1;
      }
    }

    // ---- walks over the whole table -----------------------------------------------------

    /** ksu_get_allow_list: the first `length` of the uids with the wanted permission, and how many
        there are. */
    method GetAllowList(length: nat, allow: bool, manager: nat -> bool) returns (uids: seq<nat>, total: nat)
      requires Valid()
      ensures TableOk(S().t) && AllProfiles(Listing(S().t))
      ensures var all := Matching(Listing(S().t), allow, manager);
              uids == all[..if length < |all| then length else |all|] && total == |all| <= MAX_COUNT
    {
      hide Hash, Uid, Acceptable, MapView, Matching, TableOk, Listing, Walked, AllowSu, RefsOk, DefaultOk, Stored, MapOf;
      ghost var t := S().t;
      FreshId(S());
      WalkedEnds(t);
      ListingStands(t);
      MatchingNone(allow, manager);
      uids, total := [], 0;
      var b := 0;
      while b < BUCKETS
        invariant b <= BUCKETS && Collected(Walked(t, b, 0), allow, manager, length, uids, total)
      {
        for k := 0 to |buckets[b]|
          invariant Collected(Walked(t, b, k), allow, manager, length, uids, total)
        {
          WalkedStep(t, b, k);
          NodeInMap(S(), b, k);
          var p := profiles[buckets[b][k]];
          CollectedStep(Walked(t, b, k), p, allow, manager, length, uids, total);
          if AllowSu(p) == allow && !manager(Uid(p)) {
            if |uids| < length {
              uids := uids + [Uid(p)];
            }
            total := total + 1;
          }
        }
        WalkedNext(t, b);
        b := b + 1;
      }
    }

    /** do_persistent_allow_list into a new file. `magic`, `version` and `wrote` say how many bytes each
        write writes at most; only the two header writes are checked. */
    method Save(magic: nat, version: nat, wrote: nat -> nat) returns (file: ByteSeq)
      requires Valid()
      ensures TableOk(S().t) && file == SavedFile(Listing(S().t), magic, version, wrote)
    {
      hide Hash, Uid, Acceptable, MapView, TableOk, Listing, Walked, RefsOk, DefaultOk, LeBytes, CutFlatten, Cut;
      ghost var t := S().t;
      FreshId(S());
      WalkedEnds(t);
      CutNothing(wrote);
      file := Cut(LeBytes(FILE_MAGIC, 4), magic);
      if magic < 4 {
        return;
      }
      WholeWrite(LeBytes(FILE_MAGIC, 4), magic);
      WholeWrite(LeBytes(VERSION, 4), version);
      file := file + Cut(LeBytes(VERSION, 4), version);
      if version < 4 {
        return;
      }
      ghost var header := file;
      var b, n := 0, 0;
      while b < BUCKETS
        invariant b <= BUCKETS && n == |Walked(t, b, 0)| && file == header + CutFlatten(Walked(t, b, 0), wrote)
      {
        for k := 0 to |buckets[b]|
          invariant n == |Walked(t, b, k)| && file == header + CutFlatten(Walked(t, b, k), wrote)
        {
          WalkedStep(t, b, k);
          NodeInMap(S(), b, k);
          CutFlattenSnoc(Walked(t, b, k), profiles[buckets[b][k]], wrote);
          file := file + Cut(profiles[buckets[b][k]], wrote(n));
          n := n + 1;
        }
        WalkedNext(t, b);
        b := b + 1;
      }
    }

    /** ksu_load_allow_list. `junk` is what the uninitialised tail of an old record holds, `memory`
        which allocations succeed; the result says whether a save is scheduled. */
    method Load(file: ByteSeq, junk: nat -> ByteSeq, memory: nat -> bool) returns (resave: bool)
      requires Valid() && IsJunk(junk)
      modifies this
      ensures Valid()
      ensures View() == if HeaderOk(file) then SetAll(old(View()), LoadFile(file, junk), memory) else old(View())
      ensures resave <==> HeaderOk(file) && LeValue(file[4..8]) < VERSION
    {
      hide Inv, MapView, LeValue, Migrate, Records, Kept, SetAll, SetProfile, LoadFile, Loading, Complete;
      if |file| < 4 || LeValue(file[0..4]) != FILE_MAGIC {
        return false;
      }
      if |file| < 8 {
        return false;
      }
      var version := LeValue(file[4..8]);
      if version < 2 || version > VERSION {
        return false;
      }
      var size := RecordSize(version);
      var off, i := 8, 0;
      LoadStart(View(), file, junk, memory);
      while |file| - off >= size
        invariant 8 <= off <= |file| && Valid()
        invariant Loading(old(View()), View(), file, junk, memory, off, i)
      {
        LoadStep(old(View()), View(), file, junk, memory, off, i);
        var profile := Migrate(version, Complete(version, i, file[off..off + size], junk));
        var _ := SetAppProfile(profile, memory(i));
        off, i := off + size, i + 1;
      }
      LoadEnd(old(View()), View(), file, junk, memory, off, i);
      resave := version < VERSION;
    }
  }

  /** A boot that loads an old file, the save it schedules, and the next boot: the second list is the
      first one, umount default included, and the file it was loaded from needs no migration. */
  method MigrateSaveLoad(file: ByteSeq, junk: nat -> ByteSeq, memory: nat -> bool) returns (one: AllowList, two: AllowList)
    requires IsJunk(junk) && forall i: nat :: memory(i)
    ensures fresh(one) && fresh(two) && one.Valid() && two.Valid()
    ensures one.View() == if HeaderOk(file) then SetAll(map[], LoadFile(file, junk), memory) else map[]
    ensures two.View() == one.View() && two.defaultUmount == one.defaultUmount
  {
    hide HeaderOk, LoadFile, SetAll, MapView, Shape, DefaultOk, SavedFile, Listing, LeValue;
    one := new AllowList();
    two := new AllowList();
    var _ := one.Load(file, junk, memory);
    var wrote: nat -> nat := _ => SIZE;
    var saved := one.Save(4, 4, wrote);
    SavedReloadsIff(one.S(), junk, memory, wrote);
    var _ := two.Load(saved, junk, memory);
    OneDefault(one.S(), two.S());
  }
}
