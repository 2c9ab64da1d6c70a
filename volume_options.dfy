/** Volume options of the container-volume plugin: the class-of-service
    level names and the fold of a string option map into a volume spec. */
module VolumeOptions {
  import opened Wrappers
  import opened Strconv

  /** Class of service; CosNone is the zero value of the field. */
  datatype CosType = CosNone | CosLow | CosMedium | CosHigh

  /** File system types; FsNone is the zero value, and what an unknown name
      reads as. */
  datatype FsType = FsNone | FsBtrfs | FsExt4 | FsFuse | FsNfs | FsVfs | FsXfs | FsZfs

  /** The fields of a volume spec that options can set. */
  datatype VolumeSpec = VolumeSpec(
    ephemeral: bool,
    size: nat,
    format: FsType,
    blockSize: int,
    haLevel: int,
    cos: CosType,
    dedupe: bool,
    snapshotInterval: nat,
    shared: bool,
    volumeLabels: map<string, string>)

  const CosError: string := "Cos must be one of \"high\" | \"medium\" | \"low\""

  /** cosLevel: "high"/"3", "medium"/"2" and "low"/"1"/"" name the three
      levels; any other string is an error, reported together with LOW. */
  function CosLevel(cos: string): (r: (CosType, Option<string>))
    ensures r.1.None? <==> cos in {"high", "3", "medium", "2", "low", "1", ""}
    ensures r.1.Some? ==> r == (CosLow, Some(CosError))
    ensures r.0 == CosHigh <==> cos in {"high", "3"}
    ensures r.0 == CosMedium <==> cos in {"medium", "2"}
    ensures r.0 != CosNone
  {
    if cos in {"high", "3"} then (CosHigh, None)
    else if cos in {"medium", "2"} then (CosMedium, None)
    else if cos in {"low", "1", ""} then (CosLow, None)
    else (CosLow, Some(CosError))
  }

  /** The name of a level, and its digit. */
  function CosName(c: CosType): string
  {
    match c
    case CosNone => ""
    case CosLow => "low"
    case CosMedium => "medium"
    case CosHigh => "high"
  }

  function CosDigit(c: CosType): string
  {
    match c
    case CosNone => ""
    case CosLow => "1"
    case CosMedium => "2"
    case CosHigh => "3"
  }

  /** Every level reads back from its name and from its digit. */
  lemma CosLevelNames(c: CosType)
    requires c != CosNone
    ensures CosLevel(CosName(c)) == (c, None)
    ensures CosLevel(CosDigit(c)) == (c, None)
  {
  }

  /** The option keys that the fold recognises. */
  datatype OptKey = Ephemeral | Size | Filesystem | BlockSize | HaLevel | Cos | Dedupe | SnapshotInterval | Shared

  /** The option strings of the recognised keys (the api package's Spec*
      constants). */
  function KeyName(k: OptKey): string
  {
    match k
    case Ephemeral => "ephemeral"
    case Size => "size"
    case Filesystem => "format"
    case BlockSize => "blocksize"
    case HaLevel => "ha_level"
    case Cos => "cos"
    case Dedupe => "dedupe"
    case SnapshotInterval => "snapshot_interval"
    case Shared => "shared"
  }

  /** The key an option string names, as the fold's switch selects it. */
  function Recognise(s: string): (r: Option<OptKey>)
    ensures r.Some? ==> KeyName(r.value) == s
    ensures r.None? ==> forall k: OptKey :: KeyName(k) != s
  {
    if s == "ephemeral" then Some(Ephemeral)
    else if s == "size" then Some(Size)
    else if s == "format" then Some(Filesystem)
    else if s == "blocksize" then Some(BlockSize)
    else if s == "ha_level" then Some(HaLevel)
    else if s == "cos" then Some(Cos)
    else if s == "dedupe" then Some(Dedupe)
    else if s == "snapshot_interval" then Some(SnapshotInterval)
    else if s == "shared" then Some(Shared)
    else None
  }

  /** Distinct keys have distinct strings, so each key is recognised as
      itself. */
  lemma RecogniseKeyName(k: OptKey)
    ensures Recognise(KeyName(k)) == Some(k)
  {
  }

  function ToUpperAscii(s: string): (r: string)
    ensures |r| == |s|
    ensures forall i :: 0 <= i < |s| ==> r[i] == if 'a' <= s[i] <= 'z' then (s[i] as int - 32) as char else s[i]
  {
    if s == [] then []
    else [if 'a' <= s[0] <= 'z' then (s[0] as int - 32) as char else s[0]] + ToUpperAscii(s[1..])
  }

  function FsName(t: FsType): string
  {
    match t
    case FsNone => "NONE"
    case FsBtrfs => "BTRFS"
    case FsExt4 => "EXT4"
    case FsFuse => "FUSE"
    case FsNfs => "NFS"
    case FsVfs => "VFS"
    case FsXfs => "XFS"
    case FsZfs => "ZFS"
  }

  /** FSTypeSimpleValueOf: the type whose name matches `v` ignoring case;
      an unknown name gives the zero value FsNone (the error is dropped by
      the caller). */
  function FsTypeOf(v: string): (r: FsType)
    ensures r != FsNone ==> FsName(r) == ToUpperAscii(v)
    ensures r == FsNone ==> ToUpperAscii(v) == "NONE" || forall t: FsType :: FsName(t) != ToUpperAscii(v)
  {
    var u := ToUpperAscii(v);
    if u == "BTRFS" then FsBtrfs
    else if u == "EXT4" then FsExt4
    else if u == "FUSE" then FsFuse
    else if u == "NFS" then FsNfs
    else if u == "VFS" then FsVfs
    else if u == "XFS" then FsXfs
    else if u == "ZFS" then FsZfs
    else FsNone
  }

  const GiB: nat := 1024 * 1024 * 1024

  /** The size option's digits: the value without one trailing 'G' or 'g'. */
  function SizeDigits(v: string): (r: string)
    ensures r == v || (v != [] && r + [v[|v| - 1]] == v && (v[|v| - 1] == 'G' || v[|v| - 1] == 'g'))
    ensures r == v ==> v == [] || (v[|v| - 1] != 'G' && v[|v| - 1] != 'g')
  {
    if |v| > 0 && (v[|v| - 1] == 'G' || v[|v| - 1] == 'g') then v[..|v| - 1] else v
  }

  /** The size option: its digits read as an unsigned 64-bit number, and
      the product with 1 GiB kept modulo 2^64 (Go's uint64 multiplication). */
  function SizeOf(v: string): (r: nat)
    ensures r < TwoTo64 && r % GiB == 0
    ensures var d := SizeDigits(v);
      ParseUint(d, 64).1 == NoError && DigitsValue(d) < TwoTo64 / GiB ==> r == DigitsValue(d) * GiB
  {
    var n := ParseUint(SizeDigits(v), 64).0;
    assert TwoTo64 == GiB * 0x4_0000_0000;
    ModuloKeepsGiB(n);
    (n * GiB) % TwoTo64
  }

  lemma ModuloKeepsGiB(n: nat)
    ensures ((n * GiB) % TwoTo64) % GiB == 0
  {
    var q := (n * GiB) / TwoTo64;
    assert n * GiB == q * TwoTo64 + (n * GiB) % TwoTo64;
    assert TwoTo64 == GiB * 0x4_0000_0000;
    assert (n * GiB) % TwoTo64 == (n - q * 0x4_0000_0000) * GiB;
  }

  /** The suffix is optional: "<n>G", "<n>g" and "<n>" all give n GiB. */
  lemma SizeSuffixOptional(n: string)
    requires n != [] && AllDigits(n)
    ensures SizeOf(n + "G") == SizeOf(n + "g") == SizeOf(n)
  {
    assert (n + "G")[..|n|] == n;
    assert (n + "g")[..|n|] == n;
    assert IsDigit(n[|n| - 1]);
    assert SizeDigits(n) == n;
  }

  /** A size whose digits do not parse contributes 0, whatever the suffix. */
  lemma SizeUnparsable(v: string)
    requires ParseUint(SizeDigits(v), 64).1 == ErrSyntax
    ensures SizeOf(v) == 0
  {
  }

  /** A size whose digits exceed the uint64 range is read as 2^64 - 1, and
      the product with 1 GiB wraps to 2^64 - 2^30. */
  lemma SizeOutOfRange(v: string)
    requires ParseUint(SizeDigits(v), 64).1 == ErrRange
    ensures SizeOf(v) == TwoTo64 - GiB
  {
    assert (TwoTo64 - 1) * GiB == (GiB - 1) * TwoTo64 + (TwoTo64 - GiB);
  }

  /** The value given for `k` when its key is among the keys `done`. */
  function Given(opts: map<string, string>, done: set<string>, k: OptKey): Option<string>
  {
    if KeyName(k) in done && KeyName(k) in opts then Some(opts[KeyName(k)]) else None
  }

  /** The spec after the options whose keys are in `done` have been folded
      into the defaults: each recognised key sets its own field, and every
      other key is copied into the labels. */
  function SpecFromKeys(opts: map<string, string>, done: set<string>): VolumeSpec
  {
    VolumeSpec(
      ephemeral := match Given(opts, done, Ephemeral) case None => false case Some(v) => ParseBool(v).0,
      size := match Given(opts, done, Size) case None => 0 case Some(v) => SizeOf(v),
      format := match Given(opts, done, Filesystem) case None => FsExt4 case Some(v) => FsTypeOf(v),
      blockSize := match Given(opts, done, BlockSize) case None => 0 case Some(v) => ParseInt64(v).0,
      haLevel := match Given(opts, done, HaLevel) case None => 1 case Some(v) => ParseInt64(v).0,
      cos := match Given(opts, done, Cos) case None => CosNone case Some(v) => CosLevel(v).0,
      dedupe := match Given(opts, done, Dedupe) case None => false case Some(v) => ParseBool(v).0,
      snapshotInterval := match Given(opts, done, SnapshotInterval) case None => 0 case Some(v) => ParseUint(v, 32).0,
      shared := match Given(opts, done, Shared) case None => false case Some(v) => ParseUint(v, 32).0 != 0,
      volumeLabels := map k | k in done && k in opts && Recognise(k).None? :: opts[k])
  }

  /** One option folded into a spec: the field that `k` selects is set
      from `v`, or `k` is added to the labels when it selects none. */
  function Step(s: VolumeSpec, k: string, v: string): VolumeSpec
  {
    match Recognise(k)
    case Some(Ephemeral) => s.(ephemeral := ParseBool(v).0)
    case Some(Size) => s.(size := SizeOf(v))
    case Some(Filesystem) => s.(format := FsTypeOf(v))
    case Some(BlockSize) => s.(blockSize := ParseInt64(v).0)
    case Some(HaLevel) => s.(haLevel := ParseInt64(v).0)
    case Some(Cos) => s.(cos := CosLevel(v).0)
    case Some(Dedupe) => s.(dedupe := ParseBool(v).0)
    case Some(SnapshotInterval) => s.(snapshotInterval := ParseUint(v, 32).0)
    case Some(Shared) => s.(shared := s.shared || ParseUint(v, 32).0 != 0)
    case None => s.(volumeLabels := s.volumeLabels[k := v])
  }

  /** Folding the keys `done` and then one more key `k` is one Step more
      than folding `done`, whatever keys `done` holds: the fold does not
      depend on the order in which the map is walked. */
  lemma {:induction false} FoldOne(opts: map<string, string>, done: set<string>, k: string)
    requires k in opts && k !in done
    ensures forall key :: Given(opts, done + {k}, key) ==
              if Recognise(k) == Some(key) then Some(opts[k]) else Given(opts, done, key)
    ensures SpecFromKeys(opts, done + {k}) == Step(SpecFromKeys(opts, done), k, opts[k])
  {
    forall key: OptKey {
      GivenStep(opts, done, k, key);
    }
    var s := SpecFromKeys(opts, done);
    var s' := SpecFromKeys(opts, done + {k});
    LabelsStep(opts, done, k);
    StepFields(s, s', k, opts[k]);
  }

  /** Folding one more key adds it to the labels exactly when it is not
      recognised. */
  lemma LabelsStep(opts: map<string, string>, done: set<string>, k: string)
    requires k in opts && k !in done
    ensures SpecFromKeys(opts, done + {k}).volumeLabels ==
              if Recognise(k).None? then SpecFromKeys(opts, done).volumeLabels[k := opts[k]]
              else SpecFromKeys(opts, done).volumeLabels
  {
    var m := SpecFromKeys(opts, done).volumeLabels;
    var m' := SpecFromKeys(opts, done + {k}).volumeLabels;
    if Recognise(k).None? {
      assert m' == m[k := opts[k]];
    } else {
      assert m' == m;
    }
  }

  /** A spec `s'` that differs from `s` only in the field `k` selects (or
      in the label `k` when it selects none), by the value Step puts
      there, is Step's result. */
  lemma StepFields(s: VolumeSpec, s': VolumeSpec, k: string, v: string)
    requires s'.ephemeral == if Recognise(k) == Some(Ephemeral) then ParseBool(v).0 else s.ephemeral
    requires s'.size == if Recognise(k) == Some(Size) then SizeOf(v) else s.size
    requires s'.format == if Recognise(k) == Some(Filesystem) then FsTypeOf(v) else s.format
    requires s'.blockSize == if Recognise(k) == Some(BlockSize) then ParseInt64(v).0 else s.blockSize
    requires s'.haLevel == if Recognise(k) == Some(HaLevel) then ParseInt64(v).0 else s.haLevel
    requires s'.cos == if Recognise(k) == Some(Cos) then CosLevel(v).0 else s.cos
    requires s'.dedupe == if Recognise(k) == Some(Dedupe) then ParseBool(v).0 else s.dedupe
    requires s'.snapshotInterval == if Recognise(k) == Some(SnapshotInterval) then ParseUint(v, 32).0 else s.snapshotInterval
    requires s'.shared == if Recognise(k) == Some(Shared) then s.shared || ParseUint(v, 32).0 != 0 else s.shared
    requires s'.volumeLabels == if Recognise(k).None? then s.volumeLabels[k := v] else s.volumeLabels
    ensures s' == Step(s, k, v)
  {
    match Recognise(k) {
      case None => assert s' == s.(volumeLabels := s.volumeLabels[k := v]);
      case Some(Ephemeral) => assert s' == s.(ephemeral := ParseBool(v).0);
      case Some(Size) => assert s' == s.(size := SizeOf(v));
      case Some(Filesystem) => assert s' == s.(format := FsTypeOf(v));
      case Some(BlockSize) => assert s' == s.(blockSize := ParseInt64(v).0);
      case Some(HaLevel) => assert s' == s.(haLevel := ParseInt64(v).0);
      case Some(Cos) => assert s' == s.(cos := CosLevel(v).0);
      case Some(Dedupe) => assert s' == s.(dedupe := ParseBool(v).0);
      case Some(SnapshotInterval) => assert s' == s.(snapshotInterval := ParseUint(v, 32).0);
      case Some(Shared) => assert s' == s.(shared := s.shared || ParseUint(v, 32).0 != 0);
    }
  }

  /** The value given for each key changes only for the key `k` selects. */
  lemma GivenStep(opts: map<string, string>, done: set<string>, k: string, key: OptKey)
    requires k in opts && k !in done
    ensures Given(opts, done + {k}, key) ==
              if Recognise(k) == Some(key) then Some(opts[k]) else Given(opts, done, key)
  {
    RecogniseKeyName(key);
  }

  /** What specFromOpts returns for an option map, whatever order the map
      is walked in: the cos error if the cos value is invalid, otherwise
      the spec with every option folded in. */
  function SpecOf(opts: map<string, string>): (r: Result<VolumeSpec, string>)
    ensures r.Failure? <==> KeyName(Cos) in opts && CosLevel(opts[KeyName(Cos)]).1.Some?
    ensures r.Failure? ==> r.error == CosError
  {
    if KeyName(Cos) in opts && CosLevel(opts[KeyName(Cos)]).1.Some? then Failure(CosError)
    else Success(SpecFromKeys(opts, opts.Keys))
  }

  /** One pass of specFromOpts' switch: option `k` with value `v` sets the
      field its key selects, or becomes a label; an invalid cos value is
      the one error. */
  method ApplyOption(s: VolumeSpec, k: string, value: string) returns (r: Result<VolumeSpec, string>)
    ensures r.Failure? <==> Recognise(k) == Some(Cos) && CosLevel(value).1.Some?
    ensures r.Failure? ==> r.error == CosError
    ensures r.Success? ==> r.value == Step(s, k, value)
  {
    var spec, v := s, value;
    match Recognise(k) {
      case Some(Ephemeral) =>
        spec := spec.(ephemeral := ParseBool(v).0);
      case Some(Size) =>
        var sizeMulti := GiB;
        if |v| > 0 && (v[|v| - 1] == 'G' || v[|v| - 1] == 'g') {
          sizeMulti := GiB;
          v := v[..|v| - 1];
        }
        var size := ParseUint(v, 64).0;
        spec := spec.(size := (size * sizeMulti) % TwoTo64);
      case Some(Filesystem) =>
        spec := spec.(format := FsTypeOf(v));
      case Some(BlockSize) =>
        spec := spec.(blockSize := ParseInt64(v).0);
      case Some(HaLevel) =>
        spec := spec.(haLevel := ParseInt64(v).0);
      case Some(Cos) =>
        var (cos, err) := CosLevel(v);
        if err.Some? {
          return Failure(err.value);
        }
        spec := spec.(cos := cos);
      case Some(Dedupe) =>
        spec := spec.(dedupe := ParseBool(v).0);
      case Some(SnapshotInterval) =>
        spec := spec.(snapshotInterval := ParseUint(v, 32).0);
      case Some(Shared) =>
        if ParseUint(v, 32).0 != 0 {
          spec := spec.(shared := true);
        }
      case None =>
        spec := spec.(volumeLabels := spec.volumeLabels[k := v]);
    }
    return Success(spec);
  }

  /** specFromOpts: starts from the defaults (EXT4, HA level 1, no labels)
      and folds in the options one key at a time, in an arbitrary order. */
  method SpecFromOpts(opts: map<string, string>) returns (r: Result<VolumeSpec, string>)
    ensures r == SpecOf(opts)
  {
    var spec := VolumeSpec(false, 0, FsExt4, 0, 1, CosNone, false, 0, false, map[]);
    var rest := opts.Keys;
    ghost var done: set<string> := {};
    while rest != {}
      invariant rest <= opts.Keys && done == opts.Keys - rest
      invariant spec == SpecFromKeys(opts, done)
      invariant Given(opts, done, Cos).Some? ==> CosLevel(Given(opts, done, Cos).value).1.None?
      decreases rest
    {
      var k :| k in rest;
      FoldOne(opts, done, k);
      var next := ApplyOption(spec, k, opts[k]);
      if next.Failure? {
        return next;
      }
      spec := next.value;
      rest := rest - {k};
      done := done + {k};
    }
    assert done == opts.Keys;
    return Success(spec);
  }

  /** With no options the spec is all defaults: EXT4, HA level 1, no
      labels, every other field zero or false. */
  lemma EmptyOptions()
    ensures SpecOf(map[]) == Success(VolumeSpec(false, 0, FsExt4, 0, 1, CosNone, false, 0, false, map[]))
  {
  }

  /** The labels are exactly the options with unrecognised keys, values
      unchanged; no recognised key ever becomes a label. */
  lemma LabelsAreUnknownKeys(opts: map<string, string>, k: string)
    requires SpecOf(opts).Success?
    ensures k in SpecOf(opts).value.volumeLabels <==> k in opts && forall key: OptKey :: KeyName(key) != k
    ensures k in SpecOf(opts).value.volumeLabels ==> SpecOf(opts).value.volumeLabels[k] == opts[k]
  {
  }

  /** Shared is set exactly when the shared value reads as a non-zero
      unsigned 32-bit number (an out-of-range number reads as its maximum). */
  lemma SharedWhenNonZero(opts: map<string, string>)
    requires SpecOf(opts).Success?
    ensures SpecOf(opts).value.shared <==>
              KeyName(Shared) in opts && ParseUint(opts[KeyName(Shared)], 32).0 != 0
  {
  }
}
