# Union layers and volume options, modelled in Dafny

This project models two pieces of the openstorage repository.

**The experimental union-layer inode engine** (`graph/drivers/unionfs/layer.c`).
- A process-wide registry maps layer ids to layers.
- Each layer has an optional parent layer, its own table from intra-layer path to inode, and an `upper` flag.
- An external path `/<layerId>/<rest>` is split into a layer and an intra-layer path.
- `ref_inode` walks from the named layer up its parent chain. The first table holding the path wins, so a derived layer shadows its ancestors.
- On a creating miss, the new inode goes into the first layer on the walk that holds the parent directory.
- Inodes carry a reference count and a deletion flag.

The registry is the class `Layers.LayerRegistry`:
- Layers and inodes live in two arenas (`seq<Layer>` and `seq<Inode>`) and refer to each other by index where the C code holds addresses.
- `layer_hash` is the map `ids`.
- Its invariant includes "a layer's parent was created before it". That gives the parent walk a decreasing measure.
- The invariant also holds that every layer's own table maps "/" to that layer's root inode, as `create_layer` sets it up. So a path "/" always hits, and a creating miss never displaces a root.
- `ref_inode`'s `while (layer)` loop is a `while` loop proved against the pure function `FirstHolding`, the first layer on the chain holding a key. The lemmas `FirstHoldingAt` and `FirstHoldingNone` characterise that function as shadowing.
- The C string routines the engine relies on (`strchr`, POSIX `dirname` and `basename`) are in module `Paths`.

**Volume-option parsing of the Docker volume plugin** (`api/server/docker.go`).
- `cosLevel` maps a class-of-service string to a level.
- `specFromOpts` folds a string option map into a volume spec.

The fold is the method `VolumeOptions.SpecFromOpts`:
- It visits the keys in an arbitrary order, as Go's map iteration does, and applies one `switch` pass (`ApplyOption`) per key.
- It is proved equal to `SpecOf`, a definition that does not depend on the order. `FoldOne` is the step lemma that makes the order irrelevant.
- The parts of Go's `strconv` that the fold uses are in module `Strconv`. They follow Go's digit loop: an overflowing digit yields the maximum value even if a non-digit follows it.

Module `LayerScenario` states the outcomes of a sequence of registry calls:
- create a base layer and a file in it;
- look the file up again and release both references;
- derive a child layer and resolve the file through it;
- re-create the base layer.

It derives every outcome from the method contracts.

Points of the code the model keeps as they are:
- A created inode is keyed by its intra-layer path (`/foo.txt` in layer `base`), not by the external path.
- That key is the path as `basename` from `<libgen.h>` leaves it: `alloc_inode` hands the table the same buffer it passed to `basename`, which writes a NUL over a run of trailing slashes (`/a/` is keyed as `/a`).
- Reference counts are not kept non-negative: `deref_inode` decrements unconditionally.

## Model

| member | source | states |
|---|---|---|
| Paths.IndexOf | graph/drivers/unionfs/layer.c:130-133 | strchr: the first position of the character, with no earlier occurrence; none exactly when the character is absent |
| Paths.SplitPath | graph/drivers/unionfs/layer.c:124-137 | the layer id is slash-free; the intra-layer path starts with '/'; with a second slash, the path is the leading character, then the id, then the intra path; without one, the id is the rest of the path and the intra path is "/" |
| Paths.SplitJoin | graph/drivers/unionfs/layer.c:124-137 | splitting "/" + id + rest gives back id and rest (or "/" for an empty rest), so the split inverts the path format |
| Paths.Dirname | graph/drivers/unionfs/layer.c:176 | dirname is never empty; for a rooted path it is "/" or a proper prefix of the path that does not end in '/' |
| Paths.Basename | graph/drivers/unionfs/layer.c:52-53 | basename is never empty and is slash-free unless it is "/" |
| Paths.DirnameBasename | graph/drivers/unionfs/layer.c:176 | for d + "/" + b, with b a single component, dirname is d ("/" when d is empty) and basename is b |
| Paths.TruncatedByBasename | graph/drivers/unionfs/layer.c:52 | what basename leaves of its argument: a prefix of it, cut only over trailing slashes; it does not end in '/' when the path holds any other character, and it is the whole path when that does not end in '/' or is made only of slashes |
| Paths.DirnameBasenameSlashes | graph/drivers/unionfs/layer.c:52-53 | for d + "/" + b followed by a run of slashes, basename cuts the path back to d + "/" + b, its basename is b and its dirname d ("/" when d is empty) |
| Paths.RootPath | graph/drivers/unionfs/layer.c:276 | the root path "/" is its own dirname and basename and basename leaves it whole, so a layer root is named and keyed "/" |
| Layers.RootModeAsWrittenIsNoDirectory | graph/drivers/unionfs/layer.c:276 | the root mode as written, 0777 & S_IFDIR, is 0: no permission bits and no directory bit |
| Layers.RootModeIsDirectory | graph/drivers/unionfs/layer.c:276 | the corrected root mode 0777 \| S_IFDIR has the directory bit and all permission bits, and no regular-file bit |
| Layers.Chain | graph/drivers/unionfs/layer.c:178-199 | the layers the walk visits: empty exactly when there is no start layer, starting at the named layer, every index in range |
| Layers.FirstHolding | graph/drivers/unionfs/layer.c:178-199 | the layer the walk stops at holds the key in its table |
| Layers.FirstHoldingAt | graph/drivers/unionfs/layer.c:178-189 | shadowing: the walk answers the j-th layer of the chain if and only if that layer holds the path and no layer before it does |
| Layers.FirstHoldingNone | graph/drivers/unionfs/layer.c:178-210 | the walk finds nothing if and only if no layer on the chain holds the path |
| Layers.ChainBelow | graph/drivers/unionfs/layer.c:198 | every layer further up the chain has an index no larger than the start layer's |
| Layers.InsertedIsFound | graph/drivers/unionfs/layer.c:193-210 | after a creating miss inserts the path into the first layer holding its directory, a walk from the same layer finds it in that layer |
| Layers.LookupLayer | graph/drivers/unionfs/layer.c:116-151 | get_layer: the registered layer of the id SplitPath extracts (none when unregistered, the ENOENT case), and the intra-layer path |
| Layers.GetLayerSelects | graph/drivers/unionfs/layer.c:130-150 | get_layer on "/" + id + rest selects layer id if registered (none otherwise), with intra path rest, or "/" when rest is empty |
| Layers.AdjustRef | graph/drivers/unionfs/layer.c:182-186 | one inode's count moves by exactly delta; no other field of it and no other inode changes |
| Layers.RefThenDeref | graph/drivers/unionfs/layer.c:227-234 | a reference taken and then released restores every inode |
| Layers.LayerRegistry.constructor | graph/drivers/unionfs/layer.c:343-353 | init_layers: an empty, valid registry |
| Layers.LayerRegistry.AllocInode | graph/drivers/unionfs/layer.c:28-114 | appends an inode with ref 1, not deleted, named basename(name), the given mode, layer and parent; it is keyed in that layer's table by the name as basename leaves it (trailing slashes cut); the registry invariant is kept unless that key is "/" |
| Layers.LayerRegistry.RefInode | graph/drivers/unionfs/layer.c:155-223 | on a hit, the inode of the first layer on the chain holding the path gains exactly one reference and nothing else changes; on a miss with create, a new inode goes into the first layer holding dirname(path), under that directory's inode, keyed by the path as basename truncates it; an unknown layer, a miss without create, or no directory is ENOENT with nothing changed |
| Layers.LayerRegistry.Walk | graph/drivers/unionfs/layer.c:178-199 | the loop of ref_inode changes nothing and stops at the first layer on the chain holding the path; on a miss, it has found the directory's inode exactly when some layer holds dirname(path), in the first such layer |
| Layers.LayerRegistry.TakeRef | graph/drivers/unionfs/layer.c:182-186 | exactly one reference more on that inode, nothing else changes |
| Layers.LayerRegistry.DerefInode | graph/drivers/unionfs/layer.c:227-234 | exactly one reference fewer on that inode, nothing else changes |
| Layers.LayerRegistry.DeleteInode | graph/drivers/unionfs/layer.c:237-240 | only the deletion flag of that inode is set; count and tables unchanged |
| Layers.LayerRegistry.CreateLayer | graph/drivers/unionfs/layer.c:242-298 | -EEXIST for a registered id and -ENOENT for an unregistered non-empty parent, both changing nothing; otherwise id is registered to a new layer with that parent and a table holding only its root inode under "/", with count 0 after the initial deref |
| Layers.LayerRegistry.RemoveLayer | graph/drivers/unionfs/layer.c:300-307 | always 0; afterwards the id is unregistered; no layer or inode changes |
| Layers.LayerRegistry.SetUpper | graph/drivers/unionfs/layer.c:310-324 | -1 with ENOENT for an unknown id, changing nothing; otherwise 0 and errno 0, and only that layer becomes upper |
| Layers.LayerRegistry.UnsetUpper | graph/drivers/unionfs/layer.c:327-341 | as SetUpper, clearing the flag |
| LayerScenario.FallbackScenario | graph/drivers/unionfs/layer.c:155-223 | the created file has one reference, a second lookup returns the same inode, two releases leave 0, the derived layer resolves the file through its parent, and a second create of the base is -EEXIST |
| Strconv.ParseBool | api/server/docker.go:190 | the accepted spellings of true and false; anything else is a syntax error with value false |
| Strconv.ParseUint | api/server/docker.go:199 | result below 2^bitSize; syntax error gives 0; range error gives the maximum, exactly when the leading digit run exceeds it; no error exactly for an all-digit string in range, whose value is returned |
| Strconv.ParseInt64 | api/server/docker.go:205-209 | result within the int64 range; a syntax error exactly when the string is empty or its unsigned part is one for ParseUint, with value 0; no error exactly for an all-digit magnitude below 2^63, or equal to it after '-', with the signed value; a range error gives -2^63 after '-' and 2^63 - 1 otherwise |
| Strconv.ParseInt64Signed | api/server/docker.go:205-209 | an in-range decimal, unsigned or with either sign, reads back as its signed value, -2^63 included |
| VolumeOptions.CosLevel | api/server/docker.go:166-178 | "high"/"3" give HIGH, "medium"/"2" give MEDIUM, "low"/"1"/"" give LOW, all with no error; any other string gives LOW with the cos error |
| VolumeOptions.CosLevelNames | api/server/docker.go:166-174 | every level reads back from its name and from its digit |
| VolumeOptions.Recognise | api/server/docker.go:188-226 | the key a case of the switch selects has that option string; a string no case selects names no key |
| VolumeOptions.RecogniseKeyName | api/server/docker.go:188-226 | the switch cases are distinct: each key is selected by its own string |
| VolumeOptions.FsTypeOf | api/server/docker.go:201-203 | the file-system type whose name matches the value ignoring case; the zero value for an unknown name |
| VolumeOptions.SizeOf | api/server/docker.go:191-200 | the size is below 2^64 and a multiple of 1 GiB, and exactly n GiB when the digits before an optional G or g read as an n small enough not to wrap |
| VolumeOptions.SizeSuffixOptional | api/server/docker.go:191-200 | "<n>G", "<n>g" and "<n>" give the same size: the multiplier is 1 GiB with or without the suffix |
| VolumeOptions.SizeUnparsable | api/server/docker.go:199-200 | a size whose digits (after dropping an optional G or g) are a syntax error for ParseUint contributes 0, since the parse error is dropped |
| VolumeOptions.SizeOutOfRange | api/server/docker.go:199-200 | a size whose digits exceed the uint64 range is read as 2^64 - 1, so the uint64 product wraps to 2^64 - 2^30 |
| VolumeOptions.FoldOne | api/server/docker.go:187-229 | folding one more key is one switch pass more, whatever keys were folded before: the fold's result does not depend on map order |
| VolumeOptions.LabelsStep | api/server/docker.go:226-227 | one more key extends the labels exactly when no case selects it |
| VolumeOptions.SpecOf | api/server/docker.go:180-231 | the cos error exactly when a cos value is present and invalid; otherwise the folded spec |
| VolumeOptions.ApplyOption | api/server/docker.go:188-228 | one switch pass: fails with the cos error exactly for an invalid cos value, otherwise sets the selected field or adds the label |
| VolumeOptions.SpecFromOpts | api/server/docker.go:180-231 | the loop over the map, in any order, returns SpecOf of the map |
| VolumeOptions.EmptyOptions | api/server/docker.go:181-185 | no options: EXT4, HA level 1, no labels, every other field zero or false |
| VolumeOptions.LabelsAreUnknownKeys | api/server/docker.go:226-227 | a key is a label if and only if it is an option that no case selects, and its value is copied unchanged |
| VolumeOptions.SharedWhenNonZero | api/server/docker.go:221-225 | shared is set if and only if the shared value reads as a non-zero unsigned 32-bit number |

## Left out

- Locking: the `inode_reaper_lock` rwlock and the per-inode mutexes are concurrency and are not modelled. `ref_inode` and `deref_inode` lock the inode mutex twice instead of locking and unlocking (layer.c:182-186, 229-233); with a default mutex that second lock self-deadlocks. The model makes each count update one sequential step.
- `tmpfile()` backing storage, `time(NULL)`, `getuid()` and `getgid()` in `alloc_inode` are I/O or environment reads; the inode keeps no timestamps, owner or file handle.
- Allocation failure: the malloc/strdup/calloc failure paths and their cleanup (layer.c:36-46, 93-111, 267-271) are not modelled; allocation always succeeds.
- `hash.c` is not part of this model; its tables are Dafny maps of unbounded size (the 65536 passed to `ht_create` is a bucket count).
- The intrusive `child`/`next` sibling links (layer.c:77-89) are left out; each inode records only the index of its parent inode.
- Layer and inode reclamation: nothing frees an inode or a layer, and `remove_layer` cascades nothing, as in the code. Unregistered layers stay in the arena and remain reachable as parents of registered layers.
- `parent_id != ""` (layer.c:257) compares addresses in C; the model uses the evidently intended test for a non-empty string.
- The `strncpy` into a `PATH_MAX` buffer (layer.c:175) is not modelled: intra-layer paths of any length are taken whole.
- `Layers.LayerRegistry.RefInode`: requires a non-empty path, since `get_layer` reads past the first character.
- `Layers.LayerRegistry.AllocInode`: basename's NUL also lands in the caller's path buffer (for `ref_inode`, the string passed in); paths are values in the model, so that side effect on the caller is not modelled. The `dupname` copy (layer.c:42) is made and freed but never used.
- Diagnostics on stderr (the `fprintf` warnings at layer.c:126, 205-206 and 260, such as the one for a creating miss with no parent directory) are output only and are not modelled.
- `Paths.TruncatedByBasename` follows glibc's XPG `basename`, which leaves a path made only of slashes whole; other C libraries may cut it to "/".
- `Layers.LayerRegistry.CreateLayer`: the root inode gets the corrected mode `0777 | S_IFDIR` where layer.c:276 stores `0777 & S_IFDIR`, which is 0 (see Findings).
- The glibc special case that keeps a leading "//" in `dirname` is not modelled; `Paths.Dirname` follows the POSIX rule.
- `Layers.LayerRegistry.DerefInode`: the count is an unbounded integer; the fixed width of `ref` (declared in layer.h, which is not part of this model) is not modelled. Nothing stops the count going below 0 (the code has no check either).
- The option key strings (`api.SpecEphemeral` and the rest), the `CosType` numbering and the `FSTypeSimpleValueOf` name table are defined in the api package, which is not part of this model. `KeyName`, `FsName` and the enum datatypes use assumed names; the proofs rely only on the key names being distinct.
- `VolumeOptions.FsTypeOf`: only ASCII letters are upper-cased (Go's `strings.ToUpper` also maps other Unicode letters).
- `VolumeOptions.CosLevel` returns the level as a datatype, not the `uint32` the Go code converts it to.
- The HTTP handlers of `api/server/docker.go` (create, remove, mount, path, list, get, unmount, capabilities, handshake, status, the decoders, `mountpath`) and the REST client `api/client/volume.go` are JSON and HTTP plumbing or calls into volume drivers that are not part of this model.

## Findings

| source | as written | input that shows it | evidently intended | confidence | as-written member | corrected member |
|---|---|---|---|---|---|---|
| graph/drivers/unionfs/layer.c:276 | the layer root is allocated with mode `0777 & S_IFDIR`, which is 0 because the permission bits and the directory bit share no bit | any successful `create_layer`: its root inode has mode 0, so it is neither a directory nor readable | `0777 \| S_IFDIR`, a directory with permissions 0777 | high (bit arithmetic); not executed | Layers.RootModeAsWrittenIsNoDirectory | Layers.RootModeIsDirectory |
