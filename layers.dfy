/** The experimental union-layer inode engine: a registry of named layers,
    each with a parent layer, its own table from intra-layer path to inode,
    and an `upper` flag; path resolution walks from a layer up its parent
    chain so that derived layers shadow their ancestors.

    Layers and inodes live in two arenas (sequences indexed by creation
    order) and refer to each other by index where the C code keeps
    addresses. Neither arena ever shrinks: remove_layer only unhashes the id,
    and nothing frees an inode. */
module Layers {
  import opened Wrappers
  import opened Paths

  /** errno values (Linux). */
  const ENOENT: int := 2
  const EEXIST: int := 17

  type Mode = bv32

  /** File type bits of mode_t. */
  const S_IFDIR: Mode := 0x4000  // 0040000
  const S_IFREG: Mode := 0x8000  // 0100000

  /** The root mode as create_layer writes it, `0777 & S_IFDIR`: the
      permission bits and the directory bit share no bit, so it is 0. */
  const RootModeAsWritten: Mode := 0x1FF & S_IFDIR

  /** The root mode evidently intended: a directory with permissions 0777. */
  const RootMode: Mode := 0x1FF | S_IFDIR

  lemma RootModeAsWrittenIsNoDirectory()
    ensures RootModeAsWritten == 0 && RootModeAsWritten & S_IFDIR == 0
  {
  }

  lemma RootModeIsDirectory()
    ensures RootMode & S_IFDIR == S_IFDIR && RootMode & 0x1FF == 0x1FF && RootMode & S_IFREG == 0
  {
  }

  /** An inode: reference count, deletion flag, base name, mode, owning layer
      and the inode of its parent directory (none for a layer root). */
  datatype Inode = Inode(ref: int, deleted: bool, name: string, mode: Mode, layer: nat, parent: Option<nat>)

  /** A layer: its parent layer, its table from intra-layer path to inode,
      the upper marker and its root inode. */
  datatype Layer = Layer(parent: Option<nat>, children: map<string, nat>, upper: bool, root: nat)

  /** Every layer's parent was created before it, so parent chains end. */
  predicate ParentsPrecede(layers: seq<Layer>)
  {
    forall l :: 0 <= l < |layers| && layers[l].parent.Some? ==> layers[l].parent.value < l
  }

  /** The layers visited by a walk from `from` up the parent links. */
  function Chain(layers: seq<Layer>, from: Option<nat>): (c: seq<nat>)
    requires ParentsPrecede(layers)
    requires from.Some? ==> from.value < |layers|
    ensures forall i :: 0 <= i < |c| ==> c[i] < |layers|
    ensures from.None? <==> c == []
    ensures from.Some? ==> c[0] == from.value
    decreases if from.Some? then from.value + 1 else 0
  {
    match from
    case None => []
    case Some(l) => [l] + Chain(layers, layers[l].parent)
  }

  /** The first layer on the walk from `from` whose table holds `key`. */
  function FirstHolding(layers: seq<Layer>, from: Option<nat>, key: string): (r: Option<nat>)
    requires ParentsPrecede(layers)
    requires from.Some? ==> from.value < |layers|
    ensures r.Some? ==> r.value < |layers| && key in layers[r.value].children
    decreases if from.Some? then from.value + 1 else 0
  {
    match from
    case None => None
    case Some(l) =>
      if key in layers[l].children then Some(l) else FirstHolding(layers, layers[l].parent, key)
  }

  /** Shadowing, the miss: FirstHolding answers none exactly when no layer
      on the chain holds `key`. */
  lemma {:induction false} FirstHoldingNone(layers: seq<Layer>, from: Option<nat>, key: string)
    requires ParentsPrecede(layers)
    requires from.Some? ==> from.value < |layers|
    ensures FirstHolding(layers, from, key).None? <==> forall l <- Chain(layers, from) :: key !in layers[l].children
    decreases if from.Some? then from.value + 1 else 0
  {
    if from.Some? {
      var l := from.value;
      var up := layers[l].parent;
      FirstHoldingNone(layers, up, key);
      var c := Chain(layers, from);
      var c' := Chain(layers, up);
      assert c == [l] + c';
      assert forall m :: m in c <==> m == l || m in c';
    }
  }

  /** Shadowing, the hit: FirstHolding answers the layer at position `j` of
      the chain exactly when that layer holds `key` and no layer before it
      on the chain does, so a derived layer hides its ancestors' entries. */
  lemma {:induction false} FirstHoldingAt(layers: seq<Layer>, from: Option<nat>, key: string, j: nat)
    requires ParentsPrecede(layers)
    requires from.Some? ==> from.value < |layers|
    requires j < |Chain(layers, from)|
    ensures var c := Chain(layers, from);
      FirstHolding(layers, from, key) == Some(c[j]) <==>
        key in layers[c[j]].children && forall i :: 0 <= i < j ==> key !in layers[c[i]].children
    decreases if from.Some? then from.value + 1 else 0
  {
    var l := from.value;
    var up := layers[l].parent;
    var c := Chain(layers, from);
    var c' := Chain(layers, up);
    assert c == [l] + c';
    if j > 0 {
      FirstHoldingAt(layers, up, key, j - 1);
      ChainBelow(layers, up, j - 1);
      assert c[j] == c'[j - 1] < l;
      assert forall i :: 0 <= i < j - 1 ==> c'[i] == c[i + 1];
    }
  }

  /** A layer further up the chain has a smaller index than where the walk
      started. */
  lemma {:induction false} ChainBelow(layers: seq<Layer>, from: Option<nat>, j: nat)
    requires ParentsPrecede(layers)
    requires from.Some? ==> from.value < |layers|
    requires j < |Chain(layers, from)|
    ensures Chain(layers, from)[j] <= from.value
    decreases if from.Some? then from.value + 1 else 0
  {
    if j > 0 {
      var up := layers[from.value].parent;
      ChainBelow(layers, up, j - 1);
    }
  }

  /** After an entry for `key` is inserted into the first layer on the walk
      that holds `dir`, where no layer on the walk held `key`, a walk from
      the same layer finds `key` in that very layer. A creating lookup
      inserts the path as basename cut it, so later lookups of that key
      find what it created; a path with trailing slashes is keyed without
      them, and a later lookup of the path as first written still misses. */
  lemma {:induction false} InsertedIsFound(layers: seq<Layer>, from: Option<nat>, key: string, dir: string, k: nat)
    requires ParentsPrecede(layers)
    requires from.Some? ==> from.value < |layers|
    requires FirstHolding(layers, from, key).None?
    requires FirstHolding(layers, from, dir).Some?
    ensures var pl := FirstHolding(layers, from, dir).value;
      var layers' := layers[pl := layers[pl].(children := layers[pl].children[key := k])];
      ParentsPrecede(layers') && FirstHolding(layers', from, key) == Some(pl)
    decreases if from.Some? then from.value + 1 else 0
  {
    var pl := FirstHolding(layers, from, dir).value;
    var layers' := layers[pl := layers[pl].(children := layers[pl].children[key := k])];
    var l := from.value;
    if l != pl {
      InsertedIsFound(layers, layers[l].parent, key, dir, k);
    }
  }

  /** The layer a path names, if registered, and its intra-layer path. */
  function LookupLayer(ids: map<string, nat>, path: string): (r: (Option<nat>, string))
    requires |path| > 0
    ensures r.1 == SplitPath(path).1
    ensures r.0.Some? <==> SplitPath(path).0 in ids
    ensures r.0.Some? ==> r.0.value == ids[SplitPath(path).0]
  {
    var (id, intra) := SplitPath(path);
    (if id in ids then Some(ids[id]) else None, intra)
  }

  /** get_layer on `/<id><rest>`: the layer registered as `id` (or none, the
      ENOENT case) and the intra-layer path `rest`, "/" when empty. */
  lemma GetLayerSelects(ids: map<string, nat>, id: string, rest: string)
    requires '/' !in id
    requires rest == [] || rest[0] == '/'
    ensures LookupLayer(ids, "/" + id + rest) ==
              (if id in ids then Some(ids[id]) else None, if rest == [] then "/" else rest)
  {
    SplitJoin(id, rest);
  }

  /** The inode arena with inode `k`'s reference count moved by `delta` and
      nothing else changed. */
  function AdjustRef(inodes: seq<Inode>, k: nat, delta: int): (r: seq<Inode>)
    requires k < |inodes|
    ensures |r| == |inodes|
    ensures r[k].ref == inodes[k].ref + delta
    ensures r[k] == inodes[k].(ref := r[k].ref)
    ensures forall i :: 0 <= i < |inodes| && i != k ==> r[i] == inodes[i]
  {
    inodes[k := inodes[k].(ref := inodes[k].ref + delta)]
  }

  /** A reference taken and released leaves every inode as it was. */
  lemma RefThenDeref(inodes: seq<Inode>, k: nat)
    requires k < |inodes|
    ensures AdjustRef(AdjustRef(inodes, k, 1), k, -1) == inodes
  {
  }

  /** The process-wide layer registry with its layer and inode arenas. */
  class LayerRegistry {
    /** layer_hash: registered layer id to layer index. */
    var ids: map<string, nat>
    /** Every layer created so far, unregistered ones included. */
    var layers: seq<Layer>
    /** Every inode allocated so far. */
    var inodes: seq<Inode>

    /** The registry invariant: the arenas are linked, and every layer's
        root inode is allocated and held in the layer's own table under "/". */
    ghost predicate Valid()
      reads this
    {
      && Linked()
      && (forall l :: 0 <= l < |layers| ==> layers[l].root < |inodes|)
      && (forall l :: 0 <= l < |layers| ==> "/" in layers[l].children && layers[l].children["/"] == layers[l].root)
    }

    /** Every index held by the registry, a layer or an inode is in range,
        and parents precede children. */
    ghost predicate Linked()
      reads this
    {
      && (forall id :: id in ids ==> ids[id] < |layers|)
      && ParentsPrecede(layers)
      && (forall l, key :: 0 <= l < |layers| && key in layers[l].children ==> layers[l].children[key] < |inodes|)
      && (forall i :: 0 <= i < |inodes| ==> inodes[i].layer < |layers|)
      && (forall i :: 0 <= i < |inodes| && inodes[i].parent.Some? ==> inodes[i].parent.value < |inodes|)
    }

    /** init_layers: an empty registry. */
    constructor ()
      ensures Valid()
      ensures ids == map[] && layers == [] && inodes == []
    {
      ids, layers, inodes := map[], [], [];
    }

    /** alloc_inode: a new inode with one reference, not deleted, named by
        the basename of `name`, linked under `parent`, and stored in
        `layer`'s table under `name` as basename leaves it: shorn of a run
        of trailing slashes, unless it is made only of slashes. */
    method AllocInode(parent: Option<nat>, name: string, mode: Mode, layer: nat) returns (k: nat)
      requires Linked()
      requires layer < |layers|
      requires parent.Some? ==> parent.value < |inodes|
      modifies this
      ensures Linked()
      ensures old(Valid()) && TruncatedByBasename(name) != "/" ==> Valid()
      ensures k == |old(inodes)|
      ensures inodes == old(inodes) + [Inode(1, false, Basename(name), mode, layer, parent)]
      ensures layers == old(layers)[layer := old(layers)[layer].(children := old(layers)[layer].children[TruncatedByBasename(name) := k])]
      ensures ids == old(ids)
    {
      k := |inodes|;
      inodes := inodes + [Inode(1, false, Basename(name), mode, layer, parent)];
      layers := layers[layer := layers[layer].(children := layers[layer].children[TruncatedByBasename(name) := k])];
    }

    /** ref_inode: resolves `/<id>/<intra>` by walking from layer `id` up
        its parents. The first layer whose table holds `intra` wins and that
        inode gains one reference. On a miss with `create`, a new inode is
        allocated in the first layer on the walk that holds dirname(intra),
        under that directory's inode. Every other outcome is ENOENT with
        nothing changed. */
    method RefInode(path: string, create: bool, mode: Mode) returns (inode: Option<nat>, errno: int)
      requires Valid()
      requires |path| > 0
      modifies this
      ensures Valid()
      ensures ids == old(ids)
      ensures inode.None? <==> errno == ENOENT
      ensures inode.None? ==> errno == ENOENT && layers == old(layers) && inodes == old(inodes)
      ensures LookupLayer(ids, path).0.None? ==> inode.None?
      ensures var (start, intra) := LookupLayer(ids, path);
        var hit := FirstHolding(old(layers), start, intra);
        hit.Some? ==>
          var k := old(layers)[hit.value].children[intra];
          inode == Some(k) && layers == old(layers) && inodes == AdjustRef(old(inodes), k, 1)
      ensures var (start, intra) := LookupLayer(ids, path);
        var at := FirstHolding(old(layers), start, Dirname(intra));
        FirstHolding(old(layers), start, intra).None? ==>
          (inode.Some? <==> create && at.Some?)
      ensures var (start, intra) := LookupLayer(ids, path);
        var at := FirstHolding(old(layers), start, Dirname(intra));
        FirstHolding(old(layers), start, intra).None? && create && at.Some? ==>
          var pl := at.value;
          var k := |old(inodes)|;
          && inode == Some(k)
          && inodes == old(inodes) + [Inode(1, false, Basename(intra), mode, pl, Some(old(layers)[pl].children[Dirname(intra)]))]
          && layers == old(layers)[pl := old(layers)[pl].(children := old(layers)[pl].children[TruncatedByBasename(intra) := k])]
    {
      var start, intra := LookupLayer(ids, path).0, LookupLayer(ids, path).1;
      if start.None? {
        return None, ENOENT;
      }
      var hit, parent, parentLayer := Walk(start.value, intra, Dirname(intra));
      if hit.Some? {
        var k := layers[hit.value].children[intra];
        TakeRef(k);
        return Some(k), 0;
      }
      if create && parent.Some? {
        // The root is in every table, so a miss means `intra` is not "/",
        // and the new entry cannot displace the root.
        assert intra != "/" by {
          assert "/" in layers[start.value].children;
        }
        assert TruncatedByBasename(intra) != "/";
        var k := AllocInode(parent, intra, mode, parentLayer);
        return Some(k), 0;
      }
      return None, ENOENT;
    }

    /** The walk of ref_inode up the chain from layer `start`: the first
        layer whose table holds `intra` and, when there is none, the first
        layer holding `dir` with that directory's inode. Changes nothing. */
    method Walk(start: nat, intra: string, dir: string) returns (hit: Option<nat>, parent: Option<nat>, parentLayer: nat)
      requires Linked()
      requires start < |layers|
      ensures hit == FirstHolding(layers, Some(start), intra)
      ensures hit.None? ==> (parent.Some? <==> FirstHolding(layers, Some(start), dir).Some?)
      ensures hit.None? && parent.Some? ==>
        && FirstHolding(layers, Some(start), dir) == Some(parentLayer)
        && parent.value == layers[parentLayer].children[dir]
    {
      var layer: Option<nat> := Some(start);
      parent, parentLayer := None, start;
      while layer.Some?
        invariant layer.Some? ==> layer.value < |layers|
        invariant FirstHolding(layers, Some(start), intra) == FirstHolding(layers, layer, intra)
        invariant parent.None? ==> FirstHolding(layers, Some(start), dir) == FirstHolding(layers, layer, dir)
        invariant parent.Some? ==>
          && FirstHolding(layers, Some(start), dir) == Some(parentLayer)
          && parent.value == layers[parentLayer].children[dir]
        decreases if layer.Some? then layer.value + 1 else 0
      {
        var l := layer.value;
        if intra in layers[l].children {
          return Some(l), parent, parentLayer;
        }
        if parent.None? {
          parent := if dir in layers[l].children then Some(layers[l].children[dir]) else None;
          parentLayer := l;
        }
        layer := layers[l].parent;
      }
      return None, parent, parentLayer;
    }

    /** The increment under the inode's lock in ref_inode: one reference
        more; nothing else changes. */
    method TakeRef(k: nat)
      requires Valid()
      requires k < |inodes|
      modifies this
      ensures Valid()
      ensures ids == old(ids) && layers == old(layers)
      ensures inodes == AdjustRef(old(inodes), k, 1)
    {
      inodes := inodes[k := inodes[k].(ref := inodes[k].ref + 1)];
    }

    /** deref_inode: one reference fewer; nothing else changes. */
    method DerefInode(k: nat)
      requires Valid()
      requires k < |inodes|
      modifies this
      ensures Valid()
      ensures ids == old(ids) && layers == old(layers)
      ensures inodes == AdjustRef(old(inodes), k, -1)
    {
      inodes := inodes[k := inodes[k].(ref := inodes[k].ref - 1)];
    }

    /** delete_inode: sets the deletion flag only; the count and every
        table stay as they were. */
    method DeleteInode(k: nat)
      requires Valid()
      requires k < |inodes|
      modifies this
      ensures Valid()
      ensures ids == old(ids) && layers == old(layers)
      ensures |inodes| == |old(inodes)|
      ensures inodes[k] == old(inodes)[k].(deleted := true)
      ensures forall i :: 0 <= i < |inodes| && i != k ==> inodes[i] == old(inodes)[i]
    {
      inodes := inodes[k := inodes[k].(deleted := true)];
    }

    /** create_layer: -EEXIST if `id` is registered, -ENOENT if a non-empty
        `parentId` is not, in both cases changing nothing. Otherwise a new
        layer with that parent (none for an empty `parentId`), a table
        holding only its root inode under "/", whose count is 0 after the
        initial reference is dropped, registered under `id`. */
    method CreateLayer(id: string, parentId: string) returns (ret: int)
      requires Valid()
      modifies this
      ensures Valid()
      ensures id in old(ids) ==> ret == -EEXIST
      ensures id !in old(ids) && parentId != "" && parentId !in old(ids) ==> ret == -ENOENT
      ensures ret == 0 || ret == -EEXIST || ret == -ENOENT
      ensures ret != 0 ==> ids == old(ids) && layers == old(layers) && inodes == old(inodes)
      ensures ret == 0 <==> id !in old(ids) && (parentId == "" || parentId in old(ids))
      ensures ret == 0 ==>
        var l := |old(layers)|;
        var root := |old(inodes)|;
        && ids == old(ids)[id := l]
        && layers == old(layers) + [Layer(if parentId == "" then None else Some(old(ids)[parentId]), map["/" := root], false, root)]
        && inodes == old(inodes) + [Inode(0, false, "/", RootMode, l, None)]
    {
      if id in ids {
        return -EEXIST;
      }
      var parent: Option<nat> := None;
      if parentId != "" {
        if parentId !in ids {
          return -ENOENT;
        }
        parent := Some(ids[parentId]);
      }
      var l := |layers|;
      layers := layers + [Layer(parent, map[], false, |inodes|)];
      var root := AllocInode(None, "/", RootMode, l);
      RootPath();
      DerefInode(root);
      ids := ids[id := l];
      return 0;
    }

    /** remove_layer: always 0; afterwards `id` is not registered and no
        layer or inode has changed. */
    method RemoveLayer(id: string) returns (ret: int)
      requires Valid()
      modifies this
      ensures Valid()
      ensures ret == 0
      ensures ids == old(ids) - {id}
      ensures layers == old(layers) && inodes == old(inodes)
    {
      ids := ids - {id};
      return 0;
    }

    /** set_upper: -1 with ENOENT for an unregistered id, changing nothing;
        otherwise 0 with errno cleared and only that layer marked upper. */
    method SetUpper(id: string) returns (ret: int, errno: int)
      requires Valid()
      modifies this
      ensures Valid()
      ensures ids == old(ids) && inodes == old(inodes)
      ensures id !in ids ==> ret == -1 && errno == ENOENT && layers == old(layers)
      ensures id in ids ==>
        ret == 0 && errno == 0 && layers == old(layers)[ids[id] := old(layers)[ids[id]].(upper := true)]
    {
      if id !in ids {
        return -1, ENOENT;
      }
      var l := ids[id];
      layers := layers[l := layers[l].(upper := true)];
      return 0, 0;
    }

    /** unset_upper: as set_upper, clearing the mark instead. */
    method UnsetUpper(id: string) returns (ret: int, errno: int)
      requires Valid()
      modifies this
      ensures Valid()
      ensures ids == old(ids) && inodes == old(inodes)
      ensures id !in ids ==> ret == -1 && errno == ENOENT && layers == old(layers)
      ensures id in ids ==>
        ret == 0 && errno == 0 && layers == old(layers)[ids[id] := old(layers)[ids[id]].(upper := false)]
    {
      if id !in ids {
        return -1, ENOENT;
      }
      var l := ids[id];
      layers := layers[l := layers[l].(upper := false)];
      return 0, 0;
    }
  }
}
