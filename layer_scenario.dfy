/** The outcomes of a sequence of registry calls: a base layer, a file created
    in it, a derived layer that sees the file through the parent chain,
    and the reference counts along the way. Every outcome follows from the
    registry's method contracts; each step is a method of its own, with the
    path facts it needs proved by a small lemma beforehand. */
module LayerScenario {
  import opened Wrappers
  import opened Paths
  import opened Layers

  /** The layer "base" right after its creation, and its root inode. */
  function BaseLayer(): Layer
  {
    Layer(None, map["/" := 0], false, 0)
  }

  function BaseRoot(): Inode
  {
    Inode(0, false, "/", RootMode, 0, None)
  }

  /** The layer "base" once "/<file>" has been created in it. */
  function BaseWithFile(file: string): Layer
  {
    BaseLayer().(children := map["/" := 0, "/" + file := 1])
  }

  /** The layer derived from "base", right after its creation. */
  function ChildLayer(): Layer
  {
    Layer(Some(0), map["/" := 2], false, 2)
  }

  /** The whole sequence: the file is created with one reference, found again
      with two, released to zero, then found through the derived layer
      (whose own table does not hold it); creating "base" twice fails. */
  method FallbackScenario(base: string, child: string, file: string, mode: Mode)
    returns (created: Option<nat>, again: Option<nat>, refsAfterRelease: int, viaChild: Option<nat>,
             refsViaChild: int, duplicate: int)
    requires base != [] && '/' !in base && '/' !in child && base != child
    requires file != [] && '/' !in file
    ensures created == Some(1) && again == Some(1) && viaChild == Some(1)
    ensures refsAfterRelease == 0 && refsViaChild == 1
    ensures duplicate == -EEXIST
  {
    var r := NewBase(base);
    created := CreateFile(r, base, file, mode);
    again := RefAgain(r, base, file, mode);
    r.DerefInode(1);
    r.DerefInode(1);
    refsAfterRelease := r.inodes[1].ref;
    DeriveChild(r, base, child, file, mode);
    ChildFileFacts(base, child, file);
    viaChild := RefFound(r, "/" + child + ("/" + file), 0, 1);
    refsViaChild := r.inodes[1].ref;
    duplicate := r.CreateLayer(base, "");
  }

  method NewBase(base: string) returns (r: LayerRegistry)
    ensures fresh(r) && r.Valid()
    ensures r.ids == map[base := 0] && r.layers == [BaseLayer()] && r.inodes == [BaseRoot()]
  {
    r := new LayerRegistry();
    var ret := r.CreateLayer(base, "");
  }

  /** What resolving "/<base>/<file>" meets in a registry holding only the
      fresh layer `base`: the layer and intra path, no entry for the file,
      and the root as the parent directory. */
  lemma FreshFileFacts(base: string, file: string)
    requires '/' !in base && file != [] && '/' !in file
    ensures LookupLayer(map[base := 0], "/" + base + ("/" + file)) == (Some(0), "/" + file)
    ensures FirstHolding([BaseLayer()], Some(0), "/" + file) == None
    ensures Dirname("/" + file) == "/" && Basename("/" + file) == file
    ensures FirstHolding([BaseLayer()], Some(0), "/") == Some(0)
  {
    assert [] + "/" + file == "/" + file;
    DirnameBasename([], file);
    GetLayerSelects(map[base := 0], base, "/" + file);
    assert "/" + file != "/";
  }

  method CreateFile(r: LayerRegistry, base: string, file: string, mode: Mode) returns (created: Option<nat>)
    requires '/' !in base && file != [] && '/' !in file
    requires r.Valid()
    requires r.ids == map[base := 0] && r.layers == [BaseLayer()] && r.inodes == [BaseRoot()]
    modifies r
    ensures r.Valid() && r.ids == old(r.ids)
    ensures created == Some(1)
    ensures r.layers == [BaseWithFile(file)]
    ensures r.inodes == [BaseRoot(), Inode(1, false, file, mode, 0, Some(0))]
  {
    FreshFileFacts(base, file);
    var e;
    created, e := r.RefInode("/" + base + ("/" + file), true, mode);
  }

  /** Once created, "/<file>" is the entry the walk from `base` finds. */
  lemma CreatedFileFacts(base: string, file: string)
    requires '/' !in base && file != [] && '/' !in file
    ensures LookupLayer(map[base := 0], "/" + base + ("/" + file)) == (Some(0), "/" + file)
    ensures FirstHolding([BaseWithFile(file)], Some(0), "/" + file) == Some(0)
  {
    GetLayerSelects(map[base := 0], base, "/" + file);
  }

  method RefAgain(r: LayerRegistry, base: string, file: string, mode: Mode) returns (again: Option<nat>)
    requires '/' !in base && file != [] && '/' !in file
    requires r.Valid()
    requires r.ids == map[base := 0] && r.layers == [BaseWithFile(file)]
    requires r.inodes == [BaseRoot(), Inode(1, false, file, mode, 0, Some(0))]
    modifies r
    ensures r.Valid() && r.ids == old(r.ids) && r.layers == old(r.layers)
    ensures again == Some(1)
    ensures r.inodes == [BaseRoot(), Inode(2, false, file, mode, 0, Some(0))]
  {
    CreatedFileFacts(base, file);
    var e;
    again, e := r.RefInode("/" + base + ("/" + file), false, 0);
  }

  method DeriveChild(r: LayerRegistry, base: string, child: string, file: string, mode: Mode)
    requires base != [] && base != child
    requires r.Valid()
    requires r.ids == map[base := 0] && r.layers == [BaseWithFile(file)]
    requires r.inodes == [BaseRoot(), Inode(0, false, file, mode, 0, Some(0))]
    modifies r
    ensures r.Valid()
    ensures r.ids == map[base := 0, child := 1] && r.layers == [BaseWithFile(file), ChildLayer()]
    ensures r.inodes == [BaseRoot(), Inode(0, false, file, mode, 0, Some(0)), Inode(0, false, "/", RootMode, 1, None)]
  {
    var ret := r.CreateLayer(child, base);
  }

  /** From the derived layer, "/<file>" is missing from its own table and
      found in the parent's. */
  lemma ChildFileFacts(base: string, child: string, file: string)
    requires '/' !in child && base != child && file != [] && '/' !in file
    ensures LookupLayer(map[base := 0, child := 1], "/" + child + ("/" + file)) == (Some(1), "/" + file)
    ensures FirstHolding([BaseWithFile(file), ChildLayer()], Some(1), "/" + file) == Some(0)
    ensures BaseWithFile(file).children["/" + file] == 1
  {
    GetLayerSelects(map[base := 0, child := 1], child, "/" + file);
    assert "/" + file != "/";
  }

  /** Resolving a path whose walk ends in layer `l`, at entry `k`, takes one
      reference on `k` and changes nothing else. */
  method RefFound(r: LayerRegistry, path: string, l: nat, k: nat) returns (found: Option<nat>)
    requires r.Valid() && |path| > 0
    requires FirstHolding(r.layers, LookupLayer(r.ids, path).0, LookupLayer(r.ids, path).1) == Some(l)
    requires r.layers[l].children[LookupLayer(r.ids, path).1] == k
    modifies r
    ensures r.Valid() && r.ids == old(r.ids) && r.layers == old(r.layers)
    ensures found == Some(k)
    ensures r.inodes == AdjustRef(old(r.inodes), k, 1)
  {
    var e;
    found, e := r.RefInode(path, false, 0);
  }
}
