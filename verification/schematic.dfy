/**
 * `SchematicGenerator.generateSchem`: from the voxel positions, the voxel
 * size and the bounding box to a Sponge schematic (version 2) document with
 * a two-entry palette and the YZX-linearised block data.
 *
 * The document is the value handed to the NBT writer; writing it to bytes,
 * compressing it and wrapping it in a `Blob` are not part of this model, so
 * the result carries the document where the source returns the blob.
 */
module Schematic {
  import opened Wrappers
  import opened Geometry
  import opened Cells
  import opened SchematicGrid
  import opened Nbt

  /** `boundingBox`: only its size is read. */
  datatype BoundingBox = BoundingBox(size: Vec3)

  /** `voxelData`, with `None` for a field that is absent. */
  datatype VoxelData = VoxelData(voxelPositions: Option<seq<Cell>>, voxelSize: Option<real>, boundingBox: Option<BoundingBox>)

  /**
   * Whether the NBT library and the zlib polyfill are loaded. The NBT library
   * is a static namespace import, so in the program `nbtLoaded` is always true.
   */
  datatype Env = Env(nbtLoaded: bool, zlibLoaded: bool)

  /**
   * The errors `generateSchem` throws: the invalid-data error, the RangeError
   * of `Array(resZ)`, and the two missing-library errors.
   */
  datatype SchemError = InvalidVoxelData | InvalidArrayLength | NbtMissing | ZlibMissing

  /** `{width, height, length}`: `resX`, `resY`, `resZ`. */
  datatype Dimensions = Dimensions(width: int, height: int, length: int)

  /** The returned object, with the document in place of the compressed blob. */
  datatype Export = Export(document: Document, filename: string, dimensions: Dimensions, blockCount: nat, blockType: string)

  const Air := "minecraft:air"
  const Filename := "voxel_model.schem"

  /** The Sponge schematic format version and the Minecraft data version (1.16.5) the document declares. */
  const SpongeVersion := 2
  const MinecraftDataVersion := 2730

  /**
   * The input check: `voxelData` and its three fields must be present, and a
   * voxel size of zero is falsy like an absent one.
   */
  predicate Usable(vd: Option<VoxelData>) {
    && vd.Some?
    && vd.value.voxelPositions.Some?
    && vd.value.voxelSize.Some? && vd.value.voxelSize.value != 0.0
    && vd.value.boundingBox.Some?
  }

  /** `resX`, `resY`, `resZ`. */
  function DimensionsOf(vd: VoxelData): (d: Dimensions)
    requires vd.voxelSize.Some? && vd.voxelSize.value != 0.0 && vd.boundingBox.Some?
  {
    var s, v := vd.boundingBox.value.size, vd.voxelSize.value;
    Dimensions(AxisResolution(s.x, v), AxisResolution(s.y, v), AxisResolution(s.z, v))
  }

  /**
   * For the input the caller produces (a voxel size above zero and a box
   * whose sizes are not negative) every dimension is at least 1, so the grid
   * is built without a RangeError.
   */
  lemma DimensionsPositive(vd: VoxelData)
    requires vd.voxelSize.Some? && vd.voxelSize.value > 0.0 && vd.boundingBox.Some?
    requires var s := vd.boundingBox.value.size; s.x >= 0.0 && s.y >= 0.0 && s.z >= 0.0
    ensures var d := DimensionsOf(vd); d.width >= 1 && d.height >= 1 && d.length >= 1
    ensures !ThrowsRangeError(DimensionsOf(vd))
  {
    var s, v := vd.boundingBox.value.size, vd.voxelSize.value;
    QuotientNotNegative(s.x, v);
    QuotientNotNegative(s.y, v);
    QuotientNotNegative(s.z, v);
  }

  lemma QuotientNotNegative(a: real, b: real)
    requires a >= 0.0 && b > 0.0
    ensures a / b >= 0.0
  {
  }

  /**
   * `Array(resZ)` throws a RangeError for a negative length. It runs only
   * when the two enclosing `Array.from` calls have something to build.
   */
  predicate ThrowsRangeError(d: Dimensions) {
    d.width > 0 && d.height > 0 && d.length < 0
  }

  /**
   * The object literal `{'minecraft:air': 0, [blockType]: 1}` with each id
   * wrapped in an int tag. A block type of `'minecraft:air'` overwrites the
   * first entry, leaving a single entry with id 1.
   */
  function Palette(blockType: string): (p: seq<Entry>)
    ensures blockType != Air ==> p == [Entry(Air, Int(0)), Entry(blockType, Int(1))]
    ensures blockType == Air ==> p == [Entry(Air, Int(1))]
  {
    var first := Assign([], Air, Int(0));
    assert first == [Entry(Air, Int(0))];
    assert first[0].name == Air;
    assert blockType != Air ==> !HasName(first, blockType);
    Assign(first, blockType, Int(1))
  }

  /** The palette maps the block type to 1 and air to 0, unless the block type is air itself. */
  lemma PaletteIds(blockType: string)
    ensures UniqueNames(Palette(blockType))
    ensures Lookup(Palette(blockType), blockType) == Some(Int(1))
    ensures Lookup(Palette(blockType), Air) == Some(Int(if blockType == Air then 1 else 0))
  {
    var first := Assign([], Air, Int(0));
    AssignLookup([], Air, Int(0), blockType);
    AssignLookup(first, blockType, Int(1), Air);
    AssignUnique([], Air, Int(0));
    AssignUnique(first, blockType, Int(1));
  }

  /** Id 0, which every air cell of `BlockData` holds, has a palette entry exactly when the block type is not air. */
  lemma AirIdInPalette(blockType: string)
    ensures Entry(Air, Int(0)) in Palette(blockType) <==> blockType != Air
  {
  }

  /** The ten top-level entries of the tag tree, in the order the object literal lists them. */
  function SchematicRoot(d: Dimensions, palette: seq<Entry>, blockData: seq<int>): seq<Entry> {
    [ Entry("Version", Int(SpongeVersion)),
      Entry("DataVersion", Int(MinecraftDataVersion)),
      Entry("Width", Short(d.width)),
      Entry("Height", Short(d.height)),
      Entry("Length", Short(d.length)),
      Entry("Offset", IntArray([0, 0, 0])),
      Entry("Palette", Compound(palette)),
      Entry("BlockData", ByteArray(blockData)),
      Entry("Entities", List(CompoundType, [])),
      Entry("BlockEntities", List(CompoundType, []))
    ]
  }

  /**
   * The tag tree `generateSchem` builds: an unnamed root compound whose keys
   * are distinct, as in an object literal, so that each is found by lookup.
   */
  function SchematicDocument(d: Dimensions, palette: seq<Entry>, blockData: seq<int>): (doc: Document)
    ensures doc.name == ""
    ensures UniqueNames(doc.root)
  {
    RootNamesUnique(d, palette, blockData);
    Document("", SchematicRoot(d, palette, blockData))
  }

  /** What a reader of the document recovers: the dimensions, the palette and the block grid. */
  datatype Decoded = Decoded(width: nat, height: nat, length: nat, palette: seq<Entry>, grid: Grid)

  /** Reads a document back: the dimensions, the palette, and `BlockData` decoded in YZX order. */
  function DecodeSchematic(doc: Document): Option<Decoded> {
    match (Lookup(doc.root, "Width"), Lookup(doc.root, "Height"), Lookup(doc.root, "Length"),
           Lookup(doc.root, "Palette"), Lookup(doc.root, "BlockData"))
    case (Some(Short(w)), Some(Short(h)), Some(Short(l)), Some(Compound(p)), Some(ByteArray(bd))) =>
      if w >= 0 && h >= 0 && l >= 0 && |bd| == w * h * l then Some(Decoded(w, h, l, p, DecodeGrid(bd, w, h, l)))
      else None
    case _ => None
  }

  /** The ten top-level names are distinct. */
  lemma RootNamesUnique(d: Dimensions, palette: seq<Entry>, blockData: seq<int>)
    ensures UniqueNames(SchematicRoot(d, palette, blockData))
  {
    var root := SchematicRoot(d, palette, blockData);
    forall i, j | 0 <= i < j < |root| ensures root[i].name != root[j].name {
      assert |root[i].name| != |root[j].name| || root[i].name[0] != root[j].name[0];
    }
  }

  /** In an object, the tag under the `k`-th name is the `k`-th tag. */
  lemma LookupAt(entries: seq<Entry>, k: int)
    requires UniqueNames(entries) && 0 <= k < |entries|
    ensures Lookup(entries, entries[k].name) == Some(entries[k].tag)
  {
  }

  /** Each top-level name of the document holds the tag it was built with. */
  lemma DocumentFields(d: Dimensions, palette: seq<Entry>, blockData: seq<int>)
    ensures var root := SchematicDocument(d, palette, blockData).root;
      && UniqueNames(root)
      && Lookup(root, "Version") == Some(Int(2))
      && Lookup(root, "DataVersion") == Some(Int(2730))
      && Lookup(root, "Width") == Some(Short(d.width))
      && Lookup(root, "Height") == Some(Short(d.height))
      && Lookup(root, "Length") == Some(Short(d.length))
      && Lookup(root, "Offset") == Some(IntArray([0, 0, 0]))
      && Lookup(root, "Palette") == Some(Compound(palette))
      && Lookup(root, "BlockData") == Some(ByteArray(blockData))
      && Lookup(root, "Entities") == Some(List(CompoundType, []))
      && Lookup(root, "BlockEntities") == Some(List(CompoundType, []))
  {
    var root := SchematicDocument(d, palette, blockData).root;
    LookupAt(root, 0);
    LookupAt(root, 1);
    LookupAt(root, 2);
    LookupAt(root, 3);
    LookupAt(root, 4);
    LookupAt(root, 5);
    LookupAt(root, 6);
    LookupAt(root, 7);
    LookupAt(root, 8);
    LookupAt(root, 9);
  }

  /** Decoding a document built from a grid gives back its dimensions, its palette and the grid. */
  lemma DecodeDocument(d: Dimensions, palette: seq<Entry>, g: Grid)
    requires d.width >= 0 && d.height >= 0 && d.length >= 0
    requires Shaped(g, d.width, d.height, d.length)
    ensures DecodeSchematic(SchematicDocument(d, palette, BlockDataOf(g, d.width, d.height, d.length)))
         == Some(Decoded(d.width, d.height, d.length, palette, g))
  {
    var bd := BlockDataOf(g, d.width, d.height, d.length);
    DocumentFields(d, palette, bd);
    DecodeLinearized(g, d.width, d.height, d.length);
  }

  /** The linearised filled grid: the `BlockData` of the document. */
  function SchematicBlockData(d: Dimensions, ps: seq<Cell>): (bd: seq<int>)
    ensures |bd| == ArrayLength(d.width) * ArrayLength(d.height) * ArrayLength(d.length)
  {
    var w, h, l := ArrayLength(d.width), ArrayLength(d.height), ArrayLength(d.length);
    BlockDataOf(FilledGrid(w, h, l, ps), w, h, l)
  }

  /**
   * What the returned object holds for usable input: the file name, the
   * dimensions, the number of listed positions, the block type, and the
   * document built from the dimensions, the palette and the linearised
   * filled grid, with every top-level field as the literal gives it and
   * block data that decodes to the filled grid.
   */
  predicate Describes(e: Export, vd: VoxelData, blockType: string)
    requires vd.voxelPositions.Some? && vd.voxelSize.Some? && vd.voxelSize.value != 0.0 && vd.boundingBox.Some?
  {
    var d, ps := DimensionsOf(vd), vd.voxelPositions.value;
    var root := e.document.root;
    && e.filename == Filename
    && e.dimensions == d
    && e.blockCount == |ps|
    && e.blockType == blockType
    && Lookup(root, "Version") == Some(Int(SpongeVersion))
    && Lookup(root, "DataVersion") == Some(Int(MinecraftDataVersion))
    && Lookup(root, "Width") == Some(Short(d.width))
    && Lookup(root, "Height") == Some(Short(d.height))
    && Lookup(root, "Length") == Some(Short(d.length))
    && Lookup(root, "Offset") == Some(IntArray([0, 0, 0]))
    && Lookup(root, "Palette") == Some(Compound(Palette(blockType)))
    && Lookup(root, "BlockData") == Some(ByteArray(SchematicBlockData(d, ps)))
    && Lookup(root, "Entities") == Some(List(CompoundType, []))
    && Lookup(root, "BlockEntities") == Some(List(CompoundType, []))
    && e.document == SchematicDocument(d, Palette(blockType), SchematicBlockData(d, ps))
    && (d.width >= 1 && d.height >= 1 && d.length >= 1 ==>
          DecodeSchematic(e.document) == Some(Decoded(d.width, d.height, d.length, Palette(blockType),
                                                      FilledGrid(d.width, d.height, d.length, ps))))
  }

  /** The object built from the linearised filled grid meets `Describes`. */
  lemma ExportDescribes(vd: VoxelData, blockType: string, blockData: seq<int>)
    requires vd.voxelPositions.Some? && vd.voxelSize.Some? && vd.voxelSize.value != 0.0 && vd.boundingBox.Some?
    requires blockData == SchematicBlockData(DimensionsOf(vd), vd.voxelPositions.value)
    ensures var d, ps := DimensionsOf(vd), vd.voxelPositions.value;
      Describes(Export(SchematicDocument(d, Palette(blockType), blockData), Filename, d, |ps|, blockType), vd, blockType)
  {
    var d, ps := DimensionsOf(vd), vd.voxelPositions.value;
    DocumentFields(d, Palette(blockType), blockData);
    if d.width >= 1 && d.height >= 1 && d.length >= 1 {
      DecodeDocument(d, Palette(blockType), FilledGrid(d.width, d.height, d.length, ps));
    }
  }

  /**
   * The body of the `try` block up to the document: the dimensions, the
   * palette, the filled grid, its YZX linearisation and the tag tree, with
   * the returned fields.
   */
  method BuildExport(vd: VoxelData, blockType: string) returns (e: Export)
    requires vd.voxelPositions.Some? && vd.voxelSize.Some? && vd.voxelSize.value != 0.0 && vd.boundingBox.Some?
    requires !ThrowsRangeError(DimensionsOf(vd))
    ensures Describes(e, vd, blockType)
  {
    var positions := vd.voxelPositions.value;
    var d := DimensionsOf(vd);
    var palette := Palette(blockType);
    var w, h, l := ArrayLength(d.width), ArrayLength(d.height), ArrayLength(d.length);
    var grid := FilledGrid(w, h, l, positions);
    var blockData := LinearizeYZX(grid, w, h, l);
    assert blockData == SchematicBlockData(d, positions);
    ExportDescribes(vd, blockType, blockData);
    e := Export(SchematicDocument(d, palette, blockData), Filename, d, |positions|, blockType);
  }

  /**
   * `generateSchem`: the input check, the document, then the library
   * checks, each failure surfacing as the error the source throws.
   */
  method GenerateSchem(voxelData: Option<VoxelData>, blockType: string, env: Env) returns (r: Result<Export, SchemError>)
    ensures !Usable(voxelData) ==> r == Failure(InvalidVoxelData)
    ensures Usable(voxelData) ==>
      var d := DimensionsOf(voxelData.value);
      && (ThrowsRangeError(d) ==> r == Failure(InvalidArrayLength))
      && (!ThrowsRangeError(d) && !env.nbtLoaded ==> r == Failure(NbtMissing))
      && (!ThrowsRangeError(d) && env.nbtLoaded && !env.zlibLoaded ==> r == Failure(ZlibMissing))
      && (r.Success? <==> !ThrowsRangeError(d) && env.nbtLoaded && env.zlibLoaded)
    ensures r.Success? ==> Describes(r.value, voxelData.value, blockType)
  {
    if !Usable(voxelData) {
      return Failure(InvalidVoxelData);
    }
    var vd := voxelData.value;
    if ThrowsRangeError(DimensionsOf(vd)) {
      return Failure(InvalidArrayLength);
    }
    var e := BuildExport(vd, blockType);
    if !env.nbtLoaded {
      return Failure(NbtMissing);
    }
    if !env.zlibLoaded {
      return Failure(ZlibMissing);
    }
    return Success(e);
  }

  /**
   * `blockCount` counts the listed positions, not the solid cells: a
   * repeated position and one outside the grid each add one without adding
   * a cell.
   */
  lemma BlockCountIsNotCellCount()
    ensures var ps := [Cell(0, 0, 0), Cell(0, 0, 0), Cell(5, 0, 0)];
      var g := FilledGrid(1, 1, 1, ps);
      |ps| == 3 && g == [[[1]]]
  {
    var ps := [Cell(0, 0, 0), Cell(0, 0, 0), Cell(5, 0, 0)];
    var g := FilledGrid(1, 1, 1, ps);
    assert InBlock(Cell(0, 0, 0), 1, 1, 1) && Cell(0, 0, 0) in ps;
    assert g[0][0] == [1];
    assert g[0] == [[1]];
  }

  /**
   * The byte of cell `(x, y, z)` in the linearised filled grid is 1 exactly
   * when the cell is a listed position, and 0 (air) otherwise.
   */
  lemma BlockDataMarksPositions(w: nat, h: nat, l: nat, ps: seq<Cell>, x: int, y: int, z: int)
    requires 0 <= x < w && 0 <= y < h && 0 <= z < l
    ensures var bd := BlockDataOf(FilledGrid(w, h, l, ps), w, h, l);
      && 0 <= Index(w, l, x, y, z) < |bd|
      && bd[Index(w, l, x, y, z)] == if Cell(x, y, z) in ps then 1 else 0
  {
    BlockDataAt(FilledGrid(w, h, l, ps), w, h, l, x, y, z);
    assert InBlock(Cell(x, y, z), w, h, l);
  }
}
