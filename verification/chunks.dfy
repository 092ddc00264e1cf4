/** The text chunks the semantic index embeds (SemanticSearch.ts:16-63, 153-173): per file,
    one summary chunk and then one chunk per exported entity, each paired with the file and
    the line it points back to. */
module Chunks {
  import opened Text
  import opened Entities
  import opened Lists
  import opened Kinds

  // ---------------------------------------------------------------------------------
  // The file summary (SemanticSearch.ts:153-173)

  /** The names of the exported entities of kind `k`, in list order */
  function ExportedNames(file: CodeFile, k: Kind): (names: seq<string>)
    ensures |names| <= Count(file, k)
  {
    var ex := Filter(OfKind(file, k), Exported);
    seq(|ex|, j requires 0 <= j < |ex| => ex[j].Name())
  }

  /** A name is listed exactly when an exported entity of that kind carries it */
  lemma ExportedNamesListed(file: CodeFile, k: Kind, n: string)
    ensures n in ExportedNames(file, k) <==> exists it :: it in OfKind(file, k) && it.IsExported() && it.Name() == n
  {
    var xs := OfKind(file, k);
    var ex := Filter(xs, Exported);
    FilterMembers(xs, Exported);
    if exists it :: it in xs && it.IsExported() && it.Name() == n {
      var it :| it in xs && it.IsExported() && it.Name() == n;
      var j :| 0 <= j < |xs| && xs[j] == it;
      assert Exported(xs[j]);
      var m :| 0 <= m < |ex| && ex[m] == it;
      assert ExportedNames(file, k)[m] == n;
    }
  }

  /** One section: the kind's label and the exported names joined with ", " */
  function Section(file: CodeFile, k: Kind): string
  {
    Label(k) + ": " + JoinWith(ExportedNames(file, k), ", ")
  }

  /** The kinds the file has at least one entity of, exported or not, in the fixed order */
  function PresentKinds(file: CodeFile): (ks: seq<Kind>)
    ensures forall k :: k in ks <==> Count(file, k) > 0
    ensures forall a, b :: 0 <= a < b < |ks| ==> Rank(ks[a]) < Rank(ks[b])
  {
    (if Count(file, FunctionKind) > 0 then [FunctionKind] else [])
    + (if Count(file, ClassKind) > 0 then [ClassKind] else [])
    + (if Count(file, InterfaceKind) > 0 then [InterfaceKind] else [])
    + (if Count(file, TypeKind) > 0 then [TypeKind] else [])
  }

  function Sections(file: CodeFile): (r: seq<string>)
    ensures |r| == |PresentKinds(file)|
  {
    var ks := PresentKinds(file);
    seq(|ks|, j requires 0 <= j < |ks| => Section(file, ks[j]))
  }

  /** `extractFileSummary(file)`: the sections joined with " | " */
  function FileSummary(file: CodeFile): string
  {
    JoinWith(Sections(file), " | ")
  }

  /** Sections of different kinds differ in their first character */
  lemma SectionsDiffer(file: CodeFile, k1: Kind, k2: Kind)
    requires k1 != k2
    ensures Section(file, k1) != Section(file, k2)
  {
    assert Section(file, k1)[0] == Label(k1)[0];
    assert Section(file, k2)[0] == Label(k2)[0];
  }

  /** The summary holds the section of a kind exactly when the file has an entity of that
      kind */
  lemma SectionPresent(file: CodeFile, k: Kind)
    ensures Section(file, k) in Sections(file) <==> Count(file, k) > 0
  {
    if Count(file, k) > 0 {
      SectionOfPresentKind(file, k);
    }
    if Section(file, k) in Sections(file) {
      PresentKindOfSection(file, k);
    }
  }

  lemma SectionOfPresentKind(file: CodeFile, k: Kind)
    requires Count(file, k) > 0
    ensures Section(file, k) in Sections(file)
  {
    var ks := PresentKinds(file);
    var j :| 0 <= j < |ks| && ks[j] == k;
    assert Sections(file)[j] == Section(file, k);
  }

  lemma PresentKindOfSection(file: CodeFile, k: Kind)
    requires Section(file, k) in Sections(file)
    ensures Count(file, k) > 0
  {
    var ks := PresentKinds(file);
    var j :| 0 <= j < |ks| && Sections(file)[j] == Section(file, k);
    if ks[j] != k {
      SectionsDiffer(file, ks[j], k);
    }
  }

  /** A join of parts whose first part is not empty is not empty */
  lemma JoinNotEmpty(parts: seq<string>, sep: string)
    requires |parts| > 0 && parts[0] != ""
    ensures JoinWith(parts, sep) != ""
  {
    assert |JoinWith(parts, sep)| >= |parts[0]|;
  }

  /** The summary is empty exactly when the file has no entity at all */
  lemma SummaryEmpty(file: CodeFile)
    ensures FileSummary(file) == "" <==> forall k :: Count(file, k) == 0
  {
    var ks := PresentKinds(file);
    if |ks| > 0 {
      assert Sections(file)[0] == Section(file, ks[0]);
      JoinNotEmpty(Sections(file), " | ");
    } else {
      forall k
        ensures Count(file, k) == 0
      {
        assert k !in ks;
      }
    }
  }

  // ---------------------------------------------------------------------------------
  // Chunk texts (SemanticSearch.ts:25, 31, 40, 49, 58)

  /** `parameters.map(p => `${p.name}: ${p.type}`).join(", ")` */
  function ParameterList(ps: seq<ParameterInfo>): string
  {
    JoinWith(seq(|ps|, j requires 0 <= j < |ps| => ps[j].name + ": " + ps[j].typeText), ", ")
  }

  function SummaryText(file: CodeFile): string
  {
    "File: " + file.path + "\nLanguage: " + file.language + "\nContent: " + FileSummary(file)
  }

  function ItemText(path: string, it: Item): string
  {
    match it
    case FunctionItem(f) =>
      "Function: " + f.name + "\nParameters: " + ParameterList(f.parameters) + "\nReturns: " + f.returnType
      + "\nDescription: " + f.description + "\nFile: " + path
    case ClassItem(c) =>
      "Class: " + c.name + "\nDescription: " + c.description + "\nMethods: " + Decimal(|c.methods|)
      + "\nProperties: " + Decimal(|c.properties|) + "\nFile: " + path
    case InterfaceItem(i) =>
      "Interface: " + i.name + "\nDescription: " + i.description + "\nProperties: " + Decimal(|i.properties|)
      + "\nMethods: " + Decimal(|i.methods|) + "\nFile: " + path
    case TypeItem(t) =>
      "Type: " + t.name + "\nDefinition: " + t.definition + "\nDescription: " + t.description + "\nFile: " + path
  }

  // ---------------------------------------------------------------------------------
  // Chunks and their metadata (SemanticSearch.ts:19-63)

  /** Where a chunk points back to; line 0 stands for the whole file */
  datatype Meta = Meta(file: string, lineNumber: int)

  datatype Chunk = Chunk(text: string, meta: Meta)

  function SummaryChunk(file: CodeFile): Chunk
  {
    Chunk(SummaryText(file), Meta(file.path, 0))
  }

  function ItemChunk(path: string, it: Item): Chunk
  {
    Chunk(ItemText(path, it), Meta(path, it.LineNumber()))
  }

  function ItemChunks(path: string, items: seq<Item>): (cs: seq<Chunk>)
    ensures |cs| == |items|
  {
    seq(|items|, j requires 0 <= j < |items| => ItemChunk(path, items[j]))
  }

  /** The chunks of one file: its summary, then its exported entities kind by kind */
  function FileChunks(file: CodeFile): (cs: seq<Chunk>)
    ensures |cs| == 1 + |ExportedItems(file)|
  {
    [SummaryChunk(file)] + ItemChunks(file.path, ExportedItems(file))
  }

  /** The chunks of all files, file by file */
  function Chunks(files: seq<CodeFile>): seq<Chunk>
  {
    FlatMap(files, FileChunks)
  }

  /** `c` is one of the chunks `file` contributes */
  predicate FromFile(file: CodeFile, c: Chunk)
  {
    c == SummaryChunk(file) || exists it :: it in ExportedItems(file) && c == ItemChunk(file.path, it)
  }

  /** The chunks of one file are its summary and one chunk per exported entity */
  lemma FileChunksFrom(file: CodeFile, k: nat)
    requires k < |FileChunks(file)|
    ensures FromFile(file, FileChunks(file)[k])
  {
    if k > 0 {
      assert FileChunks(file)[k] == ItemChunk(file.path, ExportedItems(file)[k - 1]);
    }
  }

  /** Every chunk comes from one of the files: it is a file's summary or the chunk of one of
      its exported entities */
  lemma ChunkOrigin(files: seq<CodeFile>, k: nat)
    requires k < |Chunks(files)|
    ensures exists i :: 0 <= i < |files| && FromFile(files[i], Chunks(files)[k])
  {
    FlatMapOrigin(files, FileChunks, k);
    var i, j :| 0 <= i < |files| && 0 <= j < |FileChunks(files[i])| && Chunks(files)[k] == FileChunks(files[i])[j];
    FileChunksFrom(files[i], j);
  }

  /** Every file contributes its summary, right after the chunks of the files before it */
  lemma SummaryPlaced(files: seq<CodeFile>, i: nat)
    requires i < |files|
    ensures |Chunks(files[..i])| < |Chunks(files)|
    ensures Chunks(files)[|Chunks(files[..i])|] == SummaryChunk(files[i])
  {
    FlatMapAround(files, i, FileChunks);
  }

  /** ... followed by the chunk of its `j`-th exported entity */
  lemma ItemPlaced(files: seq<CodeFile>, i: nat, j: nat)
    requires i < |files| && j < |ExportedItems(files[i])|
    ensures |Chunks(files[..i])| + 1 + j < |Chunks(files)|
    ensures Chunks(files)[|Chunks(files[..i])| + 1 + j] == ItemChunk(files[i].path, ExportedItems(files[i])[j])
  {
    FlatMapAround(files, i, FileChunks);
    assert FileChunks(files[i])[1 + j] == ItemChunk(files[i].path, ExportedItems(files[i])[j]);
  }

  /** The two parallel arrays hold, position by position, the text and the metadata of `cs` */
  predicate Pairs(texts: seq<string>, metadata: seq<Meta>, cs: seq<Chunk>)
  {
    && |texts| == |cs|
    && |metadata| == |cs|
    && forall k :: 0 <= k < |cs| ==> cs[k] == Chunk(texts[k], metadata[k])
  }

  lemma PairsAppend(texts: seq<string>, metadata: seq<Meta>, cs: seq<Chunk>, c: Chunk)
    requires Pairs(texts, metadata, cs)
    ensures Pairs(texts + [c.text], metadata + [c.meta], cs + [c])
  {
  }

  lemma ItemChunksSnoc(path: string, items: seq<Item>, it: Item)
    ensures ItemChunks(path, items + [it]) == ItemChunks(path, items) + [ItemChunk(path, it)]
  {
  }

  lemma ChunksSnoc(files: seq<CodeFile>, i: nat)
    requires i < |files|
    ensures Chunks(files[..i + 1]) == Chunks(files[..i]) + [SummaryChunk(files[i])]
      + ItemChunks(files[i].path, Filter(Items(files[i]), Exported))
  {
    assert files[..i + 1][..i] == files[..i];
  }

  /** The inner loops of `generateEmbeddings` for one file: each exported entity, in
      order, adds its chunk */
  method PushExported(texts0: seq<string>, metadata0: seq<Meta>, done: seq<Chunk>, path: string,
                      items: seq<Item>)
    returns (texts: seq<string>, metadata: seq<Meta>)
    requires Pairs(texts0, metadata0, done)
    ensures Pairs(texts, metadata, done + ItemChunks(path, Filter(items, Exported)))
  {
    texts, metadata := texts0, metadata0;
    for j := 0 to |items|
      invariant Pairs(texts, metadata, done + ItemChunks(path, Filter(items[..j], Exported)))
    {
      var pushed := Filter(items[..j], Exported);
      assert items[..j + 1] == items[..j] + [items[j]];
      FilterSnoc(items[..j], items[j], Exported);
      if items[j].IsExported() {
        var c := ItemChunk(path, items[j]);
        PairsAppend(texts, metadata, done + ItemChunks(path, pushed), c);
        ItemChunksSnoc(path, pushed, items[j]);
        texts := texts + [c.text];
        metadata := metadata + [c.meta];
      }
    }
    assert items[..|items|] == items;
  }

  /** The loops of `generateEmbeddings` that fill `texts` and `metadata`: per file, the
      summary, then each exported function, class, interface and type */
  method BuildChunks(files: seq<CodeFile>) returns (texts: seq<string>, metadata: seq<Meta>)
    ensures Pairs(texts, metadata, Chunks(files))
  {
    texts, metadata := [], [];
    for i := 0 to |files|
      invariant Pairs(texts, metadata, Chunks(files[..i]))
    {
      var file := files[i];
      var summary := SummaryChunk(file);
      var before := Chunks(files[..i]);
      PairsAppend(texts, metadata, before, summary);
      texts := texts + [summary.text];
      metadata := metadata + [summary.meta];
      texts, metadata := PushExported(texts, metadata, before + [summary], file.path, Items(file));
      ChunksSnoc(files, i);
    }
    assert files[..|files|] == files;
  }
}
