/** `createAPISummary` (DocumentationGenerator.ts:182-249): per file, a heading and then, for
    every kind the file has, a section heading with the number of entities and one entry per
    entity, exported or not. An entity entry is a name heading followed by labelled fields,
    the optional ones present only when the source's condition holds. */
module ApiSummary {
  import opened Wrappers
  import opened Text
  import opened Entities
  import opened Lists
  import opened Kinds

  /** A `- **label**: value` line */
  datatype Field = Field(tag: string, value: string)

  function RenderField(f: Field): string
  {
    "- **" + f.tag + "**: " + f.value + "\n"
  }

  function YesNo(b: bool): string
  {
    if b then "Yes" else "No"
  }

  /** The description line, written only for a non-empty description */
  function DescriptionField(description: string): seq<Field>
  {
    if description != "" then [Field("Description", description)] else []
  }

  /** `${p.name}: ${p.type}${p.isOptional ? "?" : ""}` */
  function ParameterDoc(p: ParameterInfo): string
  {
    p.name + ": " + p.typeText + (if p.isOptional then "?" else "")
  }

  /** An optional parameter renders as the required one followed by `?` */
  lemma ParameterDocOptional(p: ParameterInfo)
    ensures ParameterDoc(p) == ParameterDoc(p.(isOptional := false)) + (if p.isOptional then "?" else "")
  {
  }

  function FunctionFields(f: FunctionInfo): seq<Field>
  {
    FunctionFront(f) + DescriptionField(f.description)
  }

  /** The fields of a function entry before its description */
  function FunctionFront(f: FunctionInfo): seq<Field>
  {
    [Field("Parameters", JoinWith(Map(f.parameters, ParameterDoc), ", ")),
     Field("Returns", f.returnType),
     Field("Async", YesNo(f.isAsync)),
     Field("Exported", YesNo(f.isExported))]
  }

  /** `if (cls.extends)` tests a string, so an empty one is left out; `if (cls.implements)`
      tests an array, which is truthy even when empty */
  function ClassFields(c: ClassInfo): seq<Field>
  {
    ClassFront(c) + DescriptionField(c.description)
  }

  function ClassFront(c: ClassInfo): seq<Field>
  {
    (if c.extendsName.Some? && c.extendsName.value != "" then [Field("Extends", c.extendsName.value)] else [])
    + (if c.implementsList.Some? then [Field("Implements", JoinWith(c.implementsList.value, ", "))] else [])
    + [Field("Methods", Decimal(|c.methods|)),
       Field("Properties", Decimal(|c.properties|)),
       Field("Exported", YesNo(c.isExported))]
  }

  function InterfaceFields(i: InterfaceInfo): seq<Field>
  {
    InterfaceFront(i) + DescriptionField(i.description)
  }

  function InterfaceFront(i: InterfaceInfo): seq<Field>
  {
    (if i.extendsList.Some? then [Field("Extends", JoinWith(i.extendsList.value, ", "))] else [])
    + [Field("Properties", Decimal(|i.properties|)),
       Field("Methods", Decimal(|i.methods|)),
       Field("Exported", YesNo(i.isExported))]
  }

  function TypeFields(t: TypeInfo): seq<Field>
  {
    TypeFront(t) + DescriptionField(t.description)
  }

  function TypeFront(t: TypeInfo): seq<Field>
  {
    [Field("Definition", "`" + t.definition + "`"),
     Field("Exported", YesNo(t.isExported))]
  }

  function FieldsOf(it: Item): seq<Field>
  {
    match it
    case FunctionItem(f) => FunctionFields(f)
    case ClassItem(c) => ClassFields(c)
    case InterfaceItem(i) => InterfaceFields(i)
    case TypeItem(t) => TypeFields(t)
  }

  predicate HasLabel(fields: seq<Field>, tag: string)
  {
    exists k :: 0 <= k < |fields| && fields[k].tag == tag
  }

  /** The labels a list of fields carries, in order */
  function Labels(fields: seq<Field>): (ls: seq<string>)
    ensures |ls| == |fields|
  {
    seq(|fields|, k requires 0 <= k < |fields| => fields[k].tag)
  }

  /** The fields every entity entry has before its description */
  function Front(it: Item): seq<Field>
  {
    match it
    case FunctionItem(f) => FunctionFront(f)
    case ClassItem(c) => ClassFront(c)
    case InterfaceItem(i) => InterfaceFront(i)
    case TypeItem(t) => TypeFront(t)
  }

  function Description(it: Item): string
  {
    match it
    case FunctionItem(f) => f.description
    case ClassItem(c) => c.description
    case InterfaceItem(i) => i.description
    case TypeItem(t) => t.description
  }

  /** Appending the optional description to fields that carry none */
  lemma DescriptionLast(front: seq<Field>, d: string)
    requires !HasLabel(front, "Description")
    ensures HasLabel(front + DescriptionField(d), "Description") <==> d != ""
    ensures d != "" ==> (front + DescriptionField(d))[|front|] == Field("Description", d)
  {
    var fs := front + DescriptionField(d);
    if HasLabel(fs, "Description") {
      var k :| 0 <= k < |fs| && fs[k].tag == "Description";
    }
    if d != "" {
      assert fs[|front|].tag == "Description";
    }
  }

  /** The fields before the description never carry that tag */
  lemma FrontHasNoDescription(it: Item)
    ensures FieldsOf(it) == Front(it) + DescriptionField(Description(it))
    ensures !HasLabel(Front(it), "Description")
  {
    var fr := Front(it);
    assert forall k :: 0 <= k < |fr| ==> fr[k].tag != "Description";
  }

  /** Every entity entry ends with a description line exactly when its description is not
      empty, and has none anywhere else */
  lemma DescriptionIff(it: Item)
    ensures HasLabel(FieldsOf(it), "Description") <==> Description(it) != ""
    ensures Description(it) != "" ==> FieldsOf(it)[|FieldsOf(it)| - 1] == Field("Description", Description(it))
  {
    FrontHasNoDescription(it);
    DescriptionLast(Front(it), Description(it));
  }

  /** The fields of a function entry, by tag */
  lemma FunctionLabels(f: FunctionInfo)
    ensures Labels(FunctionFields(f)) == ["Parameters", "Returns", "Async", "Exported"]
      + (if f.description != "" then ["Description"] else [])
  {
  }

  /** A class entry has an `Extends` line exactly when the class extends a named class */
  lemma ClassExtends(c: ClassInfo)
    ensures HasLabel(ClassFields(c), "Extends") <==> c.extendsName.Some? && c.extendsName.value != ""
  {
    var fs := ClassFields(c);
    if HasLabel(fs, "Extends") {
      var k :| 0 <= k < |fs| && fs[k].tag == "Extends";
      assert k == 0;
    }
    if c.extendsName.Some? && c.extendsName.value != "" {
      assert fs[0].tag == "Extends";
    }
  }

  /** A class entry has an `Implements` line exactly when the class has an implements list,
      even an empty one */
  lemma ClassImplements(c: ClassInfo)
    ensures HasLabel(ClassFields(c), "Implements") <==> c.implementsList.Some?
  {
    var fs := ClassFields(c);
    var e := if c.extendsName.Some? && c.extendsName.value != "" then 1 else 0;
    if HasLabel(fs, "Implements") {
      var k :| 0 <= k < |fs| && fs[k].tag == "Implements";
      assert k == e;
    }
    if c.implementsList.Some? {
      assert fs[e].tag == "Implements";
    }
  }

  /** One piece of the API summary text */
  datatype ApiEntry =
    | FileHeading(path: string)
    | SectionHeading(kind: Kind, count: nat)
    | EntityDoc(item: Item)

  function Render(e: ApiEntry): string
  {
    match e
    case FileHeading(p) => "\n## \U{1F4C1} " + p + "\n"
    case SectionHeading(k, n) => "\n### " + Label(k) + " (" + Decimal(n) + ")\n"
    case EntityDoc(it) => "\n#### " + it.Name() + "\n" + FlatMap(FieldsOf(it), RenderField)
  }

  function Doc(it: Item): ApiEntry
  {
    EntityDoc(it)
  }

  /** The section of kind `k`: absent for an empty list, else its heading and every entity */
  function SectionOf(file: CodeFile, k: Kind): seq<ApiEntry>
  {
    if Count(file, k) == 0 then [] else [SectionHeading(k, Count(file, k))] + Map(OfKind(file, k), Doc)
  }

  predicate Empty(file: CodeFile)
  {
    |file.functions| == 0 && |file.classes| == 0 && |file.interfaces| == 0 && |file.types| == 0
  }

  function FileEntries(file: CodeFile): seq<ApiEntry>
  {
    if Empty(file) then []
    else
      [FileHeading(file.path)] + SectionOf(file, FunctionKind) + SectionOf(file, ClassKind)
      + SectionOf(file, InterfaceKind) + SectionOf(file, TypeKind)
  }

  /** `createAPISummary(codeFiles)` */
  function CreateApiSummary(files: seq<CodeFile>): string
  {
    FlatMap(FlatMap(files, FileEntries), Render)
  }

  /** A file contributes nothing exactly when it has no entity of any kind */
  lemma FileEntriesEmpty(file: CodeFile)
    ensures FileEntries(file) == [] <==> forall k :: Count(file, k) == 0
  {
    if !Empty(file) {
      assert FileEntries(file)[0] == FileHeading(file.path);
    }
    if forall k :: Count(file, k) == 0 {
      assert Count(file, FunctionKind) == 0 && Count(file, ClassKind) == 0;
      assert Count(file, InterfaceKind) == 0 && Count(file, TypeKind) == 0;
    }
  }

  /** The entity entries of a section are its whole list, exported or not, in order */
  lemma SectionLists(file: CodeFile, k: Kind)
    ensures Count(file, k) > 0 ==> SectionOf(file, k)[0] == SectionHeading(k, Count(file, k))
    ensures forall j :: 0 <= j < Count(file, k) ==> SectionOf(file, k)[1 + j] == EntityDoc(OfKind(file, k)[j])
    ensures |SectionOf(file, k)| == if Count(file, k) == 0 then 0 else 1 + Count(file, k)
  {
  }

  /** A section heading appears for a kind exactly when the file has entities of that kind,
      and carries their number */
  lemma SectionHeadingIff(file: CodeFile, k: Kind, n: nat)
    ensures SectionHeading(k, n) in FileEntries(file) <==> n == Count(file, k) && n > 0
  {
    if SectionHeading(k, n) in FileEntries(file) {
      var e := FileEntries(file);
      var j :| 0 <= j < |e| && e[j] == SectionHeading(k, n);
      SectionFrom(file, j, k, n);
    }
    if n == Count(file, k) && n > 0 {
      SectionPlaced(file, k);
    }
  }

  /** Where a section heading of the file entries comes from */
  lemma SectionFrom(file: CodeFile, j: nat, k: Kind, n: nat)
    requires j < |FileEntries(file)| && FileEntries(file)[j] == SectionHeading(k, n)
    ensures n == Count(file, k) && n > 0
  {
    var f, c, i, t := SectionOf(file, FunctionKind), SectionOf(file, ClassKind), SectionOf(file, InterfaceKind),
      SectionOf(file, TypeKind);
    assert FileEntries(file) == [FileHeading(file.path)] + f + c + i + t;
    SectionHeadingOf(file, FunctionKind);
    SectionHeadingOf(file, ClassKind);
    SectionHeadingOf(file, InterfaceKind);
    SectionHeadingOf(file, TypeKind);
    var m := j - 1;
    if m < |f| {
      assert f[m] == SectionHeading(k, n);
    } else if m < |f| + |c| {
      assert c[m - |f|] == SectionHeading(k, n);
    } else if m < |f| + |c| + |i| {
      assert i[m - |f| - |c|] == SectionHeading(k, n);
    } else {
      assert t[m - |f| - |c| - |i|] == SectionHeading(k, n);
    }
  }

  /** The only section heading of a section is its first entry, with the kind and count */
  lemma SectionHeadingOf(file: CodeFile, k: Kind)
    ensures forall j, k', n ::
      0 <= j < |SectionOf(file, k)| && SectionOf(file, k)[j] == SectionHeading(k', n) ==>
        k' == k && n == Count(file, k) && n > 0
  {
  }

  /** The section of a present kind lies in the file entries */
  lemma SectionPlaced(file: CodeFile, k: Kind)
    requires Count(file, k) > 0
    ensures SectionHeading(k, Count(file, k)) in FileEntries(file)
  {
    var f, c, i, t := SectionOf(file, FunctionKind), SectionOf(file, ClassKind), SectionOf(file, InterfaceKind),
      SectionOf(file, TypeKind);
    assert FileEntries(file) == [FileHeading(file.path)] + f + c + i + t;
    var h := SectionHeading(k, Count(file, k));
    match k
    case FunctionKind => assert FileEntries(file)[1] == h;
    case ClassKind => assert FileEntries(file)[1 + |f|] == h;
    case InterfaceKind => assert FileEntries(file)[1 + |f| + |c|] == h;
    case TypeKind => assert FileEntries(file)[1 + |f| + |c| + |i|] == h;
  }

  /** Every entity of the file is documented, exported or not */
  lemma EveryEntityDocumented(file: CodeFile, it: Item)
    requires it in Items(file)
    ensures EntityDoc(it) in FileEntries(file)
  {
    ItemsOfKind(file, it);
    var k := it.KindOf();
    var j :| 0 <= j < |OfKind(file, k)| && OfKind(file, k)[j] == it;
    SectionLists(file, k);
    assert EntityDoc(it) in SectionOf(file, k);
  }
}
