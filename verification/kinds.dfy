/** The four kinds of entity a file record lists, and a uniform view of them. The index and
    the summaries walk the lists of a file in the same fixed order: functions, classes,
    interfaces, types. */
module Kinds {
  import opened Entities
  import opened Lists

  datatype Kind = FunctionKind | ClassKind | InterfaceKind | TypeKind

  /** The heading word for a kind, as the summaries write it */
  function Label(k: Kind): string
  {
    match k
    case FunctionKind => "Functions"
    case ClassKind => "Classes"
    case InterfaceKind => "Interfaces"
    case TypeKind => "Types"
  }

  /** The position of a kind in the fixed order */
  function Rank(k: Kind): nat
  {
    match k
    case FunctionKind => 0
    case ClassKind => 1
    case InterfaceKind => 2
    case TypeKind => 3
  }

  /** One entity of a file, whatever its kind */
  datatype Item =
    | FunctionItem(fn: FunctionInfo)
    | ClassItem(cls: ClassInfo)
    | InterfaceItem(iface: InterfaceInfo)
    | TypeItem(ty: TypeInfo)
  {
    function KindOf(): Kind
    {
      match this
      case FunctionItem(_) => FunctionKind
      case ClassItem(_) => ClassKind
      case InterfaceItem(_) => InterfaceKind
      case TypeItem(_) => TypeKind
    }

    function Name(): string
    {
      match this
      case FunctionItem(f) => f.name
      case ClassItem(c) => c.name
      case InterfaceItem(i) => i.name
      case TypeItem(t) => t.name
    }

    function LineNumber(): int
    {
      match this
      case FunctionItem(f) => f.lineNumber
      case ClassItem(c) => c.lineNumber
      case InterfaceItem(i) => i.lineNumber
      case TypeItem(t) => t.lineNumber
    }

    predicate IsExported()
    {
      match this
      case FunctionItem(f) => f.isExported
      case ClassItem(c) => c.isExported
      case InterfaceItem(i) => i.isExported
      case TypeItem(t) => t.isExported
    }
  }

  predicate Exported(it: Item)
  {
    it.IsExported()
  }

  /** The length of the list of kind `k` */
  function Count(file: CodeFile, k: Kind): nat
  {
    match k
    case FunctionKind => |file.functions|
    case ClassKind => |file.classes|
    case InterfaceKind => |file.interfaces|
    case TypeKind => |file.types|
  }

  /** The list of kind `k`, in its own order */
  function OfKind(file: CodeFile, k: Kind): (items: seq<Item>)
    ensures |items| == Count(file, k)
    ensures forall j :: 0 <= j < |items| ==> items[j].KindOf() == k
  {
    match k
    case FunctionKind => seq(|file.functions|, j requires 0 <= j < |file.functions| => FunctionItem(file.functions[j]))
    case ClassKind => seq(|file.classes|, j requires 0 <= j < |file.classes| => ClassItem(file.classes[j]))
    case InterfaceKind =>
      seq(|file.interfaces|, j requires 0 <= j < |file.interfaces| => InterfaceItem(file.interfaces[j]))
    case TypeKind => seq(|file.types|, j requires 0 <= j < |file.types| => TypeItem(file.types[j]))
  }

  /** Every entity of the file, kind by kind in the fixed order */
  function Items(file: CodeFile): seq<Item>
  {
    OfKind(file, FunctionKind) + OfKind(file, ClassKind) + OfKind(file, InterfaceKind) + OfKind(file, TypeKind)
  }

  /** A file lists an item of kind `k` in `Items` exactly when its list of that kind holds it */
  lemma ItemsOfKind(file: CodeFile, it: Item)
    ensures it in Items(file) <==> it in OfKind(file, it.KindOf())
  {
    var f, c, i, t := OfKind(file, FunctionKind), OfKind(file, ClassKind), OfKind(file, InterfaceKind),
      OfKind(file, TypeKind);
    assert Items(file) == f + c + i + t;
    if it in Items(file) {
      var j :| 0 <= j < |Items(file)| && Items(file)[j] == it;
      if j < |f| {
        assert it == f[j];
      } else if j < |f| + |c| {
        assert it == c[j - |f|];
      } else if j < |f| + |c| + |i| {
        assert it == i[j - |f| - |c|];
      } else {
        assert it == t[j - |f| - |c| - |i|];
      }
    }
  }

  /** The exported entities of the file, in the fixed order */
  function ExportedItems(file: CodeFile): (r: seq<Item>)
    ensures forall it :: it in r <==> it in Items(file) && it.IsExported()
  {
    FilterMembers(Items(file), Exported);
    Filter(Items(file), Exported)
  }
}
