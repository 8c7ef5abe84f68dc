/** The settings of a configuration in memory, and what the library's operations do to them. */
module ConfigHeap {
  import opened Wrappers

  // A setting is known by an id, which stands for its address; ids are handed out in order and
  // never used again, so a child's id is always greater than its parent's. The functions here say
  // what each operation leaves behind; the class Config carries them out step by step.

  datatype Kind = KNone | KGroup | KInt | KInt64 | KFloat | KString | KBool | KArray | KList

  datatype Format = Plain | Hex

  // The value union. Memory is zeroed when a setting is made, so until something is stored
  // every member of the union reads as zero, or as the null pointer.
  datatype Payload =
    | Zero
    | IVal(ival: int)
    | LlVal(llval: int)
    | FVal(fval: string)
    | SVal(sval: Option<string>)

  datatype Setting = Setting(
    name: Option<string>,
    kind: Kind,
    format: Format,
    value: Payload,
    kids: seq<int>,
    parent: Option<int>)

  datatype Heap = Heap(cells: map<int, Setting>, next: int)

  const ROOT: int := 0

  predicate Aggregate(kind: Kind) {
    kind == KGroup || kind == KArray || kind == KList
  }

  predicate Vector(kind: Kind) {
    kind == KArray || kind == KList
  }

  function NewSetting(name: Option<string>, kind: Kind, parent: Option<int>): Setting {
    Setting(name, kind, Plain, Zero, [], parent)
  }

  // config_init
  function InitHeap(): Heap {
    Heap(map[ROOT := NewSetting(None, KGroup, None)], 1)
  }

  // ---------- names ----------

  predicate PathChar(c: char) {
    c == ':' || c == '.' || c == '/'
  }

  predicate IsAlpha(c: char) {
    'A' <= c <= 'Z' || 'a' <= c <= 'z'
  }

  predicate IsDigit(c: char) {
    '0' <= c <= '9'
  }

  predicate NameStart(c: char) {
    IsAlpha(c) || c == '*'
  }

  predicate NameChar(c: char) {
    IsAlpha(c) || IsDigit(c) || c == '*' || c == '_' || c == '-'
  }

  predicate ValidName(name: string) {
    && name != [] && NameStart(name[0])
    && forall i :: 0 < i < |name| ==> NameChar(name[i])
  }

  // The part of a string up to its first path separator, which is all that names are compared by.
  function Segment(s: string): (r: string)
    ensures |r| <= |s| && r == s[..|r|]
    ensures forall i :: 0 <= i < |r| ==> !PathChar(r[i])
    ensures |r| < |s| ==> PathChar(s[|r|])
  {
    if s == [] || PathChar(s[0]) then [] else [s[0]] + Segment(s[1..])
  }

  lemma {:induction false} SegmentUnique(s: string, n: nat)
    requires n <= |s|
    requires forall i :: 0 <= i < n ==> !PathChar(s[i])
    requires n < |s| ==> PathChar(s[n])
    ensures Segment(s) == s[..n]
  {
    if s != [] && !PathChar(s[0]) {
      SegmentUnique(s[1..], n - 1);
      assert s[..n] == [s[0]] + s[1..][..n - 1];
    }
  }

  lemma ValidNameIsSegment(name: string)
    requires ValidName(name)
    ensures Segment(name) == name
  {
    SegmentUnique(name, |name|);
  }

  // The position of the first named child whose name agrees with the given one.
  ghost predicate FoundAt(h: Heap, kids: seq<int>, name: string, i: int) {
    && 0 <= i < |kids| && Agrees(h, kids[i], name)
    && forall j :: 0 <= j < i ==> !Agrees(h, kids[j], name)
  }

  ghost predicate Agrees(h: Heap, id: int, name: string) {
    && id in h.cells && h.cells[id].name.Some?
    && Segment(name) == Segment(h.cells[id].name.value)
  }

  ghost predicate HasMember(h: Heap, kids: seq<int>, name: string) {
    exists j :: 0 <= j < |kids| && Agrees(h, kids[j], name)
  }

  // ---------- operations ----------

  // config_setting_create, for a parent that is an aggregate: the new setting is h.next.
  function Create(h: Heap, parent: int, name: Option<string>, kind: Kind): Heap
    requires parent in h.cells
  {
    var p := h.cells[parent];
    Heap(h.cells[h.next := NewSetting(name, kind, Some(parent))][parent := p.(kids := p.kids + [h.next])], h.next + 1)
  }

  datatype AddResult = Added(h: Heap) | Refused | Crashes

  // config_setting_add. A null name in a group is looked up like any other name, which
  // dereferences it as soon as there is a named member to compare it with.
  ghost function Add(h: Heap, parent: int, name: Option<string>, kind: Kind): AddResult
    requires parent in h.cells
  {
    var p := h.cells[parent];
    var name' := if Vector(p.kind) then None else name;
    if name'.Some? && !ValidName(name'.value) then Refused
    else if p.kind == KGroup && name'.Some? && HasMember(h, p.kids, name'.value) then Refused
    else if p.kind == KGroup && name'.None? && HasNamed(h, p.kids) then Crashes
    else if !Aggregate(p.kind) then Refused
    else Added(Create(h, parent, name', kind))
  }

  ghost predicate HasNamed(h: Heap, kids: seq<int>) {
    exists j :: 0 <= j < |kids| && kids[j] in h.cells && h.cells[kids[j]].name.Some?
  }

  // A value for one of the typed setters.
  datatype NewValue =
    | NewInt(i: int)
    | NewInt64(i: int)
    | NewFloat(f: string)
    | NewBool(i: int)
    | NewString(s: Option<string>)
  {
    function KindOf(): Kind {
      match this
      case NewInt(_) => KInt
      case NewInt64(_) => KInt64
      case NewFloat(_) => KFloat
      case NewBool(_) => KBool
      case NewString(_) => KString
    }

    function Stored(): Payload {
      match this
      case NewInt(i) => IVal(i)
      case NewInt64(i) => LlVal(i)
      case NewFloat(f) => FVal(f)
      case NewBool(i) => IVal(i)
      case NewString(s) => SVal(s)
    }
  }

  const INT32_MIN: int := -0x8000_0000
  const INT32_MAX: int := 0x7FFF_FFFF

  // config_setting_set_int, _int64, _float, _bool and _string without automatic conversion: a
  // setting without a type takes the value's type, a 64-bit value that does not fit a 32-bit
  // setting is stored as 0, and any other type mismatch is refused.
  function SetScalar(c: Setting, v: NewValue): Option<Setting> {
    if c.kind == KNone || c.kind == v.KindOf() then
      Some(c.(kind := v.KindOf(), value := v.Stored()))
    else if v.NewInt64? && c.kind == KInt then
      Some(c.(value := IVal(if v.i > INT32_MAX || v.i < INT32_MIN then 0 else v.i)))
    else None
  }

  // config_setting_set_format
  function SetFormat(c: Setting, f: Format): Setting {
    if c.kind == KInt || c.kind == KInt64 then c.(format := f) else c
  }

  // __config_vector_checktype
  predicate CheckType(h: Heap, vector: Setting, kind: Kind) {
    vector.kids == [] || vector.kind == KList ||
    (vector.kids[0] in h.cells && h.cells[vector.kids[0]].kind == kind)
  }

  // config_setting_get_elem
  function GetElem(h: Heap, id: int, idx: int): Option<int>
    requires id in h.cells
  {
    var c := h.cells[id];
    if Aggregate(c.kind) && 0 <= idx < |c.kids| then Some(c.kids[idx]) else None
  }

  // The *_elem setters: a negative index appends. The result is the heap and the element, if
  // the setter succeeds. An element that was made is there even if its setter then fails, which
  // it never does.
  function SetElem(h: Heap, vector: int, idx: int, v: NewValue): Option<(Heap, int)>
    requires vector in h.cells
  {
    var c := h.cells[vector];
    if !Vector(c.kind) then None
    else if idx < 0 then
      if !CheckType(h, c, v.KindOf()) then None
      else
        var h' := Create(h, vector, None, v.KindOf());
        var e := h'.cells[h.next];
        Some((h'.(cells := h'.cells[h.next := e.(value := v.Stored())]), h.next))
    else
      match GetElem(h, vector, idx)
      case None => None
      case Some(e) =>
        if e !in h.cells then None
        else
          match SetScalar(h.cells[e], v)
          case None => None
          case Some(c') => Some((h.(cells := h.cells[e := c']), e))
  }

  // j lies in the subtree of id.
  predicate IsBelow(h: Heap, id: int, j: int)
    decreases j
  {
    j == id ||
    (j in h.cells && h.cells[j].parent.Some? && 0 <= h.cells[j].parent.value < j &&
     IsBelow(h, id, h.cells[j].parent.value))
  }

  function Subtree(h: Heap, id: int): set<int> {
    set j | j in h.cells && IsBelow(h, id, j)
  }

  // __config_list_remove and __config_setting_destroy: a child and all below it are gone.
  function RemoveKid(h: Heap, parent: int, idx: int): Heap
    requires parent in h.cells && 0 <= idx < |h.cells[parent].kids|
  {
    var p := h.cells[parent];
    h.(cells := (h.cells - Subtree(h, p.kids[idx]))[parent := p.(kids := p.kids[..idx] + p.kids[idx + 1..])])
  }

  // ---------- invariants ----------

  ghost predicate KidOk(h: Heap, id: int, kid: int) {
    kid in h.cells && id < kid && h.cells[kid].parent == Some(id)
  }

  ghost predicate Distinct(s: seq<int>) {
    forall i, j :: 0 <= i < j < |s| ==> s[i] != s[j]
  }

  // A setting's links agree with those of its children and of its parent.
  ghost predicate Linked(h: Heap, id: int)
    requires id in h.cells
  {
    var c := h.cells[id];
    && 0 <= id < h.next
    && (c.kids != [] ==> Aggregate(c.kind))
    && (forall i :: 0 <= i < |c.kids| ==> KidOk(h, id, c.kids[i]))
    && Distinct(c.kids)
    && match c.parent
       case None => id == ROOT
       case Some(p) => id != ROOT && p in h.cells && id in h.cells[p].kids
  }

  ghost predicate WellFormed(h: Heap) {
    && ROOT in h.cells && h.cells[ROOT].kind == KGroup && h.cells[ROOT].name == None
    && forall id :: id in h.cells ==> Linked(h, id)
  }

  // Members of a group have valid, different names; elements of arrays and lists have none.
  ghost predicate NamesOk(h: Heap, id: int)
    requires id in h.cells
  {
    var c := h.cells[id];
    && (forall i :: 0 <= i < |c.kids| && c.kids[i] in h.cells ==>
      match h.cells[c.kids[i]].name
      case None => Vector(c.kind)
      case Some(n) => c.kind == KGroup && ValidName(n))
    && (forall i, j :: 0 <= i < j < |c.kids| && c.kids[i] in h.cells && c.kids[j] in h.cells && c.kind == KGroup ==>
      h.cells[c.kids[i]].name != h.cells[c.kids[j]].name)
  }

  ghost predicate WellNamed(h: Heap) {
    forall id :: id in h.cells ==> NamesOk(h, id)
  }

  predicate ScalarKind(kind: Kind) {
    kind != KNone && !Aggregate(kind)
  }

  // The elements of an array are scalars of one type.
  ghost predicate OneTyped(h: Heap, id: int)
    requires id in h.cells
  {
    var c := h.cells[id];
    c.kind == KArray ==> forall i :: 0 <= i < |c.kids| && c.kids[i] in h.cells ==>
      ScalarKind(h.cells[c.kids[i]].kind) &&
      (c.kids[0] in h.cells ==> h.cells[c.kids[i]].kind == h.cells[c.kids[0]].kind)
  }

  ghost predicate ArraysOneTyped(h: Heap) {
    forall id :: id in h.cells ==> OneTyped(h, id)
  }

  // ---------- the configuration a heap stands for ----------

  datatype Conf =
    | NoneC
    | BoolC(i: int)
    | IntC(i: int, format: Format)
    | Int64C(i: int, format: Format)
    | FloatC(f: string)
    | StringC(s: Option<string>)
    | GroupC(items: seq<Item>)
    | ArrayC(items: seq<Item>)
    | ListC(items: seq<Item>)

  datatype Item = Item(name: Option<string>, conf: Conf)

  function ScalarOf(c: Setting): Conf {
    match c.kind
    case KBool => BoolC(if c.value.IVal? then c.value.ival else 0)
    case KInt => IntC(if c.value.IVal? then c.value.ival else 0, c.format)
    case KInt64 => Int64C(if c.value.LlVal? then c.value.llval else 0, c.format)
    case KFloat => FloatC(if c.value.FVal? then c.value.fval else "0.0")
    case KString => StringC(if c.value.SVal? then c.value.sval else None)
    case _ => NoneC
  }

  function Aggregated(kind: Kind, items: seq<Item>): Conf {
    match kind
    case KGroup => GroupC(items)
    case KArray => ArrayC(items)
    case KList => ListC(items)
    case _ => NoneC
  }

  function Abs(h: Heap, id: int): Conf
    decreases h.next - id, 1, 0
  {
    if id !in h.cells || id >= h.next then NoneC
    else
      var c := h.cells[id];
      if Aggregate(c.kind) then Aggregated(c.kind, Items(h, id, |c.kids|)) else ScalarOf(c)
  }

  // The first n children of a setting.
  function Items(h: Heap, id: int, n: nat): (r: seq<Item>)
    requires id in h.cells && id < h.next && n <= |h.cells[id].kids|
    ensures |r| == n
    decreases h.next - id, 0, n
  {
    if n == 0 then []
    else
      var k := h.cells[id].kids[n - 1];
      Items(h, id, n - 1) + [if k in h.cells && k > id then Item(h.cells[k].name, Abs(h, k)) else Item(None, NoneC)]
  }

  ghost function AllItems(h: Heap, id: int): seq<Item>
    requires id in h.cells && id < h.next
  {
    Items(h, id, |h.cells[id].kids|)
  }

  // A setting and everything below it look the same in a heap that has the same settings
  // from its own id on.
  lemma {:induction false} AbsStable(h: Heap, h': Heap, id: int)
    requires WellFormed(h) && h.next <= h'.next && id in h.cells
    requires forall j :: j in h.cells && id <= j ==> j in h'.cells && h'.cells[j] == h.cells[j]
    ensures Abs(h', id) == Abs(h, id)
    decreases h.next - id, 1, 0
  {
    assert Linked(h, id);
    ItemsStable(h, h', id, |h.cells[id].kids|);
  }

  lemma {:induction false} ItemsStable(h: Heap, h': Heap, id: int, n: nat)
    requires WellFormed(h) && h.next <= h'.next && id in h.cells && id < h.next && n <= |h.cells[id].kids|
    requires id in h'.cells && h.cells[id].kids <= h'.cells[id].kids
    requires forall j :: j in h.cells && id < j ==> j in h'.cells && h'.cells[j] == h.cells[j]
    ensures Items(h', id, n) == Items(h, id, n)
    decreases h.next - id, 0, n
  {
    if n > 0 {
      ItemsStable(h, h', id, n - 1);
      assert Linked(h, id);
      var k := h.cells[id].kids[n - 1];
      assert KidOk(h, id, k);
      assert Linked(h, k);
      assert h'.cells[id].kids[n - 1] == k;
      AbsStable(h, h', k);
    }
  }
}
