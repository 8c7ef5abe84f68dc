/** The library's functions as they walk their strings and lists and update settings in place. */
module ConfigApi {
  import opened Wrappers
  import opened ConfigHeap
  import opened ConfigGrowth
  import opened ConfigRemoval
  import opened ConfigRuns

  // Their results and effects are those given in ConfigHeap and ConfigRuns.

  // A character as the signed byte it is compared as.
  function SignedChar(c: char): int {
    if c as int >= 128 then c as int - 256 else c as int
  }

  // The order of names: the first difference decides, and a name comes before its extensions.
  function Order(s: string, t: string): int {
    if s == [] then (if t == [] then 0 else -1)
    else if t == [] then 1
    else if s[0] == t[0] then Order(s[1..], t[1..])
    else if SignedChar(s[0]) < SignedChar(t[0]) then -1
    else 1
  }

  lemma {:induction false} OrderFrom(s: string, t: string, i: nat)
    requires i <= |s| && i <= |t| && s[..i] == t[..i]
    ensures Order(s, t) == Order(s[i..], t[i..])
  {
    if i > 0 {
      assert s[0] == s[..i][0] == t[..i][0] == t[0];
      assert s[1..][..i - 1] == s[..i][1..] && t[1..][..i - 1] == t[..i][1..];
      OrderFrom(s[1..], t[1..], i - 1);
    }
  }

  // It is an order of strings of bytes: turning it around changes the sign, and only equal
  // strings are level.
  lemma {:induction false} OrderTurns(s: string, t: string)
    requires forall i :: 0 <= i < |s| ==> s[i] as int < 256
    requires forall i :: 0 <= i < |t| ==> t[i] as int < 256
    ensures Order(t, s) == -Order(s, t) && (Order(s, t) == 0 <==> s == t)
  {
    if s != [] && t != [] && s[0] == t[0] {
      OrderTurns(s[1..], t[1..]);
      assert s == [s[0]] + s[1..] && t == [t[0]] + t[1..];
    }
  }

  // The first difference decides, and a front comes before what it is the front of; characters are
  // signed, as on the common platforms.
  lemma {:induction false} OrderMeans(p: string, s: string, t: string)
    requires s != [] && t != [] && s[0] != t[0] && s[0] as int < 256 && t[0] as int < 256
    ensures Order(p + s, p + t) == -1 <==>
      var a, b := s[0] as int, t[0] as int; (if a < 128 then a else a - 256) < (if b < 128 then b else b - 256)
    ensures Order(p + s, p + t) != 0 && Order(p, p + t) == -1 && Order(p, p) == 0
  {
    if p == [] {
      assert p + s == s && p + t == t;
    } else {
      assert (p + s)[0] == (p + t)[0] == p[0] && (p + s)[1..] == p[1..] + s && (p + t)[1..] == p[1..] + t;
      OrderMeans(p[1..], s, t);
    }
  }

  // __config_name_compare
  method NameCompare(a: string, b: string) returns (r: int)
    ensures r == 0 <==> Segment(a) == Segment(b)
    ensures r == Order(Segment(a), Segment(b))
  {
    hide Order;
    var i := 0;
    while true
      invariant 0 <= i <= |a| && i <= |b| && a[..i] == b[..i]
      invariant forall j :: 0 <= j < i ==> !PathChar(a[j]) && !PathChar(b[j])
      decreases |a| - i
    {
      var pd := i == |a| || PathChar(a[i]);
      var qd := i == |b| || PathChar(b[i]);
      if pd { SegmentUnique(a, i); } else { SegmentPast(a, i); }
      if qd { SegmentUnique(b, i); } else { SegmentPast(b, i); }
      ghost var s, t := Segment(a), Segment(b);
      SamePast(a, b, i);
      OrderFrom(s, t, i);
      OrderHere(s[i..], t[i..]);
      if pd && qd {
        break;
      } else if pd {
        return -1;
      } else if qd {
        return 1;
      } else if SignedChar(a[i]) < SignedChar(b[i]) {
        return -1;
      } else if a[i] != b[i] {
        return 1;
      }
      i := i + 1;
    }
    return 0;
  }

  lemma {:induction false} OrderHere(s: string, t: string)
    ensures s == [] && t == [] ==> Order(s, t) == 0
    ensures s == [] && t != [] ==> Order(s, t) == -1
    ensures s != [] && t == [] ==> Order(s, t) == 1
    ensures s != [] && t != [] && s[0] != t[0] ==>
      Order(s, t) == if SignedChar(s[0]) < SignedChar(t[0]) then -1 else 1
  {
  }

  // Names alike up to a place within both first segments are alike there as segments.
  lemma {:induction false} SamePast(a: string, b: string, i: nat)
    requires i <= |Segment(a)| && i <= |Segment(b)| && a[..i] == b[..i]
    ensures Segment(a)[..i] == Segment(b)[..i]
  {
    var s, t := Segment(a), Segment(b);
    assert s == a[..|s|] && t == b[..|t|];
    assert a[..|s|][..i] == a[..i] && b[..|t|][..i] == b[..i];
  }

  lemma {:induction false} SegmentPast(s: string, n: nat)
    requires n < |s|
    requires forall i :: 0 <= i <= n ==> !PathChar(s[i])
    ensures |Segment(s)| > n && Segment(s)[n] == s[n]
  {
    if n > 0 { SegmentPast(s[1..], n - 1); }
  }

  // __config_validate_name
  method ValidateName(name: string) returns (ok: bool)
    ensures ok <==> ValidName(name)
  {
    if |name| == 0 { return false; }
    if !IsAlpha(name[0]) && name[0] != '*' { return false; }
    var p := 1;
    while p < |name|
      invariant 1 <= p <= |name| && forall i :: 0 < i < p ==> NameChar(name[i])
    {
      if !(IsAlpha(name[p]) || IsDigit(name[p]) || name[p] == '*' || name[p] == '_' || name[p] == '-') {
        return false;
      }
      p := p + 1;
    }
    return true;
  }

  class Config {
    var cells: map<int, Setting>
    var next: int

    ghost function TheHeap(): Heap
      reads this
    {
      Heap(cells, next)
    }

    // config_init
    constructor ()
      ensures TheHeap() == InitHeap()
    {
      cells := map[ROOT := NewSetting(None, KGroup, None)];
      next := 1;
    }

    // __config_list_search: the position of the member, or -1.
    method ListSearch(kids: seq<int>, name: string) returns (idx: int)
      requires forall i :: 0 <= i < |kids| ==> kids[i] in cells
      ensures -1 <= idx < |kids|
      ensures idx == -1 <==> !HasMember(TheHeap(), kids, name)
      ensures idx >= 0 ==> FoundAt(TheHeap(), kids, name, idx)
    {
      idx := 0;
      while idx < |kids|
        invariant 0 <= idx <= |kids|
        invariant forall j :: 0 <= j < idx ==> !Agrees(TheHeap(), kids[j], name)
      {
        var found := cells[kids[idx]];
        if found.name.Some? {
          var c := NameCompare(name, found.name.value);
          if c == 0 {
            assert Agrees(TheHeap(), kids[idx], name);
            return;
          }
        }
        idx := idx + 1;
      }
      idx := -1;
    }

    // config_setting_create
    method Create(parent: int, name: Option<string>, kind: Kind) returns (r: Option<int>)
      requires parent in cells
      modifies this
      ensures old(Aggregate(cells[parent].kind)) ==>
        r == Some(old(next)) && TheHeap() == ConfigHeap.Create(old(TheHeap()), parent, name, kind)
      ensures !old(Aggregate(cells[parent].kind)) ==> r == None && TheHeap() == old(TheHeap())
    {
      var p := cells[parent];
      if p.kind != KGroup && p.kind != KArray && p.kind != KList { return None; }
      var id := next;
      cells := cells[id := Setting(name, kind, Plain, Zero, [], Some(parent))];
      next := next + 1;
      cells := cells[parent := p.(kids := p.kids + [id])];
      return Some(id);
    }

    // config_setting_get_member
    method GetMember(id: int, name: string) returns (r: Option<int>)
      requires WellFormed(TheHeap()) && id in cells
      ensures r.Some? <==> cells[id].kind == KGroup && HasMember(TheHeap(), cells[id].kids, name)
      ensures r.Some? ==> exists i :: FoundAt(TheHeap(), cells[id].kids, name, i) && r.value == cells[id].kids[i]
    {
      if cells[id].kind != KGroup { return None; }
      KidsAreOld(TheHeap(), id);
      var i := ListSearch(cells[id].kids, name);
      return if i == -1 then None else Some(cells[id].kids[i]);
    }

    // config_setting_get_elem
    method GetElem(id: int, idx: int) returns (r: Option<int>)
      requires id in cells
      ensures r == ConfigHeap.GetElem(TheHeap(), id, idx)
      ensures r.Some? <==> Aggregate(cells[id].kind) && 0 <= idx < |cells[id].kids|
      ensures r.Some? ==> r.value == cells[id].kids[idx]
    {
      var c := cells[id];
      if c.kind != KArray && c.kind != KList && c.kind != KGroup { return None; }
      if idx < 0 || idx >= |c.kids| { return None; }
      return Some(c.kids[idx]);
    }

    // config_setting_add, for a call that does not look a null name up.
    method Add(parent: Option<int>, name: Option<string>, kind: Kind) returns (r: Option<int>)
      requires WellFormed(TheHeap())
      requires parent.Some? ==> parent.value in cells && !ConfigHeap.Add(TheHeap(), parent.value, name, kind).Crashes?
      modifies this
      ensures parent.None? ==> r == None && TheHeap() == old(TheHeap())
      ensures parent.Some? ==>
        match old(ConfigHeap.Add(TheHeap(), parent.value, name, kind))
        case Added(h) => r == Some(old(next)) && TheHeap() == h
        case Refused => r == None && TheHeap() == old(TheHeap())
        case Crashes => false
    {
      if parent.None? { return None; }
      var id, name' := parent.value, name;
      if cells[id].kind == KArray || cells[id].kind == KList { name' := None; }
      if name'.Some? {
        var ok := ValidateName(name'.value);
        if !ok { return None; }
        var member := GetMember(id, name'.value);
        if member.Some? { return None; }
      }
      r := Create(id, name', kind);
    }

    // __config_setting_destroy, with the lists below it: h0 is the heap as it was at first.
    method Destroy(id: int, ghost h0: Heap)
      requires WellFormed(h0) && id in h0.cells
      requires forall j :: j in Subtree(h0, id) ==> j in cells && cells[j] == h0.cells[j]
      modifies this
      ensures cells == old(cells) - Subtree(h0, id) && next == old(next)
      decreases h0.next - id
    {
      hide WellFormed;
      hide Subtree;
      SelfAndBelow(h0, id);
      InRange(h0, id);
      var kids := cells[id].kids;
      var i := 0;
      while i < |kids|
        invariant 0 <= i <= |kids| && next == old(next)
        invariant cells == old(cells) - Subtrees(h0, kids, i)
      {
        SubtreesApart(h0, id, i);
        Destroy(kids[i], h0);
        i := i + 1;
      }
      cells := cells - {id};
    }

    // config_setting_remove
    method RemoveMember(parent: Option<int>, name: string) returns (ok: bool)
      requires WellFormed(TheHeap()) && (parent.Some? ==> parent.value in cells)
      modifies this
      ensures parent.None? ==> !ok && TheHeap() == old(TheHeap())
      ensures parent.Some? ==> TheHeap() == old(RemoveByName(TheHeap(), parent.value, name))
      ensures parent.Some? ==> (ok <==>
        old(cells[parent.value].kind == KGroup && HasMember(TheHeap(), cells[parent.value].kids, name)))
    {
      if parent.None? { return false; }
      var id := parent.value;
      if cells[id].kind != KGroup { return false; }
      KidsAreOld(TheHeap(), id);
      var i := ListSearch(cells[id].kids, name);
      if i == -1 { return false; }
      OneFound(TheHeap(), cells[id].kids, name);
      RemoveFromList(id, i);
      return true;
    }

    // __config_list_remove and the destruction of what was removed.
    method RemoveFromList(id: int, idx: int)
      requires WellFormed(TheHeap()) && id in cells && 0 <= idx < |cells[id].kids|
      modifies this
      ensures TheHeap() == RemoveKid(old(TheHeap()), id, idx)
    {
      hide WellFormed;
      hide Subtree;
      ghost var h0 := TheHeap();
      var p := cells[id];
      var removed := p.kids[idx];
      KidsAreOld(h0, id);
      ParentStays(h0, id, idx);
      SubtreeIsThere(h0, removed);
      cells := cells[id := p.(kids := p.kids[..idx] + p.kids[idx + 1..])];
      Destroy(removed, h0);
    }

    // config_setting_remove_elem
    method RemoveElem(parent: Option<int>, idx: int) returns (ok: bool)
      requires WellFormed(TheHeap()) && (parent.Some? ==> parent.value in cells)
      modifies this
      ensures parent.None? ==> !ok && TheHeap() == old(TheHeap())
      ensures parent.Some? ==> TheHeap() == old(RemoveByIndex(TheHeap(), parent.value, idx))
      ensures parent.Some? ==> (ok <==> old(Aggregate(cells[parent.value].kind)) && 0 <= idx < old(|cells[parent.value].kids|))
    {
      if parent.None? { return false; }
      var id := parent.value;
      var c := cells[id];
      if c.kind != KArray && c.kind != KList && c.kind != KGroup { return false; }
      if idx < 0 || idx >= |c.kids| { return false; }
      RemoveFromList(id, idx);
      return true;
    }

    // The typed setters of a setting.
    method SetScalar(id: int, v: NewValue) returns (ok: bool)
      requires id in cells
      modifies this
      ensures match old(ConfigHeap.SetScalar(cells[id], v))
              case Some(c) => ok && cells == old(cells)[id := c] && next == old(next)
              case None => !ok && TheHeap() == old(TheHeap())
    {
      var c := cells[id];
      if c.kind == KNone { c := c.(kind := v.KindOf()); }
      if c.kind == v.KindOf() {
        cells := cells[id := c.(value := v.Stored())];
        return true;
      }
      if c.kind == KInt && v.NewInt64? {
        cells := cells[id := c.(value := IVal(if v.i > INT32_MAX || v.i < INT32_MIN then 0 else v.i))];
        return true;
      }
      return false;
    }

    // config_setting_set_format
    method SetFormat(id: int, format: Format) returns (ok: bool)
      requires id in cells
      modifies this
      ensures cells == old(cells)[id := ConfigHeap.SetFormat(old(cells)[id], format)] && next == old(next)
      ensures ok <==> old(cells[id].kind == KInt || cells[id].kind == KInt64)
    {
      if cells[id].kind != KInt && cells[id].kind != KInt64 { return false; }
      cells := cells[id := cells[id].(format := format)];
      return true;
    }

    // The *_elem setters of an array or list.
    method SetElem(vector: int, idx: int, v: NewValue) returns (r: Option<int>)
      requires WellFormed(TheHeap()) && vector in cells
      modifies this
      ensures match old(ConfigHeap.SetElem(TheHeap(), vector, idx, v))
              case Some((h, e)) => r == Some(e) && TheHeap() == h && e in cells
              case None => r == None && TheHeap() == old(TheHeap())
    {
      InRange(TheHeap(), vector);
      KidsAreOld(TheHeap(), vector);
      if cells[vector].kind != KArray && cells[vector].kind != KList { return None; }
      if idx < 0 {
        var kids := cells[vector].kids;
        if |kids| > 0 && cells[vector].kind != KList && cells[kids[0]].kind != v.KindOf() { return None; }
        r := Create(vector, None, v.KindOf());
      } else {
        r := GetElem(vector, idx);
        if r.None? { return None; }
      }
      var ok := SetScalar(r.value, v);
      if !ok { return None; }
    }

    // config_setting_index
    method Index(id: int) returns (i: int)
      requires WellFormed(TheHeap()) && id in cells
      ensures id == ROOT ==> i == -1
      ensures id != ROOT ==> cells[id].parent.Some? && ConfigHeap.GetElem(TheHeap(), cells[id].parent.value, i) == Some(id)
    {
      hide WellFormed;
      ParentHas(TheHeap(), id);
      if cells[id].parent.None? { return -1; }
      var p := cells[id].parent.value;
      var list := cells[p].kids;
      ghost var k :| 0 <= k < |list| && list[k] == id;
      i := 0;
      while i < |list|
        invariant 0 <= i <= k
      {
        if list[i] == id { return; }
        i := i + 1;
      }
      assert false;
    }
  }

  lemma ParentHas(h: Heap, id: int)
    requires WellFormed(h) && id in h.cells
    ensures h.cells[id].parent.None? <==> id == ROOT
    ensures id != ROOT ==> var p := h.cells[id].parent.value;
      p in h.cells && Aggregate(h.cells[p].kind) && id in h.cells[p].kids
  {
    assert Linked(h, id);
    if id != ROOT { InRange(h, h.cells[id].parent.value); }
  }

  ghost function Subtrees(h: Heap, kids: seq<int>, n: nat): set<int>
    requires n <= |kids|
  {
    if n == 0 then {} else Subtrees(h, kids, n - 1) + Subtree(h, kids[n - 1])
  }

  lemma {:induction false} InSubtrees(h: Heap, kids: seq<int>, n: nat, j: int) returns (k: int)
    requires n <= |kids| && j in Subtrees(h, kids, n)
    ensures 0 <= k < n && j in Subtree(h, kids[k])
  {
    if j in Subtree(h, kids[n - 1]) { k := n - 1; } else { k := InSubtrees(h, kids, n - 1, j); }
  }

  lemma {:induction false} OneOfSubtrees(h: Heap, kids: seq<int>, n: nat, k: nat)
    requires k < n <= |kids|
    ensures Subtree(h, kids[k]) <= Subtrees(h, kids, n)
  {
    if k < n - 1 { OneOfSubtrees(h, kids, n - 1, k); }
  }

  lemma {:induction false} SelfAndBelow(h: Heap, id: int)
    requires WellFormed(h) && id in h.cells
    ensures Subtree(h, id) == {id} + Subtrees(h, h.cells[id].kids, |h.cells[id].kids|)
  {
    var kids := h.cells[id].kids;
    assert Linked(h, id);
    forall j
      ensures j in Subtree(h, id) <==> j in {id} + Subtrees(h, kids, |kids|)
    {
      if j in Subtree(h, id) && j != id {
        var k := BelowSome(h, id, j);
        OneOfSubtrees(h, kids, |kids|, k);
      }
      if j in Subtrees(h, kids, |kids|) {
        var k := InSubtrees(h, kids, |kids|, j);
        assert KidOk(h, id, kids[k]);
        BelowKid(h, id, kids[k], j);
      }
    }
  }

  // The next child to be destroyed is still all there.
  lemma {:induction false} SubtreesApart(h: Heap, id: int, i: nat)
    requires WellFormed(h) && id in h.cells && i < |h.cells[id].kids|
    ensures var kids := h.cells[id].kids;
      && kids[i] in h.cells && id < kids[i] < h.next
      && Subtrees(h, kids, i) !! Subtree(h, kids[i])
      && Subtree(h, kids[i]) <= Subtree(h, id)
  {
    var kids := h.cells[id].kids;
    assert Linked(h, id) && KidOk(h, id, kids[i]) && Linked(h, kids[i]);
    forall j | j in Subtree(h, kids[i])
      ensures j !in Subtrees(h, kids, i) && j in Subtree(h, id)
    {
      BelowKid(h, id, kids[i], j);
      if j in Subtrees(h, kids, i) {
        var k := InSubtrees(h, kids, i, j);
        assert KidOk(h, id, kids[k]);
        SiblingsApart(h, id, kids[k], kids[i], j);
      }
    }
  }

  lemma SubtreeIsThere(h: Heap, id: int)
    ensures forall j :: j in Subtree(h, id) ==> j in h.cells
  {
  }

  // There is one first member of a name.
  lemma OneFound(h: Heap, kids: seq<int>, name: string)
    ensures forall i, j :: FoundAt(h, kids, name, i) && FoundAt(h, kids, name, j) ==> i == j
  {
  }
}
