/** Looking settings up by path. */
module ConfigPath {
  import opened Wrappers
  import opened ConfigHeap
  import opened ConfigGrowth
  import opened ConfigRemoval
  import opened ConfigRuns
  import opened ConfigNumbers
  import opened ConfigApi

  // Walk says what config_lookup_from finds. The theorems: the path spelled by the names and
  // positions of a setting's ancestors finds that setting; what is found always lies below where
  // the search began; and the search differs from following the path strictly in exactly one case,
  // a path that ends in a bare bracket. Positions are read as the code reads them; PositionDeparts
  // says when that is not the number written.

  // ---------- what a path finds ----------

  // What atoi and the parameter type of config_setting_get_elem, unsigned int, make of a number.
  function Position(s: string): (i: nat)
    ensures i < TWO32
  {
    Clamped(Atoi(s)) % TWO32
  }

  // The child named by the first component of a path.
  ghost predicate Child(h: Heap, id: int, path: string, k: int)
    requires id in h.cells && path != []
  {
    if path[0] == '[' then GetElem(h, id, Position(path[1..])) == Some(k)
    else
      h.cells[id].kind == KGroup &&
      exists i :: FoundAt(h, h.cells[id].kids, path, i) && h.cells[id].kids[i] == k
  }

  lemma {:induction false} OneChild(h: Heap, id: int, path: string, a: int, b: int)
    requires id in h.cells && path != [] && Child(h, id, path, a) && Child(h, id, path, b)
    ensures a == b
  {
    if path[0] != '[' {
      var i :| FoundAt(h, h.cells[id].kids, path, i) && h.cells[id].kids[i] == a;
      var j :| FoundAt(h, h.cells[id].kids, path, j) && h.cells[id].kids[j] == b;
      OneFound(h, h.cells[id].kids, path);
    }
  }

  // Following a path, component by component. strict tells whether a path that ends in a bare
  // bracket must have an element to end at.
  ghost function Follow(h: Heap, id: int, path: string, strict: bool): Option<int>
    decreases |path|
  {
    if path == [] then Some(id)
    else if PathChar(path[0]) then Follow(h, id, path[1..], strict)
    else if id !in h.cells then None
    else if exists k :: Child(h, id, path, k) then
      var k :| Child(h, id, path, k);
      SegmentSize(path);
      Follow(h, k, path[|Segment(path)|..], strict)
    else if !strict && path == "[" then Some(id)
    else None
  }

  lemma SegmentSize(path: string)
    requires path != [] && !PathChar(path[0])
    ensures |Segment(path)| > 0
  {
  }

  // config_lookup_from
  ghost function Walk(h: Heap, id: int, path: string): Option<int> {
    Follow(h, id, path, false)
  }

  lemma FollowSeparator(h: Heap, id: int, path: string, p: nat)
    requires p < |path| && PathChar(path[p])
    ensures Walk(h, id, path[p..]) == Walk(h, id, path[p + 1..])
  {
    assert path[p..][1..] == path[p + 1..];
  }

  lemma {:induction false} FollowChild(h: Heap, id: int, path: string, p: nat, q: nat, k: int)
    requires p < q <= |path| && id in h.cells && Child(h, id, path[p..], k)
    requires forall i :: p <= i < q ==> !PathChar(path[i])
    requires q < |path| ==> PathChar(path[q])
    ensures Walk(h, id, path[p..]) == Walk(h, k, path[q..])
  {
    SegmentUnique(path[p..], q - p);
    assert path[p..][q - p..] == path[q..];
    forall j | Child(h, id, path[p..], j)
      ensures j == k
    {
      OneChild(h, id, path[p..], j, k);
    }
  }

  lemma FollowNothing(h: Heap, id: int, path: string)
    requires path != [] && !PathChar(path[0]) && id in h.cells
    requires forall k :: !Child(h, id, path, k)
    ensures Walk(h, id, path) == if path == "[" then Some(id) else None
  {
  }

  // The search itself.
  method LookupFrom(config: Config, from: int, path: string) returns (r: Option<int>)
    requires WellFormed(config.TheHeap()) && from in config.cells
    ensures r == Walk(config.TheHeap(), from, path)
  {
    hide WellFormed;
    hide Walk;
    hide Child;
    ghost var h := config.TheHeap();
    var setting, p := from, 0;
    assert path[0..] == path;
    while true
      invariant 0 <= p <= |path| && setting in config.cells
      invariant Walk(h, from, path) == Walk(h, setting, path[p..])
      decreases |path| - p
    {
      while p < |path| && PathChar(path[p])
        invariant 0 <= p <= |path|
        invariant Walk(h, from, path) == Walk(h, setting, path[p..])
      {
        FollowSeparator(h, setting, path, p);
        p := p + 1;
      }
      if p == |path| { break; }
      ghost var start, rest := p, path[p..];
      var found: Option<int>;
      if path[p] == '[' {
        p := p + 1;
        assert rest[1..] == path[p..];
        found := config.GetElem(setting, Position(path[p..]));
        IndexChild(h, setting, rest, found);
      } else {
        found := config.GetMember(setting, path[p..]);
        NameChild(h, setting, rest, found);
      }
      if found.None? {
        FollowNothing(h, setting, rest);
        assert rest == "[" <==> p == |path|;
        return if p == |path| then Some(setting) else None;
      }
      ChildIsThere(h, setting, rest, found.value);
      while p < |path| && !PathChar(path[p])
        invariant start <= p <= |path|
        invariant forall i :: start <= i < p ==> !PathChar(path[i])
      {
        p := p + 1;
      }
      FollowChild(h, setting, path, start, p, found.value);
      setting := found.value;
    }
    assert path[p..] == [];
    assert Walk(h, setting, []) == Some(setting) by { FollowEnd(h, setting); }
    return Some(setting);
  }

  lemma FollowEnd(h: Heap, id: int)
    ensures Walk(h, id, []) == Some(id)
  {
  }

  lemma IndexChild(h: Heap, id: int, path: string, found: Option<int>)
    requires id in h.cells && path != [] && path[0] == '[' && found == GetElem(h, id, Position(path[1..]))
    ensures match found case Some(k) => Child(h, id, path, k) case None => forall k :: !Child(h, id, path, k)
  {
  }

  lemma NameChild(h: Heap, id: int, path: string, found: Option<int>)
    requires id in h.cells && path != [] && path[0] != '['
    requires found.Some? <==> h.cells[id].kind == KGroup && HasMember(h, h.cells[id].kids, path)
    requires found.Some? ==> exists i :: FoundAt(h, h.cells[id].kids, path, i) && found.value == h.cells[id].kids[i]
    ensures match found case Some(k) => Child(h, id, path, k) case None => forall k :: !Child(h, id, path, k)
  {
  }

  lemma {:induction false} ChildIsThere(h: Heap, id: int, path: string, k: int)
    requires WellFormed(h) && id in h.cells && path != [] && Child(h, id, path, k)
    ensures KidOk(h, id, k) && k in h.cells
  {
    assert Linked(h, id);
  }

  // ---------- what is found lies below ----------

  lemma {:induction false} FoundBelow(h: Heap, id: int, path: string, strict: bool)
    requires WellFormed(h) && id in h.cells && Follow(h, id, path, strict).Some?
    ensures Follow(h, id, path, strict).value in h.cells && IsBelow(h, id, Follow(h, id, path, strict).value)
    decreases |path|
  {
    var r := Follow(h, id, path, strict).value;
    if path != [] {
      if PathChar(path[0]) {
        FoundBelow(h, id, path[1..], strict);
      } else if exists k :: Child(h, id, path, k) {
        var k :| Child(h, id, path, k) && Follow(h, id, path, strict) == Follow(h, k, path[|Segment(path)|..], strict);
        SegmentSize(path);
        ChildIsThere(h, id, path, k);
        FoundBelow(h, k, path[|Segment(path)|..], strict);
        BelowKid(h, id, k, r);
      }
    }
  }

  // ---------- the path of a setting ----------

  // The component that leads from the parent of a setting to it: its name, or its position in
  // brackets.
  ghost function Component(h: Heap, id: int, byIndex: bool): string
    requires WellFormed(h) && id in h.cells && id != ROOT
  {
    ParentHas(h, id);
    var p := h.cells[id].parent.value;
    if h.cells[p].kind == KGroup && h.cells[id].name.Some? && !byIndex then h.cells[id].name.value
    else
      var i :| 0 <= i < |h.cells[p].kids| && h.cells[p].kids[i] == id;
      "[" + Print(i, 10) + "]"
  }

  // The path of a setting, with a given separator. The settings in byIndex are addressed by
  // position, though they may have names.
  ghost function PathOf(h: Heap, id: int, sep: char, byIndex: set<int>): string
    requires WellFormed(h) && id in h.cells
    decreases id
  {
    if id == ROOT then ""
    else
      ParentHas(h, id);
      ParentAbove(h, id);
      PathOf(h, h.cells[id].parent.value, sep, byIndex) + [sep] + Component(h, id, id in byIndex)
  }

  lemma ParentAbove(h: Heap, id: int)
    requires WellFormed(h) && id in h.cells && id != ROOT
    ensures h.cells[id].parent.Some? && 0 <= h.cells[id].parent.value < id
  {
    assert Linked(h, id);
    assert Linked(h, h.cells[id].parent.value);
  }

  // The length of a list is an unsigned int.
  ghost predicate Counted(h: Heap) {
    forall id :: id in h.cells ==> |h.cells[id].kids| < TWO32
  }

  // A position is not the number written exactly if that is negative or too large, and then it
  // finds an element exactly if there is one at what is left of it.
  lemma {:induction false} PositionDeparts(h: Heap, id: int, s: string)
    requires id in h.cells && Counted(h)
    ensures Position(s) != Atoi(s) <==> !(0 <= Atoi(s) < TWO32)
    ensures GetElem(h, id, Position(s)) != GetElem(h, id, Atoi(s)) <==>
      Aggregate(h.cells[id].kind) && !(0 <= Atoi(s) < TWO32) && Position(s) < |h.cells[id].kids|
  {
    hide Atoi;
  }

  // So the number 2^32 in brackets is read as 0.
  lemma {:induction false} PositionWraps()
    ensures Position(PrintInt(TWO32) + "]") == 0
  {
    hide PrintInt;
    hide Atoi;
    IntRoundTrip(TWO32, "]");
  }

  lemma {:induction false} PositionIs(i: nat, rest: string)
    requires i < TWO32
    ensures Position(Print(i, 10) + ("]" + rest)) == i
  {
    hide Print;
    hide Atoi;
    assert PrintInt(i) == Print(i, 10);
    IntRoundTrip(i, "]" + rest);
  }

  // A component is a string without separators that leads from the parent to the setting,
  // whatever comes after it.
  lemma {:induction false} ComponentLeads(h: Heap, id: int, byIndex: bool, rest: string)
    requires WellFormed(h) && WellNamed(h) && Counted(h) && id in h.cells && id != ROOT
    requires rest == [] || PathChar(rest[0])
    ensures var c := Component(h, id, byIndex); var p := h.cells[id].parent.value;
      && c != [] && !PathChar(c[0])
      && Segment(c + rest) == c
      && p in h.cells && Child(h, p, c + rest, id)
  {
    ParentHas(h, id);
    var p := h.cells[id].parent.value;
    var c := Component(h, id, byIndex);
    if h.cells[p].kind == KGroup && h.cells[id].name.Some? && !byIndex {
      NameLeads(h, id, rest);
    } else {
      var i :| 0 <= i < |h.cells[p].kids| && h.cells[p].kids[i] == id && c == "[" + Print(i, 10) + "]";
      IndexLeads(h, p, i, rest);
    }
  }

  lemma {:induction false} IndexLeads(h: Heap, p: int, i: nat, rest: string)
    requires p in h.cells && Aggregate(h.cells[p].kind) && i < |h.cells[p].kids| && i < TWO32
    requires rest == [] || PathChar(rest[0])
    ensures var c := "[" + Print(i, 10) + "]";
      Segment(c + rest) == c && Child(h, p, c + rest, h.cells[p].kids[i])
  {
    var ds := Print(i, 10);
    var c := "[" + ds + "]";
    Bracketed(ds, rest);
    assert forall j :: 0 <= j < |c| ==> !PathChar(c[j]);
    hide Print;
    SegmentUnique(c + rest, |c|);
    PositionIs(i, rest);
  }

  lemma {:induction false} Bracketed(ds: string, rest: string)
    ensures var c := "[" + ds + "]";
      && (forall j :: 0 < j <= |ds| ==> c[j] == ds[j - 1])
      && (c + rest)[0] == '[' && (c + rest)[..|c|] == c && (c + rest)[1..] == ds + ("]" + rest)
      && (forall j :: 0 <= j < |c| ==> (c + rest)[j] == c[j])
  {
  }

  lemma {:induction false} NameLeads(h: Heap, id: int, rest: string)
    requires WellFormed(h) && WellNamed(h) && id in h.cells && id != ROOT && (rest == [] || PathChar(rest[0]))
    requires h.cells[id].parent.Some? && h.cells[id].parent.value in h.cells
    requires h.cells[h.cells[id].parent.value].kind == KGroup && h.cells[id].name.Some?
    ensures var c := h.cells[id].name.value; var p := h.cells[id].parent.value;
      c != [] && !PathChar(c[0]) && Segment(c + rest) == c && Child(h, p, c + rest, id)
  {
    var c, p := h.cells[id].name.value, h.cells[id].parent.value;
    ParentHas(h, id);
    assert NamesOk(h, p);
    KidsAreOld(h, p);
    var kids := h.cells[p].kids;
    var i :| 0 <= i < |kids| && kids[i] == id;
    assert ValidName(c);
    SegmentUnique(c + rest, |c|);
    assert (c + rest)[..|c|] == c;
    forall j | 0 <= j < i
      ensures !Agrees(h, kids[j], c + rest)
    {
      ValidNameIsSegment(h.cells[kids[j]].name.value);
    }
    ValidNameIsSegment(c);
    assert FoundAt(h, kids, c + rest, i);
  }

  // Looking a setting's path up, followed by more, comes to looking the rest up from there.
  lemma {:induction false} PathLeads(h: Heap, id: int, sep: char, byIndex: set<int>, rest: string, strict: bool)
    requires WellFormed(h) && WellNamed(h) && Counted(h) && id in h.cells && PathChar(sep) && (rest == [] || PathChar(rest[0]))
    ensures Follow(h, ROOT, PathOf(h, id, sep, byIndex) + rest, strict) == Follow(h, id, rest, strict)
    decreases id
  {
    if id == ROOT {
      assert PathOf(h, id, sep, byIndex) + rest == rest;
    } else {
      ParentHas(h, id);
      ParentAbove(h, id);
      var p, c := h.cells[id].parent.value, Component(h, id, id in byIndex);
      Regrouped(PathOf(h, p, sep, byIndex), sep, c, rest);
      PathLeads(h, p, sep, byIndex, [sep] + (c + rest), strict);
      assert ([sep] + (c + rest))[1..] == c + rest;
      LastComponent(h, id, id in byIndex, rest, strict);
    }
  }

  lemma Regrouped(path: string, sep: char, c: string, rest: string)
    ensures path + [sep] + c + rest == path + ([sep] + (c + rest))
  {
  }

  // From the parent, a setting's component leads to it.
  lemma {:induction false} LastComponent(h: Heap, id: int, byIndex: bool, rest: string, strict: bool)
    requires WellFormed(h) && WellNamed(h) && Counted(h) && id in h.cells && id != ROOT && (rest == [] || PathChar(rest[0]))
    requires h.cells[id].parent.Some? && h.cells[id].parent.value in h.cells
    ensures Follow(h, h.cells[id].parent.value, Component(h, id, byIndex) + rest, strict) == Follow(h, id, rest, strict)
  {
    hide WellFormed;
    hide WellNamed;
    hide Counted;
    hide Component;
    hide Child;
    hide Segment;
    var p, c := h.cells[id].parent.value, Component(h, id, byIndex);
    ComponentLeads(h, id, byIndex, rest);
    var tail := c + rest;
    forall k | Child(h, p, tail, k)
      ensures k == id
    {
      OneChild(h, p, tail, k, id);
    }
    assert tail[|c|..] == rest;
  }

  // Looking up the path of a setting finds that setting.
  lemma {:induction false} LookupInvertsPath(h: Heap, id: int, sep: char, byIndex: set<int>)
    requires WellFormed(h) && WellNamed(h) && Counted(h) && id in h.cells && PathChar(sep)
    ensures Walk(h, ROOT, PathOf(h, id, sep, byIndex)) == Some(id)
  {
    PathLeads(h, id, sep, byIndex, [], false);
    assert PathOf(h, id, sep, byIndex) + [] == PathOf(h, id, sep, byIndex);
  }

  // Any of the three separators will do.
  lemma {:induction false} LookupBySeparators(h: Heap, id: int, byIndex: set<int>)
    requires WellFormed(h) && WellNamed(h) && Counted(h) && id in h.cells
    ensures Walk(h, ROOT, PathOf(h, id, '.', byIndex)) == Some(id)
    ensures Walk(h, ROOT, PathOf(h, id, ':', byIndex)) == Some(id)
    ensures Walk(h, ROOT, PathOf(h, id, '/', byIndex)) == Some(id)
  {
    hide WellFormed;
    hide WellNamed;
    hide Counted;
    LookupInvertsPath(h, id, '.', byIndex);
    LookupInvertsPath(h, id, ':', byIndex);
    LookupInvertsPath(h, id, '/', byIndex);
  }

  // ---------- step by step ----------

  // The end of a path is where the search has come to, and separators do not move it.
  lemma {:induction false} LookupEnd(h: Heap, id: int, sep: char, rest: string)
    requires sep in {'.', ':', '/'}
    ensures Walk(h, id, "") == Some(id) && Walk(h, id, [sep] + rest) == Walk(h, id, rest)
  {
    assert ([sep] + rest)[0] == sep && ([sep] + rest)[1..] == rest;
  }

  lemma {:induction false} FollowTo(h: Heap, id: int, t: string, k: int)
    requires id in h.cells && t != [] && !PathChar(t[0]) && Child(h, id, t, k)
    ensures Walk(h, id, t) == Walk(h, k, t[|Segment(t)|..])
  {
    hide Segment;
    hide Child;
    forall j | Child(h, id, t, j)
      ensures j == k
    {
      OneChild(h, id, t, j, k);
    }
  }

  lemma {:induction false} FollowNowhere(h: Heap, id: int, t: string)
    requires id in h.cells && |t| > 0 && t != "[" && !PathChar(t[0]) && forall k :: !Child(h, id, t, k)
    ensures Walk(h, id, t) == None
  {
    hide Child;
  }

  ghost predicate NamedChild(h: Heap, id: int, name: string, k: int)
    requires id in h.cells
  {
    h.cells[id].kind == KGroup && k in h.cells[id].kids && k in h.cells && h.cells[k].name == Some(name)
  }

  // A name leads to the member of that name, and nowhere if there is none.
  lemma {:induction false} LookupName(h: Heap, id: int, name: string, rest: string)
    requires Good(h) && id in h.cells && ValidName(name) && (rest == "" || rest[0] in {'.', ':', '/'})
    ensures forall k :: NamedChild(h, id, name, k) ==> Walk(h, id, name + rest) == Walk(h, k, rest)
    ensures (forall k :: !NamedChild(h, id, name, k)) ==> Walk(h, id, name + rest) == None
  {
    hide Good;
    hide Child;
    hide Walk;
    hide NamedChild;
    var t := name + rest;
    PlainName(name);
    SegmentUnique(t, |name|) by { assert forall i :: 0 <= i < |name| ==> t[i] == name[i]; }
    assert t[..|name|] == name && t[|name|..] == rest && t[0] == name[0] && t != "[";
    forall k
      ensures Child(h, id, t, k) <==> NamedChild(h, id, name, k)
    {
      ChildIsNamed(h, id, name, t, k);
    }
    forall k | NamedChild(h, id, name, k)
      ensures Walk(h, id, t) == Walk(h, k, rest)
    {
      FollowTo(h, id, t, k);
    }
    if forall k :: !NamedChild(h, id, name, k) { FollowNowhere(h, id, t); }
  }

  lemma {:induction false} ChildIsNamed(h: Heap, id: int, name: string, t: string, k: int)
    requires Good(h) && id in h.cells && ValidName(name) && t != [] && t[0] != '[' && Segment(t) == name
    ensures Child(h, id, t, k) <==> NamedChild(h, id, name, k)
  {
    hide Good;
    hide Segment;
    var kids := h.cells[id].kids;
    GoodFacts(h);
    KidsAreOld(h, id);
    if h.cells[id].kind == KGroup {
      forall i | 0 <= i < |kids|
        ensures Agrees(h, kids[i], t) <==> h.cells[kids[i]].name == Some(name)
      {
        NamedKid(h, id, i);
      }
      OnlyOne(h, id, name);
      if NamedChild(h, id, name, k) {
        var i :| 0 <= i < |kids| && kids[i] == k;
        assert FoundAt(h, kids, t, i);
      }
    }
  }

  lemma GoodFacts(h: Heap)
    requires Good(h)
    ensures WellFormed(h) && WellNamed(h)
  {
  }

  lemma PlainName(name: string)
    requires ValidName(name)
    ensures name[0] != '[' && forall i :: 0 <= i < |name| ==> !PathChar(name[i])
  {
  }

  lemma {:induction false} NamedKid(h: Heap, id: int, i: nat)
    requires Good(h) && id in h.cells && h.cells[id].kind == KGroup && i < |h.cells[id].kids| && h.cells[id].kids[i] in h.cells
    ensures var n := h.cells[h.cells[id].kids[i]].name; n.Some? && Segment(n.value) == n.value
  {
    assert NamesOk(h, id);
    ValidNameIsSegment(h.cells[h.cells[id].kids[i]].name.value);
  }

  lemma {:induction false} OnlyOne(h: Heap, id: int, name: string)
    requires Good(h) && id in h.cells && h.cells[id].kind == KGroup
    ensures var kids := h.cells[id].kids;
      forall i, j :: 0 <= i < j < |kids| && kids[i] in h.cells && kids[j] in h.cells ==>
        !(h.cells[kids[i]].name == h.cells[kids[j]].name == Some(name))
  {
    assert NamesOk(h, id);
  }

  // A number in brackets leads to the child at that place, and nowhere if there is none.
  lemma {:induction false} LookupIndex(h: Heap, id: int, i: nat, rest: string)
    requires id in h.cells && i < TWO32 && (rest == "" || rest[0] in {'.', ':', '/'})
    ensures Walk(h, id, "[" + Print(i, 10) + "]" + rest) ==
      if Aggregate(h.cells[id].kind) && i < |h.cells[id].kids| then Walk(h, h.cells[id].kids[i], rest) else None
  {
    hide Walk;
    hide Print;
    var ds := Print(i, 10);
    var c := "[" + ds + "]";
    Bracketed(ds, rest);
    assert forall j :: 0 <= j < |c| ==> !PathChar(c[j]);
    SegmentUnique(c + rest, |c|);
    PositionIs(i, rest);
    assert (c + rest)[|c|..] == rest && |c + rest| > 1;
    if Aggregate(h.cells[id].kind) && i < |h.cells[id].kids| {
      FollowTo(h, id, c + rest, h.cells[id].kids[i]);
    } else {
      FollowNowhere(h, id, c + rest);
    }
  }

  // ---------- the one leniency ----------

  // The path ends in a component that is a bare bracket.
  predicate BareBracket(path: string) {
    path != [] && path[|path| - 1] == '[' && (|path| == 1 || PathChar(path[|path| - 2]))
  }

  // A character that ends a number wherever it stands.
  lemma {:induction false} DigitsStop(s: string, t: string)
    requires exists i :: 0 <= i < |s| && PathChar(s[i])
    ensures DigitPrefix(s + t, 10) == DigitPrefix(s, 10)
  {
    var i :| 0 <= i < |s| && PathChar(s[i]);
    assert (s + t)[0] == s[0] && (s + t)[1..] == s[1..] + t;
    if Digit(s[0], 10) {
      assert PathChar(s[1..][i - 1]);
      DigitsStop(s[1..], t);
    }
  }

  lemma {:induction false} AtoiStops(s: string, t: string)
    requires exists i :: 0 <= i < |s| && PathChar(s[i])
    ensures Atoi(s + t) == Atoi(s) && Position(s + t) == Position(s)
    decreases |s|
  {
    var i :| 0 <= i < |s| && PathChar(s[i]);
    if Space(s[0]) {
      assert (s + t)[1..] == s[1..] + t && PathChar(s[1..][i - 1]);
      AtoiStops(s[1..], t);
      assert SkipSpace(s + t) == SkipSpace(s[1..] + t);
    } else {
      assert SkipSpace(s) == s && SkipSpace(s + t) == s + t;
      if s[0] == '-' || s[0] == '+' {
        assert (s + t)[1..] == s[1..] + t && PathChar(s[1..][i - 1]);
        DigitsStop(s[1..], t);
      } else {
        DigitsStop(s, t);
      }
    }
  }

  lemma {:induction false} SegmentStops(s: string, t: string)
    requires exists i :: 0 <= i < |s| && PathChar(s[i])
    ensures Segment(s + t) == Segment(s) && |Segment(s)| < |s|
  {
    var n := |Segment(s)|;
    assert n < |s| by { var i :| 0 <= i < |s| && PathChar(s[i]); assert n == |s| ==> Segment(s) == s; }
    SegmentUnique(s + t, n);
    assert (s + t)[..n] == s[..n];
  }

  lemma {:induction false} ChildOfFront(h: Heap, id: int, a: string, b: string, k: int)
    requires id in h.cells && a != [] && PathChar(a[|a| - 1]) && !PathChar(a[0])
    ensures Child(h, id, a + b, k) <==> Child(h, id, a, k)
  {
    var n := |a| - 1;
    SegmentStops(a, b);
    if a[0] == '[' {
      assert (a + b)[1..] == a[1..] + b && PathChar(a[1..][n - 1]);
      AtoiStops(a[1..], b);
    } else {
      forall i
        ensures Agrees(h, i, a + b) <==> Agrees(h, i, a)
      {
      }
      forall i
        ensures FoundAt(h, h.cells[id].kids, a + b, i) <==> FoundAt(h, h.cells[id].kids, a, i)
      {
      }
    }
  }

  // A path followed in two parts, cut after a separator.
  lemma {:induction false} FollowParts(h: Heap, id: int, a: string, b: string, strict: bool)
    requires WellFormed(h) && id in h.cells && (a == [] || PathChar(a[|a| - 1]))
    ensures Follow(h, id, a + b, strict) ==
      match Follow(h, id, a, true)
      case None => None
      case Some(m) => Follow(h, m, b, strict)
    decreases |a|
  {
    hide WellFormed;
    hide Child;
    if a == [] {
      assert a + b == b;
    } else if PathChar(a[0]) {
      assert (a + b)[1..] == a[1..] + b;
      FollowParts(h, id, a[1..], b, strict);
    } else {
      SegmentStops(a, b);
      var n := |Segment(a)|;
      assert (a + b)[n..] == a[n..] + b;
      forall k
        ensures Child(h, id, a + b, k) <==> Child(h, id, a, k)
      {
        ChildOfFront(h, id, a, b, k);
      }
      if k :| Child(h, id, a, k) {
        forall j | Child(h, id, a, j)
          ensures j == k
        {
          OneChild(h, id, a, j, k);
        }
        ChildIsThere(h, id, a, k);
        SegmentSize(a);
        FollowParts(h, k, a[n..], b, strict);
      }
    }
  }

  lemma {:induction false} FollowAgrees(h: Heap, id: int, path: string)
    requires !BareBracket(path)
    ensures Walk(h, id, path) == Follow(h, id, path, true)
    decreases |path|
  {
    if path != [] && PathChar(path[0]) {
      FollowAgrees(h, id, path[1..]);
    } else if path != [] && id in h.cells && exists k :: Child(h, id, path, k) {
      SegmentSize(path);
      var n := |Segment(path)|;
      assert forall k :: Follow(h, k, path[n..], false) == Walk(h, k, path[n..]);
      forall k
        ensures Walk(h, k, path[n..]) == Follow(h, k, path[n..], true)
      {
        FollowAgrees(h, k, path[n..]);
      }
    }
  }

  // The search returns something a strict reading of the path would not in exactly one case: the
  // path ends in a bare bracket and what comes before it leads to a setting without elements,
  // which is then returned itself.
  lemma {:induction false} Leniency(h: Heap, id: int, path: string)
    requires WellFormed(h) && id in h.cells
    ensures Walk(h, id, path) != Follow(h, id, path, true) <==>
      && BareBracket(path)
      && Follow(h, id, path[..|path| - 1], true).Some?
      && GetElemOf(h, Follow(h, id, path[..|path| - 1], true).value, 0) == None
    ensures Walk(h, id, path) != Follow(h, id, path, true) ==>
      Walk(h, id, path) == Follow(h, id, path[..|path| - 1], true) && Follow(h, id, path, true) == None
  {
    if !BareBracket(path) {
      FollowAgrees(h, id, path);
    } else {
      var front := path[..|path| - 1];
      assert path == front + "[";
      FollowParts(h, id, front, "[", false);
      FollowParts(h, id, front, "[", true);
      if Follow(h, id, front, true).Some? {
        var m := Follow(h, id, front, true).value;
        FoundBelow(h, id, front, true);
        AtBracket(h, m);
      }
    }
  }

  function GetElemOf(h: Heap, id: int, i: int): Option<int> {
    if id in h.cells then GetElem(h, id, i) else None
  }

  lemma {:induction false} AtBracket(h: Heap, id: int)
    requires id in h.cells
    ensures Walk(h, id, "[") == if GetElem(h, id, 0).Some? then GetElem(h, id, 0) else Some(id)
    ensures Follow(h, id, "[", true) == GetElem(h, id, 0)
  {
    var path := "[";
    assert path[1..] == "";
    assert Atoi("") == 0;
    assert Segment(path) == path by { SegmentUnique(path, 1); }
    assert path[1..] == [];
    forall k
      ensures Child(h, id, path, k) <==> GetElem(h, id, 0) == Some(k)
    {
    }
    if GetElem(h, id, 0).Some? { assert Child(h, id, path, GetElem(h, id, 0).value); }
  }
}
