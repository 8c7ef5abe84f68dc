/** The attributes of an element: a ring of doubly linked attributes through a sentinel. */
module XmlAttributeSet {
  class Attribute {
    var name: string
    var value: string
    var prev: Attribute?
    var next: Attribute?

    constructor (name: string, value: string)
      ensures this.name == name && this.value == value && prev == null && next == null
    {
      this.name, this.value, prev, next := name, value, null, null;
    }

    ghost predicate Empty()
      reads this
    {
      name == "" && value == ""
    }

    // The attribute after this one; an attribute without name and value is taken for the sentinel.
    method Next() returns (r: Attribute?)
      requires next != null
      ensures r == if next.name == "" && next.value == "" then null else next
    {
      if next.value == "" && next.name == "" { return null; }
      return next;
    }

    method Previous() returns (r: Attribute?)
      requires prev != null
      ensures r == if prev.name == "" && prev.value == "" then null else prev
    {
      if prev.value == "" && prev.name == "" { return null; }
      return prev;
    }
  }

  function After(i: nat, n: nat): nat
    requires i < n
  {
    if i + 1 == n then 0 else i + 1
  }

  function Behind(i: nat, n: nat): nat
    requires i < n
  {
    if i == 0 then n - 1 else i - 1
  }

  ghost predicate NextAt(ring: seq<Attribute>, i: nat)
    requires i < |ring|
    reads ring
  {
    ring[i].next == ring[After(i, |ring|)]
  }

  ghost predicate PrevAt(ring: seq<Attribute>, i: nat)
    requires i < |ring|
    reads ring
  {
    ring[i].prev == ring[Behind(i, |ring|)]
  }

  ghost predicate LinkAt(ring: seq<Attribute>, i: nat)
    requires i < |ring|
    reads ring
  {
    NextAt(ring, i) && PrevAt(ring, i)
  }

  // One attribute is bridged over: the links of the ring without it.
  lemma Bridged(ring: seq<Attribute>, left: seq<Attribute>, k: nat, i: nat)
    requires k + 1 < |ring| && |left| == |ring| - 1 && i < |left|
    requires forall i :: 0 <= i < |left| ==> left[i] == ring[if i <= k then i else i + 1]
    requires forall j :: 0 <= j < |ring| && j != k && j != k + 1 ==> NextAt(ring, j)
    requires forall j :: 0 <= j < |ring| && j != After(k + 1, |ring|) && j != k + 1 ==> PrevAt(ring, j)
    requires ring[k].next == ring[After(k + 1, |ring|)] && ring[After(k + 1, |ring|)].prev == ring[k]
    ensures LinkAt(left, i)
  {
    var j := if i <= k then i else i + 1;
    var a, b := After(i, |left|), Behind(i, |left|);
    assert left[a] == ring[if a <= k then a else a + 1] && left[b] == ring[if b <= k then b else b + 1];
    assert j != k ==> NextAt(ring, j);
    assert j != After(k + 1, |ring|) ==> PrevAt(ring, j);
  }

  function Removed(s: seq<Attribute>, i: nat): (r: seq<Attribute>)
    requires i < |s|
    ensures |r| == |s| - 1 && forall j :: 0 <= j < |r| ==> r[j] == s[if j < i then j else j + 1]
  {
    s[..i] + s[i + 1..]
  }

  class AttributeSet {
    const sentinel: Attribute
    ghost var attributes: seq<Attribute>

    ghost function Ring(): seq<Attribute>
      reads this
    {
      [sentinel] + attributes
    }

    ghost predicate Valid()
      reads this, sentinel, attributes
    {
      && sentinel.Empty()
      && (forall i, j :: 0 <= i < j < |Ring()| ==> Ring()[i] != Ring()[j])
      && (forall i :: 0 <= i < |Ring()| ==> LinkAt(Ring(), i))
    }

    constructor ()
      ensures Valid() && attributes == [] && fresh(sentinel)
    {
      sentinel := new Attribute("", "");
      attributes := [];
      new;
      sentinel.next := sentinel;
      sentinel.prev := sentinel;
    }

    method Add(addMe: Attribute)
      requires Valid() && addMe !in Ring()
      modifies this`attributes, addMe`prev, addMe`next, sentinel`prev, (if sentinel.prev == null then {} else {sentinel.prev})`next
      ensures Valid() && attributes == old(attributes) + [addMe]
    {
      ghost var ring := Ring();
      assert LinkAt(ring, 0) && LinkAt(ring, |ring| - 1);
      addMe.next := sentinel;
      addMe.prev := sentinel.prev;
      sentinel.prev.next := addMe;
      sentinel.prev := addMe;
      attributes := attributes + [addMe];
      assert Ring() == ring + [addMe];
      forall i | 0 <= i < |Ring()|
        ensures LinkAt(Ring(), i)
      {
        assert i < |ring| ==> Ring()[i] == ring[i] && old(LinkAt(ring, i));
      }
    }

    // Goes through the ring until it meets the attribute; false stands for the failing assertion.
    method Remove(removeMe: Attribute) returns (found: bool)
      requires Valid() && removeMe != sentinel
      modifies this`attributes, attributes, sentinel
      ensures Valid() && (found <==> removeMe in old(attributes))
      ensures !found ==> attributes == old(attributes)
      ensures found ==> removeMe.next == null && removeMe.prev == null
      ensures found ==> exists i :: 0 <= i < |old(attributes)| && old(attributes)[i] == removeMe
                                    && attributes == Removed(old(attributes), i)
    {
      ghost var ring := Ring();
      assert LinkAt(ring, 0);
      var node := sentinel.next;
      ghost var k := 1;
      while node != sentinel
        invariant 1 <= k <= |ring| && node == (if k == |ring| then sentinel else ring[k])
        invariant forall j :: 1 <= j < k ==> ring[j] != removeMe
        invariant Valid() && Ring() == ring && attributes == old(attributes)
        decreases |ring| - k
      {
        if node == removeMe {
          Unlink(node, k - 1);
          assert old(attributes)[k - 1] == removeMe;
          return true;
        }
        assert LinkAt(ring, k);
        node := node.next;
        k := k + 1;
      }
      assert forall j :: 0 <= j < |attributes| ==> attributes[j] == ring[j + 1];
      return false;
    }

    method Unlink(node: Attribute, ghost k: nat)
      requires Valid() && k < |attributes| && attributes[k] == node
      modifies this`attributes, attributes, sentinel
      ensures Valid() && attributes == Removed(old(attributes), k)
      ensures node.next == null && node.prev == null
    {
      ghost var ring := Ring();
      assert ring[k + 1] == node;
      RingRemoved(k);
      Bypass(node, ring, k);
      attributes := Removed(attributes, k);
      ghost var left := Ring();
      forall i | 0 <= i < |left|
        ensures LinkAt(left, i)
      {
        Bridged(ring, left, k, i);
      }
    }

    // Both neighbours are linked past an attribute, whose own links are cleared.
    method Bypass(node: Attribute, ghost ring: seq<Attribute>, ghost k: nat)
      requires k + 1 < |ring| && ring[k + 1] == node
      requires forall i, j :: 0 <= i < j < |ring| ==> ring[i] != ring[j]
      requires forall i :: 0 <= i < |ring| ==> LinkAt(ring, i)
      modifies ring`next, ring`prev
      ensures node.next == null && node.prev == null
      ensures forall j :: 0 <= j < |ring| && j != k && j != k + 1 ==> NextAt(ring, j)
      ensures forall j :: 0 <= j < |ring| && j != After(k + 1, |ring|) && j != k + 1 ==> PrevAt(ring, j)
      ensures ring[k].next == ring[After(k + 1, |ring|)] && ring[After(k + 1, |ring|)].prev == ring[k]
    {
      assert LinkAt(ring, k + 1) && LinkAt(ring, k) && LinkAt(ring, After(k + 1, |ring|));
      node.prev.next := node.next;
      node.next.prev := node.prev;
      node.next := null;
      node.prev := null;
      forall j | 0 <= j < |ring| && j != k && j != k + 1
        ensures NextAt(ring, j)
      {
        assert old(LinkAt(ring, j));
      }
      forall j | 0 <= j < |ring| && j != After(k + 1, |ring|) && j != k + 1
        ensures PrevAt(ring, j)
      {
        assert old(LinkAt(ring, j));
      }
    }

    // The ring without one attribute.
    lemma RingRemoved(k: nat)
      requires Valid() && k < |attributes|
      ensures var left := [sentinel] + Removed(attributes, k);
        && |left| == |Ring()| - 1
        && (forall i :: 0 <= i < |left| ==> left[i] == Ring()[if i <= k then i else i + 1])
        && (forall i, j :: 0 <= i < j < |left| ==> left[i] != left[j])
      ensures Ring()[k + 1] !in [sentinel] + Removed(attributes, k)
    {
    }

    // The first attribute of that name; none if there is none.
    method Find(name: string) returns (r: Attribute?)
      requires Valid()
      ensures r == null <==> forall i :: 0 <= i < |attributes| ==> attributes[i].name != name
      ensures r != null ==> exists i :: 0 <= i < |attributes| && attributes[i] == r && r.name == name
                                        && forall j :: 0 <= j < i ==> attributes[j].name != name
    {
      ghost var ring := Ring();
      assert LinkAt(ring, 0);
      var node := sentinel.next;
      ghost var k := 1;
      while node != sentinel
        invariant 1 <= k <= |ring| && node == (if k == |ring| then sentinel else ring[k])
        invariant forall j :: 0 <= j < k - 1 ==> attributes[j].name != name
        decreases |ring| - k
      {
        if node.name == name {
          assert attributes[k - 1] == node;
          return node;
        }
        assert LinkAt(ring, k) && attributes[k - 1] == ring[k];
        node := node.next;
        k := k + 1;
      }
      return null;
    }

    method First() returns (r: Attribute?)
      requires Valid()
      ensures r == if attributes == [] then null else attributes[0]
    {
      assert LinkAt(Ring(), 0);
      if sentinel.next == sentinel { return null; }
      return sentinel.next;
    }

    method Last() returns (r: Attribute?)
      requires Valid()
      ensures r == if attributes == [] then null else attributes[|attributes| - 1]
    {
      assert LinkAt(Ring(), 0);
      if sentinel.prev == sentinel { return null; }
      return sentinel.prev;
    }

    // Going from attribute to attribute: the next one, unless there is none or it has neither name
    // nor value.
    lemma NextIs(i: nat)
      requires Valid() && i < |attributes|
      ensures attributes[i].next != null && attributes[i].prev != null
      ensures attributes[i].next == (if i + 1 < |attributes| then attributes[i + 1] else sentinel)
      ensures attributes[i].prev == (if i > 0 then attributes[i - 1] else sentinel)
      ensures attributes[i].next.Empty() <==> i + 1 == |attributes| || attributes[i + 1].Empty()
    {
      assert LinkAt(Ring(), i + 1) && Ring()[i + 1] == attributes[i];
    }
  }
}
