/** The child lists of a document.

    Nodes are doubly linked, with first and last child, and edited
    in place; each edit stands for one of a sequence of children. */
module XmlNodes {
  function Maybe(n: Node?): set<Node> {
    if n == null then {} else {n}
  }

  // ---------- the edits on sequences ----------

  function Inserted(s: seq<Node>, i: nat, x: Node): seq<Node>
    requires i <= |s|
  {
    s[..i] + [x] + s[i..]
  }

  function Removed(s: seq<Node>, i: nat): (r: seq<Node>)
    requires i < |s|
    ensures |r| == |s| - 1 && forall j :: 0 <= j < |r| ==> r[j] == s[if j < i then j else j + 1]
  {
    s[..i] + s[i + 1..]
  }

  lemma SwapParts(s: seq<Node>, k: nat, x: Node)
    requires k < |s|
    ensures var r := s[k := x];
      && x in r && (k > 0 ==> s[k - 1] in r) && (k < |s| - 1 ==> s[k + 1] in r)
      && (forall i :: 0 <= i < |s| ==> s[i] == s[k] || s[i] in r)
  {
    var r := s[k := x];
    forall i | 0 <= i < |s| && i != k
      ensures s[i] in r
    {
      assert r[i] == s[i];
    }
    assert r[k] == x;
  }

  ghost predicate Distinct(s: seq<Node>) {
    forall i, j :: 0 <= i < j < |s| ==> s[i] != s[j]
  }

  ghost function IndexOf(s: seq<Node>, x: Node): (i: nat)
    requires x in s
    ensures i < |s| && s[i] == x
  {
    var i: nat :| i < |s| && s[i] == x;
    i
  }

  // ---------- the nodes ----------

  class Node {
    const document: bool
    var value: string
    var parent: Node?
    var firstChild: Node?
    var lastChild: Node?
    var prev: Node?
    var next: Node?

    // The children in order.
    ghost var kids: seq<Node>

    constructor (document: bool, value: string)
      ensures this.document == document && this.value == value
      ensures parent == null && firstChild == null && lastChild == null && prev == null && next == null && kids == []
    {
      this.document, this.value := document, value;
      parent, firstChild, lastChild, prev, next, kids := null, null, null, null, null, [];
    }

    // What Clone promises of its result: a node of its own with the type and value of the other.
    // What is below it comes with it.
    predicate CopyOf(other: Node)
      reads this, other
    {
      document == other.document && value == other.value && parent == null
    }

    // The i-th node of s is a child of this node, between its neighbours in s.
    ghost predicate LinkAt(s: seq<Node>, i: int)
      requires 0 <= i < |s|
      reads s
    {
      && s[i].parent == this
      && s[i].prev == (if i == 0 then null else s[i - 1])
      && s[i].next == (if i == |s| - 1 then null else s[i + 1])
    }

    // The links of this node and of the nodes of s make s the list of its children.
    ghost predicate Chain(s: seq<Node>)
      reads this, s
    {
      && Distinct(s)
      && firstChild == (if s == [] then null else s[0])
      && lastChild == (if s == [] then null else s[|s| - 1])
      && forall i :: 0 <= i < |s| ==> LinkAt(s, i)
    }

    // ---------- relinking ----------

    // Links a node behind the last child; one that is a child already ends up in no list at all.
    method LinkLast(node: Node)
      requires Chain(kids)
      modifies this`firstChild, this`lastChild, this`kids, node`parent, node`prev, node`next, Maybe(lastChild)`next
      ensures kids == old(kids) + [node]
      ensures node !in old(kids) ==> Chain(kids)
      ensures node in old(kids) ==> forall s :: !Chain(s)
    {
      ghost var s := kids;
      assert s != [] ==> LinkAt(s, |s| - 1);
      node.parent := this;
      node.prev := lastChild;
      node.next := null;
      if lastChild != null {
        lastChild.next := node;
      } else {
        firstChild := node;
      }
      lastChild := node;
      kids := s + [node];
      if node !in s {
        forall i | 0 <= i < |kids|
          ensures LinkAt(kids, i)
        {
          assert i < |s| ==> old(LinkAt(s, i));
        }
      } else {
        ghost var k := IndexOf(s, node);
        forall j | k < j < |s|
          ensures s[j].prev == s[j - 1]
        {
          assert old(LinkAt(s, j));
        }
        forall t
          ensures !Chain(t)
        {
          if Chain(t) { NoList(t, s, k); }
        }
      }
    }

    lemma NoList(t: seq<Node>, s: seq<Node>, k: nat)
      requires Chain(t) && k < |s| && lastChild == s[k] && s[k].prev == s[|s| - 1]
      requires forall j :: k < j < |s| ==> s[j].prev == s[j - 1]
      requires k == |s| - 1 ==> s[k].next != null
      ensures false
    {
      var m := |t| - 1;
      assert LinkAt(t, m);
      if k < |s| - 1 { Backwards(t, s, k, |s| - 1, m - 1); }
    }

    // Going back from one node in two rows.
    lemma Backwards(t: seq<Node>, s: seq<Node>, k: nat, j: nat, i: int)
      requires Chain(t) && k < j < |s| && -1 < i < |t| - 1 && t[|t| - 1] == s[k]
      requires forall j :: k < j < |s| ==> s[j].prev == s[j - 1]
      requires t[i] == s[j]
      ensures false
      decreases i
    {
      assert LinkAt(t, i) && s[j].prev == s[j - 1];
      if j - 1 > k { Backwards(t, s, k, j - 1, i - 1); }
    }

    method LinkBefore(x: Node, node: Node, ghost k: nat)
      requires Chain(kids) && node !in kids && k < |kids| && kids[k] == x
      modifies this`firstChild, this`kids, node`parent, node`prev, node`next, x`prev, Maybe(x.prev)`next
      ensures kids == Inserted(old(kids), k, node) && Chain(kids)
    {
      ghost var s := kids;
      assert LinkAt(s, k) && (k > 0 ==> LinkAt(s, k - 1));
      node.parent := this;
      node.next := x;
      node.prev := x.prev;
      if x.prev != null {
        x.prev.next := node;
      } else {
        firstChild := node;
      }
      x.prev := node;
      kids := Inserted(s, k, node);
      forall i | 0 <= i < |kids|
        ensures LinkAt(kids, i)
      {
        assert i < k ==> old(LinkAt(s, i));
        assert i > k ==> old(LinkAt(s, i - 1));
      }
    }

    method LinkAfter(x: Node, node: Node, ghost k: nat)
      requires Chain(kids) && node !in kids && k < |kids| && kids[k] == x
      modifies this`lastChild, this`kids, node`parent, node`prev, node`next, x`next, Maybe(x.next)`prev
      ensures kids == Inserted(old(kids), k + 1, node) && Chain(kids)
    {
      ghost var s := kids;
      assert LinkAt(s, k) && (k < |s| - 1 ==> LinkAt(s, k + 1));
      node.parent := this;
      node.prev := x;
      node.next := x.next;
      if x.next != null {
        x.next.prev := node;
      } else {
        lastChild := node;
      }
      x.next := node;
      kids := Inserted(s, k + 1, node);
      forall i | 0 <= i < |kids|
        ensures LinkAt(kids, i)
      {
        assert i <= k ==> old(LinkAt(s, i));
        assert i > k + 1 ==> old(LinkAt(s, i - 1));
      }
    }

    method LinkInstead(x: Node, node: Node, ghost k: nat)
      requires Chain(kids) && node !in kids && k < |kids| && kids[k] == x
      modifies this`firstChild, this`lastChild, this`kids, node`parent, node`prev, node`next
      modifies Maybe(x.prev)`next, Maybe(x.next)`prev
      ensures kids == old(kids)[k := node] && Chain(kids)
    {
      ghost var s := kids;
      assert LinkAt(s, k) && (k > 0 ==> LinkAt(s, k - 1)) && (k < |s| - 1 ==> LinkAt(s, k + 1));
      node.next := x.next;
      node.prev := x.prev;
      if x.next != null {
        x.next.prev := node;
      } else {
        lastChild := node;
      }
      if x.prev != null {
        x.prev.next := node;
      } else {
        firstChild := node;
      }
      node.parent := this;
      kids := s[k := node];
      forall i | 0 <= i < |kids|
        ensures LinkAt(kids, i)
      {
        assert old(LinkAt(s, i));
      }
    }

    method Unlink(x: Node, ghost k: nat)
      requires Chain(kids) && k < |kids| && kids[k] == x
      modifies this`firstChild, this`lastChild, this`kids, Maybe(x.prev)`next, Maybe(x.next)`prev
      ensures kids == Removed(old(kids), k) && Chain(kids)
    {
      ghost var s := kids;
      assert LinkAt(s, k) && (k > 0 ==> LinkAt(s, k - 1)) && (k < |s| - 1 ==> LinkAt(s, k + 1));
      if x.next != null {
        x.next.prev := x.prev;
      } else {
        lastChild := x.prev;
      }
      if x.prev != null {
        x.prev.next := x.next;
      } else {
        firstChild := x.next;
      }
      kids := Removed(s, k);
      forall i | 0 <= i < |kids|
        ensures LinkAt(kids, i)
      {
        assert i < k ==> old(LinkAt(s, i));
        assert i >= k ==> old(LinkAt(s, i + 1));
      }
    }

    // ---------- the edits ----------

    // The caller's duty is that the node has no parent or this one. If it is a child already,
    // the links come out broken; if not, it becomes the last child.
    method LinkEndChild(node: Node, ghost nodes: set<Node>, ghost added: set<Node>) returns (r: Node?)
      requires Tree(nodes) && this in nodes
      requires node.parent == this || (node.parent == null && node !in nodes)
      requires node !in nodes ==> node in added && TreeBut(added, node) && nodes !! added
      modifies this`firstChild, this`lastChild, this`kids, node`parent, node`prev, node`next, Maybe(lastChild)`next
      ensures node.document ==> r == null && kids == old(kids) && Tree(nodes)
      ensures !node.document ==> r == node
      ensures !node.document && node !in nodes ==> kids == old(kids) + [node] && Tree(nodes + added)
      ensures !node.document && node in nodes ==> node in old(kids) && forall s :: !Chain(s)
    {
      hide Node.Chain;
      if node.document { return null; }
      assert InTree(nodes, this);
      ghost var touched := {node} + Maybe(lastChild);
      if node in nodes {
        assert Placed(nodes, node);
      } else {
        JoinTrees(nodes, added, this, node);
        LastIsChild();
      }
      LinkLast(node);
      if node !in nodes { OthersKept(this, nodes + added, touched); }
      return node;
    }

    method InsertBeforeChild(beforeThis: Node?, addThis: Node, clone: Node, ghost nodes: set<Node>, ghost added: set<Node>)
      returns (r: Node?)
      requires Tree(nodes) && this in nodes && (beforeThis != null ==> beforeThis in nodes)
      requires clone.CopyOf(addThis) && Tree(added) && clone in added && nodes !! added
      modifies this`firstChild, this`kids, clone`parent, clone`prev, clone`next
      modifies Maybe(beforeThis)`prev, (if beforeThis == null then {} else Maybe(beforeThis.prev))`next
      ensures r == null <==> beforeThis == null || old(beforeThis.parent) != this || addThis.document
      ensures r == null ==> kids == old(kids) && Tree(nodes)
      ensures r != null ==> r == clone && r.value == old(addThis.value) && Tree(nodes + added)
      ensures r != null ==> beforeThis in old(kids) && kids == Inserted(old(kids), IndexOf(old(kids), beforeThis), r)
    {
      hide Node.Chain;
      if beforeThis == null || beforeThis.parent != this { return null; }
      if addThis.document { return null; }
      ghost var k := ChildIndex(nodes, beforeThis);
      JoinTrees(nodes, added, this, clone);
      ghost var touched := {clone, beforeThis} + Maybe(beforeThis.prev);
      LinkBefore(beforeThis, clone, k);
      OthersKept(this, nodes + added, touched);
      return clone;
    }

    // The position of a child.
    lemma ChildIndex(nodes: set<Node>, x: Node) returns (k: nat)
      requires Tree(nodes) && this in nodes && x in nodes && x.parent == this
      ensures Chain(kids) && x in kids && k == IndexOf(kids, x)
      ensures forall i :: 0 <= i < |kids| && i != k ==> kids[i] != x
      ensures x.prev != null ==> k > 0 && x.prev == kids[k - 1] && kids[k - 1].parent == this
      ensures x.next != null ==> k < |kids| - 1 && x.next == kids[k + 1] && kids[k + 1].parent == this
    {
      hide Node.Chain;
      assert Placed(nodes, x) && InTree(nodes, this);
      k := IndexOf(kids, x);
      Neighbours(k);
    }

    lemma Neighbours(k: nat)
      requires Chain(kids) && k < |kids|
      ensures forall i :: 0 <= i < |kids| && i != k ==> kids[i] != kids[k]
      ensures var x := kids[k];
        && (x.prev != null ==> k > 0 && x.prev == kids[k - 1] && kids[k - 1].parent == this)
        && (x.next != null ==> k < |kids| - 1 && x.next == kids[k + 1] && kids[k + 1].parent == this)
    {
      assert LinkAt(kids, k) && (k > 0 ==> LinkAt(kids, k - 1)) && (k < |kids| - 1 ==> LinkAt(kids, k + 1));
    }

    method InsertAfterChild(afterThis: Node?, addThis: Node, clone: Node, ghost nodes: set<Node>, ghost added: set<Node>)
      returns (r: Node?)
      requires Tree(nodes) && this in nodes && (afterThis != null ==> afterThis in nodes)
      requires clone.CopyOf(addThis) && Tree(added) && clone in added && nodes !! added
      modifies this`lastChild, this`kids, clone`parent, clone`prev, clone`next
      modifies Maybe(afterThis)`next, (if afterThis == null then {} else Maybe(afterThis.next))`prev
      ensures r == null <==> afterThis == null || old(afterThis.parent) != this || addThis.document
      ensures r == null ==> kids == old(kids) && Tree(nodes)
      ensures r != null ==> r == clone && r.value == old(addThis.value) && Tree(nodes + added)
      ensures r != null ==> afterThis in old(kids) && kids == Inserted(old(kids), IndexOf(old(kids), afterThis) + 1, r)
    {
      hide Node.Chain;
      if afterThis == null || afterThis.parent != this { return null; }
      if addThis.document { return null; }
      ghost var k := ChildIndex(nodes, afterThis);
      JoinTrees(nodes, added, this, clone);
      ghost var touched := {clone, afterThis} + Maybe(afterThis.next);
      LinkAfter(afterThis, clone, k);
      OthersKept(this, nodes + added, touched);
      return clone;
    }

    // The replaced child and what is below it are deleted.
    method ReplaceChild(replaceThis: Node, withThis: Node, clone: Node, ghost nodes: set<Node>, ghost added: set<Node>,
                        ghost gone: set<Node>) returns (r: Node?)
      requires Tree(nodes) && this in nodes && replaceThis in nodes && Below(nodes, replaceThis, gone)
      requires clone.CopyOf(withThis) && Tree(added) && clone in added && nodes !! added
      modifies this`firstChild, this`lastChild, this`kids, clone`parent, clone`prev, clone`next
      modifies Maybe(replaceThis.prev)`next, Maybe(replaceThis.next)`prev
      ensures r == null <==> old(replaceThis.parent) != this
      ensures r == null ==> kids == old(kids) && Tree(nodes)
      ensures r != null ==> r == clone && r.value == old(withThis.value) && Tree(nodes - gone + added)
      ensures r != null ==> replaceThis in old(kids) && kids == old(kids)[IndexOf(old(kids), replaceThis) := r]
    {
      hide Node.Chain;
      if replaceThis.parent != this { return null; }
      ghost var k := ChildIndex(nodes, replaceThis);
      JoinTrees(nodes, added, this, clone);
      Prune(nodes, this, replaceThis, gone);
      Widen(nodes - gone, added, this, clone);
      ghost var touched := {clone} + Maybe(replaceThis.prev) + Maybe(replaceThis.next);
      ghost var s := kids;
      LinkInstead(replaceThis, clone, k);
      SwapParts(s, k, clone);
      OthersKept(this, nodes - gone + added, touched);
      return clone;
    }

    method RemoveChild(removeThis: Node, ghost nodes: set<Node>, ghost gone: set<Node>) returns (ok: bool)
      requires Tree(nodes) && this in nodes && removeThis in nodes && Below(nodes, removeThis, gone)
      modifies this`firstChild, this`lastChild, this`kids, Maybe(removeThis.prev)`next, Maybe(removeThis.next)`prev
      ensures ok <==> old(removeThis.parent) == this
      ensures !ok ==> kids == old(kids) && Tree(nodes)
      ensures ok ==> removeThis in old(kids) && kids == Removed(old(kids), IndexOf(old(kids), removeThis))
      ensures ok ==> Tree(nodes - gone)
    {
      hide Node.Chain;
      if removeThis.parent != this { return false; }
      ghost var k := ChildIndex(nodes, removeThis);
      Prune(nodes, this, removeThis, gone);
      ghost var touched := Maybe(removeThis.prev) + Maybe(removeThis.next);
      ghost var s := kids;
      Unlink(removeThis, k);
      assert k > 0 ==> kids[k - 1] == s[k - 1];
      assert k < |kids| ==> kids[k] == s[k + 1];
      OthersKept(this, nodes - gone, touched);
      return true;
    }

    // The first child with a value, by way of the next links.
    method FirstChildNamed(value: string) returns (r: Node?)
      requires Chain(kids)
      ensures r == null <==> forall i :: 0 <= i < |kids| ==> kids[i].value != value
      ensures r != null ==> exists i :: 0 <= i < |kids| && kids[i] == r && r.value == value
                               && forall j :: 0 <= j < i ==> kids[j].value != value
    {
      r := firstChild;
      ghost var i := 0;
      while r != null
        invariant 0 <= i <= |kids| && r == (if i < |kids| then kids[i] else null)
        invariant forall j :: 0 <= j < i ==> kids[j].value != value
        decreases |kids| - i
      {
        if r.value == value { return; }
        assert LinkAt(kids, i);
        r := r.next;
        i := i + 1;
      }
    }

    // The last child with a value, by way of the prev links.
    method LastChildNamed(value: string) returns (r: Node?)
      requires Chain(kids)
      ensures r == null <==> forall i :: 0 <= i < |kids| ==> kids[i].value != value
      ensures r != null ==> exists i :: 0 <= i < |kids| && kids[i] == r && r.value == value
                               && forall j :: i < j < |kids| ==> kids[j].value != value
    {
      r := lastChild;
      ghost var i := |kids| - 1;
      while r != null
        invariant -1 <= i < |kids| && r == (if i >= 0 then kids[i] else null)
        invariant forall j :: i < j < |kids| ==> kids[j].value != value
        decreases i
      {
        if r.value == value { return; }
        assert LinkAt(kids, i);
        r := r.prev;
        i := i - 1;
      }
    }

    lemma LastIsChild()
      requires Chain(kids)
      ensures lastChild != null ==> lastChild in kids && lastChild.parent == this
    {
      assert kids != [] ==> LinkAt(kids, |kids| - 1);
    }
  }

  // ---------- the whole document ----------

  ghost predicate InTree(nodes: set<Node>, n: Node)
    reads n, nodes
  {
    && (forall i :: 0 <= i < |n.kids| ==> n.kids[i] in nodes)
    && n.Chain(n.kids)
  }

  ghost predicate Placed(nodes: set<Node>, n: Node)
    reads n, nodes
  {
    n.parent == null || (n.parent in nodes && n in n.parent.kids)
  }

  // All links agree; only x may have its parent set and not be in its list yet.
  ghost predicate TreeBut(nodes: set<Node>, x: Node?)
    reads nodes
  {
    forall n <- nodes :: InTree(nodes, n) && (n != x ==> Placed(nodes, n))
  }

  ghost predicate Tree(nodes: set<Node>)
    reads nodes
  {
    TreeBut(nodes, null)
  }

  // ---------- what an edit leaves alone ----------

  twostate predicate SameList(n: Node)
    reads n
  {
    n.firstChild == old(n.firstChild) && n.lastChild == old(n.lastChild) && n.kids == old(n.kids)
  }

  twostate predicate SamePlace(n: Node)
    reads n
  {
    n.parent == old(n.parent) && n.prev == old(n.prev) && n.next == old(n.next)
  }

  // A list whose children stay in place stays a list.
  twostate lemma ChainKept(n: Node)
    requires old(n.Chain(n.kids)) && SameList(n)
    requires forall i :: 0 <= i < |n.kids| ==> SamePlace(n.kids[i])
    ensures n.Chain(n.kids)
  {
    forall i | 0 <= i < |n.kids|
      ensures n.LinkAt(n.kids, i)
    {
      assert old(n.LinkAt(n.kids, i)) && SamePlace(n.kids[i]);
    }
  }

  // After an edit of the list of self that touched some of its children, all lists agree.
  twostate lemma OthersKept(new self: Node, nodes: set<Node>, new touched: set<Node>)
    requires self in nodes && self.Chain(self.kids) && touched <= nodes
    requires forall n <- nodes :: n == self || (old(InTree(nodes, n)) && SameList(n))
    requires forall n <- nodes :: n in touched || (SamePlace(n) && old(Placed(nodes, n)))
    requires forall i :: 0 <= i < |self.kids| ==> self.kids[i] in nodes
    requires forall t <- touched :: t in self.kids && (old(t.parent) == null || old(t.parent) == self)
    requires forall i :: 0 <= i < |old(self.kids)| && old(self.kids)[i] in nodes ==> old(self.kids)[i] in self.kids
    ensures Tree(nodes)
  {
    forall n | n in nodes
      ensures InTree(nodes, n) && Placed(nodes, n)
    {
      if n != self {
        assert old(InTree(nodes, n));
        forall i | 0 <= i < |n.kids|
          ensures SamePlace(n.kids[i])
        {
          assert old(n.LinkAt(n.kids, i));
        }
        ChainKept(n);
      }
      if n in touched {
        var i := IndexOf(self.kids, n);
        assert self.LinkAt(self.kids, i);
      } else {
        assert old(Placed(nodes, n));
      }
    }
  }

  lemma NewTree(node: Node)
    requires node.parent == null && node.firstChild == null && node.lastChild == null && node.kids == []
    ensures TreeBut({node}, node)
  {
  }

  // The nodes that go with top: itself and, as it is no ancestor of its own parent, all below it.
  ghost predicate Below(nodes: set<Node>, top: Node, gone: set<Node>)
    reads nodes
  {
    && top in gone && gone <= nodes
    && (forall n <- nodes :: n != top ==> (n in gone <==> n.parent != null && n.parent in gone))
    && (top.parent == null || top.parent !in gone)
  }

  // Without them every other list is whole.
  lemma Prune(nodes: set<Node>, self: Node, top: Node, gone: set<Node>)
    requires Tree(nodes) && self in nodes && top in nodes && top.parent == self && Below(nodes, top, gone)
    ensures self in nodes - gone
    ensures forall n <- nodes - gone :: (n == self || InTree(nodes - gone, n)) && Placed(nodes - gone, n)
    ensures forall i :: 0 <= i < |self.kids| ==> self.kids[i] in nodes && (self.kids[i] != top ==> self.kids[i] !in gone)
  {
    assert InTree(nodes, self);
    forall i | 0 <= i < |self.kids|
      ensures self.kids[i] in nodes && (self.kids[i] != top ==> self.kids[i] !in gone)
    {
      assert self.LinkAt(self.kids, i);
    }
    forall n | n in nodes - gone
      ensures (n == self || InTree(nodes - gone, n)) && Placed(nodes - gone, n)
    {
      assert InTree(nodes, n) && Placed(nodes, n);
      if n != self {
        forall i | 0 <= i < |n.kids|
          ensures n.kids[i] in nodes - gone
        {
          assert n.LinkAt(n.kids, i);
        }
      }
    }
  }

  // The nodes of another tree join them.
  lemma Widen(nodes: set<Node>, added: set<Node>, self: Node, node: Node)
    requires nodes !! added && TreeBut(added, node)
    requires forall n <- nodes :: (n == self || InTree(nodes, n)) && Placed(nodes, n)
    ensures forall n <- nodes + added :: n == self || InTree(nodes + added, n)
    ensures forall n <- nodes + added :: n != node ==> Placed(nodes + added, n)
  {
    hide Node.Chain;
    forall n | n in nodes + added
      ensures n == self || InTree(nodes + added, n)
      ensures n != node ==> Placed(nodes + added, n)
    {
      if n in added { assert InTree(added, n) && (n != node ==> Placed(added, n)); }
    }
  }

  lemma JoinTrees(nodes: set<Node>, added: set<Node>, self: Node, node: Node)
    requires Tree(nodes) && self in nodes && node in added && TreeBut(added, node) && nodes !! added
    requires node.parent == null || node.parent == self
    ensures TreeBut(nodes + added, node) && self.Chain(self.kids) && node !in self.kids
  {
    hide Node.Chain;
    forall n | n in nodes + added
      ensures InTree(nodes + added, n) && (n != node ==> Placed(nodes + added, n))
    {
      if n in nodes { assert InTree(nodes, n) && Placed(nodes, n); }
      else { assert InTree(added, n) && (n != node ==> Placed(added, n)); }
    }
    assert InTree(nodes, self);
  }

  // Linking a node twice leaves links that no list has.
  method LinkTwice() returns (self: Node)
    ensures fresh(self) && forall s :: !self.Chain(s)
  {
    self := new Node(false, "");
    var node := new Node(false, "");
    NewTree(self);
    NewTree(node);
    var r := self.LinkEndChild(node, {self}, {node});
    assert InTree({self} + {node}, self) && self.kids == [] + [node] == [node];
    assert self.LinkAt(self.kids, 0);
    r := self.LinkEndChild(node, {self} + {node}, {});
  }
}
