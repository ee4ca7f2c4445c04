/** Items on the heap: the doubly linked list of an item's children, edited in place, and the copy of a whole
    tree of items. */
module JsonItems {
  import opened JsonText
  import opened JsonGrammar

  datatype Kind = NullItem | FalseItem | TrueItem | NumberItem | StringItem | ArrayItem | ObjectItem

  class Item {
    var prev: Item?
    var next: Item?
    var child: Item?
    var kind: Kind
    /** The text of a string or a number. */
    var valueString: Bytes
    /** The key, if the item is a member of an object. */
    var name: Bytes
    /** The children, in order. */
    ghost var children: seq<Item>
    /** The item and all items below it. */
    ghost var repr: set<Item>

    constructor (kind: Kind, valueString: Bytes, name: Bytes)
      ensures TreeValid() && children == [] && Loose() && repr == {this}
      ensures this.kind == kind && this.valueString == valueString && this.name == name
    {
      this.kind, this.valueString, this.name := kind, valueString, name;
      prev, next, child, children, repr := null, null, null, [], {this};
    }

    /** Nothing below the item is shared between its children. */
    ghost predicate Branches()
      reads this`repr, this`child, this`children, children`repr, children`prev, children`next
    {
      && this in repr
      && (forall c :: c in children ==> c in c.repr && this !in c.repr && c.repr <= repr)
      && (forall i, j :: 0 <= i < j < |children| ==> children[i].repr !! children[j].repr)
      && Valid()
    }

    /** The item is the root of a tree. */
    ghost predicate TreeValid()
      reads this`repr, this`child, this`children, repr`child, repr`children, repr`repr
      reads (repr - {this})`prev, (repr - {this})`next
      decreases repr
    {
      && this in repr
      && (forall c :: c in children ==> c in repr && c != this && this !in c.repr && c.repr <= repr)
      && Branches()
      && (forall c :: c in children ==> c.TreeValid())
    }

    lemma TreeParts()
      requires TreeValid()
      ensures Branches() && forall c :: c in children ==> c.TreeValid()
    {
    }

    lemma TreeWhole()
      requires Branches() && forall c :: c in children ==> c.TreeValid()
      ensures TreeValid()
    {
    }

    /** The tree that the item is the root of. */
    ghost function Tree(): Json
      requires TreeValid()
      reads this`repr, this`child, this`children, repr`child, repr`children, repr`repr
      reads (repr - {this})`prev, (repr - {this})`next
      reads this`kind, this`valueString, repr`kind, repr`valueString, repr`name
      decreases repr, |children| + 1
    {
      match kind
      case NullItem => Null
      case FalseItem => False
      case TrueItem => True
      case NumberItem => Number(valueString)
      case StringItem => String(valueString)
      case ArrayItem => Array(Trees(|children|))
      case ObjectItem => Object(Members(|children|))
    }

    ghost function Trees(k: nat): (r: seq<Json>)
      requires TreeValid() && k <= |children|
      ensures |r| == k
      reads this`repr, this`child, this`children, repr`child, repr`children, repr`repr
      reads (repr - {this})`prev, (repr - {this})`next
      reads this`kind, this`valueString, repr`kind, repr`valueString, repr`name
      decreases repr, k
    {
      if k == 0 then [] else Trees(k - 1) + [children[k - 1].Tree()]
    }

    ghost function Members(k: nat): (r: seq<Member>)
      requires TreeValid() && k <= |children|
      ensures |r| == k
      reads this`repr, this`child, this`children, repr`child, repr`children, repr`repr
      reads (repr - {this})`prev, (repr - {this})`next
      reads this`kind, this`valueString, repr`kind, repr`valueString, repr`name
      decreases repr, k
    {
      if k == 0 then [] else Members(k - 1) + [Member(children[k - 1].name, children[k - 1].Tree())]
    }

    /** The nodes of a child do not reach into its siblings. */
    lemma Apart(c: Item, d: Item)
      requires Branches() && c in children && d in children && c != d
      ensures d !in c.repr
    {
      var i :| 0 <= i < |children| && children[i] == c;
      var j :| 0 <= j < |children| && children[j] == d;
      assert i < j || j < i;
    }

    /** Link a copied child behind the last one. */
    method Attach(last: Item?, newChild: Item)
      requires Branches() && last == Link(children, |children| - 1)
      requires newChild in newChild.repr && newChild.Loose() && newChild.repr !! repr
      modifies this`child, this`children, this`repr, newChild`prev, (if last == null then {} else {last})`next
      ensures Branches() && children == old(children) + [newChild] && repr == old(repr) + newChild.repr
    {
      if last != null {
        last.next := newChild;
        newChild.prev := last;
      } else {
        child := newChild;
      }
      children := children + [newChild];
      repr := repr + newChild.repr;
      forall k | 0 <= k < |children|
        ensures Linked(children, k)
      {
        assert k < |old(children)| ==> old(Linked(children, k));
      }
    }

    lemma LastApart(last: Item?)
      requires Branches() && last == Link(children, |children| - 1)
      ensures forall c :: c in children && c != last ==> last !in c.repr
    {
      forall c | c in children && c != last
        ensures last !in c.repr
      {
        Apart(c, last);
      }
    }

    /** The children do not reach back to the item, nor to what is not below it. */
    lemma Below(other: Item)
      requires Branches() && other !in repr
      ensures forall c :: c in children ==> this !in c.repr && other !in c.repr
    {
    }

    /** A tree stays what it is if its items do, whatever happens to the links of its root. */
    twostate lemma TreeKept()
      requires old(TreeValid()) && forall x :: x in old(repr) && x != this ==> unchanged(x)
      requires unchanged(this`child) && unchanged(this`children) && unchanged(this`repr)
      requires unchanged(this`kind) && unchanged(this`valueString) && unchanged(this`name)
      ensures TreeValid() && Tree() == old(Tree()) && name == old(name)
      ensures Trees(|children|) == old(Trees(|children|)) && Members(|children|) == old(Members(|children|))
    {
      hide TreeValid, Tree, Trees, Members;
    }

    /** The copies below do not change as another one is linked behind them. */
    method AttachTree(last: Item?, newChild: Item)
      requires TreeValid() && last == Link(children, |children| - 1)
      requires newChild.TreeValid() && newChild.Loose() && newChild.repr !! repr
      modifies this`child, this`children, this`repr, newChild`prev, (if last == null then {} else {last})`next
      ensures TreeValid() && children == old(children) + [newChild] && repr == old(repr) + newChild.repr
      ensures Trees(|children|) == old(Trees(|children|)) + [old(newChild.Tree())]
      ensures Members(|children|) == old(Members(|children|)) + [Member(newChild.name, old(newChild.Tree()))]
    {
      TreeParts();
      newChild.TreeParts();
      LastApart(last);
      Below(newChild);
      hide TreeValid, Branches, Tree, Trees, Members, Valid, Linked, Link;
      Attach(last, newChild);
      forall c | c in old(children)
        ensures c.TreeValid() && c.Tree() == old(c.Tree()) && c.name == old(c.name)
      {
        c.TreeKept();
      }
      newChild.TreeKept();
      TreeWhole();
      TreesKept(|old(children)|);
      TreesNext(|old(children)|);
    }

    lemma TreesNext(k: nat)
      requires TreeValid() && k < |children|
      ensures children[k].TreeValid() && Trees(k + 1) == Trees(k) + [children[k].Tree()]
      ensures Members(k + 1) == Members(k) + [Member(children[k].name, children[k].Tree())]
    {
      hide Tree;
    }

    twostate lemma {:induction false} TreesKept(k: nat)
      requires old(TreeValid()) && TreeValid() && k <= |old(children)| <= |children|
      requires children[..|old(children)|] == old(children)
      requires forall c :: c in old(children) ==>
                 c.TreeValid() && old(c.TreeValid()) && c.Tree() == old(c.Tree()) && c.name == old(c.name)
      ensures Trees(k) == old(Trees(k)) && Members(k) == old(Members(k))
    {
      hide TreeValid, Tree;
      if k > 0 {
        TreesKept(k - 1);
        assert children[k - 1] == children[..|old(children)|][k - 1] == old(children[k - 1]);
        assert children[k - 1] in old(children);
      }
    }

    /** Copy the tree below this child and link it behind the last copied one. */
    method CopyInto(copy: Item, last: Item?) returns (newChild: Item)
      requires TreeValid() && copy.TreeValid() && copy.Loose() && last == Link(copy.children, |copy.children| - 1)
      modifies copy`child, copy`children, copy`repr, (if last == null then {} else {last})`next
      ensures copy.TreeValid() && copy.Loose() && copy.children == old(copy.children) + [newChild]
      ensures fresh(copy.repr - old(copy.repr))
      ensures copy.Trees(|copy.children|) == old(copy.Trees(|copy.children|)) + [old(Tree())]
      ensures copy.Members(|copy.children|) == old(copy.Members(|copy.children|)) + [Member(old(name), old(Tree()))]
      decreases repr, 2
    {
      NotItsChild(copy, last);
      hide TreeValid, Branches, Tree, Trees, Members;
      newChild := Duplicate();
      copy.TreeKept();
      copy.AttachTree(last, newChild);
    }

    lemma TreeFrom(item: Item)
      requires item.TreeValid()
      ensures item.Tree() == match item.kind
                             case NullItem => Null
                             case FalseItem => False
                             case TrueItem => True
                             case NumberItem => Number(item.valueString)
                             case StringItem => String(item.valueString)
                             case ArrayItem => Array(item.Trees(|item.children|))
                             case ObjectItem => Object(item.Members(|item.children|))
    {
    }

    lemma NotItsChild(item: Item, last: Item?)
      requires item.TreeValid() && last == Link(item.children, |item.children| - 1)
      ensures last != item && (last != null ==> last in item.repr)
    {
    }

    /** Copy a whole tree. */
    method Duplicate() returns (copy: Item)
      requires TreeValid()
      ensures fresh(copy.repr) && copy.TreeValid() && copy.Loose()
      ensures copy.Tree() == Tree() && copy.name == name
      decreases repr, 1
    {
      hide TreeValid, Branches, Tree, Trees, Members, Valid;
      TreeFrom(this);
      copy := new Item(kind, valueString, name);
      DuplicateChildren(copy);
      TreeFrom(copy);
    }

    /** Walk along the children and link their copies below `copy`. */
    method DuplicateChildren(copy: Item)
      requires TreeValid() && copy.TreeValid() && copy.Loose() && copy.children == [] && copy.repr == {copy}
      requires copy !in repr
      modifies copy`child, copy`children, copy`repr
      ensures copy.TreeValid() && copy.Loose() && fresh(copy.repr - {copy})
      ensures |copy.children| == |children|
      ensures copy.Trees(|children|) == old(Trees(|children|)) && copy.Members(|children|) == old(Members(|children|))
      decreases repr, 0
    {
      hide TreeValid, Branches, Tree, Trees, Members, Valid, Linked, Loose;
      ghost var trees, members := Trees(|children|), Members(|children|);
      NoChildren(copy);
      FirstChild();
      var item := child;
      var last: Item? := null;
      ghost var i := 0;
      while item != null
        invariant i <= |children| && item == Link(children, i)
        invariant TreeValid() && trees == Trees(|children|) && members == Members(|children|)
        invariant fresh(copy.repr - {copy}) && copy.TreeValid() && copy.Loose()
        invariant |copy.children| == i && last == Link(copy.children, i - 1)
        invariant copy.Trees(i) == trees[..i] && copy.Members(i) == members[..i]
        decreases |children| - i
      {
        ChildFacts(i);
        NotItsChild(copy, last);
        last := item.CopyInto(copy, last);
        assert trees[..i + 1] == trees[..i] + [trees[i]] && members[..i + 1] == members[..i] + [members[i]];
        item := item.next;
        i := i + 1;
      }
      assert trees[..i] == trees && members[..i] == members;
    }

    lemma NoChildren(copy: Item)
      requires copy.TreeValid()
      ensures copy.Trees(0) == [] && copy.Members(0) == []
    {
    }

    lemma FirstChild()
      requires TreeValid()
      ensures child == Link(children, 0)
    {
    }

    lemma ChildFacts(i: nat)
      requires TreeValid() && i < |children|
      ensures var c := children[i];
        && c.TreeValid() && c.repr < repr && c.next == Link(children, i + 1)
        && Trees(|children|)[i] == c.Tree() && Members(|children|)[i] == Member(c.name, c.Tree())
    {
      TreesAt(|children|);
      assert Linked(children, i) && children[i] in children;
    }

    /** The trees of the children, one by one. */
    lemma {:induction false} TreesAt(k: nat)
      requires TreeValid() && k <= |children|
      ensures forall j :: 0 <= j < k ==> children[j].TreeValid() && Trees(k)[j] == children[j].Tree()
      ensures forall j :: 0 <= j < k ==> Members(k)[j] == Member(children[j].name, children[j].Tree())
    {
      hide Tree;
      if k > 0 { TreesAt(k - 1); }
    }

    /** The item is in no list. */
    ghost predicate Loose()
      reads this`prev, this`next
    {
      prev == null && next == null
    }

    /** `next` and `prev` lead along the children, there and back. */
    ghost predicate Valid()
      reads this`child, this`children, children`prev, children`next
    {
      && (forall i, j :: 0 <= i < j < |children| ==> children[i] != children[j])
      && child == Link(children, 0)
      && (forall i :: 0 <= i < |children| ==> Linked(children, i))
    }

    /** Walk along the list; null behind its end. */
    method GetArrayItem(index: nat) returns (item: Item?)
      requires Valid()
      ensures item == Link(children, index)
    {
      item := child;
      var i := index;
      while item != null && i > 0
        invariant 0 <= i <= index && item == Link(children, index - i)
        invariant index - i <= |children|
      {
        assert Linked(children, index - i);
        i := i - 1;
        item := item.next;
      }
    }

    method GetArraySize() returns (size: nat)
      requires Valid()
      ensures size == |children|
    {
      var item := child;
      size := 0;
      while item != null
        invariant size <= |children| && item == Link(children, size)
        decreases |children| - size
      {
        assert Linked(children, size);
        size := size + 1;
        item := item.next;
      }
    }

    /** Append an item. */
    method AddItemToArray(item: Item)
      requires Valid() && item !in children && item.Loose()
      modifies this`child, this`children, item`prev, children`next
      ensures Valid() && children == old(children) + [item]
    {
      if child == null {
        child := item;
      } else {
        var last := child;
        ghost var i := 0;
        while last.next != null
          invariant i < |children| && last == children[i]
          decreases |children| - i
        {
          assert Linked(children, i);
          i := i + 1;
          last := last.next;
        }
        assert Linked(children, i);
        SuffixObject(last, item);
      }
      children := children + [item];
      forall k | 0 <= k < |children|
        ensures Linked(children, k)
      {
        assert k < |old(children)| ==> old(Linked(children, k));
      }
    }

    /** Take an item out of the list. */
    method DetachItemViaPointer(item: Item, ghost at: nat)
      requires Valid() && at < |children| && item == children[at]
      modifies this`child, this`children, children`prev, children`next
      ensures Valid() && item.Loose() && children == old(children[..at] + children[at + 1..])
    {
      assert Linked(children, at);
      assert at > 0 ==> Linked(children, at - 1);
      Unlink(item);
      children := children[..at] + children[at + 1..];
      forall k | 0 <= k < |children|
        ensures Linked(children, k)
      {
        assert k < at ==> old(Linked(children, k));
        assert k >= at ==> old(Linked(children, k + 1));
      }
    }

    /** Link the neighbours of an item to each other. */
    method Unlink(item: Item)
      requires item.prev != item && item.next != item && (item.prev != null ==> item.prev != item.next)
      modifies this`child, item`prev, item`next
      modifies (if item.prev == null then {} else {item.prev})`next
      modifies (if item.next == null then {} else {item.next})`prev
      ensures item.Loose() && child == if old(child) == item then old(item.next) else old(child)
      ensures old(item.prev) != null ==> old(item.prev).next == old(item.next)
      ensures old(item.next) != null ==> old(item.next).prev == old(item.prev)
    {
      if item.prev != null {
        item.prev.next := item.next;
      }
      if item.next != null {
        item.next.prev := item.prev;
      }
      if item == child {
        child := item.next;
      }
      item.prev := null;
      item.next := null;
    }

    /** Take out the item at a position, if there is one. */
    method DetachItemFromArray(which: int) returns (item: Item?)
      requires Valid()
      modifies this`child, this`children, children`prev, children`next
      ensures Valid()
      ensures 0 <= which < |old(children)| ==>
                && item == old(children[which]) && item.Loose()
                && children == old(children[..which] + children[which + 1..])
      ensures !(0 <= which < |old(children)|) ==> item == null && children == old(children)
    {
      if which < 0 {
        return null;
      }
      item := GetArrayItem(which);
      if item == null {
        return;
      }
      DetachItemViaPointer(item, which);
    }

    /** Insert an item before the one at a position, or behind the last one. */
    method InsertItemInArray(which: int, newItem: Item)
      requires Valid() && newItem !in children && newItem.Loose()
      modifies this`child, this`children, newItem`prev, newItem`next, children`prev, children`next
      ensures Valid()
      ensures which < 0 ==> children == old(children)
      ensures 0 <= which < |old(children)| ==> children == old(children[..which]) + [newItem] + old(children[which..])
      ensures which >= |old(children)| ==> children == old(children) + [newItem]
    {
      if which < 0 {
        return;
      }
      var after := GetArrayItem(which);
      if after == null {
        AddItemToArray(newItem);
        return;
      }
      InsertBefore(which, after, newItem);
    }

    /** Put the item before the one at a position. */
    method InsertBefore(which: nat, after: Item, newItem: Item)
      requires Valid() && newItem !in children && newItem.Loose() && which < |children| && children[which] == after
      modifies this`child, this`children, newItem`prev, newItem`next, children`prev, children`next
      ensures Valid() && children == old(children[..which]) + [newItem] + old(children[which..])
    {
      assert Linked(children, which);
      PlaceBefore(after, newItem);
      children := children[..which] + [newItem] + children[which..];
      forall k | 0 <= k < |children|
        ensures Linked(children, k)
      {
        assert k < which ==> old(Linked(children, k));
        assert k > which ==> old(Linked(children, k - 1));
      }
    }

    /** Set the links for an item before another one. */
    method PlaceBefore(after: Item, newItem: Item)
      requires newItem != after && after.prev != newItem && (child != after ==> after.prev != null)
      modifies this`child, newItem`prev, newItem`next, after`prev
      modifies (if after.prev == null then {} else {after.prev})`next
      ensures newItem.next == after && newItem.prev == old(after.prev) && after.prev == newItem
      ensures child == if old(child) == after then newItem else old(child)
      ensures old(child) != after ==> old(after.prev).next == newItem
      ensures old(child) == after && old(after.prev) != null ==> old(after.prev).next == old(after.prev.next)
    {
      newItem.next := after;
      newItem.prev := after.prev;
      after.prev := newItem;
      if after == child {
        child := newItem;
      } else {
        newItem.prev.next := newItem;
      }
    }

    /** Put another item in the place of one. */
    method ReplaceItemViaPointer(item: Item, replacement: Item, ghost at: nat)
      requires Valid() && at < |children| && item == children[at]
      requires replacement == item || replacement !in children
      modifies this`child, this`children, replacement`prev, replacement`next, children`prev, children`next
      ensures Valid() && children == old(children)[at := replacement]
      ensures replacement != item ==> item.Loose()
    {
      if replacement == item {
        return;
      }
      assert Linked(children, at);
      assert at > 0 ==> Linked(children, at - 1);
      TakePlace(item, replacement);
      children := children[at := replacement];
      forall k | 0 <= k < |children|
        ensures Linked(children, k)
      {
        assert old(Linked(children, k));
      }
    }

    /** Hand the links of one item over to another. */
    method TakePlace(item: Item, replacement: Item)
      requires item != replacement && item.prev != item && item.next != item
      requires item.prev != null ==> item.prev != item.next
      requires item.prev != replacement && item.next != replacement
      modifies this`child, replacement`prev, replacement`next, item`prev, item`next
      modifies (if item.prev == null then {} else {item.prev})`next
      modifies (if item.next == null then {} else {item.next})`prev
      ensures replacement.prev == old(item.prev) && replacement.next == old(item.next) && item.Loose()
      ensures child == if old(child) == item then replacement else old(child)
      ensures old(item.prev) != null ==> old(item.prev).next == replacement
      ensures old(item.next) != null ==> old(item.next).prev == replacement
    {
      replacement.next := item.next;
      replacement.prev := item.prev;
      if replacement.next != null {
        replacement.next.prev := replacement;
      }
      if replacement.prev != null {
        replacement.prev.next := replacement;
      }
      if child == item {
        child := replacement;
      }
      item.next := null;
      item.prev := null;
    }
  }

  /** The child at a position, or null behind the last one. */
  function Link(items: seq<Item>, i: int): Item? {
    if 0 <= i < |items| then items[i] else null
  }

  ghost predicate Linked(items: seq<Item>, i: nat)
    requires i < |items|
    reads {items[i]}`prev, {items[i]}`next
  {
    items[i].prev == Link(items, i - 1) && items[i].next == Link(items, i + 1)
  }

  method SuffixObject(prev: Item, item: Item)
    modifies prev`next, item`prev
    ensures prev.next == item && item.prev == prev
  {
    prev.next := item;
    item.prev := prev;
  }
}
