/** The kernel's intrusive doubly linked list with two sentinels (src/lib/list.c). */
module Lists {
  import opened Seqs

  class Node {
    var pre: Node?
    var next: Node?
    const key: int  // element_node_key

    constructor (key: int)
      ensures pre == null && next == null && this.key == key
    {
      pre, next, this.key := null, null, key;
    }
  }

  ghost predicate Linked(a: Node, b: Node)
    reads a, b
  {
    a.next == b && b.pre == a
  }

  ghost predicate Chain(s: seq<Node>)
    reads s
  {
    forall i :: 0 <= i < |s| - 1 ==> Linked(s[i], s[i + 1])
  }

  /** Where list_insert_sort puts a node: before the first one with a larger key. */
  ghost predicate IsAnchor(keys: seq<int>, key: int, p: nat) {
    p <= |keys| && (forall i :: 0 <= i < p ==> keys[i] <= key) && (p < |keys| ==> keys[p] > key)
  }

  ghost function Keys(s: seq<Node>): (k: seq<int>)
    ensures |k| == |s|
  {
    seq(|s|, i requires 0 <= i < |s| => s[i].key)
  }

  ghost predicate Sorted(s: seq<Node>) {
    forall i, j :: 0 <= i < j < |s| ==> s[i].key <= s[j].key
  }

  class List {
    const head: Node
    const tail: Node
    ghost var nodes: seq<Node>

    ghost function All(): seq<Node>
      reads this
    {
      [head] + nodes + [tail]
    }

    ghost predicate Valid()
      reads this, All(), head, tail
    {
      NoDup(All()) && Chain(All()) && head.pre == null && tail.next == null
    }

    /** list_init */
    constructor ()
      ensures Valid() && nodes == [] && fresh(head) && fresh(tail)
    {
      var h := new Node(0);
      var t := new Node(0);
      head, tail, nodes := h, t, [];
      new;
      head.next, tail.pre := tail, head;
      assert All() == [head, tail];
    }

    /** list_insert_before: `before` is node i of the list, or the tail. */
    method InsertBefore(before: Node, elem: Node, ghost i: nat)
      requires Valid() && i <= |nodes| && before == All()[i + 1] && elem !in All()
      modifies this`nodes, All(), elem
      ensures Valid() && nodes == old(nodes)[..i] + [elem] + old(nodes)[i..]
    {
      ghost var s := All();
      assert Linked(s[i], s[i + 1]);
      before.pre.next := elem;
      elem.pre := before.pre;
      elem.next := before;
      before.pre := elem;
      nodes := nodes[..i] + [elem] + nodes[i..];
      ghost var t := All();
      assert t == s[..i + 1] + [elem] + s[i + 1..];
      InsertedNoDup(s, elem, i + 1);
      forall j | 0 <= j < |t| - 1 ensures Linked(t[j], t[j + 1]) {
        if j < i {
          assert Linked(s[j], s[j + 1]);
        } else if j > i + 1 {
          assert Linked(s[j - 1], s[j]);
        }
      }
    }

    static lemma InsertedNoDup(s: seq<Node>, x: Node, p: nat)
      requires NoDup(s) && x !in s && p <= |s|
      ensures NoDup(s[..p] + [x] + s[p..])
    {
      var t := s[..p] + [x] + s[p..];
      forall i, j | 0 <= i < j < |t| ensures t[i] != t[j] {
        assert t[i] == if i < p then s[i] else if i == p then x else s[i - 1];
        assert t[j] == if j < p then s[j] else if j == p then x else s[j - 1];
      }
    }

    /** list_push */
    method Push(elem: Node)
      requires Valid() && elem !in All()
      modifies this`nodes, All(), elem
      ensures Valid() && nodes == [elem] + old(nodes)
    {
      assert Linked(All()[0], All()[1]);
      InsertBefore(head.next, elem, 0);
    }

    /** list_append */
    method Append(elem: Node)
      requires Valid() && elem !in All()
      modifies this`nodes, All(), elem
      ensures Valid() && nodes == old(nodes) + [elem]
    {
      InsertBefore(tail, elem, |nodes|);
    }

    /** list_remove of node i. */
    method Remove(elem: Node, ghost i: nat)
      requires Valid() && i < |nodes| && elem == nodes[i]
      modifies this`nodes, All()
      ensures Valid() && nodes == old(nodes)[..i] + old(nodes)[i + 1..] && elem.pre == null && elem.next == null
    {
      ghost var s := All();
      assert elem == s[i + 1] && Linked(s[i], s[i + 1]) && Linked(s[i + 1], s[i + 2]);
      assert elem.pre != null;
      assert elem.next != null;
      elem.pre.next := elem.next;
      elem.next.pre := elem.pre;
      elem.next := null;
      elem.pre := null;
      nodes := nodes[..i] + nodes[i + 1..];
      ghost var t := All();
      assert t == s[..i + 1] + s[i + 2..];
      forall j, k | 0 <= j < k < |t| ensures t[j] != t[k] {
        assert t[j] == if j <= i then s[j] else s[j + 1];
        assert t[k] == if k <= i then s[k] else s[k + 1];
      }
      forall j | 0 <= j < |t| - 1 ensures Linked(t[j], t[j + 1]) {
        if j < i {
          assert Linked(s[j], s[j + 1]);
        } else if j > i {
          assert Linked(s[j + 1], s[j + 2]);
        }
      }
    }

    /** list_pop */
    method Pop() returns (elem: Node)
      requires Valid() && nodes != []
      modifies this`nodes, All()
      ensures Valid() && elem == old(nodes)[0] && nodes == old(nodes)[1..] && elem.pre == null && elem.next == null
    {
      assert Linked(All()[0], All()[1]);
      elem := head.next;
      Remove(elem, 0);
    }

    /** list_pop_back */
    method PopBack() returns (elem: Node)
      requires Valid() && nodes != []
      modifies this`nodes, All()
      ensures Valid() && elem == old(nodes)[|old(nodes)| - 1] && nodes == old(nodes)[..|old(nodes)| - 1]
      ensures elem.pre == null && elem.next == null
    {
      assert Linked(All()[|nodes|], All()[|nodes| + 1]);
      elem := tail.pre;
      Remove(elem, |nodes| - 1);
    }

    /** list_empty */
    method Empty() returns (empty: bool)
      requires Valid()
      ensures empty <==> nodes == []
    {
      assert Linked(All()[0], All()[1]) && All()[|nodes| + 1] == tail;
      empty := head.next == tail;
    }

    /** elem_find */
    method Find(obj: Node) returns (found: bool)
      requires Valid()
      ensures found <==> obj in nodes
    {
      assert Linked(All()[0], All()[1]);
      var elem := head.next;
      ghost var i := 0;
      while elem != tail
        invariant 0 <= i <= |nodes| && elem == All()[i + 1] && forall j :: 0 <= j < i ==> nodes[j] != obj
        decreases |nodes| - i
      {
        assert elem == nodes[i] && Linked(All()[i + 1], All()[i + 2]);
        if elem == obj {
          return true;
        }
        elem := elem.next;
        i := i + 1;
      }
      assert All()[i + 1] == All()[|nodes| + 1];
      found := false;
    }

    /** list_len */
    method Len() returns (length: nat)
      requires Valid()
      ensures length == |nodes|
    {
      assert Linked(All()[0], All()[1]);
      var elem := head.next;
      length := 0;
      while elem != tail
        invariant length <= |nodes| && elem == All()[length + 1]
        decreases |nodes| - length
      {
        assert elem == nodes[length] && Linked(All()[length + 1], All()[length + 2]);
        length := length + 1;
        elem := elem.next;
      }
      assert All()[length + 1] == All()[|nodes| + 1];
    }

    /** list_insert_sort: a sorted list stays sorted, and the node comes after those of its own key. */
    method InsertSort(node: Node) returns (ghost p: nat)
      requires Valid() && node !in All() && node.pre == null && node.next == null
      modifies this`nodes, All(), node
      ensures Valid() && IsAnchor(Keys(old(nodes)), node.key, p) && nodes == old(nodes)[..p] + [node] + old(nodes)[p..]
      ensures old(Sorted(nodes)) ==> Sorted(nodes)
    {
      var anchor := tail;
      assert Linked(All()[0], All()[1]);
      var ptr := head.next;
      p := 0;
      while ptr != tail
        invariant 0 <= p <= |nodes| && ptr == All()[p + 1] && anchor == tail && forall j :: 0 <= j < p ==> nodes[j].key <= node.key
        decreases |nodes| - p
      {
        assert ptr == nodes[p] && Linked(All()[p + 1], All()[p + 2]);
        if ptr.key > node.key {
          anchor := ptr;
          break;
        }
        ptr := ptr.next;
        p := p + 1;
      }
      assert ptr == tail ==> All()[p + 1] == All()[|nodes| + 1];
      InsertedIsSorted(nodes, node, p);
      InsertBefore(anchor, node, p);
    }

    static lemma InsertedIsSorted(s: seq<Node>, x: Node, p: nat)
      requires IsAnchor(Keys(s), x.key, p)
      ensures Sorted(s) ==> Sorted(s[..p] + [x] + s[p..])
    {
      var t := s[..p] + [x] + s[p..];
      assert forall i :: 0 <= i < |s| ==> Keys(s)[i] == s[i].key;
      if Sorted(s) {
        forall i, j | 0 <= i < j < |t| ensures t[i].key <= t[j].key {
          assert t[i] == if i < p then s[i] else if i == p then x else s[i - 1];
          assert t[j] == if j < p then s[j] else if j == p then x else s[j - 1];
        }
      }
    }
  }
}
