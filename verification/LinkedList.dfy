// LinkedList.c: a doubly linked list with a cached current element, and the loop of MQTTClient.c
// that removes completed writes while it walks the list.
module LinkedLists {

  // ---------------------------------------------------------------------------------------
  // Sequences

  function Without<X>(s: seq<X>, k: nat): seq<X>
    requires k < |s|
  {
    s[..k] + s[k + 1..]
  }

  lemma WithoutKeeps<X>(s: seq<X>, k: nat)
    requires k < |s|
    ensures |Without(s, k)| == |s| - 1
    ensures forall i :: 0 <= i < |s| - 1 ==> Without(s, k)[i] in s
  {
  }

  // The position of an element.
  function IndexOf<X(==)>(s: seq<X>, x: X): (k: nat)
    requires x in s
    ensures k < |s| && s[k] == x
    ensures forall j :: 0 <= j < k ==> s[j] != x
  {
    if s[0] == x then 0 else 1 + IndexOf(s[1..], x)
  }

  // The first position that satisfies p, or the length if there is none.
  function FirstMatch<X>(s: seq<X>, p: X -> bool): (k: nat)
    ensures k <= |s|
    ensures k < |s| ==> p(s[k])
    ensures forall j :: 0 <= j < k ==> !p(s[j])
  {
    if s == [] then 0 else if p(s[0]) then 0 else 1 + FirstMatch(s[1..], p)
  }

  function Filter<X>(s: seq<X>, p: X -> bool): (r: seq<X>)
    ensures forall x <- r :: x in s && p(x)
    ensures |r| <= |s|
  {
    if s == [] then []
    else Filter(s[..|s| - 1], p) + if p(s[|s| - 1]) then [s[|s| - 1]] else []
  }

  lemma FilterNothing<X>(p: X -> bool)
    ensures Filter([], p) == []
  {
  }

  lemma FilterStep<X>(s: seq<X>, k: nat, p: X -> bool)
    requires k < |s|
    ensures Filter(s[..k + 1], p) == Filter(s[..k], p) + if p(s[k]) then [s[k]] else []
  {
    assert s[..k + 1][..k] == s[..k];
  }

  lemma DropOne<X>(f: seq<X>, s: seq<X>, k: nat)
    requires k < |s|
    ensures Without(f + s[k..], |f|) == f + s[k + 1..]
    ensures f + s[k..] == (f + [s[k]]) + s[k + 1..]
  {
  }

  // ---------------------------------------------------------------------------------------
  // The list

  class ListElement<T> {
    var content: T
    var next: ListElement?<T>
    var prev: ListElement?<T>

    constructor (content: T)
      ensures this.content == content
    {
      this.content := content;
      next, prev := null, null;
    }
  }

  class List<T> {
    var first: ListElement?<T>
    var last: ListElement?<T>
    var current: ListElement?<T>
    var count: int

    // The elements in order.
    ghost var Nodes: seq<ListElement<T>>

    // Neighbours point at each other and the ends point at nothing.
    static lemma Position(nodes: seq<ListElement<T>>, k: nat)
      requires Linked(nodes) && k < |nodes|
      ensures IndexOf(nodes, nodes[k]) == k
    {
    }

    static ghost predicate Linked(nodes: seq<ListElement<T>>)
      reads nodes
    {
      && (forall i, j :: 0 <= i < j < |nodes| ==> nodes[i] != nodes[j])
      && (forall i {:trigger nodes[i].prev} :: 0 < i < |nodes| ==> nodes[i].prev == nodes[i - 1])
      && (forall i {:trigger nodes[i].next} :: 0 <= i < |nodes| - 1 ==> nodes[i].next == nodes[i + 1])
      && (|nodes| > 0 ==> nodes[0].prev == null && nodes[|nodes| - 1].next == null)
    }

    // The element at a position, null outside the list.
    ghost function NodeAt(i: int): ListElement?<T>
      reads this
    {
      if 0 <= i < |Nodes| then Nodes[i] else null
    }

    ghost predicate Valid()
      reads this, Nodes
    {
      && Linked(Nodes)
      && first == (if |Nodes| == 0 then null else Nodes[0])
      && last == (if |Nodes| == 0 then null else Nodes[|Nodes| - 1])
      && count == |Nodes|
      && (current == null || current in Nodes)
    }

    ghost function Contents(): (c: seq<T>)
      reads this, Nodes
      ensures |c| == |Nodes|
    {
      ContentsOf(Nodes)
    }

    static ghost function ContentsOf(nodes: seq<ListElement<T>>): (c: seq<T>)
      reads nodes
      ensures |c| == |nodes|
    {
      seq(|nodes|, i requires 0 <= i < |nodes| reads nodes => nodes[i].content)
    }

    constructor ()
      ensures Valid() && Contents() == [] && current == null
    {
      first, last, current := null, null, null;
      count := 0;
      Nodes := [];
    }

    method AppendNoMalloc(content: T, newel: ListElement<T>)
      requires Valid() && newel !in Nodes
      modifies this, Nodes, newel
      ensures Valid() && current == old(current)
      ensures Nodes == old(Nodes) + [newel]
      ensures Contents() == old(Contents()) + [content]
    {
      newel.content := content;
      newel.next := null;
      newel.prev := last;
      if first == null {
        first := newel;
      } else {
        last.next := newel;
      }
      last := newel;
      count := count + 1;
      Nodes := Nodes + [newel];
    }

    method Append(content: T)
      requires Valid()
      modifies this, Nodes
      ensures Valid() && current == old(current)
      ensures exists e :: fresh(e) && Nodes == old(Nodes) + [e]
      ensures Contents() == old(Contents()) + [content]
    {
      var newel := new ListElement(content);
      AppendNoMalloc(content, newel);
    }

    // Before the element given, or at the end when there is none.
    method Insert(content: T, index: ListElement?<T>)
      requires Valid() && (index == null || index in Nodes)
      modifies this, Nodes
      ensures Valid() && current == old(current)
      ensures index == null ==> Contents() == old(Contents()) + [content]
      ensures index != null ==>
        var k := IndexOf(old(Nodes), index);
        Contents() == old(Contents())[..k] + [content] + old(Contents())[k..]
    {
      hide Linked, IndexOf, ContentsOf;
      var newel := new ListElement(content);
      if index == null {
        AppendNoMalloc(content, newel);
      } else {
        InsertAt(newel, index, IndexOf(Nodes, index));
      }
    }

    static lemma ContentsInsert(nodes: seq<ListElement<T>>, e: ListElement<T>, k: nat)
      requires k <= |nodes|
      ensures ContentsOf(nodes[..k] + [e] + nodes[k..]) == ContentsOf(nodes)[..k] + [e.content] + ContentsOf(nodes)[k..]
    {
    }

    static lemma StillIn(nodes: seq<ListElement<T>>, newel: ListElement<T>, k: nat, e: ListElement?<T>)
      requires k <= |nodes|
      ensures e != null && e in nodes ==> e in nodes[..k] + [newel] + nodes[k..]
    {
      if e != null && e in nodes {
        var c := IndexOf(nodes, e);
        assert (nodes[..k] + [newel] + nodes[k..])[if c < k then c else c + 1] == e;
      }
    }

    static lemma Spliced(nodes: seq<ListElement<T>>, newel: ListElement<T>, k: nat)
      requires k < |nodes| && newel !in nodes
      requires forall i, j :: 0 <= i < j < |nodes| ==> nodes[i] != nodes[j]
      requires forall i {:trigger nodes[i].prev} :: 0 < i < |nodes| && i != k ==> nodes[i].prev == nodes[i - 1]
      requires forall i {:trigger nodes[i].next} :: 0 <= i < |nodes| - 1 && i != k - 1 ==> nodes[i].next == nodes[i + 1]
      requires nodes[k].prev == newel && newel.next == nodes[k] && nodes[|nodes| - 1].next == null
      requires k > 0 ==> nodes[0].prev == null && nodes[k - 1].next == newel && newel.prev == nodes[k - 1]
      requires k == 0 ==> newel.prev == null
      ensures Linked(nodes[..k] + [newel] + nodes[k..])
    {
      var n := nodes[..k] + [newel] + nodes[k..];
      assert forall i :: 0 <= i < k ==> n[i] == nodes[i];
      assert forall i :: k < i < |n| ==> n[i] == nodes[i - 1];
    }

    method InsertBefore(newel: ListElement<T>, index: ListElement<T>, ghost k: int)
      requires Valid() && newel !in Nodes && 0 <= k < |Nodes| && index == Nodes[k]
      modifies this`first, this`count, this`Nodes, Nodes`next, Nodes`prev, newel`next, newel`prev
      ensures Valid()
      ensures Nodes == old(Nodes)[..k] + [newel] + old(Nodes)[k..]
    {
      hide IndexOf;
      assert index.prev == NodeAt(k - 1);
      newel.next := index;
      newel.prev := index.prev;
      index.prev := newel;
      if newel.prev != null {
        newel.prev.next := newel;
      } else {
        first := newel;
      }
      count := count + 1;
      ghost var nodes := Nodes;
      Spliced(nodes, newel, k);
      hide Linked;
      Nodes := Nodes[..k] + [newel] + Nodes[k..];
      StillIn(nodes, newel, k, current);
    }

    method InsertAt(newel: ListElement<T>, index: ListElement<T>, ghost k: int)
      requires Valid() && newel !in Nodes && 0 <= k < |Nodes| && index == Nodes[k]
      modifies this`first, this`count, this`Nodes, Nodes`next, Nodes`prev, newel`next, newel`prev
      ensures Valid()
      ensures Contents() == old(Contents())[..k] + [newel.content] + old(Contents())[k..]
    {
      hide Linked;
      ghost var nodes, contents := Nodes, Contents();
      InsertBefore(newel, index, k);
      assert ContentsOf(nodes) == contents;
      ContentsInsert(nodes, newel, k);
    }

    method NextElement(pos: ListElement?<T>) returns (e: ListElement?<T>)
      requires Valid() && (pos == null || pos in Nodes)
      ensures e == if pos == null then NodeAt(0) else NodeAt(IndexOf(Nodes, pos) + 1)
    {
      e := if pos == null then first else pos.next;
    }

    method PrevElement(pos: ListElement?<T>) returns (e: ListElement?<T>)
      requires Valid() && (pos == null || pos in Nodes)
      ensures e == if pos == null then NodeAt(|Nodes| - 1) else NodeAt(IndexOf(Nodes, pos) - 1)
    {
      e := if pos == null then last else pos.prev;
    }

    // The position that a search settles on: the current element if it matches, else the first
    // that does, else the length of the list.
    ghost function Target(p: T -> bool): (k: nat)
      requires Valid()
      reads this, Nodes
      ensures k <= |Nodes|
      ensures k < |Nodes| ==> p(Contents()[k])
      ensures k == |Nodes| ==> forall x <- Contents() :: !p(x)
    {
      if current != null && p(current.content) then IndexOf(Nodes, current)
      else FirstMatch(Contents(), p)
    }

    method FindItem(p: T -> bool) returns (rc: ListElement?<T>)
      requires Valid()
      modifies this`current
      ensures Valid()
      ensures rc == NodeAt(old(Target(p)))
      ensures current == if rc == null then old(current) else rc
    {
      rc := null;
      if current != null && p(current.content) {
        rc := current;
      } else {
        ghost var k;
        rc, k := Search(p);
        if rc != null {
          current := rc;
        }
      }
    }

    // The first element that matches.
    method Search(p: T -> bool) returns (rc: ListElement?<T>, ghost k: nat)
      requires Valid()
      ensures k == FirstMatch(Contents(), p) && rc == NodeAt(k)
    {
      hide IndexOf, FirstMatch;
      rc := null;
      k := 0;
      var e := NextElement(null);
      while e != null
        invariant 0 <= k <= |Nodes| && e == NodeAt(k) && rc == null
        invariant k <= FirstMatch(Contents(), p)
        decreases |Nodes| - k
      {
        assert Contents()[k] == e.content;
        if p(e.content) {
          rc := e;
          break;
        }
        Position(Nodes, k);
        e := NextElement(e);
        k := k + 1;
      }
    }

    // One matching element goes. The current element moves to the successor if it was the one.
    method Unlink(p: T -> bool) returns (removed: bool)
      requires Valid()
      modifies this, Nodes
      ensures Valid()
      ensures removed == exists x <- old(Contents()) :: p(x)
      ensures !removed ==> Nodes == old(Nodes) && current == old(current)
      ensures !removed ==> Contents() == old(Contents())
      ensures removed ==> Nodes == Without(old(Nodes), old(Target(p)))
      ensures removed ==> Contents() == Without(old(Contents()), old(Target(p)))
      ensures removed && old(current) != old(NodeAt(Target(p))) ==> current == old(current)
      ensures removed && old(current) == old(NodeAt(Target(p))) ==> current == old(NodeAt(Target(p) + 1))
    {
      hide IndexOf, FirstMatch;
      ghost var k := Target(p);
      var saved := current;
      var found := FindItem(p);
      if found == null {
        return false;
      }
      assert p(Contents()[k]);
      RemoveCurrent(saved, k);
      return true;
    }

    // The current element goes. What was saved becomes the current one, unless it went too.
    method RemoveCurrent(saved: ListElement?<T>, ghost k: nat)
      requires Valid() && k < |Nodes| && current == Nodes[k]
      requires saved == null || saved in Nodes
      modifies this, Nodes`next, Nodes`prev
      ensures Valid()
      ensures Nodes == Without(old(Nodes), k)
      ensures Contents() == Without(old(Contents()), k)
      ensures current == if saved == old(current) then old(NodeAt(k + 1)) else saved
    {
      hide Linked, Without;
      Neighbours(k);
      var next := current.next;
      var deleted := saved == current;
      ghost var nodes, contents := Nodes, Contents();
      Kept(nodes, k, saved);
      Kept(nodes, k, next);
      Relink(k);
      current := if deleted then next else saved;
      ContentsWithout(nodes, contents, k);
    }

    lemma Neighbours(k: nat)
      requires Valid() && k < |Nodes|
      ensures Nodes[k].next == NodeAt(k + 1) && Nodes[k].prev == NodeAt(k - 1)
      ensures Nodes[k].next != Nodes[k]
    {
    }

    static lemma ContentsWithout(nodes: seq<ListElement<T>>, contents: seq<T>, k: nat)
      requires ContentsOf(nodes) == contents && k < |nodes|
      ensures ContentsOf(Without(nodes, k)) == Without(contents, k)
    {
    }

    // What is left out of the sequence is only its element k.
    static lemma Kept(nodes: seq<ListElement<T>>, k: nat, e: ListElement?<T>)
      requires k < |nodes|
      ensures e != null && e in nodes && e != nodes[k] ==> e in Without(nodes, k)
    {
      if e != null && e in nodes && e != nodes[k] {
        var i :| 0 <= i < |nodes| && nodes[i] == e;
        assert Without(nodes, k)[if i < k then i else i - 1] == e;
      }
    }

    // The neighbours of the current element are joined.
    method Relink(ghost k: nat)
      requires Valid() && k < |Nodes| && current == Nodes[k]
      modifies this`first, this`last, this`count, this`Nodes, Nodes`next, Nodes`prev
      ensures Linked(Nodes) && count == |Nodes|
      ensures first == NodeAt(0) && last == NodeAt(|Nodes| - 1)
      ensures Nodes == Without(old(Nodes), k)
    {
      ghost var nodes := Nodes;
      assert current.prev == NodeAt(k - 1) && current.next == NodeAt(k + 1);
      if current.prev == null {
        first := current.next;
      } else {
        current.prev.next := current.next;
      }
      if current.next == null {
        last := current.prev;
      } else {
        current.next.prev := current.prev;
      }
      count := count - 1;
      CutOut(nodes, k);
      hide Linked;
      Nodes := Without(nodes, k);
    }

    // The rest of a row of elements is linked when the neighbours of the one that goes are.
    static lemma CutOut(nodes: seq<ListElement<T>>, k: nat)
      requires k < |nodes| && forall i, j :: 0 <= i < j < |nodes| ==> nodes[i] != nodes[j]
      requires forall i {:trigger nodes[i].prev} :: 0 < i < |nodes| && i != k && i != k + 1 ==> nodes[i].prev == nodes[i - 1]
      requires forall i {:trigger nodes[i].next} ::
        0 <= i < |nodes| - 1 && i != k && i != k - 1 ==> nodes[i].next == nodes[i + 1]
      requires k + 1 < |nodes| ==> nodes[k + 1].prev == if k > 0 then nodes[k - 1] else null
      requires k > 0 ==> nodes[k - 1].next == if k + 1 < |nodes| then nodes[k + 1] else null
      requires k > 0 ==> nodes[0].prev == null
      requires k + 1 < |nodes| ==> nodes[|nodes| - 1].next == null
      ensures Linked(Without(nodes, k))
    {
      var n := Without(nodes, k);
      assert forall i :: 0 <= i < k ==> n[i] == nodes[i];
      assert forall i :: k <= i < |n| ==> n[i] == nodes[i + 1];
    }

    // The first element goes.
    method DetachHead() returns (content: seq<T>)
      requires Valid()
      modifies this, Nodes
      ensures Valid()
      ensures content == old(Contents()[..if |Nodes| == 0 then 0 else 1])
      ensures Contents() == old(Contents()[|content|..])
      ensures Nodes == old(Nodes[|content|..])
      ensures current == if old(current) == old(NodeAt(0)) then old(NodeAt(1)) else old(current)
    {
      content := [];
      if count > 0 {
        var e := first;
        assert e.next == NodeAt(1);
        if current == e {
          current := e.next;
        }
        if last == e {
          last := null;
        }
        content := [e.content];
        first := first.next;
        if first != null {
          first.prev := null;
        }
        count := count - 1;
        Nodes := Nodes[1..];
      }
    }

    // The last element goes. The current element moves back if it was the one.
    method PopTail() returns (content: seq<T>)
      requires Valid()
      modifies this, Nodes
      ensures Valid()
      ensures content == old(Contents()[if |Nodes| == 0 then 0 else |Nodes| - 1..])
      ensures Contents() == old(Contents()[..|Nodes| - |content|])
      ensures Nodes == old(Nodes[..|Nodes| - |content|])
      ensures current == if old(current) == old(NodeAt(|Nodes| - 1)) then old(NodeAt(|Nodes| - 2)) else old(current)
    {
      content := [];
      if count > 0 {
        var e := last;
        assert e.prev == NodeAt(|Nodes| - 2);
        if current == e {
          current := e.prev;
        }
        content := [e.content];
        hide Linked;
        DropLast();
      }
    }

    method DropLast()
      requires Valid() && |Nodes| > 0
      requires current == null || current in Nodes[..|Nodes| - 1]
      modifies this`first, this`last, this`count, this`Nodes, Nodes`next
      ensures Valid() && Nodes == old(Nodes)[..|old(Nodes)| - 1]
    {
      ghost var nodes, k := Nodes, |Nodes| - 1;
      assert last.prev == NodeAt(k - 1);
      if first == last {
        first := null;
      }
      last := last.prev;
      if last != null {
        last.next := null;
      }
      count := count - 1;
      CutOut(nodes, k);
      assert Without(nodes, k) == nodes[..k];
      hide Linked;
      Nodes := nodes[..k];
    }

    method Empty() returns (freed: seq<T>)
      requires Valid()
      modifies this
      ensures Valid() && Contents() == [] && current == null
      ensures freed == old(Contents())
    {
      freed := [];
      ghost var k := 0;
      while first != null
        invariant k <= |Nodes| && Linked(Nodes) && first == NodeAt(k) && Nodes == old(Nodes)
        invariant freed == Contents()[..k]
        decreases |Nodes| - k
      {
        var e := first;
        assert Contents()[k] == e.content;
        freed := freed + [e.content];
        first := e.next;
        k := k + 1;
      }
      count := 0;
      current, first, last := null, null, null;
      Nodes := [];
    }

    // What n calls of NextElement reach from null, and what n calls of PrevElement reach.
    ghost function Forward(n: nat): ListElement?<T>
      requires Valid()
      reads this, Nodes
      ensures n > |Nodes| || n == 0 ==> Forward(n) == null
      ensures 0 < n <= |Nodes| ==> Forward(n) == Nodes[n - 1]
    {
      if n == 0 then null
      else if n == 1 then first
      else if Forward(n - 1) == null then null
      else Forward(n - 1).next
    }

    ghost function Backward(n: nat): ListElement?<T>
      requires Valid()
      reads this, Nodes
      ensures n > |Nodes| || n == 0 ==> Backward(n) == null
      ensures 0 < n <= |Nodes| ==> Backward(n) == Nodes[|Nodes| - n]
    {
      if n == 0 then null
      else if n == 1 then last
      else if Backward(n - 1) == null then null
      else Backward(n - 1).prev
    }

    // Walking back meets the elements of walking forth in reverse order, and both walks end
    // after count elements.
    lemma BackwardReversesForward(n: nat)
      requires Valid() && 0 < n <= count
      ensures Backward(n) == Forward(count + 1 - n) != null
      ensures Forward(count + 1) == null == Backward(count + 1)
    {
    }
  }

  // ---------------------------------------------------------------------------------------
  // Pending writes

  datatype PendingWrite = PendingWrite(socket: int, publication: int)

  // The first k of all the writes are behind le: those not complete are still in the list.
  ghost predicate Walked(writes: List<PendingWrite>, all: seq<PendingWrite>, complete: PendingWrite -> bool, k: nat,
                         le: ListElement?<PendingWrite>)
    requires k <= |all|
    reads writes, writes.Nodes
  {
    var kept := Filter(all[..k], w => !complete(w));
    writes.Valid() && writes.Contents() == kept + all[k..] && le == writes.NodeAt(|kept|)
  }

  // The walk visits each pending write once, in order; those whose socket has nothing left to
  // write are cleaned up and leave the list, the others stay in order.
  method CheckPendingWrites(writes: List<PendingWrite>, complete: PendingWrite -> bool) returns (cleaned: seq<PendingWrite>)
    requires writes.Valid()
    modifies writes, writes.Nodes
    ensures writes.Valid()
    ensures writes.Contents() == Filter(old(writes.Contents()), w => !complete(w))
    ensures cleaned == Filter(old(writes.Contents()), complete)
  {
    hide Filter, List.Linked;
    cleaned := [];
    ghost var all := writes.Contents();
    ghost var k := 0;
    FilterNothing(w => !complete(w));
    FilterNothing(complete);
    assert all[..0] == [] && all[0..] == all;
    if writes.count > 0 {
      var le := writes.first;
      while le != null
        invariant k <= |all| && Walked(writes, all, complete, k, le)
        invariant forall i :: 0 <= i < |writes.Nodes| ==> writes.Nodes[i] in old(writes.Nodes)
        invariant cleaned == Filter(all[..k], complete)
        decreases |all| - k
      {
        FilterStep(all, k, complete);
        var removed;
        le, removed := Visit(writes, complete, all, k, le);
        cleaned := cleaned + removed;
        k := k + 1;
      }
    }
    assert all[..|all|] == all;
    assert all[k..] == [];
  }

  method Visit(writes: List<PendingWrite>, complete: PendingWrite -> bool, ghost all: seq<PendingWrite>, ghost k: nat,
               le: ListElement<PendingWrite>) returns (next: ListElement?<PendingWrite>, removed: seq<PendingWrite>)
    requires k < |all| && Walked(writes, all, complete, k, le)
    modifies writes, writes.Nodes
    ensures Walked(writes, all, complete, k + 1, next)
    ensures removed == if complete(all[k]) then [all[k]] else []
    ensures forall i :: 0 <= i < |writes.Nodes| ==> writes.Nodes[i] in old(writes.Nodes)
  {
    hide Filter, Without, List.Linked;
    ghost var kept := (w: PendingWrite) => !complete(w);
    ghost var j := |Filter(all[..k], kept)|;
    FilterStep(all, k, kept);
    DropOne(Filter(all[..k], kept), all, k);
    assert writes.Contents()[j] == all[k];
    if complete(le.content) {
      removed := [le.content];
      next := CleanUp(writes, le, j);
    } else {
      removed := [];
      List.Position(writes.Nodes, j);
      next := writes.NextElement(le);
    }
  }

  // A completed write leaves the list, which then stands at the element that followed.
  method CleanUp(writes: List<PendingWrite>, le: ListElement<PendingWrite>, ghost j: nat)
    returns (next: ListElement?<PendingWrite>)
    requires writes.Valid() && j < |writes.Nodes| && writes.Nodes[j] == le
    modifies writes, writes.Nodes
    ensures writes.Valid()
    ensures writes.Nodes == Without(old(writes.Nodes), j)
    ensures forall i :: 0 <= i < |writes.Nodes| ==> writes.Nodes[i] in old(writes.Nodes)
    ensures writes.Contents() == Without(old(writes.Contents()), j)
    ensures next == writes.NodeAt(j)
  {
    List.Position(writes.Nodes, j);
    WithoutKeeps(writes.Nodes, j);
    hide List.Linked, Without, IndexOf, FirstMatch;
    writes.current := le;
    var target := le.content;
    var same := (w: PendingWrite) => w == target;
    assert writes.Target(same) == j;
    assert writes.Contents()[j] == target;
    var removed := writes.Unlink(same);
    next := writes.current;
  }
}
